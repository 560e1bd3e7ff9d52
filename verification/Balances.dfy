/** Account balances and their total. */
module Balances {
  type Address = nat

  type Balances = map<Address, int>

  function Balance(b: Balances, a: Address): int {
    if a in b then b[a] else 0
  }

  /** Adds an amount, possibly negative, to an account, creating it if needed. */
  function Credit(b: Balances, a: Address, amount: int): Balances {
    b[a := Balance(b, a) + amount]
  }

  predicate NonNegative(b: Balances) {
    forall a :: a in b ==> b[a] >= 0
  }

  ghost function Pick(s: set<Address>): Address
    requires s != {}
  {
    var a :| a in s; a
  }

  /** The sum of all balances. */
  ghost function Total(b: Balances): int
    decreases b.Keys
  {
    if b.Keys == {} then 0
    else
      var a := Pick(b.Keys);
      assert a in b.Keys;
      b[a] + Total(b - {a})
  }

  /** The sum does not depend on the order of summation. */
  lemma {:induction false} TotalRemove(b: Balances, a: Address)
    requires a in b
    ensures Total(b) == b[a] + Total(b - {a})
    decreases b.Keys
  {
    var c := Pick(b.Keys);
    assert a in b.Keys && c in b.Keys;
    assert Total(b) == b[c] + Total(b - {c});
    if c != a {
      TotalRemove(b - {c}, a);
      TotalRemove(b - {a}, c);
      assert b - {c} - {a} == b - {a} - {c};
    }
  }

  lemma CreditTotal(b: Balances, a: Address, amount: int)
    ensures Total(Credit(b, a, amount)) == Total(b) + amount
  {
    var b' := Credit(b, a, amount);
    TotalRemove(b', a);
    if a in b {
      TotalRemove(b, a);
      assert b' - {a} == b - {a};
    } else {
      assert b' - {a} == b;
    }
  }

  /** A transfer moves value without creating or destroying any. */
  function Transfer(b: Balances, sender: Address, recipient: Address, amount: nat): Balances {
    Credit(Credit(b, sender, 0 - amount), recipient, amount)
  }

  lemma TransferConserves(b: Balances, sender: Address, recipient: Address, amount: nat)
    requires Balance(b, sender) >= amount
    ensures Total(Transfer(b, sender, recipient, amount)) == Total(b)
    ensures NonNegative(b) ==> NonNegative(Transfer(b, sender, recipient, amount))
    ensures sender != recipient ==>
      && Balance(Transfer(b, sender, recipient, amount), sender) == Balance(b, sender) - amount
      && Balance(Transfer(b, sender, recipient, amount), recipient) == Balance(b, recipient) + amount
  {
    CreditTotal(b, sender, 0 - amount);
    CreditTotal(Credit(b, sender, 0 - amount), recipient, amount);
  }

  lemma TransferAt(b: Balances, sender: Address, recipient: Address, amount: nat, a: Address)
    ensures Balance(Transfer(b, sender, recipient, amount), a)
      == Balance(b, a) - (if a == sender then amount else 0) + if a == recipient then amount else 0
  {
  }

  /** The accounts of a set. */
  function Part(b: Balances, s: set<Address>): Balances {
    map a | a in b && a in s :: b[a]
  }

  /** What the accounts of a set hold together. */
  ghost function Held(b: Balances, s: set<Address>): int {
    Total(Part(b, s))
  }

  lemma {:induction false} HeldByOne(b: Balances, a: Address)
    ensures Held(b, {a}) == Balance(b, a)
  {
    if a in b {
      TotalRemove(Part(b, {a}), a);
      assert Part(b, {a}) - {a} == map[];
    } else {
      assert Part(b, {a}) == map[];
    }
  }

  /** Removing accounts takes what they hold from the total. */
  lemma {:induction false} RemoveTotal(b: Balances, s: set<Address>)
    ensures Total(b - s) == Total(b) - Held(b, s)
    ensures NonNegative(b) ==> Held(b, s) >= 0 && NonNegative(b - s)
    decreases s
  {
    if a :| a in Part(b, s) {
      RemoveTotal(b - {a}, s - {a});
      TotalRemove(b, a);
      TotalRemove(Part(b, s), a);
      assert Part(b, s) - {a} == Part(b - {a}, s - {a});
      assert b - {a} - (s - {a}) == b - s;
    } else {
      assert forall a :: a in b && a in s ==> a in Part(b, s);
      assert Part(b, s) == map[] && b - s == b;
    }
  }

  /** Accounts that hold nothing together hold nothing each. */
  lemma {:induction false} HeldNothingIff(b: Balances, s: set<Address>)
    requires NonNegative(b)
    ensures Held(b, s) == 0 <==> forall a :: a in s ==> Balance(b, a) == 0
    decreases s
  {
    if a :| a in Part(b, s) {
      HeldNothingIff(b, s - {a});
      RemoveTotal(b, s - {a});
      TotalRemove(Part(b, s), a);
      assert Part(b, s) - {a} == Part(b, s - {a});
      assert s == s - {a} + {a};
    } else {
      assert forall a :: a in b && a in s ==> a in Part(b, s);
      assert Part(b, s) == map[];
    }
  }
}
