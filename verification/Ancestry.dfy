/**
 Two accelerated ancestor lookups against the naive parent walk: the header chain's `GetAncestor`,
 which jumps through the canonical index, and the EVM's block-hash closure, which caches its walk.
 */
module Ancestry {
  import opened Options
  import opened Chain

  /** The reference: `k` naive parent steps from the header `h` at height `n`. */
  ghost function Nth(s: Store, h: Hash, n: int, k: nat): Option<Hash>
    decreases k
  {
    if k == 0 then Some(h)
    else match Get(s, h, n)
      case Some(b) => Nth(s, b.parent, n - 1, k - 1)
      case None => None
  }

  /** Headers above block 0 name a parent. */
  ghost predicate ParentsNamed(s: Store) {
    forall h :: h in s && s[h].number > 0 ==> s[h].parent != ZERO
  }

  lemma {:induction false} NthStep(s: Store, h: Hash, n: int, k: nat)
    requires Nth(s, h, n, k).Some?
    ensures Nth(s, h, n, k + 1) ==
      match Get(s, Nth(s, h, n, k).value, n - k) case Some(b) => Some(b.parent) case None => None
    decreases k
  {
    if k > 0 { NthStep(s, Get(s, h, n).value.parent, n - 1, k - 1); }
  }

  lemma {:induction false} NthPrefix(s: Store, h: Hash, n: int, j: nat, k: nat)
    requires j <= k && Nth(s, h, n, k).Some?
    ensures Nth(s, h, n, j).Some?
    ensures Nth(s, h, n, k) == Nth(s, Nth(s, h, n, j).value, n - j, k - j)
    decreases j
  {
    if j > 0 { NthPrefix(s, Get(s, h, n).value.parent, n - 1, j - 1, k - 1); }
  }

  lemma {:induction false} NthMonotone(s: Store, s': Store, h: Hash, n: int, k: nat)
    requires Extends(s, s') && Nth(s, h, n, k).Some?
    ensures Nth(s', h, n, k) == Nth(s, h, n, k)
    decreases k
  {
    if k > 0 { NthMonotone(s, s', Get(s, h, n).value.parent, n - 1, k - 1); }
  }

  /** Naive steps from a stored header follow its path. */
  lemma {:induction false} NthIsPath(s: Store, b: Block, k: nat)
    requires WellFormed(s) && Stored(s, b) && k <= b.number && AncestorAt(s, b, b.number - k).Some?
    ensures Nth(s, b.hash, b.number, k) == Some(HashAt(s, b, b.number - k))
    decreases k
  {
    if k > 0 { NthIsPath(s, Parent(s, b).value, k - 1); }
  }

  /** On the canonical path, `k` naive steps are one index lookup. */
  lemma CanonicalJump(s: Store, canon: Index, head: Block, h: Hash, n: nat, k: nat)
    requires WellFormed(s) && Stored(s, head) && Complete(s, head) && IndexIsPath(canon, s, head)
    requires h != ZERO && Read(canon, n) == h && k <= n
    ensures n <= head.number && Read(canon, n - k) != ZERO
    ensures Nth(s, h, n, k) == Some(Read(canon, n - k))
  {
    assert Read(canon, n) == HashAt(s, head, n);
    assert Read(canon, n - k) == HashAt(s, head, n - k);
    var a := AncestorAt(s, head, n).value;
    CompleteReaches(s, head, n - k);
    AncestorCompose(s, head, n, n - k);
    if n < head.number { AncestorStored(s, head, n); }
    if n - k < head.number { AncestorStored(s, head, n - k); }
    NthIsPath(s, a, k);
  }

  /** After `j` naive steps the walk has arrived, or stands on the canonical chain. */
  ghost predicate Arrives(s: Store, canon: Index, hash: Hash, number: nat, ancestor: nat, j: nat) {
    && j <= ancestor <= number
    && Nth(s, hash, number, j).Some?
    && (j == ancestor || Read(canon, number - j) == Nth(s, hash, number, j).value)
  }

  /** Retrieves the `ancestor`-th ancestor of a header, checking at most `maxNonCanonical` headers one
      by one before jumping through the canonical index.  For a genuine hash every non-zero answer is
      the naive one, and it is found exactly when the walk arrives within the budget.  The zero hash
      is mistaken for a canonical entry above the head.  What is left of the budget, which callers
      share between calls, is smaller by the number of steps: up to the first arrival, to a missing
      header, or to the end of the budget. */
  method GetAncestor(
      s: Store, canon: Index, ghost head: Block, hash: Hash, number: nat, ancestor: nat, maxNonCanonical: nat)
      returns (r: Hash, rNumber: nat, budget: nat)
    requires WellFormed(s) && ParentsNamed(s)
    requires Stored(s, head) && Complete(s, head) && IndexIsPath(canon, s, head)
    ensures budget <= maxNonCanonical
    ensures hash != ZERO && r != ZERO ==> ancestor <= number && rNumber == number - ancestor
                                          && Nth(s, hash, number, ancestor) == Some(r)
    ensures hash != ZERO && ancestor == 1 ==> (r != ZERO <==> number > 0 && Get(s, hash, number).Some?)
    ensures hash != ZERO && ancestor != 1 ==>
              (r != ZERO <==> exists j: nat :: j <= maxNonCanonical && Arrives(s, canon, hash, number, ancestor, j))
    ensures hash == ZERO ==>
              (r != ZERO <==> 2 <= ancestor <= number && head.number < number && number - ancestor <= head.number)
    ensures hash == ZERO && r != ZERO ==> r == HashAt(s, head, number - ancestor) && rNumber == number - ancestor
    ensures ancestor > number || ancestor <= 1 ==> budget == maxNonCanonical
    ensures hash == ZERO && 2 <= ancestor <= number ==>
              maxNonCanonical - budget == if head.number < number || maxNonCanonical == 0 then 0 else 1
    ensures hash != ZERO && 2 <= ancestor <= number && r != ZERO ==>
              && Arrives(s, canon, hash, number, ancestor, maxNonCanonical - budget)
              && forall j: nat :: j < maxNonCanonical - budget ==> !Arrives(s, canon, hash, number, ancestor, j)
    ensures hash != ZERO && 2 <= ancestor <= number && r == ZERO ==>
              if Nth(s, hash, number, maxNonCanonical - budget).Some? then budget == 0
              else budget < maxNonCanonical && Nth(s, hash, number, maxNonCanonical - budget - 1).Some?
  {
    budget := maxNonCanonical;
    if ancestor > number { return ZERO, 0, budget; }
    if ancestor == 1 {
      var header := Get(s, hash, number);
      if header.Some? { return header.value.parent, number - 1, budget; }
      return ZERO, 0, budget;
    }
    var h: Hash, n: nat, left: nat := hash, number, ancestor;
    while left != 0
      invariant left <= ancestor && n == number - (ancestor - left)
      invariant budget == maxNonCanonical - (ancestor - left)
      invariant Nth(s, hash, number, ancestor - left) == Some(h)
      invariant hash != ZERO ==> h != ZERO
      invariant hash == ZERO ==> left == ancestor
      invariant hash != ZERO ==> forall j: nat :: j < ancestor - left ==> !Arrives(s, canon, hash, number, ancestor, j)
    {
      ghost var j := ancestor - left;
      assert Read(canon, n) == HashAt(s, head, n) && Read(canon, n - left) == HashAt(s, head, n - left);
      if Read(canon, n) == h {
        if h != ZERO {
          CanonicalJump(s, canon, head, h, n, left);
          NthSplit(s, hash, number, j, left);
          assert Arrives(s, canon, hash, number, ancestor, j);
        } else {
          PathZeroIff(s, head, n);
          PathZeroIff(s, head, n - left);
        }
        return Read(canon, n - left), n - left, budget;
      }
      if hash == ZERO { PathZeroIff(s, head, n); }
      if budget == 0 {
        return ZERO, 0, budget;
      }
      budget, left := budget - 1, left - 1;
      NthStep(s, hash, number, j);
      var header := Get(s, h, n);
      if header.None? {
        forall k: nat | j < k ensures !Arrives(s, canon, hash, number, ancestor, k) {
          if Nth(s, hash, number, k).Some? { NthPrefix(s, hash, number, j + 1, k); }
        }
        return ZERO, 0, budget;
      }
      h, n := header.value.parent, n - 1;
    }
    assert Arrives(s, canon, hash, number, ancestor, ancestor);
    return h, n, budget;
  }

  /** Asked for the second ancestor of the zero hash at height 2, a chain of genesis alone answers with
      genesis, although no header of that hash is stored. */
  method ZeroHashAnswered() returns (s: Store, canon: Index, head: Block, r: Hash)
    ensures WellFormed(s) && ParentsNamed(s) && Stored(s, head) && Complete(s, head) && IndexIsPath(canon, s, head)
    ensures Nth(s, ZERO, 2, 2).None? && r == head.hash != ZERO
  {
    head := Block(1, ZERO, 0, 1, 0, 0, []);
    s, canon := map[1 := head], map[0 := 1];
    var number, budget;
    r, number, budget := GetAncestor(s, canon, head, ZERO, 2, 2, 0);
  }

  lemma {:induction false} NthSplit(s: Store, h: Hash, n: int, j: nat, k: nat)
    requires Nth(s, h, n, j).Some?
    ensures Nth(s, h, n, j + k) == Nth(s, Nth(s, h, n, j).value, n - j, k)
    decreases j
  {
    if j > 0 { NthSplit(s, Get(s, h, n).value.parent, n - 1, j - 1, k); }
  }

  lemma PathZeroIff(s: Store, head: Block, n: nat)
    requires WellFormed(s) && Stored(s, head) && Complete(s, head)
    ensures HashAt(s, head, n) == ZERO <==> head.number < n
  {
    if n <= head.number {
      CompleteReaches(s, head, n);
      if n < head.number { AncestorStored(s, head, n); }
    }
  }

  // ----- the block-hash closure -----

  /** What an uncached walk from `ref` would answer for block number `n`. */
  ghost function Uncached(s: Store, ref: Block, n: nat): Hash {
    if ref.number <= n then ZERO
    else match Nth(s, ref.parent, ref.number - 1, ref.number - 1 - n)
      case Some(h) => h
      case None => ZERO
  }

  class HashFn {
    const ref: Block
    var cache: seq<Hash>

    /** `cache[i]` is the hash of the (i+1)-th ancestor of `ref`. */
    ghost predicate Valid(s: Store)
      reads this
    {
      && |cache| <= ref.number
      && forall i :: 0 <= i < |cache| ==> Nth(s, ref.parent, ref.number - 1, i) == Some(cache[i])
    }

    constructor (ref: Block)
      ensures this.ref == ref && cache == []
    {
      this.ref := ref;
      cache := [];
    }

    /** Answers exactly as the uncached walk and keeps the cache truthful, also when the walk stops at
        a missing header. */
    method Query(s: Store, n: nat) returns (h: Hash)
      requires Valid(s)
      modifies this
      ensures Valid(s) && old(cache) <= cache
      ensures h == Uncached(s, ref, n)
    {
      if ref.number <= n { return ZERO; }
      if |cache| == 0 { cache := [ref.parent]; }
      if ref.number - n - 1 < |cache| { return cache[ref.number - n - 1]; }
      var lastHash, lastNumber := cache[|cache| - 1], ref.number - |cache|;
      while true
        invariant Valid(s) && old(cache) <= cache && |cache| > 0
        invariant lastHash == cache[|cache| - 1] && lastNumber == ref.number - |cache|
        invariant n < lastNumber
        decreases lastNumber
      {
        ghost var k := |cache| - 1;
        NthStep(s, ref.parent, ref.number - 1, k);
        var header := Get(s, lastHash, lastNumber);
        if header.None? {
          if Nth(s, ref.parent, ref.number - 1, ref.number - 1 - n).Some? {
            NthPrefix(s, ref.parent, ref.number - 1, k + 1, ref.number - 1 - n);
          }
          return ZERO;
        }
        cache := cache + [header.value.parent];
        lastHash, lastNumber := header.value.parent, header.value.number - 1;
        if n == lastNumber { return lastHash; }
      }
    }

    /** Any sequence of queries, in any order, while the chain only gains headers. */
    method Session(stores: seq<Store>, queries: seq<nat>) returns (answers: seq<Hash>)
      requires |stores| == |queries|
      requires forall i, j :: 0 <= i < j < |stores| ==> Extends(stores[i], stores[j])
      requires |stores| > 0 ==> Valid(stores[0])
      modifies this
      ensures |answers| == |queries|
      ensures forall i :: 0 <= i < |queries| ==> answers[i] == Uncached(stores[i], ref, queries[i])
    {
      answers := [];
      for i := 0 to |queries|
        invariant |answers| == i
        invariant forall j :: 0 <= j < i ==> answers[j] == Uncached(stores[j], ref, queries[j])
        invariant 0 < i ==> Valid(stores[i - 1])
        invariant i == 0 && |stores| > 0 ==> Valid(stores[0])
      {
        if i > 0 { StaysValid(stores[i - 1], stores[i]); }
        var h := Query(stores[i], queries[i]);
        answers := answers + [h];
      }
    }

    lemma StaysValid(s: Store, s': Store)
      requires Valid(s) && Extends(s, s')
      ensures Valid(s')
    {
      forall i | 0 <= i < |cache| ensures Nth(s', ref.parent, ref.number - 1, i) == Some(cache[i]) {
        assert Nth(s, ref.parent, ref.number - 1, i) == Some(cache[i]);
        NthMonotone(s, s', ref.parent, ref.number - 1, i);
      }
    }
  }
}
