/**
 The block tree that every other module walks.

 A hash identifies a block, so the store is a map from hash to block; the all-zero hash
 is never stored.  The database keys a block by (number, hash), hence a lookup succeeds
 only when both agree.  The simple specification of the whole chain-maintenance code is
 the parent path of a block, given here by `AncestorAt` and `HashAt`.
 */
module Chain {
  import opened Options

  type Hash = nat
  type TxHash = nat

  /** The all-zero hash, which the database accessors return for "absent". */
  const ZERO: Hash := 0

  datatype Block = Block(
    hash: Hash, parent: Hash, number: nat, difficulty: nat, time: nat, root: Hash, txs: seq<TxHash>)

  type Store = map<Hash, Block>

  /** The canonical index: block number to hash. */
  type Index = map<nat, Hash>

  predicate WellFormed(s: Store) {
    forall h :: h in s ==> h != ZERO && s[h].hash == h
  }

  /** Reads a block by hash and number; `n` is -1 when a caller steps below block 0. */
  function Get(s: Store, h: Hash, n: int): (r: Option<Block>)
    ensures r.Some? ==> r.value.number == n && h in s && r.value == s[h]
    ensures r.Some? <==> h in s && s[h].number == n
  {
    if h in s && s[h].number == n then Some(s[h]) else None
  }

  function Parent(s: Store, b: Block): (r: Option<Block>)
    ensures r.Some? ==> r.value.number == b.number - 1
  {
    Get(s, b.parent, b.number - 1)
  }

  /** The block at height `n` on the parent path of `b`. */
  ghost function AncestorAt(s: Store, b: Block, n: nat): (r: Option<Block>)
    ensures r.Some? ==> r.value.number == n <= b.number
    decreases b.number
  {
    if b.number == n then Some(b)
    else if b.number < n then None
    else match Parent(s, b)
      case Some(p) => AncestorAt(s, p, n)
      case None => None
  }

  ghost function HashAt(s: Store, b: Block, n: nat): Hash {
    match AncestorAt(s, b, n)
    case Some(a) => a.hash
    case None => ZERO
  }

  /** The parent path of `b` is stored all the way down to block 0. */
  ghost predicate Complete(s: Store, b: Block)
    decreases b.number
  {
    b.number == 0 || (Parent(s, b).Some? && Complete(s, Parent(s, b).value))
  }

  ghost predicate Stored(s: Store, b: Block) {
    b.hash in s && s[b.hash] == b
  }

  function Read(index: Index, n: nat): Hash {
    if n in index then index[n] else ZERO
  }

  /** The index holds the path of `b` and nothing else. */
  ghost predicate IndexIsPath(index: Index, s: Store, b: Block) {
    forall n: nat :: Read(index, n) == HashAt(s, b, n)
  }

  ghost predicate Extends(s: Store, s': Store) {
    forall h :: h in s ==> h in s' && s'[h] == s[h]
  }

  // ----- lemmas about paths -----

  lemma {:induction false} CompleteReaches(s: Store, b: Block, n: nat)
    requires Complete(s, b) && n <= b.number
    ensures AncestorAt(s, b, n).Some?
    ensures Complete(s, AncestorAt(s, b, n).value)
    decreases b.number
  {
    if b.number != n { CompleteReaches(s, Parent(s, b).value, n); }
  }

  /** Walking to height `m` and on to `n` is walking to `n`. */
  lemma {:induction false} AncestorCompose(s: Store, b: Block, m: nat, n: nat)
    requires n <= m && AncestorAt(s, b, m).Some?
    ensures AncestorAt(s, b, n) == AncestorAt(s, AncestorAt(s, b, m).value, n)
    decreases b.number
  {
    if b.number != m { AncestorCompose(s, Parent(s, b).value, m, n); }
  }

  /** A path that reaches a height passes every height above it. */
  lemma {:induction false} PathDown(s: Store, b: Block, m: nat, n: nat)
    requires n <= m <= b.number && AncestorAt(s, b, n).Some?
    ensures AncestorAt(s, b, m).Some?
    decreases b.number
  {
    if b.number != m { PathDown(s, Parent(s, b).value, m, n); }
  }

  /** One step further down a path. */
  lemma AncestorStep(s: Store, b: Block, m: nat)
    requires 0 < m && AncestorAt(s, b, m).Some?
    ensures AncestorAt(s, b, m - 1) == Parent(s, AncestorAt(s, b, m).value)
  {
    AncestorCompose(s, b, m, m - 1);
  }

  lemma {:induction false} AncestorStored(s: Store, b: Block, n: nat)
    requires WellFormed(s) && AncestorAt(s, b, n).Some? && n < b.number
    ensures Stored(s, AncestorAt(s, b, n).value)
    decreases b.number
  {
    if n < b.number - 1 { AncestorStored(s, Parent(s, b).value, n); }
  }

  lemma {:induction false} ReachesIsComplete(s: Store, b: Block)
    requires AncestorAt(s, b, 0).Some?
    ensures Complete(s, b)
    decreases b.number
  {
    if b.number != 0 { ReachesIsComplete(s, Parent(s, b).value); }
  }

  /** A path that is stored stays the same when more blocks are stored. */
  lemma {:induction false} AncestorMonotone(s: Store, s': Store, b: Block, n: nat)
    requires Extends(s, s') && AncestorAt(s, b, n).Some?
    ensures AncestorAt(s', b, n) == AncestorAt(s, b, n)
    decreases b.number
  {
    if b.number != n { AncestorMonotone(s, s', Parent(s, b).value, n); }
  }

  lemma {:induction false} CompleteMonotone(s: Store, s': Store, b: Block)
    requires Extends(s, s') && Complete(s, b)
    ensures Complete(s', b)
    decreases b.number
  {
    if b.number != 0 { CompleteMonotone(s, s', Parent(s, b).value); }
  }

  /** An index equal to a complete path stays so when more blocks are stored. */
  lemma IndexMonotone(index: Index, s: Store, s': Store, b: Block)
    requires Extends(s, s') && Complete(s, b) && IndexIsPath(index, s, b)
    ensures IndexIsPath(index, s', b)
  {
    forall n: nat ensures Read(index, n) == HashAt(s', b, n) {
      if n <= b.number {
        CompleteReaches(s, b, n);
        AncestorMonotone(s, s', b, n);
      }
    }
  }

  /** Two complete paths that agree at one height agree at every lower one. */
  lemma PathsAgreeBelow(s: Store, a: Block, b: Block, m: nat, n: nat)
    requires n <= m
    requires AncestorAt(s, a, m).Some? && AncestorAt(s, a, m) == AncestorAt(s, b, m)
    ensures AncestorAt(s, a, n) == AncestorAt(s, b, n)
  {
    AncestorCompose(s, a, m, n);
    AncestorCompose(s, b, m, n);
  }

  /** Distinct blocks of a store have distinct hashes, so equal path hashes are equal blocks. */
  lemma SameHashSameBlock(s: Store, a: Block, b: Block, n: nat)
    requires WellFormed(s) && Stored(s, a) && Stored(s, b)
    requires AncestorAt(s, a, n).Some? && AncestorAt(s, b, n).Some? && HashAt(s, a, n) == HashAt(s, b, n)
    ensures AncestorAt(s, a, n) == AncestorAt(s, b, n)
  {
    if n < a.number { AncestorStored(s, a, n); }
    if n < b.number { AncestorStored(s, b, n); }
  }
}
