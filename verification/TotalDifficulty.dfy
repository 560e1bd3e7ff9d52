/**
 Stored total difficulties against the sum of difficulties along the parent path.
 */
module TotalDifficulty {
  import opened Options
  import opened Chain

  /** Total difficulties on disk, keyed by number and hash. */
  type TdTable = map<(nat, Hash), nat>

  function GetTd(td: TdTable, h: Hash, n: int): Option<nat> {
    if n >= 0 && (n, h) in td then Some(td[(n, h)]) else None
  }

  /** The reference: difficulties summed from `b` down to block 0. */
  ghost function PathSum(s: Store, b: Block): nat
    decreases b.number
  {
    b.difficulty + match Parent(s, b) case Some(p) => PathSum(s, p) case None => 0
  }

  /** A stored block has all its ancestors, and its total difficulty is on file. */
  ghost predicate Recorded(s: Store, td: TdTable, h: Hash) {
    h in s ==> Complete(s, s[h]) && (s[h].number, h) in td && td[(s[h].number, h)] == PathSum(s, s[h])
  }

  /** Every stored block is recorded, and the table holds nothing else. */
  ghost predicate Sound(s: Store, td: TdTable) {
    && WellFormed(s)
    && (forall h :: Recorded(s, td, h))
    && (forall k :: k in td ==> k.1 in s && s[k.1].number == k.0)
  }

  /** Every stored block descends from `genesis`. */
  ghost predicate Rooted(s: Store, genesis: Block) {
    && genesis.number == 0 && genesis.parent == ZERO
    && forall h :: RootedAt(s, genesis, h)
  }

  ghost predicate RootedAt(s: Store, genesis: Block, h: Hash) {
    h in s ==> AncestorAt(s, s[h], 0) == Some(genesis)
  }

  lemma {:induction false} PathSumMonotone(s: Store, s': Store, b: Block)
    requires Extends(s, s') && Complete(s, b)
    ensures PathSum(s', b) == PathSum(s, b)
    decreases b.number
  {
    if b.number != 0 {
      var p := Parent(s, b).value;
      assert Parent(s', b) == Some(p);
      PathSumMonotone(s, s', p);
    }
  }

  /** The lookup every writer does first: a difficulty on file means a stored block. */
  lemma TdMeansStored(s: Store, td: TdTable, h: Hash, n: int)
    requires Sound(s, td)
    ensures GetTd(td, h, n).Some? <==> Get(s, h, n).Some?
    ensures GetTd(td, h, n).Some? ==> GetTd(td, h, n).value == PathSum(s, s[h])
  {
    assert Recorded(s, td, h);
  }

  function WithTd(td: TdTable, b: Block, total: nat): TdTable {
    td[(b.number, b.hash) := total]
  }

  /** Writing one block on top of a stored parent keeps the table equal to the path sums. */
  lemma AddKeepsSound(s: Store, td: TdTable, b: Block)
    requires Sound(s, td) && b.hash != ZERO && Parent(s, b).Some?
    requires b.hash in s ==> s[b.hash] == b
    ensures Sound(s[b.hash := b], WithTd(td, b, PathSum(s, Parent(s, b).value) + b.difficulty))
    ensures PathSum(s[b.hash := b], b) == PathSum(s, Parent(s, b).value) + b.difficulty
  {
    var s' := s[b.hash := b];
    var p := Parent(s, b).value;
    var td' := WithTd(td, b, PathSum(s, p) + b.difficulty);
    assert Recorded(s, td, p.hash);
    CompleteMonotone(s, s', p);
    PathSumMonotone(s, s', p);
    assert Parent(s', b) == Some(p);
    forall h ensures Recorded(s', td', h) {
      assert Recorded(s, td, h);
      if h in s && h != b.hash {
        CompleteMonotone(s, s', s[h]);
        PathSumMonotone(s, s', s[h]);
      }
    }
  }

  /** Writing a known block again changes nothing. */
  lemma RewriteKnown(s: Store, td: TdTable, b: Block)
    requires Sound(s, td) && Parent(s, b).Some? && (b.hash in s ==> s[b.hash] == b)
    ensures b.hash in s ==> WithTd(td, b, PathSum(s, Parent(s, b).value) + b.difficulty) == td
  {
    assert Recorded(s, td, b.hash);
  }

  lemma AddKeepsRooted(s: Store, b: Block, genesis: Block)
    requires Rooted(s, genesis) && Parent(s, b).Some?
    requires b.hash in s ==> s[b.hash] == b
    ensures Rooted(s[b.hash := b], genesis)
  {
    var s' := s[b.hash := b];
    var p := Parent(s, b).value;
    assert RootedAt(s, genesis, b.parent);
    AncestorMonotone(s, s', p, 0);
    assert Parent(s', b) == Some(p);
    forall h ensures RootedAt(s', genesis, h) {
      assert RootedAt(s, genesis, h);
      if h in s { AncestorMonotone(s, s', s[h], 0); }
    }
  }
}
