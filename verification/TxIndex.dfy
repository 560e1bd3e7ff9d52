/**
 The transaction lookup index (transaction hash to block number) against the transactions that
 the canonical path really contains.
 */
module TxIndex {
  import opened Options
  import opened Chain

  type Lookup = map<TxHash, nat>

  function TxSet(b: Block): set<TxHash> { set t | t in b.txs }

  predicate Looks(lookup: Lookup, t: TxHash, n: nat) { t in lookup && lookup[t] == n }

  /** Transaction `t` is in the block at height `n` on the path of `b`. */
  ghost predicate TxAt(s: Store, b: Block, t: TxHash, n: nat) {
    AncestorAt(s, b, n).Some? && t in AncestorAt(s, b, n).value.txs
  }

  /** The index maps `t` to `n` exactly when `t` is in canonical block `n`. */
  ghost predicate Indexed(lookup: Lookup, s: Store, b: Block) {
    forall t: TxHash, n: nat :: Looks(lookup, t, n) <==> TxAt(s, b, t, n)
  }

  /** No transaction is repeated along the path of `b`. */
  ghost predicate Unique(s: Store, b: Block) {
    forall t: TxHash, n: nat, m: nat :: TxAt(s, b, t, n) && TxAt(s, b, t, m) ==> n == m
  }

  /** `t` is in some block strictly between heights `lo` and `hi`. */
  ghost predicate TxBetween(s: Store, b: Block, t: TxHash, lo: nat, hi: nat) {
    exists n: nat :: lo < n < hi && TxAt(s, b, t, n)
  }

  /** What the head batch does to the lookup table. */
  function WriteEntries(lookup: Lookup, b: Block): Lookup {
    lookup + map t | t in b.txs :: b.number
  }

  /** An index in that sense exists only for paths without repeated transactions. */
  lemma IndexedOnlyIfUnique(lookup: Lookup, s: Store, b: Block)
    requires Indexed(lookup, s, b)
    ensures Unique(s, b)
  {
    forall t: TxHash, n: nat, m: nat | TxAt(s, b, t, n) && TxAt(s, b, t, m) ensures n == m {
      assert Looks(lookup, t, n) && Looks(lookup, t, m);
    }
  }

  /** Two blocks that hold the same transaction: no lookup table is exact for the second. */
  lemma RepeatedTransaction() returns (s: Store, head: Block)
    ensures WellFormed(s) && Stored(s, head) && Complete(s, head) && forall lookup :: !Indexed(lookup, s, head)
  {
    var genesis := Block(1, ZERO, 0, 1, 0, 0, []);
    var b := Block(2, 1, 1, 1, 0, 0, [9]);
    head := Block(3, 2, 2, 1, 0, 0, [9]);
    s := map[1 := genesis, 2 := b, 3 := head];
    assert Parent(s, head) == Some(b) && Parent(s, b) == Some(genesis);
    assert TxAt(s, head, 9, 1) && TxAt(s, head, 9, 2);
    forall lookup ensures !Indexed(lookup, s, head) {
      if Indexed(lookup, s, head) { IndexedOnlyIfUnique(lookup, s, head); }
    }
  }

  lemma IndexedMonotone(lookup: Lookup, s: Store, s': Store, b: Block)
    requires Extends(s, s') && Complete(s, b) && Indexed(lookup, s, b)
    ensures Indexed(lookup, s', b)
  {
    forall t: TxHash, n: nat ensures Looks(lookup, t, n) <==> TxAt(s', b, t, n) {
      if n <= b.number {
        CompleteReaches(s, b, n);
        AncestorMonotone(s, s', b, n);
      }
      assert Looks(lookup, t, n) <==> TxAt(s, b, t, n);
    }
  }

  /** The table while the new side of a fork is being written: the blocks of `b` strictly between
      `lo` and `hi` have been written over `before`. */
  ghost predicate Overlaid(lookup: Lookup, before: Lookup, s: Store, b: Block, lo: nat, hi: nat) {
    forall t: TxHash, n: nat :: Looks(lookup, t, n) <==>
      if TxBetween(s, b, t, lo, hi) then lo < n < hi && TxAt(s, b, t, n) else Looks(before, t, n)
  }

  /** Before anything is written the overlay is the table itself. */
  lemma NothingBetween(lookup: Lookup, s: Store, b: Block, lo: nat)
    ensures forall t, hi: nat :: hi <= lo + 1 ==> !TxBetween(s, b, t, lo, hi)
    ensures forall hi: nat :: hi <= lo + 1 ==> Overlaid(lookup, lookup, s, b, lo, hi)
  {
  }

  lemma BetweenStep(s: Store, b: Block, t: TxHash, lo: nat, hi: nat)
    requires lo < hi
    ensures TxBetween(s, b, t, lo, hi + 1) <==> TxBetween(s, b, t, lo, hi) || TxAt(s, b, t, hi)
  {
    if TxBetween(s, b, t, lo, hi) {
      var n: nat :| lo < n < hi && TxAt(s, b, t, n);
      assert lo < n < hi + 1 && TxAt(s, b, t, n);
    }
    if TxAt(s, b, t, hi) { assert lo < hi < hi + 1 && TxAt(s, b, t, hi); }
  }

  /** Writing the next block up extends the overlay by one height. */
  lemma OverlayStep(lookup: Lookup, before: Lookup, s: Store, b: Block, lo: nat, hi: nat)
    requires lo < hi && Unique(s, b) && AncestorAt(s, b, hi).Some?
    requires Overlaid(lookup, before, s, b, lo, hi)
    ensures Overlaid(WriteEntries(lookup, AncestorAt(s, b, hi).value), before, s, b, lo, hi + 1)
  {
    var a := AncestorAt(s, b, hi).value;
    var lookup' := WriteEntries(lookup, a);
    forall t: TxHash, n: nat
      ensures Looks(lookup', t, n) <==>
        if TxBetween(s, b, t, lo, hi + 1) then lo < n < hi + 1 && TxAt(s, b, t, n) else Looks(before, t, n)
    {
      BetweenStep(s, b, t, lo, hi);
      assert Looks(lookup, t, n) <==>
        if TxBetween(s, b, t, lo, hi) then lo < n < hi && TxAt(s, b, t, n) else Looks(before, t, n);
      if TxAt(s, b, t, hi) {
        assert t in a.txs && Looks(lookup', t, n) == (n == hi);
      } else {
        assert t !in a.txs && Looks(lookup', t, n) == Looks(lookup, t, n);
      }
    }
  }

  /** The heart of the reorg: dropping the transactions that are only on the old side and then
      writing those of the new head turns the old index into the index of the new path. */
  lemma ReorgIndexes(
      before: Lookup, overlay: Lookup, s: Store, oldHead: Block, newHead: Block, c: nat,
      deleted: set<TxHash>, added: set<TxHash>)
    requires Indexed(before, s, oldHead) && Unique(s, newHead)
    requires c <= oldHead.number && c <= newHead.number
    requires AncestorAt(s, oldHead, c).Some? && AncestorAt(s, oldHead, c) == AncestorAt(s, newHead, c)
    requires Overlaid(overlay, before, s, newHead, c, newHead.number)
    requires forall t :: t in deleted <==> TxBetween(s, oldHead, t, c, oldHead.number + 1)
    requires forall t :: t in added <==> TxBetween(s, newHead, t, c, newHead.number)
    ensures Indexed(WriteEntries(overlay - (deleted - added), newHead), s, newHead)
  {
    var final := WriteEntries(overlay - (deleted - added), newHead);
    forall t: TxHash, n: nat ensures Looks(final, t, n) <==> TxAt(s, newHead, t, n) {
      ReorgIndexesOne(before, overlay, s, oldHead, newHead, c, deleted, added, t, n);
    }
  }

  lemma ReorgIndexesOne(
      before: Lookup, overlay: Lookup, s: Store, oldHead: Block, newHead: Block, c: nat,
      deleted: set<TxHash>, added: set<TxHash>, t: TxHash, n: nat)
    requires Indexed(before, s, oldHead) && Unique(s, newHead)
    requires c <= oldHead.number && c <= newHead.number
    requires AncestorAt(s, oldHead, c).Some? && AncestorAt(s, oldHead, c) == AncestorAt(s, newHead, c)
    requires Overlaid(overlay, before, s, newHead, c, newHead.number)
    requires t in deleted <==> TxBetween(s, oldHead, t, c, oldHead.number + 1)
    requires t in added <==> TxBetween(s, newHead, t, c, newHead.number)
    ensures Looks(WriteEntries(overlay - (deleted - added), newHead), t, n) <==> TxAt(s, newHead, t, n)
  {
    if TxAt(s, newHead, t, newHead.number) {
      // In the new head: written last, and nowhere else on the new path.
      assert t in newHead.txs;
    } else if t in added {
      assert Looks(overlay, t, n) <==> c < n < newHead.number && TxAt(s, newHead, t, n);
      var m: nat :| c < m < newHead.number && TxAt(s, newHead, t, m);
    } else {
      assert Looks(overlay, t, n) <==> Looks(before, t, n);
      assert Looks(before, t, n) <==> TxAt(s, oldHead, t, n);
      // At or below the fork both paths agree; above it, `t` is on the old side only if deleted,
      // and then the old path does not repeat it below.
      if n <= c { PathsAgreeBelow(s, oldHead, newHead, c, n); }
      if t in deleted {
        var m: nat :| c < m < oldHead.number + 1 && TxAt(s, oldHead, t, m);
        assert Looks(before, t, m);
      }
    }
  }

  /** Writing a head directly on top of the indexed one. */
  lemma ExtendIndexes(lookup: Lookup, s: Store, oldHead: Block, newHead: Block)
    requires Indexed(lookup, s, oldHead) && Unique(s, newHead) && Parent(s, newHead) == Some(oldHead)
    ensures Indexed(WriteEntries(lookup, newHead), s, newHead)
  {
    var final := WriteEntries(lookup, newHead);
    forall t: TxHash, n: nat ensures Looks(final, t, n) <==> TxAt(s, newHead, t, n) {
      assert Looks(lookup, t, n) <==> TxAt(s, oldHead, t, n);
      if TxAt(s, newHead, t, newHead.number) { assert t in newHead.txs; }
    }
  }
}
