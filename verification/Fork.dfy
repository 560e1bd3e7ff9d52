/**
 The first half of a block reorg: collecting both sides of the fork down to the common ancestor.
 */
module Fork {
  import opened Options
  import opened Chain

  datatype Fork = Fork(common: Block, oldChain: seq<Block>, newChain: seq<Block>)

  /** `chain` lists the path of `b` from `b` itself down to just above height `n`. */
  ghost predicate IsSegment(s: Store, b: Block, n: nat, chain: seq<Block>) {
    && n <= b.number
    && |chain| == b.number - n
    && forall i :: 0 <= i < |chain| ==> AncestorAt(s, b, b.number - i) == Some(chain[i])
  }

  /** The two paths share their block at height `n`. */
  ghost predicate Meet(s: Store, a: Block, b: Block, n: nat) {
    AncestorAt(s, a, n).Some? && AncestorAt(s, a, n) == AncestorAt(s, b, n)
  }

  /** `f` splits both heads at their highest common ancestor. */
  ghost predicate IsFork(s: Store, oldHead: Block, newHead: Block, f: Fork) {
    && AncestorAt(s, oldHead, f.common.number) == Some(f.common) == AncestorAt(s, newHead, f.common.number)
    && IsSegment(s, oldHead, f.common.number, f.oldChain)
    && IsSegment(s, newHead, f.common.number, f.newChain)
    && forall n: nat :: f.common.number < n ==> !Meet(s, oldHead, newHead, n)
  }

  /** Walks down to height `target`, collecting the blocks passed; `None` when a block is missing. */
  method Descend(s: Store, from: Block, target: nat) returns (chain: seq<Block>, end: Option<Block>)
    requires target <= from.number
    ensures end == AncestorAt(s, from, target)
    ensures end.Some? ==> IsSegment(s, from, target, chain)
  {
    chain, end := [], Some(from);
    while end.Some? && end.value.number != target
      invariant end.Some? ==> target <= end.value.number <= from.number
      invariant end.Some? ==> AncestorAt(s, from, end.value.number) == end
      invariant end.Some? ==> IsSegment(s, from, end.value.number, chain)
      invariant end.None? ==> AncestorAt(s, from, target).None?
      decreases if end.Some? then end.value.number + 1 else 0
    {
      AncestorStep(s, from, end.value.number);
      AncestorCompose(s, from, end.value.number, target);
      chain, end := chain + [end.value], Parent(s, end.value);
    }
  }

  lemma NoMeetBelow(s: Store, a: Block, b: Block, m: nat, n: nat)
    requires n < m
    requires AncestorAt(s, a, m).Some? && AncestorAt(s, b, m).Some?
    requires Parent(s, AncestorAt(s, a, m).value).None? || Parent(s, AncestorAt(s, b, m).value).None?
    ensures !Meet(s, a, b, n)
  {
    AncestorCompose(s, a, m, n);
    AncestorCompose(s, b, m, n);
  }

  /** Finds the fork of two heads; it fails exactly when the old head is not stored or the paths
      meet nowhere. */
  method FindFork(s: Store, oldHead: Block, newHead: Block) returns (r: Option<Fork>)
    requires WellFormed(s) && Stored(s, newHead)
    ensures r.Some? ==> Get(s, oldHead.hash, oldHead.number).Some? && IsFork(s, s[oldHead.hash], newHead, r.value)
    ensures r.None? ==> Get(s, oldHead.hash, oldHead.number).None? || forall n: nat :: !Meet(s, s[oldHead.hash], newHead, n)
  {
    var oldBlock := Get(s, oldHead.hash, oldHead.number);
    if oldBlock.None? { return None; }
    ghost var old_ := oldBlock.value;
    var newBlock := Some(newHead);
    var oldChain, newChain := [], [];
    // Reduce the longer chain to the height of the shorter one.
    if oldBlock.value.number > newBlock.value.number {
      oldChain, oldBlock := Descend(s, oldBlock.value, newHead.number);
    } else {
      newChain, newBlock := Descend(s, newHead, oldBlock.value.number);
    }
    if oldBlock.None? || newBlock.None? {
      ghost var top := if old_.number > newHead.number then newHead.number else old_.number;
      forall n: nat ensures !Meet(s, old_, newHead, n) {
        if Meet(s, old_, newHead, n) { MeetAbove(s, old_, newHead, n, top); }
      }
      return None;
    }
    // Reduce both until the common ancestor is found.
    while oldBlock.value.hash != newBlock.value.hash
      invariant oldBlock.Some? && newBlock.Some? && oldBlock.value.number == newBlock.value.number
      invariant AncestorAt(s, old_, oldBlock.value.number) == oldBlock
      invariant AncestorAt(s, newHead, newBlock.value.number) == newBlock
      invariant IsSegment(s, old_, oldBlock.value.number, oldChain)
      invariant IsSegment(s, newHead, newBlock.value.number, newChain)
      invariant forall n: nat :: oldBlock.value.number < n ==> !Meet(s, old_, newHead, n)
      decreases oldBlock.value.number
    {
      ghost var m := oldBlock.value.number;
      var oldParent, newParent := Parent(s, oldBlock.value), Parent(s, newBlock.value);
      if oldParent.None? || newParent.None? {
        forall n: nat ensures !Meet(s, old_, newHead, n) {
          if n < m { NoMeetBelow(s, old_, newHead, m, n); }
        }
        return None;
      }
      AncestorStep(s, old_, m);
      AncestorStep(s, newHead, m);
      oldChain, newChain := oldChain + [oldBlock.value], newChain + [newBlock.value];
      oldBlock, newBlock := oldParent, newParent;
    }
    SameHashSameBlock(s, old_, newHead, oldBlock.value.number);
    r := Some(Fork(oldBlock.value, oldChain, newChain));
  }

  /** Paths that meet at all exist up to any height between. */
  lemma MeetAbove(s: Store, a: Block, b: Block, n: nat, m: nat)
    requires Meet(s, a, b, n) && m <= a.number && m <= b.number
    ensures n <= m ==> AncestorAt(s, a, m).Some? && AncestorAt(s, b, m).Some?
  {
    if n <= m {
      PathDown(s, a, m, n);
      PathDown(s, b, m, n);
    }
  }

  /** Two complete paths meet exactly when they have the same block 0. */
  lemma MeetIffSameRoot(s: Store, a: Block, b: Block)
    requires WellFormed(s) && Stored(s, a) && Stored(s, b) && Complete(s, a)
    ensures (exists n: nat :: Meet(s, a, b, n)) <==> (Complete(s, b) && HashAt(s, a, 0) == HashAt(s, b, 0))
  {
    CompleteReaches(s, a, 0);
    if n: nat :| Meet(s, a, b, n) {
      PathsAgreeBelow(s, a, b, n, 0);
      ReachesIsComplete(s, b);
    }
    if Complete(s, b) && HashAt(s, a, 0) == HashAt(s, b, 0) {
      CompleteReaches(s, b, 0);
      SameHashSameBlock(s, a, b, 0);
      assert Meet(s, a, b, 0);
    }
  }
}
