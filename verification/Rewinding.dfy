/**
 A whole rewind on values: header by header down the parent path, with the block marker moved by a
 search at every header not above it.  Where such a rewind crashes, and whether it ends on a block with
 state, is read off the database before it starts.
 */
module Rewinding {
  import opened Options
  import opened Chain
  import opened StateWalk

  /** A rewind as it starts: the database, the header and the block marker, and the target, a block number
      or, if positive, a time. */
  datatype Plan = Plan(
    view: View, genesis: Block, start: Block, block: Block, goal: Goal, headBlock: nat, headTime: nat)

  /** A moment of a rewind: the states on disk, the header and the block marker. */
  datatype Spot = Spot(states: set<Hash>, header: Block, block: Block)

  predicate Done(headBlock: nat, headTime: nat, b: Block) {
    if headTime > 0 then b.time <= headTime else b.number <= headBlock
  }

  predicate Meets(p: Plan, b: Block) { Done(p.headBlock, p.headTime, b) }

  /** `b` is on the path of the start, and no block passed on the way satisfies the target. */
  ghost predicate RewoundTo(p: Plan, b: Block) {
    && AncestorAt(p.view.headers, p.start, b.number) == Some(b)
    && forall m: nat :: b.number < m <= p.start.number ==>
         AncestorAt(p.view.headers, p.start, m).Some? && !Meets(p, AncestorAt(p.view.headers, p.start, m).value)
  }

  function ParentOr(s: Store, b: Block, genesis: Block): Block {
    match Parent(s, b) case Some(p) => p case None => genesis
  }

  function NextHeader(p: Plan, h: Block): Block { ParentOr(p.view.headers, h, p.genesis) }

  ghost predicate PlanOk(p: Plan) {
    GenesisOk(p.view, p.genesis) && p.start.number > 0
  }

  /** The height of the first search: that of the marker, or of the first header visited. */
  function Top(p: Plan): nat {
    if p.block.number < p.start.number then p.block.number else if p.start.number > 0 then p.start.number - 1 else 0
  }

  ghost function FirstWalk(p: Plan): Option<Block> { AncestorAt(p.view.headers, p.start, Top(p)) }

  /** Height `n` is on the way. */
  ghost predicate Visits(p: Plan, n: nat) {
    && n < p.start.number && AncestorAt(p.view.headers, p.start, n).Some?
    && RewoundTo(p, AncestorAt(p.view.headers, p.start, n).value)
  }

  /** The rewind gets stuck at `m` from height `n`. */
  ghost predicate StuckOnTheWay(p: Plan, m: nat, n: nat) {
    Visits(p, n) && FirstWalk(p).Some? && Stuck(p.view, FirstWalk(p).value, p.goal, m, n)
  }

  ghost predicate RewindCrashes(p: Plan) {
    exists m: nat, n: nat :: StuckOnTheWay(p, m, n)
  }

  /** A search starts at height `g`, where the block is missing. */
  ghost predicate StrandedOnTheWay(p: Plan, g: nat) {
    Visits(p, g) && FirstWalk(p).Some? && Stranded(p.view, FirstWalk(p).value, p.goal, g)
  }

  /** Having come down to `h`, the rewind has not left the marker on a genesis block without state. */
  ghost predicate StateKept(p: Plan, h: Block) {
    || p.genesis.root in p.view.states || h.number == 0
    || forall g: nat :: StrandedOnTheWay(p, g) ==> g < h.number
  }

  /** What one call of the callback does to the head block: it lands below `header`, or stays if it is
      below already.  Only genesis state is ever written, and only with the marker on genesis. */
  ghost predicate Moved(v: View, states: set<Hash>, genesis: Block, header: Block, goal: Goal, c: Block, c': Block) {
    && v.states <= states <= v.states + {genesis.root}
    && c'.number <= header.number && (c'.number > 0 ==> states == v.states)
    && (header.number > c.number ==> c' == c && states == v.states)
    && (header.number <= c.number ==>
          && Landing(v, genesis, header, goal, c')
          && (c'.root in states <==> GetBlock(v, header.hash, header.number).Some? || genesis.root in v.states))
  }

  /** The rewind is at `h`: on the path or, where that has a gap, at genesis. */
  ghost predicate OnTheWay(p: Plan, h: Block) {
    || RewoundTo(p, h)
    || (h == p.genesis && AncestorAt(p.view.headers, p.start, 0).None?)
  }

  /** The rewind has come to `s` without a crash.  Above the first search nothing has changed; from there on
      the marker rests as described, every place to get stuck and every block above a stranding gap is
      still ahead, and whether the marker has state is what `StateKept` says. */
  ghost predicate Underway(p: Plan, s: Spot) {
    && OnTheWay(p, s.header)
    && (s.header.number > Top(p) ==> s.block == p.block && s.states == p.view.states)
    && (s.header.number <= Top(p) ==>
          && (s.block.number > 0 ==>
                && s.states == p.view.states && s.block.number <= s.header.number && FirstWalk(p).Some?
                && Rests(p.view, FirstWalk(p).value, p.goal, s.header, s.block))
          && (s.block.root in s.states <==> StateKept(p, s.header)))
    && (forall m: nat, n: nat :: StuckOnTheWay(p, m, n) ==>
          n < s.header.number && (s.header.number <= Top(p) ==> m <= s.block.number))
    && (forall g: nat :: StrandedOnTheWay(p, g) && g < s.header.number <= Top(p) ==> g < s.block.number)
  }

  /** One turn of the loop that did not crash. */
  ghost predicate Turned(p: Plan, s: Spot, s': Spot) {
    && s'.header == NextHeader(p, s.header)
    && Moved(p.view.(states := s.states), s'.states, p.genesis, s'.header, p.goal, s.block, s'.block)
    && (s'.header.number <= s.block.number ==> !Crashes(p.view.(states := s.states), s'.header, p.goal))
  }

  /** The loop goes on from `s`. */
  ghost predicate GoesOn(p: Plan, s: Spot) {
    PlanOk(p) && Underway(p, s) && s.header.number > 0 && !Meets(p, s.header)
  }

  lemma UnderwayFirst(p: Plan)
    requires PlanOk(p)
    ensures Underway(p, Spot(p.view.states, p.start, p.block))
  {
  }

  /** One turn stays on the path of the starting header, or jumps to genesis where it ends. */
  lemma BackStep(p: Plan, h: Block)
    requires PlanOk(p) && OnTheWay(p, h) && h.number > 0 && !Meets(p, h)
    ensures OnTheWay(p, NextHeader(p, h))
    ensures NextHeader(p, h).number > 0 ==>
      AncestorAt(p.view.headers, p.start, h.number - 1) == Some(NextHeader(p, h)) && Visits(p, h.number - 1)
    ensures forall n: nat :: n < h.number && AncestorAt(p.view.headers, p.start, n).Some? ==>
      AncestorAt(p.view.headers, p.start, h.number - 1) == Some(NextHeader(p, h))
    ensures Complete(p.view.headers, p.start) ==> NextHeader(p, h).number == h.number - 1
  {
    var s := p.view.headers;
    if Complete(s, p.start) { CompleteReaches(s, p.start, 0); }
    AncestorStep(s, p.start, h.number);
    forall n: nat | n < h.number && AncestorAt(s, p.start, n).Some?
      ensures AncestorAt(s, p.start, h.number - 1).Some?
    {
      PathDown(s, p.start, h.number - 1, n);
    }
  }

  /** At or below the first search the header is on the path of its block. */
  lemma BelowFirst(p: Plan, h: Block)
    requires AncestorAt(p.view.headers, p.start, h.number) == Some(h) && h.number <= Top(p) < p.start.number
    ensures FirstWalk(p).Some? && FirstWalk(p).value.number == Top(p)
    ensures AncestorAt(p.view.headers, FirstWalk(p).value, h.number) == Some(h)
  {
    PathDown(p.view.headers, p.start, Top(p), h.number);
    AncestorCompose(p.view.headers, p.start, Top(p), h.number);
  }

  /** A search in the middle of a rewind fails only where `StuckOnTheWay` says so. */
  lemma CrashIsStuck(p: Plan, s: Spot)
    requires GoesOn(p, s) && NextHeader(p, s.header).number <= s.block.number
    requires Crashes(p.view.(states := s.states), NextHeader(p, s.header), p.goal)
    ensures RewindCrashes(p)
  {
    var h := NextHeader(p, s.header);
    var m: nat :| Stuck(p.view.(states := s.states), h, p.goal, m, h.number);
    BackStep(p, s.header);
    assert p.view.(states := s.states) == p.view;
    BelowFirst(p, h);
    var q := FirstWalk(p).value;
    if s.header.number <= Top(p) {
      Resume(p.view, q, h, p.goal, s.block.number, m);
      SamePath(p.view, q, h, p.goal.root, m);
      SamePath(p.view, q, h, p.goal.root, m - 1);
      Inside(p.view, q, h, p.goal, m);
    }
    assert StuckOnTheWay(p, m, h.number);
  }

  /** A turn that does not fail leaves every place to get stuck ahead. */
  lemma WalkProgress(p: Plan, s: Spot, s': Spot)
    requires GoesOn(p, s) && Turned(p, s, s')
    ensures Underway(p, s')
  {
    BackStep(p, s.header);
    if s'.header.number <= Top(p) {
      if s'.block.number > 0 { RestsAgain(p, s, s'); }
      StateStillKept(p, s, s');
      forall m: nat, n: nat | StuckOnTheWay(p, m, n) ensures n < s'.header.number && m <= s'.block.number {
        StillAhead(p, s, s', m, n);
      }
      forall g: nat | StrandedOnTheWay(p, g) && g < s'.header.number ensures g < s'.block.number {
        GapStillAhead(p, s, s', g);
      }
    }
  }

  /** After a turn that reaches the first search, a marker not at genesis rests as described. */
  lemma RestsAgain(p: Plan, s: Spot, s': Spot)
    requires GoesOn(p, s) && Turned(p, s, s') && s'.header.number <= Top(p) && s'.block.number > 0
    ensures FirstWalk(p).Some? && s'.states == p.view.states
    ensures Rests(p.view, FirstWalk(p).value, p.goal, s'.header, s'.block)
  {
    BackStep(p, s.header);
    BelowFirst(p, s'.header);
    var q := FirstWalk(p).value;
    if s'.header.number <= s.block.number {
      assert p.view.(states := s.states) == p.view;
      LandingRests(p.view, p.genesis, s'.header, p.goal, s'.block);
      if s.header.number <= Top(p) { Resume(p.view, q, s'.header, p.goal, s.block.number, s'.block.number); }
      RestsFromAbove(p.view, q, s'.header, p.goal, s'.block);
    }
  }

  /** A turn at or below the first search has not passed a place to get stuck. */
  lemma StillAhead(p: Plan, s: Spot, s': Spot, m: nat, n: nat)
    requires GoesOn(p, s) && Turned(p, s, s') && s'.header.number <= Top(p) && StuckOnTheWay(p, m, n)
    ensures n < s'.header.number && m <= s'.block.number
  {
    BackStep(p, s.header);
    BelowFirst(p, s'.header);
    var q := FirstWalk(p).value;
    if s'.header.number <= s.block.number {
      assert p.view.(states := s.states) == p.view;
      WalkPasses(p.view, p.genesis, q, s'.header, p.goal, s'.block, m, n);
    } else {
      AheadOfRest(p.view, q, p.goal, s.header, s.block, m, n);
    }
  }

  /** Nor has the marker fallen to a gap that is still to come. */
  lemma GapStillAhead(p: Plan, s: Spot, s': Spot, g: nat)
    requires GoesOn(p, s) && Turned(p, s, s') && g < s'.header.number <= Top(p) && StrandedOnTheWay(p, g)
    ensures g < s'.block.number
  {
    BackStep(p, s.header);
    BelowFirst(p, s'.header);
    if s'.header.number <= s.block.number {
      assert p.view.(states := s.states) == p.view;
      LandsAboveGap(p.view, p.genesis, FirstWalk(p).value, s'.header, p.goal, s'.block, g);
    }
  }

  /** Whether the marker has state after the turn. */
  lemma StateStillKept(p: Plan, s: Spot, s': Spot)
    requires GoesOn(p, s) && Turned(p, s, s') && s'.header.number <= Top(p)
    ensures s'.block.root in s'.states <==> StateKept(p, s'.header)
  {
    BackStep(p, s.header);
    if s'.header.number == 0 {
      assert GetBlock(p.view, p.genesis.hash, 0) == Some(p.genesis);
    } else {
      BelowFirst(p, s'.header);
      if s'.header.number > s.block.number {
        assert !StrandedOnTheWay(p, s'.header.number);
      } else {
        WalkStateKept(p, s, s');
      }
    }
  }

  lemma WalkStateKept(p: Plan, s: Spot, s': Spot)
    requires GoesOn(p, s) && Turned(p, s, s') && 0 < s'.header.number <= Top(p) && s'.header.number <= s.block.number
    ensures s'.block.root in s'.states <==> StateKept(p, s'.header)
  {
    var h := s'.header;
    BackStep(p, s.header);
    BelowFirst(p, h);
    var q := FirstWalk(p).value;
    assert p.view.(states := s.states) == p.view;
    AncestorStored(p.view.headers, p.start, h.number);
    assert BlockAt(p.view, q, h.number) <==> GetBlock(p.view, h.hash, h.number).Some?;
    if GetBlock(p.view, h.hash, h.number).None? {
      if h.number < q.number { assert s.block.number == h.number + 1; }
      assert StrandedOnTheWay(p, h.number);
    } else {
      assert !StrandedOnTheWay(p, h.number);
      if s.header.number > Top(p) {
        assert forall g: nat :: StrandedOnTheWay(p, g) ==> g <= q.number;
      }
    }
  }

  /** A rewind that ends has met no place to get stuck, and has kept or lost the state as foreseen. */
  lemma AtTheEnd(p: Plan, s: Spot)
    requires PlanOk(p) && Underway(p, s) && Meets(p, s.header) && s.header.number < p.start.number
    ensures !RewindCrashes(p)
    ensures Complete(p.view.headers, p.start) ==> RewoundTo(p, s.header)
    ensures s.block.root in s.states <==> EndsWithState(p, s.header)
  {
    if Complete(p.view.headers, p.start) { CompleteReaches(p.view.headers, p.start, 0); }
    forall g: nat | StrandedOnTheWay(p, g) ensures g >= s.header.number { }
  }

  /** The exact condition for a head block with state at the end of a rewind to `head`: above the old head
      block nothing changes; otherwise genesis must have state, or be the target, or no search may start at
      a missing block. */
  ghost predicate EndsWithState(p: Plan, head: Block) {
    if p.block.number < head.number then p.block.root in p.view.states
    else p.genesis.root in p.view.states || head.number == 0 || forall g: nat :: !StrandedOnTheWay(p, g)
  }
}
