/**
 The search for a head block with state: from a header down the parent path, past a threshold root if
 one is given, to the first block that has state.  With a threshold the search can step into a gap and
 dereference nil; `Stuck` says when.
 */
module StateWalk {
  import opened Options
  import opened Chain

  /** What the search sees of the database. */
  datatype View = View(headers: Store, bodies: set<Hash>, states: set<Hash>)

  /** A root that must be passed, unless zero, and the pivot of an earlier sync, below which a block
      without state ends the search. */
  datatype Goal = Goal(root: Hash, pivot: Option<nat>)

  /** A block is there when both its header and its body are. */
  function GetBlock(v: View, h: Hash, n: int): (r: Option<Block>)
    ensures r.Some? ==> r == Get(v.headers, h, n)
  {
    if h in v.bodies then Get(v.headers, h, n) else None
  }

  predicate HasBlock(v: View, h: Hash) { h in v.headers && h in v.bodies }

  /** The genesis block is stored and is the only one at height 0. */
  ghost predicate GenesisOk(v: View, genesis: Block) {
    && WellFormed(v.headers)
    && genesis.number == 0 && HasBlock(v, genesis.hash) && v.headers[genesis.hash] == genesis
    && forall h :: h in v.headers && v.headers[h].number == 0 ==> v.headers[h] == genesis
  }

  /** All blocks from `header` down to height `m` are stored. */
  ghost predicate Whole(v: View, header: Block, m: nat) {
    forall k: nat :: m <= k <= header.number ==> BlockAt(v, header, k)
  }

  ghost predicate BlockAt(v: View, header: Block, k: nat) {
    AncestorAt(v.headers, header, k).Some? && HasBlock(v, AncestorAt(v.headers, header, k).value.hash)
  }

  /** A threshold root is carried at height `k` on the path. */
  ghost predicate Carries(v: View, header: Block, root: Hash, k: nat) {
    AncestorAt(v.headers, header, k).Some? && AncestorAt(v.headers, header, k).value.root == root
  }

  ghost predicate CarriesBetween(v: View, header: Block, root: Hash, lo: nat, hi: nat) {
    exists k: nat :: lo <= k <= hi && Carries(v, header, root, k)
  }

  ghost predicate StateAt(v: View, header: Block, k: nat) {
    AncestorAt(v.headers, header, k).Some? && AncestorAt(v.headers, header, k).value.root in v.states
  }

  /** The walk from `header` reaches height `m`: no block is missing on the way, and none without state
      lies at or below the pivot. */
  ghost predicate Reaches(v: View, header: Block, goal: Goal, m: nat) {
    && m <= header.number && Whole(v, header, m)
    && forall k: nat :: m < k <= header.number && goal.pivot.Some? && k <= goal.pivot.value ==> StateAt(v, header, k)
  }

  /** Height `m` is good enough to stop at: reachable, with state and, if a threshold root is given, at
      or below a block carrying it. */
  ghost predicate Candidate(v: View, header: Block, goal: Goal, m: nat) {
    && Reaches(v, header, goal, m) && StateAt(v, header, m)
    && (goal.root == ZERO || CarriesBetween(v, header, goal.root, m, header.number))
  }

  /** `b` is the highest candidate or, if there is none, genesis. */
  ghost predicate Landing(v: View, genesis: Block, header: Block, goal: Goal, b: Block) {
    && HasBlock(v, b.hash) && Stored(v.headers, b)
    && (b == genesis || (AncestorAt(v.headers, header, b.number) == Some(b) && Candidate(v, header, goal, b.number)))
    && forall m: nat :: Candidate(v, header, goal, m) ==> m <= b.number
  }

  /** Below height `m`, which has state, the next block is missing, and between `p` and `m` no block
      carries the threshold root.  A walk down from `header` in one go has `p == header.number`; a rewind,
      whose marker rests in between, is at `p` again if there is state there or if the threshold is. */
  ghost predicate Stuck(v: View, header: Block, goal: Goal, m: nat, p: nat) {
    && goal.root != ZERO && 0 < m <= p <= header.number
    && Reaches(v, header, goal, m) && StateAt(v, header, m) && !BlockAt(v, header, m - 1)
    && !CarriesBetween(v, header, goal.root, m, p)
    && (p == header.number || StateAt(v, header, p) || goal.root in v.states)
  }

  /** A walk from `header` ends in a nil dereference. */
  ghost predicate Crashes(v: View, header: Block, goal: Goal) {
    exists m: nat :: Stuck(v, header, goal, m, header.number)
  }

  /** What the search promises: it crashes (`None`) exactly under `Crashes`; otherwise it lands, with state
      exactly if the block of the header is there or genesis has state, and `n` is the height of the
      highest block that carries the threshold. */
  ghost predicate Found(v: View, genesis: Block, header: Block, goal: Goal, r: Option<Block>, recommit: bool, n: nat) {
    && (r.None? <==> Crashes(v, header, goal))
    && (recommit ==> r == Some(genesis))
    && (r.Some? ==>
          && Landing(v, genesis, header, goal, r.value)
          && (r.value.root in v.states + (if recommit then {genesis.root} else {})
              <==> GetBlock(v, header.hash, header.number).Some? || genesis.root in v.states)
          && (goal.root != ZERO && r.value != genesis ==>
                && r.value.number <= n <= header.number && Carries(v, header, goal.root, n)
                && !CarriesBetween(v, header, goal.root, n + 1, header.number)))
  }

  /** `None` is a nil dereference; `recommit` asks to write the genesis state again. */
  method FindStateful(v: View, genesis: Block, header: Block, goal: Goal)
      returns (r: Option<Block>, recommit: bool, rootNumber: nat)
    requires GenesisOk(v, genesis)
    requires header.hash in v.headers ==> v.headers[header.hash] == header
    ensures Found(v, genesis, header, goal, r, recommit, rootNumber)
  {
    recommit, rootNumber := false, 0;
    var start := GetBlock(v, header.hash, header.number);
    WalkStart(v, genesis, header, goal);
    if start.None? { return Some(genesis), false, 0; }
    var b := start.value;
    var beyondRoot := goal.root == ZERO;
    while true
      invariant Walking(v, header, goal, b, b.number + 1, beyondRoot, rootNumber)
      decreases b.number
    {
      WalkCheck(v, header, goal, b, beyondRoot, rootNumber);
      if goal.root != ZERO && !beyondRoot && b.root == goal.root {
        beyondRoot, rootNumber := true, b.number;
      }
      var parent := GetBlock(v, b.parent, b.number - 1);
      WalkOn(v, genesis, header, goal, b, beyondRoot, rootNumber);
      if b.root !in v.states {
        if goal.pivot.None? || b.number > goal.pivot.value {
          if parent.Some? {
            b := parent.value;
            continue;
          }
        }
        b := genesis;
      }
      if beyondRoot || b.number == 0 {
        return Some(b), b.number == 0 && genesis.root !in v.states, rootNumber;
      }
      if parent.None? { return None, false, rootNumber; }
      b := parent.value;
    }
  }

  // ----- one walk -----

  /** A walk from `header` is at `b`: everything above was passed for good reason.  No block from height
      `lo` up carries the root unless `past`, in which case the highest such block is at `n`. */
  ghost predicate Walking(v: View, header: Block, goal: Goal, b: Block, lo: nat, past: bool, n: nat) {
    && GetBlock(v, header.hash, header.number) == Some(header)
    && HasBlock(v, b.hash) && Stored(v.headers, b) && AncestorAt(v.headers, header, b.number) == Some(b)
    && Reaches(v, header, goal, b.number)
    && (goal.root == ZERO ==> past)
    && (goal.root != ZERO && past ==>
          && b.number <= n <= header.number && Carries(v, header, goal.root, n)
          && !CarriesBetween(v, header, goal.root, n + 1, header.number))
    && (!past ==> !CarriesBetween(v, header, goal.root, lo, header.number))
    && forall m: nat :: Candidate(v, header, goal, m) ==> m <= b.number
  }

  /** A walk starts at the block of the header, if there is one. */
  lemma WalkStart(v: View, genesis: Block, header: Block, goal: Goal)
    requires GenesisOk(v, genesis)
    requires header.hash in v.headers ==> v.headers[header.hash] == header
    ensures match GetBlock(v, header.hash, header.number)
      case Some(b) => b == header && Walking(v, header, goal, header, header.number + 1, goal.root == ZERO, 0)
      case None => Found(v, genesis, header, goal, Some(genesis), false, 0)
  {
    if GetBlock(v, header.hash, header.number).None? { assert !BlockAt(v, header, header.number); }
  }

  lemma WalkCheck(v: View, header: Block, goal: Goal, b: Block, past: bool, n: nat)
    requires Walking(v, header, goal, b, b.number + 1, past, n)
    ensures
      if goal.root != ZERO && !past && b.root == goal.root then Walking(v, header, goal, b, b.number, true, b.number)
      else Walking(v, header, goal, b, b.number, past, n)
  {
    assert Carries(v, header, goal.root, b.number) <==> b.root == goal.root;
  }

  /** Where a walk goes from `b`: on to the parent, to a landing, or into the gap. */
  lemma WalkOn(v: View, genesis: Block, header: Block, goal: Goal, b: Block, past: bool, n: nat)
    requires GenesisOk(v, genesis) && Walking(v, header, goal, b, b.number, past, n)
    ensures var parent := GetBlock(v, b.parent, b.number - 1);
      if b.root !in v.states && (parent.None? || (goal.pivot.Some? && b.number <= goal.pivot.value)) then
        Found(v, genesis, header, goal, Some(genesis), genesis.root !in v.states, n)
      else if b.root in v.states && (past || b.number == 0) then
        Found(v, genesis, header, goal, Some(b), b.number == 0 && genesis.root !in v.states, n)
      else if parent.None? then
        Found(v, genesis, header, goal, None, false, n)
      else
        Walking(v, header, goal, parent.value, b.number, past, n)
  {
    assert StateAt(v, header, b.number) <==> b.root in v.states;
    if b.number > 0 { AncestorStep(v.headers, header, b.number); }
    if GetBlock(v, b.parent, b.number - 1).None? && b.number > 0 {
      assert !BlockAt(v, header, b.number - 1);
      if b.root in v.states && !past { assert Stuck(v, header, goal, b.number, header.number); }
    }
  }

  // ----- walks that follow each other -----

  /** Below a block of the path a walk from it sees what a walk from above sees. */
  lemma SamePath(v: View, q: Block, h: Block, root: Hash, k: nat)
    requires AncestorAt(v.headers, q, h.number) == Some(h) && k <= h.number
    ensures AncestorAt(v.headers, q, k) == AncestorAt(v.headers, h, k)
    ensures BlockAt(v, q, k) == BlockAt(v, h, k) && StateAt(v, q, k) == StateAt(v, h, k)
    ensures Carries(v, q, root, k) == Carries(v, h, root, k)
  {
    AncestorCompose(v.headers, q, h.number, k);
  }

  /** A walk resumed at or just below a resting place with state reaches as far as one in one go. */
  lemma Resume(v: View, q: Block, h: Block, goal: Goal, c: nat, m: nat)
    requires AncestorAt(v.headers, q, h.number) == Some(h)
    requires Reaches(v, q, goal, c) && StateAt(v, q, c) && c <= h.number + 1
    requires Reaches(v, h, goal, m)
    ensures Reaches(v, q, goal, m)
  {
    forall k: nat | k <= h.number
      ensures BlockAt(v, q, k) == BlockAt(v, h, k) && StateAt(v, q, k) == StateAt(v, h, k)
    {
      SamePath(v, q, h, 0, k);
    }
  }

  /** A walk that reaches a height reaches it from every block it passes. */
  lemma Inside(v: View, q: Block, h: Block, goal: Goal, m: nat)
    requires AncestorAt(v.headers, q, h.number) == Some(h) && m <= h.number && Reaches(v, q, goal, m)
    ensures Reaches(v, h, goal, m)
    ensures CarriesBetween(v, h, goal.root, m, h.number) <==> CarriesBetween(v, q, goal.root, m, h.number)
  {
    forall k: nat | k <= h.number
      ensures BlockAt(v, q, k) == BlockAt(v, h, k) && StateAt(v, q, k) == StateAt(v, h, k)
      ensures Carries(v, q, goal.root, k) == Carries(v, h, goal.root, k)
    {
      SamePath(v, q, h, goal.root, k);
    }
  }

  /** The marker rests at `c` on the path of `q` while the header is `h`: with a threshold it is at or below
      a block carrying it with no state in between, and if it is the header it carries it itself. */
  ghost predicate Rests(v: View, q: Block, goal: Goal, h: Block, c: Block) {
    && AncestorAt(v.headers, q, c.number) == Some(c)
    && Reaches(v, q, goal, c.number) && StateAt(v, q, c.number)
    && (goal.root != ZERO ==>
          && (c.number == h.number ==> c.root == goal.root)
          && exists k: nat :: Crossed(v, q, goal.root, c.number, k))
  }

  ghost predicate Crossed(v: View, q: Block, root: Hash, c: nat, k: nat) {
    c <= k <= q.number && Carries(v, q, root, k) && forall t: nat :: c < t <= k ==> !StateAt(v, q, t)
  }

  /** The landing of a walk rests at or below the first block that carries the threshold root. */
  lemma LandingRests(v: View, genesis: Block, h: Block, goal: Goal, c: Block)
    requires GenesisOk(v, genesis) && c.number > 0 && Landing(v, genesis, h, goal, c)
    ensures Rests(v, h, goal, h, c)
  {
    if goal.root != ZERO {
      var k: nat :| c.number <= k <= h.number && Carries(v, h, goal.root, k);
      forall t: nat | c.number < t <= k ensures !StateAt(v, h, t) {
        assert StateAt(v, h, t) ==> CarriesBetween(v, h, goal.root, t, h.number);
        assert StateAt(v, h, t) ==> Candidate(v, h, goal, t);
      }
      assert Crossed(v, h, goal.root, c.number, k);
    }
  }

  lemma RestsFromAbove(v: View, q: Block, h: Block, goal: Goal, c: Block)
    requires AncestorAt(v.headers, q, h.number) == Some(h) && Rests(v, h, goal, h, c)
    requires Reaches(v, q, goal, c.number)
    ensures Rests(v, q, goal, h, c)
  {
    SamePath(v, q, h, goal.root, c.number);
    if goal.root != ZERO {
      var k: nat :| Crossed(v, h, goal.root, c.number, k);
      SamePath(v, q, h, goal.root, k);
      forall t: nat | c.number < t <= k ensures !StateAt(v, q, t) { SamePath(v, q, h, goal.root, t); }
      assert Crossed(v, q, goal.root, c.number, k);
    }
  }

  /** Where the marker rests, a place to get stuck is not above it. */
  lemma AheadOfRest(v: View, q: Block, goal: Goal, h: Block, c: Block, m: nat, p: nat)
    requires Rests(v, q, goal, h, c) && Stuck(v, q, goal, m, p) && m <= c.number && p < q.number
    ensures p <= c.number
  {
    var k: nat :| Crossed(v, q, goal.root, c.number, k);
    assert k <= p ==> CarriesBetween(v, q, goal.root, m, p);
    assert goal.root in v.states ==> StateAt(v, q, k);
    assert c.number < p <= k ==> !StateAt(v, q, p);
  }

  /** A walk from `h` that does not fail lands above every gap below it. */
  lemma WalkPasses(v: View, genesis: Block, q: Block, h: Block, goal: Goal, c: Block, m: nat, p: nat)
    requires AncestorAt(v.headers, q, h.number) == Some(h) && p <= h.number
    requires Stuck(v, q, goal, m, p) && !Crashes(v, h, goal) && Landing(v, genesis, h, goal, c)
    ensures p < h.number && m <= c.number
  {
    Inside(v, q, h, goal, m);
    SamePath(v, q, h, goal.root, m);
    SamePath(v, q, h, goal.root, m - 1);
    assert !Stuck(v, h, goal, m, h.number);
    assert Candidate(v, h, goal, m);
  }

  /** Block `g` is missing, and a rewind along the path of `q` starts a walk there: it is the first of all,
      or the block above has state and, with a threshold, carries it, so that the marker rests on it. */
  ghost predicate Stranded(v: View, q: Block, goal: Goal, g: nat) {
    && g <= q.number && AncestorAt(v.headers, q, g).Some? && !BlockAt(v, q, g)
    && (g == q.number
        || (Reaches(v, q, goal, g + 1) && StateAt(v, q, g + 1)
            && (goal.root == ZERO || Carries(v, q, goal.root, g + 1))))
  }

  /** A walk from above lands no lower than on the block above such a gap. */
  lemma LandsAboveGap(v: View, genesis: Block, q: Block, h: Block, goal: Goal, c: Block, g: nat)
    requires AncestorAt(v.headers, q, h.number) == Some(h) && g < h.number <= q.number
    requires Stranded(v, q, goal, g) && Landing(v, genesis, h, goal, c)
    ensures g < c.number
  {
    Inside(v, q, h, goal, g + 1);
    SamePath(v, q, h, goal.root, g + 1);
    assert goal.root != ZERO ==> CarriesBetween(v, h, goal.root, g + 1, h.number);
    assert Candidate(v, h, goal, g + 1);
  }
}
