/**
 Rewinding: the header chain's `setHead` together with the block chain's callbacks, which move the
 block markers before anything is deleted.

 The whole database is one value, `Disk`, replaced by every atomic write; `trail` records each value
 it ever had, so that a crash at any moment leaves some element of the trail.  The ancient store is
 empty, hence the callback never asks for a forced rewind.

 With a root threshold the callback can dereference nil; the outcome `Crashed` stands for it.
 */
module SetHead {
  import opened Options
  import opened Chain
  import opened TotalDifficulty
  import opened StateWalk
  import opened Rewinding

  datatype Disk = Disk(
    headers: Store, bodies: set<Hash>, td: TdTable, canon: Index, states: set<Hash>,
    headHeader: Hash, headFast: Hash, headBlock: Hash)

  /** What the search for a head block sees of it. */
  function Seen(d: Disk): View { View(d.headers, d.bodies, d.states) }

  /** Every head marker points to stored data. */
  predicate MarkersOk(d: Disk) {
    d.headHeader in d.headers && HasBlock(Seen(d), d.headFast) && HasBlock(Seen(d), d.headBlock)
  }

  /** The in-memory markers mirror those on disk, which point to stored data. */
  ghost predicate DiskOk(d: Disk, genesis: Block, header: Block, block: Block, snap: Block) {
    && GenesisOk(Seen(d), genesis) && MarkersOk(d)
    && Stored(d.headers, header) && d.headHeader == header.hash
    && Stored(d.headers, block) && d.headBlock == block.hash
    && Stored(d.headers, snap) && d.headFast == snap.hash
  }

  /** A crash at any moment so far leaves markers that point to stored data. */
  ghost predicate TrailOk(trail: seq<Disk>) {
    forall i :: 0 <= i < |trail| ==> MarkersOk(trail[i])
  }

  /** No stored height above `n` has an empty height between. */
  ghost predicate NoGap(s: Store, n: nat) {
    forall h, m: nat :: h in s && n < m < s[h].number ==> AllHashes(s, m) != {}
  }

  function AllHashes(s: Store, n: nat): set<Hash> {
    set h | h in s && s[h].number == n
  }

  /** Every height above `n` up to `m` holds a header. */
  ghost predicate Occupied(s: Store, n: nat, m: nat) {
    forall k: nat :: n < k <= m ==> AllHashes(s, k) != {}
  }

  ghost function AtOrAbove(s: Store, n: nat): set<Hash> {
    set h | h in s && s[h].number >= n
  }

  function CutHeaders(s: Store, doomed: set<nat>): Store {
    map h | h in s && s[h].number !in doomed :: s[h]
  }

  /** Deletes headers, bodies, difficulties and canonical entries of the given heights. */
  function Cut(d: Disk, doomed: set<nat>): Disk {
    d.(headers := CutHeaders(d.headers, doomed),
       bodies := (set h | h in d.bodies && (h in d.headers ==> d.headers[h].number !in doomed)),
       td := (map k | k in d.td && k.0 !in doomed :: d.td[k]),
       canon := d.canon - doomed)
  }

  /** Nothing of height above `n` is left, and nothing at or below it was touched. */
  ghost predicate CutAbove(d: Disk, d': Disk, n: nat) {
    && (forall h :: h in d'.headers <==> h in d.headers && d.headers[h].number <= n)
    && (forall h :: h in d'.headers ==> d'.headers[h] == d.headers[h])
    && (forall h :: h in d.headers ==> (h in d'.bodies <==> h in d.bodies && d.headers[h].number <= n))
    && (forall k :: k in d'.td <==> k in d.td && k.0 <= n)
    && (forall k :: k in d'.td ==> d'.td[k] == d.td[k])
    && (forall m: nat :: Read(d'.canon, m) == if m <= n then Read(d.canon, m) else ZERO)
  }

  datatype Outcome = Rejected | Crashed | Rewound

  class Rewinder {
    const genesis: Block
    var disk: Disk
    ghost var trail: seq<Disk>
    var currentHeader: Block
    var currentBlock: Block
    var currentSnapBlock: Block

    ghost predicate Valid()
      reads this
    {
      DiskOk(disk, genesis, currentHeader, currentBlock, currentSnapBlock) && TrailOk(trail)
    }

    /** The last recorded write is what is on disk. */
    ghost predicate Synced()
      reads this
    {
      trail != [] && trail[|trail| - 1] == disk
    }

    ghost function Planned(headBlock: nat, headTime: nat, goal: Goal): Plan
      reads this
    {
      Plan(Seen(disk), genesis, currentHeader, currentBlock, goal, headBlock, headTime)
    }

    ghost function Here(): Spot
      reads this
    {
      Spot(disk.states, currentHeader, currentBlock)
    }

    constructor (disk: Disk, genesis: Block, currentHeader: Block, currentBlock: Block, currentSnapBlock: Block)
      requires DiskOk(disk, genesis, currentHeader, currentBlock, currentSnapBlock)
      ensures Valid() && Synced() && this.disk == disk && this.genesis == genesis
      ensures this.currentHeader == currentHeader && this.currentBlock == currentBlock
      ensures this.currentSnapBlock == currentSnapBlock
    {
      this.genesis, this.disk, this.trail := genesis, disk, [disk];
      this.currentHeader, this.currentBlock, this.currentSnapBlock := currentHeader, currentBlock, currentSnapBlock;
    }

    /** The update callback: moves the block markers for a rewind to `header`, never above it.  The
        markers go to a batch or, when the chain is repaired, straight to disk. */
    method UpdateMarkers(header: Block, goal: Goal, batched: bool) returns (ok: bool)
      requires Valid() && Stored(disk.headers, header)
      modifies this`disk, this`trail, this`currentBlock, this`currentSnapBlock
      ensures Valid() && old(trail) <= trail && (!batched && old(Synced()) ==> Synced())
      ensures ok <==> header.number > old(currentBlock).number || !Crashes(Seen(old(disk)), header, goal)
      ensures !ok ==> unchanged(this)
      ensures disk == old(disk).(states := disk.states, headBlock := disk.headBlock, headFast := disk.headFast)
      ensures ok ==> Moved(Seen(old(disk)), disk.states, genesis, header, goal, old(currentBlock), currentBlock)
      ensures header.number >= old(currentSnapBlock).number ==> currentSnapBlock == old(currentSnapBlock)
      ensures ok && header.number < old(currentSnapBlock).number ==>
        currentSnapBlock == if HasBlock(Seen(disk), header.hash) then header else genesis
    {
      ok := MoveBlock(header, goal, batched);
      if ok { MoveSnap(header, batched); }
    }

    /** The part of the callback that moves the head block. */
    method MoveBlock(header: Block, goal: Goal, batched: bool) returns (ok: bool)
      requires Valid() && Stored(disk.headers, header)
      modifies this`disk, this`trail, this`currentBlock
      ensures Valid() && old(trail) <= trail && (!batched && old(Synced()) ==> Synced())
      ensures ok <==> header.number > old(currentBlock).number || !Crashes(Seen(old(disk)), header, goal)
      ensures !ok ==> unchanged(this)
      ensures disk == old(disk).(states := disk.states, headBlock := disk.headBlock)
      ensures ok ==> Moved(Seen(old(disk)), disk.states, genesis, header, goal, old(currentBlock), currentBlock)
    {
      if header.number <= currentBlock.number {
        var r, recommit, _ := FindStateful(Seen(disk), genesis, header, goal);
        if r.None? { return false; }
        if recommit {
          disk := disk.(states := disk.states + {genesis.root});
          trail := trail + [disk];
        }
        disk := disk.(headBlock := r.value.hash);
        if !batched { trail := trail + [disk]; }
        currentBlock := r.value;
      }
      ok := true;
    }

    /** The part of the callback that moves the head of snap sync. */
    method MoveSnap(header: Block, batched: bool)
      requires Valid() && Stored(disk.headers, header)
      modifies this`disk, this`trail, this`currentSnapBlock
      ensures Valid() && old(trail) <= trail && (!batched && old(Synced()) ==> Synced())
      ensures disk == old(disk).(headFast := disk.headFast)
      ensures currentSnapBlock ==
        if header.number >= old(currentSnapBlock).number then old(currentSnapBlock)
        else if HasBlock(Seen(disk), header.hash) then header else genesis
    {
      if header.number < currentSnapBlock.number {
        var b := GetBlock(Seen(disk), header.hash, header.number);
        var snap := if b.Some? then b.value else genesis;
        disk := disk.(headFast := snap.hash);
        if !batched { trail := trail + [disk]; }
        currentSnapBlock := snap;
      }
    }

    /** Repairs a chain whose head block lost its state, without touching the header chain. */
    method Repair(goal: Goal) returns (outcome: Outcome)
      requires Valid()
      modifies this`disk, this`trail, this`currentBlock, this`currentSnapBlock
      ensures Valid() && old(trail) <= trail && (old(Synced()) ==> Synced())
      ensures outcome == if Crashes(Seen(old(disk)), old(currentBlock), goal) then Crashed else Rewound
      ensures outcome.Crashed? ==> unchanged(this)
      ensures outcome.Rewound? ==>
        && SameData(old(disk), disk) && Landing(Seen(old(disk)), genesis, old(currentBlock), goal, currentBlock)
        && currentBlock.root in disk.states
    {
      var ok := UpdateMarkers(currentBlock, goal, false);
      return if ok then Rewound else Crashed;
    }

    /** Heights above `n` that hold headers, up to the first empty one. */
    method HeightsAbove(n: nat) returns (nums: set<nat>, ghost top: nat)
      ensures forall m :: m in nums <==> n < m && Occupied(disk.headers, n, m)
      ensures n <= top && AllHashes(disk.headers, top + 1) == {}
      ensures forall m :: m in nums <==> n < m <= top
    {
      nums, top := {}, n;
      var m := n + 1;
      while AllHashes(disk.headers, m) != {}
        invariant m == top + 1 && n <= top
        invariant forall k :: k in nums <==> n < k <= top
        invariant Occupied(disk.headers, n, top)
        decreases AtOrAbove(disk.headers, m)
      {
        ghost var h :| h in AllHashes(disk.headers, m);
        assert h in AtOrAbove(disk.headers, m) && h !in AtOrAbove(disk.headers, m + 1);
        nums, top := nums + {m}, m;
        m := m + 1;
      }
    }

    /** One turn of the rewind loop: head markers first, header marker last, in one batch. */
    method StepBack(goal: Goal) returns (ok: bool)
      requires Valid() && currentHeader.number > 0
      modifies this
      ensures Valid() && old(trail) <= trail && SameData(old(disk), disk) && (ok ==> Synced())
      ensures ok <==> ParentOr(disk.headers, old(currentHeader), genesis).number > old(currentBlock).number
                      || !Crashes(Seen(old(disk)), ParentOr(disk.headers, old(currentHeader), genesis), goal)
      ensures !ok ==> unchanged(this)
      ensures ok ==> currentHeader == ParentOr(disk.headers, old(currentHeader), genesis)
      ensures ok ==> Moved(Seen(old(disk)), disk.states, genesis, currentHeader, goal, old(currentBlock), currentBlock)
      ensures ok ==> currentSnapBlock.number <= currentHeader.number
    {
      var parent := ParentOr(disk.headers, currentHeader, genesis);
      ok := UpdateMarkers(parent, goal, true);
      if !ok { return; }
      disk := disk.(headHeader := parent.hash);
      trail := trail + [disk];
      currentHeader := parent;
    }

    /** Rewinds the header chain to a block number or, when `headTime` is positive, to a timestamp.
        A timestamp below genesis is rejected.  With all ancestors stored, the new head is the first
        block on the way down that satisfies the target; with no gap in the stored heights, nothing
        above it is left and nothing at or below it is touched, provided there was anything to rewind.
        The head block ends at or below it, with state exactly as foreseen.  A crash has deleted nothing. */
    method SetHead(headBlock: nat, headTime: nat, goal: Goal) returns (outcome: Outcome)
      requires Valid()
      modifies this
      ensures Valid() && old(trail) <= trail && (old(Synced()) ==> Synced())
      ensures outcome.Rejected? <==> headTime > 0 && genesis.time > headTime
      ensures outcome.Rejected? || old(Done(headBlock, headTime, currentHeader)) ==> unchanged(this)
      ensures outcome.Crashed? <==>
        && !outcome.Rejected? && !old(Done(headBlock, headTime, currentHeader))
        && old(RewindCrashes(Planned(headBlock, headTime, goal)))
      ensures outcome.Crashed? ==> SameData(old(disk), disk)
      ensures outcome.Rewound? ==> if headTime > 0 then currentHeader.time <= headTime else currentHeader.number <= headBlock
      ensures (if headTime > 0 then genesis.time <= headTime && old(currentHeader).time <= headTime
               else old(currentHeader).number <= headBlock) ==> outcome.Rewound? && unchanged(this)
      ensures outcome.Rewound? && old(Complete(disk.headers, currentHeader)) ==>
        && AncestorAt(old(disk).headers, old(currentHeader), currentHeader.number) == Some(currentHeader)
        && forall m: nat :: currentHeader.number < m <= old(currentHeader).number ==>
             var passed := AncestorAt(old(disk).headers, old(currentHeader), m);
             passed.Some? && if headTime > 0 then passed.value.time > headTime else passed.value.number > headBlock
      ensures outcome.Rewound? && !old(Done(headBlock, headTime, currentHeader)) ==>
        && currentBlock.number <= currentHeader.number && currentSnapBlock.number <= currentHeader.number
        && (currentBlock.root in disk.states <==> EndsWithState(old(Planned(headBlock, headTime, goal)), currentHeader))
      ensures outcome.Rewound? && !old(Done(headBlock, headTime, currentHeader)) && old(Tidy(disk, currentHeader)) ==>
        CutAbove(old(disk), disk, currentHeader.number)
    {
      if headTime > 0 && genesis.time > headTime { return Rejected; }
      if Done(headBlock, headTime, currentHeader) { return Rewound; }
      ghost var d0 := disk;
      var start := currentHeader;
      var ok, doomed, top := Descend(headBlock, headTime, goal);
      if !ok { return Crashed; }
      CutIsAbove(d0, disk, doomed, start, currentHeader, top);
      CutKeepsOk(disk, doomed, genesis, currentHeader, currentBlock, currentSnapBlock);
      disk := Cut(disk, doomed);
      trail := trail + [disk];
      return Rewound;
    }

    /** The rewind loop.  Collects the heights to delete: those passed and, on the first turn, any
        leftover above. */
    method Descend(headBlock: nat, headTime: nat, goal: Goal) returns (ok: bool, doomed: set<nat>, ghost top: nat)
      requires Valid() && !Done(headBlock, headTime, currentHeader) && (headTime > 0 ==> genesis.time <= headTime)
      modifies this
      ensures Valid() && old(trail) <= trail && SameData(old(disk), disk) && (old(Synced()) ==> Synced())
      ensures ok <==> !old(RewindCrashes(Planned(headBlock, headTime, goal)))
      ensures ok ==>
        && Ended(old(Planned(headBlock, headTime, goal)), doomed, top)
        && old(currentHeader).number <= top && AllHashes(disk.headers, top + 1) == {}
    {
      ghost var d0, plan := disk, Planned(headBlock, headTime, goal);
      UnderwayFirst(plan);
      doomed, top := {}, 0;
      var num := currentHeader.number;
      ok := Turn(goal, d0, plan);
      if !ok { return; }
      doomed, top := HeightsAbove(num);
      doomed := doomed + {num};
      ok, doomed := DescendOn(headBlock, headTime, goal, doomed, top, d0, plan);
    }

    /** The rewind has come to its end. */
    ghost predicate Ended(plan: Plan, doomed: set<nat>, top: nat)
      reads this
    {
      && Meets(plan, currentHeader) && currentHeader.number < plan.start.number
      && currentBlock.number <= currentHeader.number && currentSnapBlock.number <= currentHeader.number
      && (currentBlock.root in disk.states <==> EndsWithState(plan, currentHeader))
      && (Complete(plan.view.headers, plan.start) ==> RewoundTo(plan, currentHeader))
      && Collected(plan, currentHeader, doomed, top)
    }

    /** All turns but the first. */
    method DescendOn(headBlock: nat, headTime: nat, goal: Goal, doomed0: set<nat>, ghost top: nat, ghost d0: Disk, ghost plan: Plan)
        returns (ok: bool, doomed: set<nat>)
      requires Valid() && Synced() && SameData(d0, disk) && PlanOk(plan) && Underway(plan, Here())
      requires plan.view == Seen(d0) && plan.genesis == genesis && plan.goal == goal
      requires plan.headBlock == headBlock && plan.headTime == headTime && (headTime > 0 ==> genesis.time <= headTime)
      requires currentHeader.number < plan.start.number <= top && Collected(plan, currentHeader, doomed0, top)
      requires currentBlock.number <= currentHeader.number && currentSnapBlock.number <= currentHeader.number
      modifies this
      ensures Valid() && Synced() && old(trail) <= trail && SameData(d0, disk)
      ensures ok <==> !RewindCrashes(plan)
      ensures ok ==> Ended(plan, doomed, top)
    {
      doomed := doomed0;
      while !Done(headBlock, headTime, currentHeader)
        invariant Valid() && Synced() && old(trail) <= trail && SameData(d0, disk) && Underway(plan, Here())
        invariant currentHeader.number < plan.start.number && Collected(plan, currentHeader, doomed, top)
        invariant currentBlock.number <= currentHeader.number && currentSnapBlock.number <= currentHeader.number
        decreases currentHeader.number
      {
        var num := currentHeader.number;
        ok := Turn(goal, d0, plan);
        if !ok { return; }
        doomed := doomed + {num};
      }
      AtTheEnd(plan, Here());
      ok := true;
    }

    /** One turn seen from the whole rewind. */
    method Turn(goal: Goal, ghost d0: Disk, ghost plan: Plan) returns (ok: bool)
      requires Valid() && SameData(d0, disk) && GoesOn(plan, Here())
      requires plan.view == Seen(d0) && plan.genesis == genesis && plan.goal == goal
      modifies this
      ensures Valid() && old(trail) <= trail && SameData(d0, disk)
      ensures !ok ==> unchanged(this) && RewindCrashes(plan)
      ensures ok ==>
        && Synced() && Underway(plan, Here())
        && currentBlock.number <= currentHeader.number && currentSnapBlock.number <= currentHeader.number
        && currentHeader.number < old(currentHeader).number
        && (Complete(d0.headers, plan.start) ==> currentHeader.number == old(currentHeader).number - 1)
    {
      ghost var here := Here();
      BackStep(plan, currentHeader);
      assert Seen(disk) == plan.view.(states := disk.states);
      ok := StepBack(goal);
      if ok { WalkProgress(plan, here, Here()); } else { CrashIsStuck(plan, here); }
    }
  }

  /** The heights to delete so far: all above the header, and on a complete path all of them up to `top`. */
  ghost predicate Collected(plan: Plan, h: Block, doomed: set<nat>, top: nat) {
    && (forall m :: m in doomed ==> h.number < m)
    && (Complete(plan.view.headers, plan.start) ==> forall m :: m in doomed <==> h.number < m <= top)
  }

  /** All but the state set and the markers is the same. */
  ghost predicate SameData(d: Disk, d': Disk) {
    d' == d.(states := d'.states, headHeader := d'.headHeader, headFast := d'.headFast, headBlock := d'.headBlock)
  }

  /** All ancestors stored, no gap above, the index is the path, difficulties belong to headers. */
  ghost predicate Tidy(d: Disk, head: Block) {
    && Complete(d.headers, head) && NoGap(d.headers, head.number)
    && IndexIsPath(d.canon, d.headers, head)
    && (forall k :: k in d.td ==> k.1 in d.headers && d.headers[k.1].number == k.0)
  }

  // ----- lemmas -----

  // ----- concrete inputs -----

  /** A chain of four headers in which the body of block 1 is missing. */
  function Gapped(genesis: Block, b1: Block, b2: Block, b3: Block, states: set<Hash>): Disk {
    Disk(map[1 := genesis, 2 := b1, 3 := b2, 4 := b3], {1, 3, 4}, map[], map[], states, 4, 4, 4)
  }

  /** The head, block 3, has lost its state.  Repairing it with a threshold that no block carries crashes at
      block 2, and so does a rewind to that block. */
  lemma CrashExample() returns (d: Disk, genesis: Block, head: Block, goal: Goal)
    ensures DiskOk(d, genesis, head, head, head) && head.root !in d.states && head.number == 3
    ensures Crashes(Seen(d), head, goal)
    ensures RewindCrashes(Plan(Seen(d), genesis, head, head, goal, 2, 0))
  {
    genesis := Block(1, ZERO, 0, 1, 0, 10, []);
    var b1 := Block(2, 1, 1, 1, 0, 11, []);
    var b2 := Block(3, 2, 2, 1, 0, 12, []);
    head := Block(4, 3, 3, 1, 0, 13, []);
    d := Gapped(genesis, b1, b2, head, {10, 12});
    goal := Goal(99, None);
    var plan := Plan(Seen(d), genesis, head, head, goal, 2, 0);
    assert Parent(d.headers, head) == Some(b2) && Parent(d.headers, b2) == Some(b1);
    assert AncestorAt(d.headers, head, 2) == Some(b2) && AncestorAt(d.headers, head, 1) == Some(b1);
    assert Stuck(Seen(d), head, goal, 2, 3);
    assert Stuck(Seen(d), b2, goal, 2, 2);
    assert StuckOnTheWay(plan, 2, 2);
  }

  /** A rewind to the header without a body, neither genesis nor that block having state, leaves a head
      block without state, although the old one had it. */
  lemma StatelessHeadExample() returns (d: Disk, genesis: Block, header: Block, head: Block)
    ensures DiskOk(d, genesis, head, head, head) && Stored(d.headers, header) && head.root in d.states
    ensures var plan := Plan(Seen(d), genesis, head, head, Goal(ZERO, None), header.number, 0);
      !RewindCrashes(plan) && RewoundTo(plan, header) && !EndsWithState(plan, header)
  {
    genesis := Block(1, ZERO, 0, 1, 0, 10, []);
    header := Block(2, 1, 1, 1, 0, 11, []);
    var b2 := Block(3, 2, 2, 1, 0, 12, []);
    head := Block(4, 3, 3, 1, 0, 13, []);
    d := Gapped(genesis, header, b2, head, {12, 13});
    var plan := Plan(Seen(d), genesis, head, head, Goal(ZERO, None), 1, 0);
    assert Parent(d.headers, head) == Some(b2) && Parent(d.headers, b2) == Some(header);
    assert AncestorAt(d.headers, head, 2) == Some(b2) && AncestorAt(d.headers, head, 1) == Some(header);
    assert AncestorAt(d.headers, b2, 1) == Some(header);
    assert StrandedOnTheWay(plan, 1);
  }

  /** The current header already meets the target, and a header above it stays. */
  lemma LeftoverExample() returns (d: Disk, genesis: Block, head: Block, headBlock: nat)
    ensures DiskOk(d, genesis, head, head, head) && Done(headBlock, 0, head)
    ensures exists h :: h in d.headers && d.headers[h].number > headBlock
  {
    genesis := Block(1, ZERO, 0, 1, 0, 10, []);
    head := genesis;
    headBlock := 0;
    d := Disk(map[1 := genesis, 2 := Block(2, 1, 1, 1, 0, 11, [])], {1}, map[], map[], {10}, 1, 1, 1);
    assert 2 in d.headers;
  }

  /** Deleting above all markers deletes none of them. */
  lemma CutKeepsOk(d: Disk, doomed: set<nat>, genesis: Block, header: Block, block: Block, snap: Block)
    requires DiskOk(d, genesis, header, block, snap)
    requires block.number <= header.number && snap.number <= header.number
    requires forall m :: m in doomed ==> header.number < m
    ensures DiskOk(Cut(d, doomed), genesis, header, block, snap)
  {
  }

  /** The collected heights are exactly those above the new head. */
  lemma CutIsAbove(d0: Disk, d: Disk, doomed: set<nat>, start: Block, head: Block, top: nat)
    requires SameData(d0, d)
    requires Complete(d0.headers, start) ==> forall m :: m in doomed <==> head.number < m <= top
    requires head.number <= start.number <= top && AllHashes(d0.headers, top + 1) == {}
    ensures Tidy(d0, start) ==> CutAbove(d0, Cut(d, doomed), head.number)
  {
    if Tidy(d0, start) {
      forall h | h in d0.headers ensures d0.headers[h].number <= top {
        assert h in AllHashes(d0.headers, d0.headers[h].number);
      }
      forall m: nat ensures Read(Cut(d, doomed).canon, m) == if m <= head.number then Read(d0.canon, m) else ZERO {
        assert Read(d0.canon, m) == HashAt(d0.headers, start, m);
      }
    }
  }

  /** After the cut the index is the path of the new head again. */
  lemma CutIndexIsPath(d: Disk, d': Disk, start: Block, head: Block)
    requires Tidy(d, start) && AncestorAt(d.headers, start, head.number) == Some(head)
    requires CutAbove(d, d', head.number)
    ensures Complete(d'.headers, head) && IndexIsPath(d'.canon, d'.headers, head)
  {
    CompleteReaches(d.headers, start, head.number);
    forall n: nat ensures Read(d'.canon, n) == HashAt(d'.headers, head, n) {
      assert Read(d.canon, n) == HashAt(d.headers, start, n);
      if n <= head.number {
        AncestorCompose(d.headers, start, head.number, n);
        CompleteReaches(d.headers, head, n);
        AncestorBelow(d, d', head, head.number, n);
      }
    }
    CompleteReaches(d.headers, head, 0);
    AncestorBelow(d, d', head, head.number, 0);
    ReachesIsComplete(d'.headers, head);
  }

  /** Paths below the cut survive it. */
  lemma {:induction false} AncestorBelow(d: Disk, d': Disk, b: Block, cut: nat, n: nat)
    requires CutAbove(d, d', cut) && b.number <= cut && AncestorAt(d.headers, b, n).Some?
    ensures AncestorAt(d'.headers, b, n) == AncestorAt(d.headers, b, n)
    decreases b.number
  {
    if b.number != n { AncestorBelow(d, d', Parent(d.headers, b).value, cut, n); }
  }
}
