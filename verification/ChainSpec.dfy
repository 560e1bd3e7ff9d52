/**
 What importing does to the abstract chain (a block tree and a head), and what holds over every
 run of imports.
 */
module ChainSpec {
  import opened Options
  import opened Chain
  import opened TotalDifficulty
  import opened ForkChoice

  datatype WriteStatus = NonStat | CanonStat | SideStat

  datatype ImportError = UnknownAncestor | GhostStateAttack

  /** The abstract chain: all tables and markers are determined by it. */
  datatype Tree = Tree(blocks: Store, head: Block)

  ghost function RankOf(s: Store, b: Block): Rank { Rank(PathSum(s, b), b.number) }

  /** The fork choice in terms of path sums. */
  ghost predicate PrefersNew(ttd: Option<nat>, s: Store, head: Block, b: Block) {
    || (ttd.Some? && ttd.value <= PathSum(s, b))
    || (b.number != head.number && Beats(RankOf(s, b), RankOf(s, head)))
  }

  /** On stored blocks the fork choice never misses a difficulty, and decides on path sums alone. */
  lemma VerdictOnPathSums(ttd: Option<nat>, s: Store, td: TdTable, head: Block, b: Block, preserve: Preserve, coin: bool)
    requires Sound(s, td) && Stored(s, head) && Stored(s, b)
    ensures ReorgNeeded(ttd, GetTd(td, head.hash, head.number), GetTd(td, b.hash, b.number), head, b, preserve, coin)
         == Some(PrefersNew(ttd, s, head, b))
  {
    TdMeansStored(s, td, head.hash, head.number);
    TdMeansStored(s, td, b.hash, b.number);
    var localTd, externTd := GetTd(td, head.hash, head.number), GetTd(td, b.hash, b.number);
    VerdictIgnoresChance(ttd, localTd, externTd, head, b, preserve, coin, None, false);
  }

  /** Importing one block. */
  ghost function Import(ttd: Option<nat>, t: Tree, b: Block): Tree {
    if Parent(t.blocks, b).None? then t
    else
      var s := t.blocks[b.hash := b];
      Tree(s, if PrefersNew(ttd, s, t.head, b) then b else t.head)
  }

  predicate Linked(batch: seq<Block>) {
    forall i :: 0 < i < |batch| ==> batch[i].parent == batch[i - 1].hash && batch[i].number == batch[i - 1].number + 1
  }

  function AddAll(s: Store, batch: seq<Block>): Store
    decreases |batch|
  {
    if |batch| == 0 then s else AddAll(s[batch[0].hash := batch[0]], batch[1..])
  }

  /** Importing a batch of headers.  A last header that already is on the path of the head moves nothing. */
  ghost function ImportHeaders(ttd: Option<nat>, t: Tree, batch: seq<Block>): Tree
    requires |batch| > 0
  {
    if Parent(t.blocks, batch[0]).None? then t
    else
      var s := AddAll(t.blocks, batch);
      var last := batch[|batch| - 1];
      Tree(s, if PrefersNew(ttd, s, t.head, last) && AncestorAt(s, t.head, last.number) != Some(last)
              then last else t.head)
  }

  /** A block fits a store when it would not overwrite a different block. */
  ghost predicate Fits(s: Store, b: Block) {
    b.hash != ZERO && (b.hash in s ==> s[b.hash] == b)
  }

  /** Batch headers that fit the store and have pairwise different hashes. */
  ghost predicate BatchFits(s: Store, batch: seq<Block>) {
    && (forall i :: 0 <= i < |batch| ==> Fits(s, batch[i]))
    && (forall i, j :: 0 <= i < j < |batch| ==> batch[i].hash != batch[j].hash)
  }

  lemma {:induction false} AddAllSnoc(s: Store, batch: seq<Block>, b: Block)
    ensures AddAll(s, batch + [b]) == AddAll(s, batch)[b.hash := b]
    decreases |batch|
  {
    if |batch| != 0 {
      assert (batch + [b])[1..] == batch[1..] + [b];
      AddAllSnoc(s[batch[0].hash := batch[0]], batch[1..], b);
    }
  }

  /** The views of a chain agree with its tree: total difficulties are path sums, and the canonical index
      is exactly the path of `head`. */
  ghost predicate Consistent(s: Store, td: TdTable, genesis: Block, canon: Index, head: Block) {
    && Sound(s, td)
    && Rooted(s, genesis)
    && Stored(s, head)
    && IndexIsPath(canon, s, head)
  }

  /** Storing a block on a known parent moves neither the head nor its index. */
  lemma AddKeepsConsistent(s: Store, td: TdTable, genesis: Block, canon: Index, head: Block, b: Block)
    requires Consistent(s, td, genesis, canon, head) && Fits(s, b) && Parent(s, b).Some?
    ensures Consistent(s[b.hash := b], WithTd(td, b, PathSum(s, Parent(s, b).value) + b.difficulty), genesis, canon, head)
    ensures PathSum(s[b.hash := b], b) == PathSum(s, Parent(s, b).value) + b.difficulty
    ensures b.hash in s ==> WithTd(td, b, PathSum(s, Parent(s, b).value) + b.difficulty) == td
  {
    RewriteKnown(s, td, b);
    AddKeepsSound(s, td, b);
    AddKeepsRooted(s, b, genesis);
    assert Recorded(s, td, head.hash);
    IndexMonotone(canon, s, s[b.hash := b], head);
  }

  // ----- runs -----

  /** A tree whose every block has its ancestors down to `genesis`. */
  ghost predicate TreeOk(genesis: Block, t: Tree) {
    && WellFormed(t.blocks) && Rooted(t.blocks, genesis) && Stored(t.blocks, t.head)
  }

  datatype Step = ImportBlock(b: Block) | ImportBatch(batch: seq<Block>)

  ghost predicate Enabled(t: Tree, step: Step) {
    match step
    case ImportBlock(b) => Fits(t.blocks, b)
    case ImportBatch(batch) => |batch| > 0 && Linked(batch) && BatchFits(t.blocks, batch)
  }

  ghost function Next(ttd: Option<nat>, t: Tree, step: Step): Tree
    requires Enabled(t, step)
  {
    match step
    case ImportBlock(b) => Import(ttd, t, b)
    case ImportBatch(batch) => ImportHeaders(ttd, t, batch)
  }

  /** `trace` records every tree of a run of imports. */
  ghost predicate IsRun(ttd: Option<nat>, trace: seq<Tree>, steps: seq<Step>) {
    && |trace| == |steps| + 1
    && forall i :: 0 <= i < |steps| ==> Enabled(trace[i], steps[i]) && trace[i + 1] == Next(ttd, trace[i], steps[i])
  }

  /** The head stays, or it moves to a block of strictly better rank; nothing stored is lost. */
  ghost predicate Advances(t: Tree, t': Tree) {
    && Extends(t.blocks, t'.blocks)
    && (t'.head == t.head || Beats(RankOf(t'.blocks, t'.head), RankOf(t.blocks, t.head)))
  }

  lemma TreeComplete(genesis: Block, t: Tree, h: Hash)
    requires TreeOk(genesis, t) && h in t.blocks
    ensures Complete(t.blocks, t.blocks[h])
  {
    assert RootedAt(t.blocks, genesis, h);
    ReachesIsComplete(t.blocks, t.blocks[h]);
  }

  lemma AddKeepsTree(genesis: Block, t: Tree, b: Block)
    requires TreeOk(genesis, t) && Fits(t.blocks, b) && Parent(t.blocks, b).Some?
    ensures TreeOk(genesis, t.(blocks := t.blocks[b.hash := b])) && Extends(t.blocks, t.blocks[b.hash := b])
  {
    AddKeepsRooted(t.blocks, b, genesis);
  }

  lemma {:induction false} AddAllKeepsTree(genesis: Block, t: Tree, batch: seq<Block>)
    requires TreeOk(genesis, t) && |batch| > 0 && Linked(batch) && BatchFits(t.blocks, batch)
    requires Parent(t.blocks, batch[0]).Some?
    ensures TreeOk(genesis, t.(blocks := AddAll(t.blocks, batch)))
    ensures Extends(t.blocks, AddAll(t.blocks, batch))
    ensures Stored(AddAll(t.blocks, batch), batch[|batch| - 1])
    decreases |batch|
  {
    var t1 := t.(blocks := t.blocks[batch[0].hash := batch[0]]);
    AddKeepsTree(genesis, t, batch[0]);
    if |batch| > 1 { AddAllKeepsTree(genesis, t1, batch[1..]); }
  }

  /** Every import keeps the tree rooted and, without a terminal difficulty, only improves the head. */
  lemma StepAdvances(genesis: Block, ttd: Option<nat>, t: Tree, step: Step)
    requires TreeOk(genesis, t) && Enabled(t, step)
    ensures TreeOk(genesis, Next(ttd, t, step))
    ensures Extends(t.blocks, Next(ttd, t, step).blocks)
    ensures ttd.None? ==> Advances(t, Next(ttd, t, step))
  {
    TreeComplete(genesis, t, t.head.hash);
    match step
    case ImportBlock(b) =>
      if Parent(t.blocks, b).Some? {
        AddKeepsTree(genesis, t, b);
        PathSumMonotone(t.blocks, t.blocks[b.hash := b], t.head);
      }
    case ImportBatch(batch) =>
      if Parent(t.blocks, batch[0]).Some? {
        AddAllKeepsTree(genesis, t, batch);
        PathSumMonotone(t.blocks, AddAll(t.blocks, batch), t.head);
      }
  }

  lemma AdvancesTransitive(genesis: Block, a: Tree, b: Tree, c: Tree)
    requires TreeOk(genesis, a) && TreeOk(genesis, b) && Advances(a, b) && Advances(b, c)
    ensures Advances(a, c)
  {
    TreeComplete(genesis, a, a.head.hash);
    TreeComplete(genesis, b, b.head.hash);
    PathSumMonotone(a.blocks, b.blocks, a.head);
    PathSumMonotone(b.blocks, c.blocks, b.head);
  }

  /** Over any run from a rooted tree, with no terminal difficulty, a later head is the same as an
      earlier one or ranks strictly above it. */
  lemma {:induction false} RunAdvances(genesis: Block, trace: seq<Tree>, steps: seq<Step>, i: nat, j: nat)
    requires IsRun(None, trace, steps) && TreeOk(genesis, trace[0]) && i <= j < |trace|
    ensures TreeOk(genesis, trace[i]) && TreeOk(genesis, trace[j])
    ensures Advances(trace[i], trace[j])
    decreases j
  {
    if j == 0 {
    } else if i == j {
      RunAdvances(genesis, trace, steps, j - 1, j - 1);
      StepAdvances(genesis, None, trace[j - 1], steps[j - 1]);
    } else {
      RunAdvances(genesis, trace, steps, i, j - 1);
      StepAdvances(genesis, None, trace[j - 1], steps[j - 1]);
      AdvancesTransitive(genesis, trace[i], trace[j - 1], trace[j]);
    }
  }

  /** Once the head has moved away from a block it never returns to it. */
  lemma HeadNeverRevisited(genesis: Block, trace: seq<Tree>, steps: seq<Step>, i: nat, j: nat, k: nat)
    requires IsRun(None, trace, steps) && TreeOk(genesis, trace[0]) && i < j < k < |trace|
    requires trace[j].head != trace[i].head
    ensures trace[k].head != trace[i].head
  {
    RunAdvances(genesis, trace, steps, i, j);
    RunAdvances(genesis, trace, steps, j, k);
    TreeComplete(genesis, trace[i], trace[i].head.hash);
    TreeComplete(genesis, trace[j], trace[j].head.hash);
    PathSumMonotone(trace[i].blocks, trace[j].blocks, trace[i].head);
    CompleteMonotone(trace[i].blocks, trace[j].blocks, trace[i].head);
    PathSumMonotone(trace[j].blocks, trace[k].blocks, trace[i].head);
  }

  /** With a terminal difficulty of zero two blocks can displace each other for ever. */
  lemma TerminalRunRevisits() returns (genesis: Block, trace: seq<Tree>, steps: seq<Step>)
    ensures IsRun(Some(0), trace, steps) && |trace| == 4 && TreeOk(genesis, trace[0])
    ensures trace[1].head != trace[2].head && trace[3].head == trace[1].head
  {
    genesis := Block(1, ZERO, 0, 1, 0, 0, []);
    var a := Block(2, 1, 1, 1, 0, 0, []);
    var b := Block(3, 1, 1, 1, 0, 0, []);
    var t0 := Tree(map[1 := genesis], genesis);
    forall h ensures RootedAt(t0.blocks, genesis, h) { }
    var t1 := Import(Some(0), t0, a);
    var t2 := Import(Some(0), t1, b);
    steps := [ImportBlock(a), ImportBlock(b), ImportBlock(a)];
    trace := [t0, t1, t2, Import(Some(0), t2, a)];
  }
}
