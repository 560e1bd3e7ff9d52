/**
 The emission schedule: a yearly loop over reward epochs against the block-by-block sum.

 Amounts are integers in a unit that divides every reward (for R5, 1/32 coin), so that the exact
 decimal arithmetic of the source is integer arithmetic here.
 */
module Emission {
  import opened Options
  import opened Arithmetic

  datatype Epoch = Epoch(start: nat, end: Option<nat>, reward: nat)

  type Table = seq<Epoch>

  /** Epoch `i` pays something; unless it is the last, open one it ends where the next begins. */
  predicate EpochOk(t: Table, i: nat)
    requires i < |t|
  {
    && t[i].reward > 0 && t[i].start > 0
    && if i == |t| - 1 then t[i].end.None?
       else t[i].end.Some? && t[i].start <= t[i].end.value && t[i + 1].start == t[i].end.value + 1
  }

  /** Epochs follow each other without gap from block 1 on; exactly the last one is open. */
  predicate Contiguous(t: Table) {
    |t| > 0 && t[0].start == 1 && forall i :: 0 <= i < |t| ==> EpochOk(t, i)
  }

  /** The reward of block `b`, looking from epoch `i` on. */
  function RewardFrom(t: Table, i: nat, b: nat): nat
    requires i < |t|
    decreases |t| - i
  {
    if i == |t| - 1 || t[i].end.None? || b <= t[i].end.value then t[i].reward else RewardFrom(t, i + 1, b)
  }

  /** The reference: rewards of blocks 1 to `n`, one by one. */
  ghost function BlockSum(t: Table, n: nat): nat
    requires |t| > 0
  {
    if n == 0 then 0 else BlockSum(t, n - 1) + RewardFrom(t, 0, n)
  }

  function LastStart(t: Table): nat
    requires |t| > 0
  {
    t[|t| - 1].start
  }

  /** All that the closed epochs pay. */
  ghost function ClosedTotal(t: Table): nat
    requires Contiguous(t)
  {
    assert EpochOk(t, |t| - 1);
    BlockSum(t, LastStart(t) - 1)
  }

  /** The most that can be paid in whole rewards of the open epoch without exceeding the cap. */
  ghost function Reachable(t: Table, cap: nat): nat
    requires Contiguous(t) && ClosedTotal(t) <= cap
  {
    assert EpochOk(t, |t| - 1);
    var r := t[|t| - 1].reward;
    ClosedTotal(t) + (cap - ClosedTotal(t)) / r * r
  }

  /** The cap leaves the open epoch a whole number of rewards. */
  ghost predicate LeavesWhole(t: Table, cap: nat)
    requires Contiguous(t) && ClosedTotal(t) <= cap
  {
    assert EpochOk(t, |t| - 1);
    (cap - ClosedTotal(t)) % t[|t| - 1].reward == 0
  }

  function Min(a: int, b: int): int { if a <= b then a else b }
  function Max(a: int, b: int): int { if a >= b then a else b }

  // ----- the loops -----

  /** One year: blocks `start` to `start + blocksPerYear - 1`, epoch by epoch, stopping at the cap. */
  method Year(t: Table, cap: nat, blocksPerYear: nat, start: nat, before: nat) returns (cumulative: nat)
    requires Contiguous(t) && ClosedTotal(t) <= cap && blocksPerYear > 0 && start > 0
    requires before == Min(Reachable(t, cap), BlockSum(t, start - 1))
    ensures cumulative == Min(Reachable(t, cap), BlockSum(t, start + blocksPerYear - 1))
  {
    ReachableBounds(t, cap);
    var endBlock := start + blocksPerYear - 1;
    var cursor := start;
    cumulative := before;
    for i := 0 to |t|
      invariant start <= cursor <= endBlock + 1
      invariant i < |t| ==> cumulative == Min(Reachable(t, cap), BlockSum(t, cursor - 1))
      invariant 0 < i < |t| ==> cursor >= t[i].start || cursor == endBlock + 1
      invariant i == |t| ==> cumulative == Min(Reachable(t, cap), BlockSum(t, endBlock))
    {
      if cursor > endBlock { break; }
      assert EpochOk(t, i);
      var last := if t[i].end.None? then endBlock else Min(endBlock, t[i].end.value);
      var first := Max(cursor, t[i].start);
      if last < first { continue; }
      assert first == cursor;
      var blocks: nat;
      blocks, cumulative := PayEpoch(t, cap, i, first, last, cumulative);
      cursor := cursor + blocks;
      BlockSumMonotone(t, last, endBlock);
      if cumulative >= cap { break; }
    }
  }

  /** The share of one epoch: its blocks `first` to `last`, or as many as the cap still allows. */
  method PayEpoch(t: Table, cap: nat, i: nat, first: nat, last: nat, before: nat) returns (blocks: nat, cumulative: nat)
    requires Contiguous(t) && ClosedTotal(t) <= cap && i < |t|
    requires 0 < t[i].start <= first <= last && Reaches(t, i, last)
    requires before == Min(Reachable(t, cap), BlockSum(t, first - 1))
    ensures blocks <= last - first + 1
    ensures cumulative == Min(Reachable(t, cap), BlockSum(t, last)) <= cap
    ensures i < |t| - 1 ==> blocks == last - first + 1
  {
    assert EpochOk(t, i);
    ReachableBounds(t, cap);
    blocks := last - first + 1;
    var maxBlocks := (cap - before) / t[i].reward;
    if i < |t| - 1 {
      ClosedNeverCapped(t, cap, i, first, last);
      RangeSum(t, i, first, last);
    } else {
      OpenCapped(t, cap, first, last, before);
    }
    if blocks > maxBlocks { blocks := maxBlocks; }
    cumulative := before + t[i].reward * blocks;
  }

  /** The whole schedule.  It ends with exactly the cap paid out, after the first year in which the
      block-by-block sum reaches it. */
  method Emit(t: Table, cap: nat, blocksPerYear: nat) returns (cumulative: nat, years: nat)
    requires Contiguous(t) && ClosedTotal(t) <= cap && blocksPerYear > 0
    requires LeavesWhole(t, cap)
    ensures cumulative == cap
    ensures BlockSum(t, years * blocksPerYear) >= cap
    ensures years > 0 ==> BlockSum(t, (years - 1) * blocksPerYear) < cap
  {
    ReachableBounds(t, cap);
    var startBlock := 1;
    cumulative, years := 0, 0;
    while cumulative < cap
      invariant startBlock == years * blocksPerYear + 1
      invariant cumulative == Min(cap, BlockSum(t, startBlock - 1))
      invariant years > 0 ==> BlockSum(t, (years - 1) * blocksPerYear) < cap
      decreases cap - cumulative
    {
      ghost var n := startBlock - 1;
      YearApart(years, blocksPerYear);
      BlockSumGrows(t, n, n + blocksPerYear);
      cumulative := Year(t, cap, blocksPerYear, startBlock, cumulative);
      years := years + 1;
      startBlock := startBlock + blocksPerYear;
    }
  }

  /** The first `years` turns of the yearly loop, whether or not the cap can be reached. */
  method EmitYears(t: Table, cap: nat, blocksPerYear: nat, years: nat) returns (cumulative: nat)
    requires Contiguous(t) && ClosedTotal(t) <= cap && blocksPerYear > 0
    ensures cumulative == PaidAfter(t, cap, blocksPerYear, years)
  {
    ReachableBounds(t, cap);
    var startBlock := 1;
    cumulative := 0;
    for y := 0 to years
      invariant startBlock == y * blocksPerYear + 1 && cumulative == PaidAfter(t, cap, blocksPerYear, y)
    {
      YearApart(y, blocksPerYear);
      cumulative := Year(t, cap, blocksPerYear, startBlock, cumulative);
      startBlock := startBlock + blocksPerYear;
    }
  }

  /** What the yearly loop has paid after `years` turns. */
  ghost function PaidAfter(t: Table, cap: nat, blocksPerYear: nat, years: nat): int
    requires Contiguous(t) && ClosedTotal(t) <= cap
  {
    Min(Reachable(t, cap), BlockSum(t, years * blocksPerYear))
  }

  /** The loop ever reaches the cap exactly when the open epoch's reward divides what is left to it. */
  lemma TerminatesIff(t: Table, cap: nat, blocksPerYear: nat)
    requires Contiguous(t) && ClosedTotal(t) <= cap && blocksPerYear > 0
    ensures (exists y: nat :: PaidAfter(t, cap, blocksPerYear, y) >= cap)
       <==> LeavesWhole(t, cap)
  {
    ReachableBounds(t, cap);
    if LeavesWhole(t, cap) {
      var n := cap * blocksPerYear;
      AtLeast(cap, blocksPerYear);
      BlockSumGrows(t, 0, n);
      assert PaidAfter(t, cap, blocksPerYear, cap) >= cap;
    }
  }

  /** The R5 table in units of 1/32 coin, with 4505142 blocks of seven seconds a year. */
  const R5_TABLE: Table := [
    Epoch(1, Some(4_000_000), 64),
    Epoch(4_000_001, Some(8_000_000), 32),
    Epoch(8_000_001, Some(16_000_000), 16),
    Epoch(16_000_001, Some(32_000_000), 8),
    Epoch(32_000_001, Some(64_000_000), 4),
    Epoch(64_000_001, Some(128_000_000), 2),
    Epoch(128_000_001, None, 1)]

  const R5_UNIT: nat := 32
  const R5_BLOCK_REWARDS: nat := (66_337_700 - 2_000_000) * R5_UNIT
  const R5_BLOCKS_PER_YEAR: nat := 365 * 24 * 60 * 60 / 7

  /** The R5 parameters meet the conditions: the closed epochs pay 28 million coins, below the cap. */
  lemma R5Conditions()
    ensures Contiguous(R5_TABLE)
    ensures ClosedTotal(R5_TABLE) == 28_000_000 * R5_UNIT <= R5_BLOCK_REWARDS
    ensures LeavesWhole(R5_TABLE, R5_BLOCK_REWARDS)
  {
    assert forall i :: 0 <= i < |R5_TABLE| ==> EpochOk(R5_TABLE, i);
    EpochTotals(R5_TABLE, 6);
    assert EpochTotal(R5_TABLE, 6) == 28_000_000 * R5_UNIT;
  }

  /** What the first `i` epochs pay, epoch by epoch. */
  function EpochTotal(t: Table, i: nat): int
    requires i <= |t|
  {
    if i == 0 then 0
    else EpochTotal(t, i - 1) + (if t[i - 1].end.Some? then t[i - 1].reward * (t[i - 1].end.value - t[i - 1].start + 1) else 0)
  }

  lemma {:induction false} EpochTotals(t: Table, i: nat)
    requires Contiguous(t) && i < |t|
    ensures t[i].start > 0 && BlockSum(t, t[i].start - 1) == EpochTotal(t, i)
    decreases i
  {
    assert EpochOk(t, i);
    if i > 0 {
      assert EpochOk(t, i - 1);
      EpochTotals(t, i - 1);
      RangeSum(t, i - 1, t[i - 1].start, t[i - 1].end.value);
    }
  }

  // ----- lemmas -----

  /** Epoch `i` is not over before block `b`. */
  predicate Reaches(t: Table, i: nat, b: nat)
    requires i < |t|
  {
    t[i].end.Some? ==> b <= t[i].end.value
  }

  /** Epochs before the one holding `b` end before it. */
  lemma {:induction false} EarlierEnds(t: Table, i: nat, j: nat, b: nat)
    requires Contiguous(t) && i <= j < |t| && t[j].start <= b && Reaches(t, j, b)
    ensures RewardFrom(t, i, b) == t[j].reward
    decreases j - i
  {
    if i < j {
      assert EpochOk(t, i);
      StartsAscend(t, i + 1, j);
      EarlierEnds(t, i + 1, j, b);
    }
  }

  lemma {:induction false} StartsAscend(t: Table, i: nat, j: nat)
    requires Contiguous(t) && i <= j < |t|
    ensures t[i].start <= t[j].start
    decreases j
  {
    if i < j {
      StartsAscend(t, i, j - 1);
      assert EpochOk(t, j - 1);
    }
  }

  /** Within one epoch the sum grows by the reward for every block. */
  lemma {:induction false} RangeSum(t: Table, i: nat, first: nat, last: nat)
    requires Contiguous(t) && i < |t| && 0 < t[i].start <= first <= last && Reaches(t, i, last)
    ensures BlockSum(t, last) == BlockSum(t, first - 1) + t[i].reward * (last - first + 1)
    decreases last - first
  {
    EarlierEnds(t, 0, i, last);
    if first < last {
      RangeSum(t, i, first, last - 1);
      MulSucc(t[i].reward, last - first);
    }
  }

  lemma MulSucc(r: int, n: int)
    ensures r * (n + 1) == r * n + r
  {
  }

  lemma {:induction false} BlockSumMonotone(t: Table, m: nat, n: nat)
    requires |t| > 0 && m <= n
    ensures BlockSum(t, m) <= BlockSum(t, n)
    decreases n
  {
    if m < n { BlockSumMonotone(t, m, n - 1); }
  }

  lemma {:induction false} RewardPositive(t: Table, i: nat, b: nat)
    requires Contiguous(t) && i < |t|
    ensures RewardFrom(t, i, b) > 0
    decreases |t| - i
  {
    assert EpochOk(t, i);
    if i < |t| - 1 { RewardPositive(t, i + 1, b); }
  }

  lemma {:induction false} BlockSumGrows(t: Table, m: nat, n: nat)
    requires Contiguous(t) && m <= n
    ensures BlockSum(t, m) + (n - m) <= BlockSum(t, n)
    decreases n
  {
    if m < n {
      BlockSumGrows(t, m, n - 1);
      RewardPositive(t, 0, n);
    }
  }

  lemma ReachableBounds(t: Table, cap: nat)
    requires Contiguous(t) && ClosedTotal(t) <= cap
    ensures ClosedTotal(t) <= Reachable(t, cap) <= cap
    ensures Reachable(t, cap) == cap <==> LeavesWhole(t, cap)
  {
    assert EpochOk(t, |t| - 1);
    var r := t[|t| - 1].reward;
    DivRemainder(cap - ClosedTotal(t), r);
    assert (cap - ClosedTotal(t)) / r * r >= 0;
  }

  /** In a closed epoch the cap is never in the way. */
  lemma ClosedNeverCapped(t: Table, cap: nat, i: nat, first: nat, last: nat)
    requires Contiguous(t) && ClosedTotal(t) <= cap
    requires i < |t| - 1 && 0 < t[i].start <= first <= last && Reaches(t, i, last)
    ensures BlockSum(t, first - 1) <= BlockSum(t, last) <= ClosedTotal(t) <= Reachable(t, cap)
    ensures t[i].reward > 0 && last - first + 1 <= (cap - BlockSum(t, first - 1)) / t[i].reward
  {
    assert EpochOk(t, i);
    ReachableBounds(t, cap);
    StartsAscend(t, i + 1, |t| - 1);
    BlockSumMonotone(t, last, LastStart(t) - 1);
    BlockSumMonotone(t, first - 1, last);
    RangeSum(t, i, first, last);
    QuotientAtLeast(cap - BlockSum(t, first - 1), t[i].reward, last - first + 1);
  }

  lemma QuotientAtLeast(n: int, r: int, k: int)
    requires n >= 0 && r > 0 && r * k <= n
    ensures k <= n / r
  {
    DivRemainder(n, r);
    if k > n / r { MulNext(r, n / r, k); }
  }

  lemma MulNext(r: int, a: int, b: int)
    requires r > 0 && a < b
    ensures r * b >= a * r + r
  {
    MulOrder(r, a + 1, b);
    MulSucc(r, a);
  }

  /** In the open epoch the year pays up to the reachable total. */
  lemma OpenCapped(t: Table, cap: nat, first: nat, last: nat, paid: nat)
    requires Contiguous(t) && ClosedTotal(t) <= cap && 0 < LastStart(t) <= first <= last
    requires paid == Min(Reachable(t, cap), BlockSum(t, first - 1))
    ensures paid <= cap
    ensures t[|t| - 1].reward > 0
    ensures var r := t[|t| - 1].reward;
            paid + r * Min(last - first + 1, (cap - paid) / r) == Min(Reachable(t, cap), BlockSum(t, last))
  {
    ReachableBounds(t, cap);
    assert EpochOk(t, |t| - 1);
    var r, closed := t[|t| - 1].reward, ClosedTotal(t);
    if first > LastStart(t) { RangeSum(t, |t| - 1, LastStart(t), first - 1); }
    RangeSum(t, |t| - 1, first, last);
    var j := first - LastStart(t);
    OpenArithmetic(cap - closed, r, j, last - first + 1, paid - closed);
  }

  /** The same on numbers: `j` rewards were due, `k` more become due, and only whole rewards within
      `room` are paid. */
  lemma OpenArithmetic(room: int, r: int, j: int, k: int, paid: int)
    requires room >= 0 && r > 0 && j >= 0 && k >= 0 && paid == Min(room / r * r, r * j)
    ensures paid <= room
    ensures paid + r * Min(k, (room - paid) / r) == Min(room / r * r, r * j + r * k)
  {
    DivRemainder(room, r);
    var q := room / r;
    if q <= j {
      MulOrder(r, q, j);
      assert paid == q * r && room - paid == room % r;
      SmallQuotient(room % r, r);
      MulOrder(r, q, j + k);
    } else {
      MulOrder(r, j, q);
      assert paid == r * j;
      ShiftQuotient(room, r, j);
      if k <= q - j { MulOrder(r, j + k, q); } else { MulOrder(r, q, j + k); }
    }
  }

  lemma YearApart(years: nat, blocksPerYear: nat)
    ensures (years + 1) * blocksPerYear == years * blocksPerYear + blocksPerYear
  {
  }

  lemma AtLeast(cap: nat, k: nat)
    requires k > 0
    ensures cap * k >= cap
  {
  }
}
