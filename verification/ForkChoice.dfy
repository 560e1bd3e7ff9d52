/**
 The fork choice: should the external header replace the current head?

 The verdict compares total difficulties, refuses a header of the same height, and breaks an
 exact tie in favour of the lower number.  A configured terminal total difficulty overrides
 all of it.  `None` is the "missing td" error.
 */
module ForkChoice {
  import opened Options
  import opened Chain

  /** A miner's preference hook; `None` on a light client. */
  type Preserve = Option<Block -> bool>

  /** The tie break between headers of equal difficulty and height.  `ReorgNeeded` has already
      returned for headers of equal height, so its call of this function is dead code. */
  predicate TieBreak(current: Block, extern: Block, preserve: Preserve, coin: bool) {
    var currentPreserve := preserve.Some? && preserve.value(current);
    var externPreserve := preserve.Some? && preserve.value(extern);
    !currentPreserve && (externPreserve || coin)
  }

  function ReorgNeeded(
    ttd: Option<nat>, localTd: Option<nat>, externTd: Option<nat>,
    current: Block, extern: Block, preserve: Preserve, coin: bool): Option<bool>
  {
    if localTd.None? || externTd.None? then None
    else if ttd.Some? && ttd.value <= externTd.value then Some(true)
    else if current.number == extern.number then Some(false)
    else if externTd.value > localTd.value then Some(true)
    else if externTd.value < localTd.value then Some(false)
    else if extern.number < current.number then Some(true)
    else if extern.number == current.number then
      Some(TieBreak(current, extern, preserve, coin))
    else Some(false)
  }

  /** Heads are ranked by total difficulty, then by the lower number. */
  datatype Rank = Rank(td: nat, number: nat)

  predicate Beats(a: Rank, b: Rank) {
    a.td > b.td || (a.td == b.td && a.number < b.number)
  }

  /** Without the terminal rule, a reorg is demanded exactly for a better rank at another height;
      in particular neither the coin nor the preference hook has any influence. */
  lemma VerdictIsRank(
      ttd: Option<nat>, localTd: nat, externTd: nat, current: Block, extern: Block, preserve: Preserve, coin: bool)
    requires ttd.Some? ==> externTd < ttd.value
    ensures ReorgNeeded(ttd, Some(localTd), Some(externTd), current, extern, preserve, coin)
         == Some(current.number != extern.number &&
                 Beats(Rank(externTd, extern.number), Rank(localTd, current.number)))
  {
  }

  /** The verdict is a function of the headers and difficulties alone. */
  lemma VerdictIgnoresChance(
      ttd: Option<nat>, localTd: Option<nat>, externTd: Option<nat>, current: Block, extern: Block,
      p: Preserve, coin: bool, p': Preserve, coin': bool)
    ensures ReorgNeeded(ttd, localTd, externTd, current, extern, p, coin)
         == ReorgNeeded(ttd, localTd, externTd, current, extern, p', coin')
  {
  }

  /** Two headers each demand a reorg over the other exactly when both lie beyond the
      terminal total difficulty. */
  lemma MutualReorgIff(ttd: Option<nat>, td1: nat, td2: nat, a: Block, b: Block, preserve: Preserve, coin: bool)
    ensures (ReorgNeeded(ttd, Some(td1), Some(td2), a, b, preserve, coin) == Some(true)
             && ReorgNeeded(ttd, Some(td2), Some(td1), b, a, preserve, coin) == Some(true))
        <==> (ttd.Some? && ttd.value <= td1 && ttd.value <= td2)
  {
  }

  /** The documentation says the header of higher total difficulty is chosen.  Before the terminal
      rule the code rejects such a header exactly when it has the height of the current head. */
  lemma HeavierRejectedIff(localTd: nat, externTd: nat, current: Block, extern: Block, preserve: Preserve, coin: bool)
    requires externTd > localTd
    ensures ReorgNeeded(None, Some(localTd), Some(externTd), current, extern, preserve, coin) == Some(false)
       <==> current.number == extern.number
  {
  }
}
