/**
 The background chain indexer: sections of the canonical chain are processed without holding the
 lock, so heads, reorgs and arbitrary rewrites of the chain database interleave with every header
 read.  Only the last stored section head is ever compared with the chain.

 A hash fixes its header, so `u` maps every hash to the header it belongs to.  What the chain
 database holds at the moment of a read is a `View`.
 */
module ChainIndexer {
  import opened Options
  import opened Chain
  import opened Arithmetic

  type Universe = Hash -> Block

  datatype View = View(canon: Index, stored: set<Hash>)

  /** `k` parent steps from `h`. */
  ghost function Up(u: Universe, h: Hash, k: nat): Hash
    decreases k
  {
    if k == 0 then h else Up(u, u(h).parent, k - 1)
  }

  /** From height `lo` up the canonical index of the moment is one chain without gaps.  What lies below,
      as the blocks a light client never fetched, does not matter. */
  ghost predicate LinkedIndex(u: Universe, canon: Index, lo: nat) {
    forall n: nat :: n > lo && Read(canon, n) != ZERO ==>
      Read(canon, n - 1) != ZERO && Read(canon, n - 1) == u(Read(canon, n)).parent
  }

  /** The checkpoint is the one a client is built with; zero sections mean that there is none. */
  datatype Config = Config(sectionSize: nat, confirmsReq: nat, checkpointSections: nat, checkpointHead: Hash)

  ghost predicate ConfigOk(c: Config) {
    c.sectionSize > 0 && (c.checkpointSections > 0 ==> c.checkpointHead != ZERO)
  }

  /** A section being processed: `done` headers read so far, the last of them `lastHead`. */
  datatype Job = Job(section: nat, oldHead: Hash, done: nat, lastHead: Hash, failed: bool)

  /** The index database (`heads`, `stored`), the number of known sections, the number of sections covered
      by a checkpoint that was accepted since the last start, and the running job. */
  datatype State = State(heads: map<nat, Hash>, stored: nat, known: nat, checkpoint: nat, job: Option<Job>)

  function SectionHead(st: State, section: nat): Hash {
    if section in st.heads then st.heads[section] else ZERO
  }

  /** The heads of sections other than `lo` to `hi - 1`. */
  function Without(heads: map<nat, Hash>, lo: nat, hi: nat): map<nat, Hash> {
    map i | i in heads && !(lo <= i < hi) :: heads[i]
  }

  /** Sets the number of valid sections, removing the heads of those dropped. */
  function SetValid(st: State, sections: nat): State {
    st.(heads := Without(st.heads, sections, st.stored), stored := sections)
  }

  /** The head of the last stored section is the canonical hash at its height. */
  predicate LastMatches(c: Config, st: State, canon: Index)
    requires c.sectionSize > 0 && st.stored > 0
  {
    SectionHead(st, st.stored - 1) == Read(canon, LastNumber(c, st.stored - 1))
  }

  /** Rolls back sections while the last stored head differs from the chain. */
  function VerifyLast(c: Config, st: State, canon: Index): State
    requires c.sectionSize > 0
    decreases st.stored
  {
    if st.stored == 0 || st.stored <= st.checkpoint then st
    else if LastMatches(c, st, canon) then st
    else VerifyLast(c, SetValid(st, st.stored - 1), canon)
  }

  /** The number of the first block of a section, as a sum to keep products out of the proofs. */
  function FirstNumber(c: Config, section: nat): nat {
    if section == 0 then 0 else FirstNumber(c, section - 1) + c.sectionSize
  }

  lemma {:induction false} FirstNumberIs(c: Config, section: nat)
    ensures FirstNumber(c, section) == section * c.sectionSize
    decreases section
  {
    if section > 0 {
      FirstNumberIs(c, section - 1);
      assert (section - 1) * c.sectionSize + c.sectionSize == section * c.sectionSize;
    }
  }

  /** The number of the last block of a section. */
  function LastNumber(c: Config, section: nat): nat
    requires c.sectionSize > 0
  {
    FirstNumber(c, section) + c.sectionSize - 1
  }

  /** How many whole sections `n` blocks make, as repeated subtraction to keep quotients out of the proofs. */
  function WholeSections(c: Config, n: nat): nat
    requires c.sectionSize > 0
  {
    if n < c.sectionSize then 0 else 1 + WholeSections(c, n - c.sectionSize)
  }

  lemma {:induction false} WholeSectionsIs(c: Config, n: nat)
    requires c.sectionSize > 0
    ensures WholeSections(c, n) == n / c.sectionSize
    decreases n
  {
    if n >= c.sectionSize {
      var m := n - c.sectionSize;
      WholeSectionsIs(c, m);
      DivRemainder(m, c.sectionSize);
      MulOrder(c.sectionSize, m / c.sectionSize, m / c.sectionSize + 1);
      UniqueQuotient(n, c.sectionSize, m / c.sectionSize + 1, m % c.sectionSize);
    } else {
      SmallQuotient(n, c.sectionSize);
    }
  }

  lemma LastNumberIs(c: Config, section: nat)
    requires c.sectionSize > 0
    ensures LastNumber(c, section) == (section + 1) * c.sectionSize - 1
  {
    FirstNumberIs(c, section + 1);
  }

  /** A section is among the first `n` blocks exactly if its last block is. */
  lemma {:induction false} WholeSectionsIff(c: Config, s: nat, n: nat)
    requires c.sectionSize > 0
    ensures s < WholeSections(c, n) <==> LastNumber(c, s) < n
    decreases n
  {
    if n >= c.sectionSize && s > 0 { WholeSectionsIff(c, s - 1, n - c.sectionSize); }
  }

  /** A new chain head, or the common ancestor of a reorg. */
  function NewHead(c: Config, st: State, head: nat, reorg: bool, canon: Index): State
    requires c.sectionSize > 0
  {
    if reorg then
      var sections := WholeSections(c, head + 1);
      var known := if sections < st.checkpoint then 0 else sections;
      var stored := if sections < st.checkpoint then st.checkpoint else sections;
      var st1 := if known < st.known then st.(known := known) else st;
      if stored < st1.stored then SetValid(st1, stored) else st1
    else if head >= c.confirmsReq then
      var sections := WholeSections(c, head + 1 - c.confirmsReq);
      var sections' := if sections < st.checkpoint then 0 else sections;
      if sections' > st.known
         && !(st.known < st.checkpoint
              && Read(canon, LastNumber(c, st.checkpoint - 1)) != c.checkpointHead)
      then st.(known := sections') else st
    else st
  }

  /** The chain has reached the checkpoint, with the configured block there. */
  predicate AtCheckpoint(c: Config, st: State, head: nat, canon: Index)
    requires c.sectionSize > 0
  {
    st.checkpoint > 0 ==>
      && LastNumber(c, st.checkpoint - 1) + c.confirmsReq <= head
      && (st.checkpoint <= st.known || Read(canon, LastNumber(c, st.checkpoint - 1)) == c.checkpointHead)
  }

  /** After a head section `s` is known if it was, or if the head confirms its last block. */
  ghost predicate KnownAfterHead(c: Config, st: State, known: nat, head: nat, canon: Index, s: nat)
    requires c.sectionSize > 0
  {
    s < known <==> s < st.known || (LastNumber(c, s) + c.confirmsReq <= head && AtCheckpoint(c, st, head, canon))
  }

  /** A head makes exactly the sections known whose last block it confirms, an accepted checkpoint
      permitting, and forgets none. */
  lemma HeadKnows(c: Config, st: State, head: nat, canon: Index)
    requires c.sectionSize > 0
    ensures var st' := NewHead(c, st, head, false, canon);
      && st' == st.(known := st'.known)
      && forall s: nat :: KnownAfterHead(c, st, st'.known, head, canon, s)
  {
    var st' := NewHead(c, st, head, false, canon);
    forall s: nat ensures KnownAfterHead(c, st, st'.known, head, canon, s) {
      if head >= c.confirmsReq {
        WholeSectionsIff(c, s, head + 1 - c.confirmsReq);
        if st.checkpoint > 0 { WholeSectionsIff(c, st.checkpoint - 1, head + 1 - c.confirmsReq); }
      }
    }
  }

  /** After a reorg section `s` is known, or stored, if it was and ends at or below the common ancestor. */
  ghost predicate KnownAfterReorg(c: Config, st: State, known: nat, head: nat, s: nat)
    requires c.sectionSize > 0
  {
    s < known <==> s < st.known && LastNumber(c, s) <= head && (st.checkpoint > 0 ==> LastNumber(c, st.checkpoint - 1) <= head)
  }

  ghost predicate StoredAfterReorg(c: Config, st: State, stored: nat, head: nat, s: nat)
    requires c.sectionSize > 0
  {
    s < stored <==> s < st.stored && (s < st.checkpoint || LastNumber(c, s) <= head)
  }

  /** A reorg keeps exactly the known and stored sections that end at or below the common ancestor; those an
      accepted checkpoint covers stay stored, but nothing is known below it. */
  lemma ReorgForgets(c: Config, st: State, head: nat, canon: Index)
    requires c.sectionSize > 0
    ensures var st' := NewHead(c, st, head, true, canon);
      && st'.checkpoint == st.checkpoint && st'.job == st.job
      && (forall s: nat :: KnownAfterReorg(c, st, st'.known, head, s))
      && (forall s: nat :: StoredAfterReorg(c, st, st'.stored, head, s))
      && (forall i :: i in st'.heads <==> i in st.heads && !(st'.stored <= i < st.stored))
      && (forall i :: i in st'.heads ==> st'.heads[i] == st.heads[i])
  {
    var st' := NewHead(c, st, head, true, canon);
    forall s: nat
      ensures KnownAfterReorg(c, st, st'.known, head, s) && StoredAfterReorg(c, st, st'.stored, head, s)
    {
      WholeSectionsIff(c, s, head + 1);
      if st.checkpoint > 0 { WholeSectionsIff(c, st.checkpoint - 1, head + 1); }
    }
  }

  /** The locked first half of an update: verify, then remember the section and its predecessor's head. */
  function Begin(c: Config, st: State, canon: Index): State
    requires c.sectionSize > 0
  {
    if st.job.Some? || st.known <= st.stored then st
    else
      var v := VerifyLast(c, st, canon);
      var oldHead := if v.stored > 0 then SectionHead(v, v.stored - 1) else ZERO;
      v.(job := Some(Job(v.stored, oldHead, 0, oldHead, false)))
  }

  /** One header of the running section; the canonical hash and the header are read at two moments. */
  function ReadNext(c: Config, u: Universe, st: State, first: View, second: View): State {
    if st.job.None? || st.job.value.failed || st.job.value.done >= c.sectionSize then st
    else
      var job := st.job.value;
      var number := FirstNumber(c, job.section) + job.done;
      var hash := Read(first.canon, number);
      if hash == ZERO || hash !in second.stored || u(hash).number != number || u(hash).parent != job.lastHead
      then st.(job := Some(job.(failed := true)))
      else st.(job := Some(job.(done := job.done + 1, lastHead := hash)))
  }

  /** The backend refuses the section: all sections are dropped, without the lock. */
  function ResetFails(st: State): State {
    if st.job.None? || st.job.value.done > 0 then st
    else SetValid(st, 0).(job := Some(st.job.value.(failed := true)))
  }

  /** The locked second half: store the section if its predecessor's head is still the same. */
  function Finish(c: Config, st: State, canon: Index): State
    requires c.sectionSize > 0
  {
    if st.job.None? || !(st.job.value.failed || st.job.value.done == c.sectionSize) then st
    else
      var job := st.job.value;
      var st1 := st.(job := None);
      if !job.failed && (job.section == 0 || job.oldHead == SectionHead(st, job.section - 1))
      then SetValid(st1.(heads := st1.heads[job.section := job.lastHead]), job.section + 1)
      else
        var v := VerifyLast(c, st1, canon);
        v.(known := v.stored)
  }

  datatype Event =
    | HeadEvent(head: nat, reorg: bool, view: View)
    | UpdateBegins(view: View)
    | HeaderRead(first: View, second: View)
    | BackendFails              // an error of the backend's Process or Commit
    | BackendResetFails
    | UpdateFinishes(view: View)
    | SectionsQuery(view: View)
    | Starts(adds: bool)        // the process starts on the index database and may add the checkpoint

  function Next(c: Config, u: Universe, st: State, e: Event): State
    requires c.sectionSize > 0
  {
    match e
    case HeadEvent(head, reorg, view) => NewHead(c, st, head, reorg, view.canon)
    case UpdateBegins(view) => Begin(c, st, view.canon)
    case HeaderRead(first, second) => ReadNext(c, u, st, first, second)
    case BackendFails => if st.job.Some? then st.(job := Some(st.job.value.(failed := true))) else st
    case BackendResetFails => ResetFails(st)
    case UpdateFinishes(view) => Finish(c, st, view.canon)
    case SectionsQuery(view) => VerifyLast(c, st, view.canon)
    case Starts(adds) => Start(c, st, adds)
  }

  /** Sections and heads are on disk, the rest is not.  A checkpoint is ignored if the index is past it,
      as it usually is after a restart. */
  function Start(c: Config, st: State, adds: bool): State {
    var st1 := st.(known := 0, checkpoint := 0, job := None);
    if adds && c.checkpointSections > 0 then Checkpointed(c, st1) else st1
  }

  function Checkpointed(c: Config, st: State): State
    requires c.checkpointSections > 0
  {
    if st.checkpoint >= c.checkpointSections || c.checkpointSections - 1 < st.stored then st
    else
      SetValid(st.(heads := st.heads[c.checkpointSections - 1 := c.checkpointHead], checkpoint := c.checkpointSections),
               c.checkpointSections)
  }

  /** Section `i` is the one the checkpoint names: its head need not descend from the one before. */
  predicate Seam(c: Config, i: nat) { i + 1 == c.checkpointSections }

  /** Heads belong to stored sections; from the checkpoint's section on none is missing; each head is an
      ancestor of the next, except where the checkpoint was put.  While the process has not been restarted
      (`strict`) there is no exception, and no section above one with a head is without. */
  ghost predicate HeadsLinked(c: Config, u: Universe, heads: map<nat, Hash>, stored: nat, strict: bool) {
    && (forall i :: i in heads ==> i < stored && heads[i] != ZERO)
    && (forall i: nat :: c.checkpointSections <= i + 1 && i < stored ==> i in heads)
    && (forall i: nat :: Link(c, u, heads, strict, i))
    && (strict ==> forall i, j: nat :: i in heads && i <= j < stored ==> j in heads)
  }

  /** The head of section `i - 1` is the ancestor, one section up, of the head of section `i`. */
  ghost predicate Joined(c: Config, u: Universe, heads: map<nat, Hash>, i: nat) {
    i > 0 && i in heads && i - 1 in heads && Up(u, heads[i], c.sectionSize) == heads[i - 1]
  }

  ghost predicate Link(c: Config, u: Universe, heads: map<nat, Hash>, strict: bool, i: nat) {
    i > 0 && i in heads && i - 1 in heads && (strict || !Seam(c, i)) ==> Joined(c, u, heads, i)
  }

  /** The job has walked `done` linked headers up from its predecessor's head. */
  ghost predicate JobLinked(c: Config, u: Universe, st: State) {
    st.job.Some? && !st.job.value.failed ==>
      var job := st.job.value;
      && st.stored <= job.section && job.done <= c.sectionSize
      && Up(u, job.lastHead, job.done) == job.oldHead
      && (job.done == 0 ==> job.lastHead == job.oldHead)
      && (job.done > 0 ==> job.lastHead != ZERO && (job.section > 0 ==> job.oldHead != ZERO))
  }

  /** No header above block 0 names the zero hash as its parent. */
  ghost predicate ParentsNamed(u: Universe) {
    forall h: Hash :: u(h).number > 0 ==> u(h).parent != ZERO
  }

  ghost predicate Inv(c: Config, u: Universe, st: State, strict: bool) {
    && HeadsLinked(c, u, st.heads, st.stored, strict) && JobLinked(c, u, st)
    && (st.checkpoint == 0 || st.checkpoint == c.checkpointSections)
  }

  // ----- what every step keeps -----

  lemma SetValidKeeps(c: Config, u: Universe, st: State, sections: nat, strict: bool)
    requires Inv(c, u, st, strict) && sections <= st.stored
    ensures Inv(c, u, SetValid(st, sections), strict)
  {
    var st' := SetValid(st, sections);
    forall i: nat ensures Link(c, u, st'.heads, strict, i) { assert Link(c, u, st.heads, strict, i); }
  }

  lemma {:induction false} VerifyStep(c: Config, st: State, canon: Index)
    requires c.sectionSize > 0 && st.stored > 0 && st.stored > st.checkpoint
    ensures VerifyLast(c, st, canon) ==
      if LastMatches(c, st, canon) then st else VerifyLast(c, SetValid(st, st.stored - 1), canon)
  {
  }

  lemma WithoutTwice(heads: map<nat, Hash>, lo: nat, mid: nat, hi: nat)
    requires lo <= mid <= hi
    ensures Without(Without(heads, mid, hi), lo, mid) == Without(heads, lo, hi)
    ensures lo == hi ==> Without(heads, lo, hi) == heads
  {
  }

  /** Verification is one cut: how deep depends on the heads and the chain, not on the job. */
  lemma {:induction false} VerifyIsCut(c: Config, st: State, canon: Index) returns (n: nat)
    requires c.sectionSize > 0
    ensures n <= st.stored && VerifyLast(c, st, canon) == SetValid(st, n)
    decreases st.stored
  {
    n := st.stored;
    if st.stored > 0 && st.stored > st.checkpoint && !LastMatches(c, st, canon) {
      n := VerifyIsCut(c, SetValid(st, st.stored - 1), canon);
      WithoutTwice(st.heads, n, st.stored - 1, st.stored);
    } else {
      WithoutTwice(st.heads, n, n, n);
    }
  }

  lemma VerifyKeeps(c: Config, u: Universe, st: State, canon: Index, strict: bool)
    requires ConfigOk(c) && Inv(c, u, st, strict)
    ensures Inv(c, u, VerifyLast(c, st, canon), strict)
  {
    var n := VerifyIsCut(c, st, canon);
    SetValidKeeps(c, u, st, n, strict);
  }

  /** Verification drops exactly the sections above the highest one, not covered by an accepted checkpoint,
      whose head is canonical. */
  lemma {:induction false} VerifyStops(c: Config, st: State, canon: Index)
    requires ConfigOk(c)
    ensures var v := VerifyLast(c, st, canon);
      && v.stored <= st.stored && v.job == st.job && v.checkpoint == st.checkpoint && v.known == st.known
      && v.heads.Keys <= st.heads.Keys
      && (v.stored > 0 && v.stored > v.checkpoint ==> LastMatches(c, v, canon))
      && (forall i: nat :: v.stored <= i < st.stored ==> Dropped(c, st, canon, i))
    decreases st.stored
  {
    if st.stored > 0 && st.stored > st.checkpoint && !LastMatches(c, st, canon) {
      var st1 := SetValid(st, st.stored - 1);
      VerifyStops(c, st1, canon);
      forall i: nat | VerifyLast(c, st, canon).stored <= i < st.stored ensures Dropped(c, st, canon, i) {
        if i < st.stored - 1 {
          assert Dropped(c, st1, canon, i);
          assert SectionHead(st1, i) == SectionHead(st, i);
        }
      }
    }
  }

  /** Section `i` is above an accepted checkpoint, and its head is not the canonical hash of its height. */
  ghost predicate Dropped(c: Config, st: State, canon: Index, i: nat)
    requires c.sectionSize > 0
  {
    i >= st.checkpoint && SectionHead(st, i) != Read(canon, LastNumber(c, i))
  }

  /** Storing a finished section extends the linked heads by one. */
  lemma FinishKeeps(c: Config, u: Universe, st: State, strict: bool)
    requires ConfigOk(c) && Inv(c, u, st, strict)
    requires st.job.Some? && !st.job.value.failed && st.job.value.done == c.sectionSize
    requires st.job.value.section == 0 || st.job.value.oldHead == SectionHead(st, st.job.value.section - 1)
    ensures var job := st.job.value;
            Inv(c, u, SetValid(st.(job := None, heads := st.heads[job.section := job.lastHead]), job.section + 1), strict)
  {
    var job := st.job.value;
    assert st.stored == job.section;
    var heads := st.heads[job.section := job.lastHead];
    var st' := SetValid(st.(job := None, heads := heads), job.section + 1);
    assert st'.heads == heads;
    forall i: nat ensures Link(c, u, heads, strict, i) {
      if i < job.section { assert Link(c, u, st.heads, strict, i); }
    }
  }

  lemma NewHeadKeeps(c: Config, u: Universe, st: State, head: nat, reorg: bool, canon: Index, strict: bool)
    requires ConfigOk(c) && Inv(c, u, st, strict)
    ensures Inv(c, u, NewHead(c, st, head, reorg, canon), strict)
  {
    if reorg {
      var sections := WholeSections(c, head + 1);
      var stored := if sections < st.checkpoint then st.checkpoint else sections;
      var known := if sections < st.checkpoint then 0 else sections;
      var st1 := if known < st.known then st.(known := known) else st;
      assert Inv(c, u, st1, strict);
      if stored < st1.stored { SetValidKeeps(c, u, st1, stored, strict); }
    } else {
      assert Inv(c, u, st.(known := NewHead(c, st, head, reorg, canon).known), strict);
    }
  }

  lemma BeginKeeps(c: Config, u: Universe, st: State, canon: Index, strict: bool)
    requires ConfigOk(c) && Inv(c, u, st, strict)
    ensures Inv(c, u, Begin(c, st, canon), strict)
  {
    VerifyKeeps(c, u, st, canon, strict);
    VerifyStops(c, st, canon);
  }

  /** A header is accepted only as a child of the last one, whatever the two reads saw. */
  lemma ReadKeeps(c: Config, u: Universe, st: State, first: View, second: View, strict: bool)
    requires ConfigOk(c) && ParentsNamed(u) && Inv(c, u, st, strict)
    ensures Inv(c, u, ReadNext(c, u, st, first, second), strict)
  {
  }

  /** The invariant does not depend on the known sections, and without a job it asks less. */
  lemma DropJob(c: Config, u: Universe, st: State, known: nat, strict: bool)
    requires Inv(c, u, st, strict)
    ensures Inv(c, u, st.(job := None), strict)
    ensures Inv(c, u, st.(known := known), strict)
  {
  }

  lemma FinishEventKeeps(c: Config, u: Universe, st: State, canon: Index, strict: bool)
    requires ConfigOk(c) && Inv(c, u, st, strict)
    ensures Inv(c, u, Finish(c, st, canon), strict)
  {
    if st.job.Some? && (st.job.value.failed || st.job.value.done == c.sectionSize) {
      var job := st.job.value;
      if !job.failed && (job.section == 0 || job.oldHead == SectionHead(st, job.section - 1)) {
        FinishKeeps(c, u, st, strict);
      } else {
        DropJob(c, u, st, 0, strict);
        VerifyKeeps(c, u, st.(job := None), canon, strict);
        var v := VerifyLast(c, st.(job := None), canon);
        DropJob(c, u, v, v.stored, strict);
      }
    }
  }

  /** A start keeps the invariant but for the exception; on an empty index it makes none. */
  lemma StartKeeps(c: Config, u: Universe, st: State, adds: bool, strict: bool)
    requires ConfigOk(c) && Inv(c, u, st, strict) && (strict ==> st == EMPTY)
    ensures Inv(c, u, Start(c, st, adds), strict)
  {
    var st1 := st.(known := 0, checkpoint := 0, job := None);
    var st' := Start(c, st, adds);
    if st' != st1 {
      assert st'.heads == st.heads[c.checkpointSections - 1 := c.checkpointHead];
      forall i: nat ensures Link(c, u, st'.heads, strict, i) { assert Link(c, u, st.heads, strict, i); }
    }
  }

  /** Every event keeps the invariant, whatever the chain database looks like. */
  lemma StepKeepsInv(c: Config, u: Universe, st: State, e: Event, strict: bool)
    requires ConfigOk(c) && ParentsNamed(u) && Inv(c, u, st, strict) && (strict ==> !e.Starts?)
    ensures Inv(c, u, Next(c, u, st, e), strict)
  {
    match e
    case HeadEvent(head, reorg, view) => NewHeadKeeps(c, u, st, head, reorg, view.canon, strict);
    case UpdateBegins(view) => BeginKeeps(c, u, st, view.canon, strict);
    case HeaderRead(first, second) => ReadKeeps(c, u, st, first, second, strict);
    case BackendFails =>
    case BackendResetFails => SetValidKeeps(c, u, st, 0, strict);
    case UpdateFinishes(view) => FinishEventKeeps(c, u, st, view.canon, strict);
    case SectionsQuery(view) => VerifyKeeps(c, u, st, view.canon, strict);
    case Starts(adds) => StartKeeps(c, u, st, adds, strict);
  }

  // ----- what the invariant gives -----

  /** On a linked index, `k` parent steps are `k` heights. */
  lemma {:induction false} UpIsIndex(u: Universe, canon: Index, n: nat, k: nat)
    requires k <= n && LinkedIndex(u, canon, n - k) && Read(canon, n) != ZERO
    ensures Read(canon, n - k) != ZERO && Up(u, Read(canon, n), k) == Read(canon, n - k)
    decreases k
  {
    if k > 0 { UpIsIndex(u, canon, n - 1, k - 1); }
  }

  /** From section `i` up to the last no head is missing, and each is an ancestor of the next. */
  ghost predicate Tied(c: Config, u: Universe, st: State, i: nat) {
    && i < st.stored
    && (forall j: nat :: i <= j < st.stored ==> j in st.heads)
    && (forall j: nat :: i < j < st.stored ==> Joined(c, u, st.heads, j))
  }

  /** If the last head is canonical, so is every one tied to it. */
  lemma {:induction false} LastImpliesAll(c: Config, u: Universe, st: State, canon: Index, i: nat)
    requires ConfigOk(c) && Tied(c, u, st, i) && st.heads[st.stored - 1] != ZERO
    requires LinkedIndex(u, canon, LastNumber(c, i))
    requires LastMatches(c, st, canon)
    ensures SectionHead(st, i) == Read(canon, LastNumber(c, i)) != ZERO
    decreases st.stored - i
  {
    if i < st.stored - 1 {
      SectionsApart(c, i);
      LastImpliesAll(c, u, st, canon, i + 1);
      assert Joined(c, u, st.heads, i + 1);
      UpIsIndex(u, canon, LastNumber(c, i + 1), c.sectionSize);
    }
  }

  lemma SectionsApart(c: Config, i: nat)
    requires c.sectionSize > 0
    ensures LastNumber(c, i + 1) == LastNumber(c, i) + c.sectionSize
  {
  }

  /** The index is linked from the lowest stored head up. */
  ghost predicate LinkedFromHeads(c: Config, u: Universe, st: State, canon: Index)
    requires c.sectionSize > 0
  {
    forall i :: i in st.heads ==> LinkedIndex(u, canon, LastNumber(c, i))
  }

  /** Every section tied to the last one is canonical in `canon`, and the last one has a head. */
  ghost predicate AllCanonical(c: Config, u: Universe, st: State, canon: Index)
    requires c.sectionSize > 0
  {
    && st.stored > 0 && Tied(c, u, st, st.stored - 1)
    && forall i: nat :: Tied(c, u, st, i) ==> st.heads[i] == Read(canon, LastNumber(c, i))
  }

  /** The sections from the checkpoint's on, all of them without a checkpoint, are tied to the last one;
      without a restart all that have a head are. */
  lemma TiedFromCheckpoint(c: Config, u: Universe, st: State, i: nat, strict: bool)
    requires HeadsLinked(c, u, st.heads, st.stored, strict) && i < st.stored
    requires c.checkpointSections <= i + 1 || (strict && i in st.heads)
    ensures Tied(c, u, st, i)
  {
    forall j: nat | i < j < st.stored ensures Joined(c, u, st.heads, j) {
      assert Link(c, u, st.heads, strict, j) && j in st.heads && j - 1 in st.heads;
    }
  }

  /** The sections reported are right exactly if the last of them has a head and that is canonical. */
  lemma CanonicalIff(c: Config, u: Universe, st: State, canon: Index, strict: bool)
    requires ConfigOk(c) && HeadsLinked(c, u, st.heads, st.stored, strict) && LinkedFromHeads(c, u, st, canon) && st.stored > 0
    ensures AllCanonical(c, u, st, canon) <==> st.stored - 1 in st.heads && LastMatches(c, st, canon)
  {
    if st.stored - 1 in st.heads && LastMatches(c, st, canon) {
      forall i: nat | Tied(c, u, st, i) ensures st.heads[i] == Read(canon, LastNumber(c, i)) {
        LastImpliesAll(c, u, st, canon, i);
      }
    }
  }

  /** A `Sections` query that ends above an accepted checkpoint has compared the last section: it reports
      canonical sections exactly if that one has a head, as it does from the checkpoint's section on. */
  lemma SectionsCanonical(c: Config, u: Universe, st: State, canon: Index, strict: bool)
    requires ConfigOk(c) && Inv(c, u, st, strict) && LinkedFromHeads(c, u, st, canon)
    requires VerifyLast(c, st, canon).stored > st.checkpoint
    ensures var v := VerifyLast(c, st, canon);
      && (AllCanonical(c, u, v, canon) <==> v.stored - 1 in v.heads)
      && (v.stored >= c.checkpointSections ==> AllCanonical(c, u, v, canon))
  {
    var v := VerifyLast(c, st, canon);
    VerifyKeeps(c, u, st, canon, strict);
    VerifyStops(c, st, canon);
    CanonicalIff(c, u, v, canon, strict);
  }

  /** At or below an accepted checkpoint nothing is compared, so the answer is canonical only by luck: the
      query leaves the state alone, and its sections are canonical exactly if the last one is. */
  lemma SectionsBelowCheckpoint(c: Config, u: Universe, st: State, canon: Index, strict: bool)
    requires ConfigOk(c) && Inv(c, u, st, strict) && LinkedFromHeads(c, u, st, canon) && 0 < st.stored <= st.checkpoint
    ensures VerifyLast(c, st, canon) == st
    ensures AllCanonical(c, u, st, canon) <==> st.stored - 1 in st.heads && LastMatches(c, st, canon)
  {
    CanonicalIff(c, u, st, canon, strict);
  }

  /** What a query may be trusted for. */
  ghost predicate Answers(c: Config, u: Universe, st: State, canon: Index)
    requires c.sectionSize > 0
  {
    && (st.stored > st.checkpoint && st.stored >= c.checkpointSections ==> AllCanonical(c, u, st, canon))
    && (st.stored > st.checkpoint ==> (AllCanonical(c, u, st, canon) <==> st.stored - 1 in st.heads))
    && (st.stored > 0 ==> (AllCanonical(c, u, st, canon) <==> st.stored - 1 in st.heads && LastMatches(c, st, canon)))
  }

  lemma QueryAnswer(c: Config, u: Universe, st: State, canon: Index, strict: bool)
    requires ConfigOk(c) && Inv(c, u, st, strict) && LinkedFromHeads(c, u, st, canon)
    ensures Answers(c, u, VerifyLast(c, st, canon), canon)
  {
    var v := VerifyLast(c, st, canon);
    if v.stored > st.checkpoint { SectionsCanonical(c, u, st, canon, strict); }
    VerifyKeeps(c, u, st, canon, strict);
    VerifyStops(c, st, canon);
    if v.stored > 0 { CanonicalIff(c, u, v, canon, strict); }
  }

  // ----- runs -----

  ghost predicate IsRun(c: Config, u: Universe, trace: seq<State>, events: seq<Event>)
    requires c.sectionSize > 0
  {
    && |trace| == |events| + 1
    && forall i :: 0 <= i < |events| ==> trace[i + 1] == Next(c, u, trace[i], events[i])
  }

  const EMPTY: State := State(map[], 0, 0, 0, None)

  /** An empty index, or one holding nothing but the checkpoint. */
  function Initial(c: Config): State { Start(c, EMPTY, true) }

  lemma InitialInv(c: Config, u: Universe, strict: bool)
    requires ConfigOk(c)
    ensures Inv(c, u, Initial(c), strict)
  {
    StartKeeps(c, u, EMPTY, true, strict);
  }

  /** The process has not been restarted before event `n`. */
  predicate Unbroken(events: seq<Event>, n: nat) {
    forall i :: 0 <= i < n && i < |events| ==> !events[i].Starts?
  }

  lemma {:induction false} RunKeepsInv(c: Config, u: Universe, trace: seq<State>, events: seq<Event>, i: nat, strict: bool)
    requires ConfigOk(c) && ParentsNamed(u) && IsRun(c, u, trace, events) && trace[0] == Initial(c) && i < |trace|
    requires strict ==> Unbroken(events, i)
    ensures Inv(c, u, trace[i], strict)
    decreases i
  {
    if i == 0 { InitialInv(c, u, strict); } else {
      RunKeepsInv(c, u, trace, events, i - 1, strict);
      StepKeepsInv(c, u, trace[i - 1], events[i - 1], strict);
    }
  }

  /** Over every interleaving from a fresh index, restarts included: a `Sections` query that ends above an
      accepted checkpoint, on an index linked from the stored heads up, reports canonical sections exactly if
      its last section has a head; and it has one unless the query ends below the configured checkpoint.
      Then all sections from the checkpoint's on are canonical, and without a restart all that have a head. */
  lemma RunSectionsCanonical(c: Config, u: Universe, trace: seq<State>, events: seq<Event>, i: nat)
    requires ConfigOk(c) && ParentsNamed(u) && IsRun(c, u, trace, events) && trace[0] == Initial(c) && i < |events|
    requires events[i].SectionsQuery? && LinkedFromHeads(c, u, trace[i], events[i].view.canon)
    requires trace[i + 1].stored > trace[i].checkpoint
    ensures AllCanonical(c, u, trace[i + 1], events[i].view.canon) <==> trace[i + 1].stored - 1 in trace[i + 1].heads
    ensures trace[i + 1].stored >= c.checkpointSections ==>
      && AllCanonical(c, u, trace[i + 1], events[i].view.canon)
      && forall k: nat :: c.checkpointSections <= k + 1 && k < trace[i + 1].stored ==>
           SectionHead(trace[i + 1], k) == Read(events[i].view.canon, LastNumber(c, k))
    ensures Unbroken(events, i) ==>
      && (trace[i + 1].heads != map[] ==> AllCanonical(c, u, trace[i + 1], events[i].view.canon))
      && forall k :: k in trace[i + 1].heads ==> trace[i + 1].heads[k] == Read(events[i].view.canon, LastNumber(c, k))
  {
    var st, canon := trace[i + 1], events[i].view.canon;
    RunKeepsInv(c, u, trace, events, i, false);
    RunKeepsInv(c, u, trace, events, i + 1, false);
    SectionsCanonical(c, u, trace[i], canon, false);
    forall k: nat | c.checkpointSections <= k + 1 && k < st.stored && c.checkpointSections <= st.stored
      ensures SectionHead(st, k) == Read(canon, LastNumber(c, k))
    {
      TiedFromCheckpoint(c, u, st, k, false);
    }
    if Unbroken(events, i) {
      RunKeepsInv(c, u, trace, events, i + 1, true);
      forall k | k in st.heads ensures st.heads[k] == Read(canon, LastNumber(c, k)) {
        TiedFromCheckpoint(c, u, st, k, true);
      }
    }
  }

  /** After a restart the checkpoint is ignored.  If the chain does not reach it, the query rolls back below
      it, takes the missing head of a section for the missing block of its height, and reports that section
      with the zero hash. */
  lemma ZeroHeadReported() returns (c: Config, u: Universe, trace: seq<State>, events: seq<Event>)
    ensures ConfigOk(c) && ParentsNamed(u) && IsRun(c, u, trace, events) && trace[0] == Initial(c) && |events| == 2
    ensures events[0] == Starts(true) && events[1].SectionsQuery? && LinkedFromHeads(c, u, trace[1], events[1].view.canon)
    ensures 0 < trace[2].stored < c.checkpointSections && SectionHead(trace[2], trace[2].stored - 1) == ZERO
  {
    c, u := SampleConfig, SampleHeader;
    var view := View(map[0 := 10], {10});
    events := [Starts(true), SectionsQuery(view)];
    trace := Trace(Stepper(c, u), Initial(c), events);
    TraceIsRun(c, u, Initial(c), events);
    ZeroRun(events);
    NothingAbove(view.canon);
  }

  lemma {:induction false} ZeroRun(es: seq<Event>)
    requires |es| == 2 && es[0] == Starts(true) && es[1].SectionsQuery?
    requires Read(es[1].view.canon, 3) == Read(es[1].view.canon, 1) == ZERO
    ensures var step := Stepper(SampleConfig, SampleHeader);
      && RunAll(step, Initial(SampleConfig), es[..1]) == State(map[1 := 13], 2, 0, 0, None)
      && RunAll(step, Initial(SampleConfig), es) == State(map[], 1, 0, 0, None)
  {
    StartStep();
    QueryStep(es[1]);
    TwoSteps(Stepper(SampleConfig, SampleHeader), Initial(SampleConfig), es,
             State(map[1 := 13], 2, 0, 0, None), State(map[], 1, 0, 0, None));
  }

  lemma {:induction false} TwoSteps<S, E>(step: (S, E) -> S, s0: S, es: seq<E>, s1: S, s2: S)
    requires |es| == 2 && step(s0, es[0]) == s1 && step(s1, es[1]) == s2
    ensures RunAll(step, s0, es[..1]) == s1 && RunAll(step, s0, es) == s2
  {
    assert es[..0] == [] && es[..2] == es;
    RunPrefix(step, s0, es, 0);
    RunPrefix(step, s0, es, 1);
  }

  lemma StartStep()
    ensures Stepper(SampleConfig, SampleHeader)(Initial(SampleConfig), Starts(true)) == State(map[1 := 13], 2, 0, 0, None)
  {
    CheckpointIgnored();
  }

  lemma QueryStep(e: Event)
    requires e.SectionsQuery? && Read(e.view.canon, 3) == Read(e.view.canon, 1) == ZERO
    ensures Stepper(SampleConfig, SampleHeader)(State(map[1 := 13], 2, 0, 0, None), e) == State(map[], 1, 0, 0, None)
  {
    RollsBackToZero(e.view.canon);
  }

  lemma CheckpointIgnored()
    ensures Start(SampleConfig, Initial(SampleConfig), true) == State(map[1 := 13], 2, 0, 0, None)
  {
    assert Initial(SampleConfig).heads == map[1 := 13];
  }

  lemma NothingAbove(canon: Index)
    requires canon == map[0 := 10]
    ensures LinkedFromHeads(SampleConfig, SampleHeader, State(map[1 := 13], 2, 0, 0, None), canon)
  {
    assert LinkedIndex(SampleHeader, canon, LastNumber(SampleConfig, 1));
  }

  lemma RollsBackToZero(canon: Index)
    requires Read(canon, 3) == Read(canon, 1) == ZERO
    ensures VerifyLast(SampleConfig, State(map[1 := 13], 2, 0, 0, None), canon) == State(map[], 1, 0, 0, None)
  {
    var s1, s2 := State(map[1 := 13], 2, 0, 0, None), State(map[], 1, 0, 0, None);
    assert SetValid(s1, 1).heads == map[];
    assert VerifyLast(SampleConfig, s2, canon) == s2;
  }

  /** The states that a sequence of events passes through. */
  ghost function Trace<S, E>(step: (S, E) -> S, s0: S, es: seq<E>): seq<S> {
    seq(|es| + 1, i requires 0 <= i <= |es| => RunAll(step, s0, es[..i]))
  }

  lemma {:induction false} RunPrefix<S, E>(step: (S, E) -> S, s0: S, es: seq<E>, i: nat)
    requires i < |es|
    ensures RunAll(step, s0, es[..i + 1]) == step(RunAll(step, s0, es[..i]), es[i])
  {
    assert es[..i + 1][..i] == es[..i];
  }

  lemma {:induction false} RunBoth<S, E>(step: (S, E) -> S, s0: S, es: seq<E>, es': seq<E>)
    ensures RunAll(step, s0, es + es') == RunAll(step, RunAll(step, s0, es), es')
    decreases |es'|
  {
    if es' == [] {
      assert es + es' == es;
    } else {
      var n := |es'| - 1;
      RunBoth(step, s0, es, es'[..n]);
      assert (es + es')[..|es| + n] == es + es'[..n];
    }
  }

  lemma {:induction false} TraceIsRun(c: Config, u: Universe, st: State, es: seq<Event>)
    requires c.sectionSize > 0
    ensures IsRun(c, u, Trace(Stepper(c, u), st, es), es)
    ensures Trace(Stepper(c, u), st, es)[0] == st && Trace(Stepper(c, u), st, es)[|es|] == AfterAll(c, u, st, es)
  {
    assert es[..0] == [] && es[..|es|] == es;
    forall i | 0 <= i < |es| ensures RunAll(Stepper(c, u), st, es[..i + 1]) == Next(c, u, RunAll(Stepper(c, u), st, es[..i]), es[i]) {
      RunPrefix(Stepper(c, u), st, es, i);
    }
  }

  const SampleConfig: Config := Config(2, 0, 2, 13)
  const SampleMain: View := View(map[0 := 10, 1 := 11, 2 := 12, 3 := 13, 4 := 14, 5 := 15], {10, 11, 12, 13, 14, 15})
  const SampleFork: View := View(map[0 := 10, 1 := 21], {10, 21})

  const JobAtTwo: Job := Job(2, 13, 0, 13, false)
  const JobAtZero: Job := Job(0, ZERO, 0, ZERO, false)

  /** A failing reset drops the checkpoint's section too, and the next head starts over. */
  lemma ResetDropsCheckpoint()
    ensures Initial(SampleConfig) == State(map[1 := 13], 2, 0, 2, None)
    ensures Next(SampleConfig, SampleHeader, State(map[1 := 13], 2, 0, 2, None), HeadEvent(5, false, SampleMain))
         == State(map[1 := 13], 2, 3, 2, None)
    ensures Next(SampleConfig, SampleHeader, State(map[1 := 13], 2, 3, 2, None), UpdateBegins(SampleMain))
         == State(map[1 := 13], 2, 3, 2, Some(JobAtTwo))
    ensures Next(SampleConfig, SampleHeader, State(map[1 := 13], 2, 3, 2, Some(JobAtTwo)), BackendResetFails)
         == State(map[], 0, 3, 2, Some(JobAtTwo.(failed := true)))
    ensures Next(SampleConfig, SampleHeader, State(map[], 0, 3, 2, Some(JobAtTwo.(failed := true))), UpdateFinishes(SampleMain))
         == State(map[], 0, 0, 2, None)
    ensures Next(SampleConfig, SampleHeader, State(map[], 0, 0, 2, None), HeadEvent(5, false, SampleMain))
         == State(map[], 0, 3, 2, None)
  {
    assert Initial(SampleConfig).heads == map[1 := 13];
    assert SetValid(State(map[1 := 13], 2, 3, 2, Some(JobAtTwo)), 0).heads == map[];
  }

  /** Section 0 is processed while a fork is canonical; the reorg back drops nothing. */
  lemma ForkBegins()
    ensures Next(SampleConfig, SampleHeader, State(map[], 0, 3, 2, None), UpdateBegins(SampleFork))
         == State(map[], 0, 3, 2, Some(JobAtZero))
  {
  }

  lemma ForkIsRead(st: State)
    requires st.job == Some(JobAtZero)
    ensures Next(SampleConfig, SampleHeader, st, HeaderRead(SampleFork, SampleFork))
         == st.(job := Some(JobAtZero.(done := 1, lastHead := 10)))
  {
    assert Read(SampleFork.canon, 0) == 10 && 10 in SampleFork.stored && SampleHeader(10).number == 0;
  }

  lemma ForkIsReadOn(st: State)
    requires st.job == Some(JobAtZero.(done := 1, lastHead := 10))
    ensures Next(SampleConfig, SampleHeader, st, HeaderRead(SampleFork, SampleFork))
         == st.(job := Some(JobAtZero.(done := 2, lastHead := 21)))
  {
    assert Read(SampleFork.canon, 1) == 21 && 21 in SampleFork.stored && SampleHeader(21).number == 1;
  }

  lemma ForkIsStored()
    ensures Next(SampleConfig, SampleHeader, State(map[], 0, 3, 2, Some(JobAtZero.(done := 2, lastHead := 21))),
                 UpdateFinishes(SampleFork))
         == State(map[0 := 21], 1, 3, 2, None)
    ensures Next(SampleConfig, SampleHeader, State(map[0 := 21], 1, 3, 2, None), HeadEvent(0, true, SampleMain))
         == State(map[0 := 21], 1, 0, 2, None)
    ensures Next(SampleConfig, SampleHeader, State(map[0 := 21], 1, 0, 2, None), SectionsQuery(SampleMain))
         == State(map[0 := 21], 1, 0, 2, None)
  {
    var st := State(map[0 := 21], 0, 3, 2, None);
    assert SetValid(st, 1).heads == map[0 := 21];
  }

  lemma SampleIsLinked()
    ensures LinkedIndex(SampleHeader, SampleMain.canon, 0)
    ensures !AllCanonical(SampleConfig, SampleHeader, State(map[0 := 21], 1, 0, 2, None), SampleMain.canon)
  {
    forall n: nat | n > 0 && Read(SampleMain.canon, n) != ZERO
      ensures Read(SampleMain.canon, n - 1) != ZERO && Read(SampleMain.canon, n - 1) == SampleHeader(Read(SampleMain.canon, n)).parent
    {
      SampleRead(n);
      SampleRead(n - 1);
    }
    SampleRead(1);
    OffTheChain(SampleConfig, SampleHeader, State(map[0 := 21], 1, 0, 2, None), SampleMain.canon);
  }

  /** A single section whose head is not canonical. */
  lemma OffTheChain(c: Config, u: Universe, st: State, canon: Index)
    requires c.sectionSize > 0 && st.stored == 1 && 0 in st.heads && st.heads[0] != Read(canon, LastNumber(c, 0))
    ensures !AllCanonical(c, u, st, canon)
  {
    assert st.stored - 1 == 0;
  }

  lemma SampleRead(n: nat)
    ensures Read(SampleMain.canon, n) == if n <= 5 then 10 + n else ZERO
  {
  }

  /** A run from a fresh index with a checkpoint to a query that reports a section head off the canonical
      chain, although that chain is linked and contains the checkpoint. */
  lemma WrongSectionReported() returns (c: Config, u: Universe, trace: seq<State>, events: seq<Event>)
    ensures ConfigOk(c) && ParentsNamed(u) && IsRun(c, u, trace, events) && trace[0] == Initial(c) && |events| == 11
    ensures events[2].BackendResetFails? && events[10].SectionsQuery?
    ensures var canon := events[10].view.canon;
            && LinkedIndex(u, canon, 0) && c.checkpointSections == 2 && Read(canon, LastNumber(c, 1)) == c.checkpointHead
            && 0 < trace[11].stored <= trace[11].checkpoint && !AllCanonical(c, u, trace[11], canon)
  {
    c, u := SampleConfig, SampleHeader;
    events := ResetEvents + ForkEvents;
    trace := Trace(Stepper(c, u), Initial(c), events);
    TraceIsRun(c, u, Initial(c), events);
    ResetRun();
    ForkRun();
    RunBoth(Stepper(c, u), Initial(c), ResetEvents, ForkEvents);
    SampleIsLinked();
  }

  const ResetEvents: seq<Event> :=
    [HeadEvent(5, false, SampleMain), UpdateBegins(SampleMain), BackendResetFails, UpdateFinishes(SampleMain),
     HeadEvent(5, false, SampleMain)]
  const ForkEvents: seq<Event> :=
    [UpdateBegins(SampleFork), HeaderRead(SampleFork, SampleFork), HeaderRead(SampleFork, SampleFork),
     UpdateFinishes(SampleFork), HeadEvent(0, true, SampleMain), SectionsQuery(SampleMain)]

  lemma {:induction false} ResetRun()
    ensures AfterAll(SampleConfig, SampleHeader, Initial(SampleConfig), ResetEvents) == State(map[], 0, 3, 2, None)
  {
    var step, st, es := Stepper(SampleConfig, SampleHeader), Initial(SampleConfig), ResetEvents;
    ResetDropsCheckpoint();
    assert es[..0] == [] && es[..5] == es;
    RunPrefix(step, st, es, 0);
    RunPrefix(step, st, es, 1);
    RunPrefix(step, st, es, 2);
    RunPrefix(step, st, es, 3);
    RunPrefix(step, st, es, 4);
  }

  lemma {:induction false} ForkRun()
    ensures AfterAll(SampleConfig, SampleHeader, State(map[], 0, 3, 2, None), ForkEvents) == State(map[0 := 21], 1, 0, 2, None)
  {
    var step, st, es := Stepper(SampleConfig, SampleHeader), State(map[], 0, 3, 2, None), ForkEvents;
    ForkBegins();
    ForkIsRead(State(map[], 0, 3, 2, Some(JobAtZero)));
    ForkIsReadOn(State(map[], 0, 3, 2, Some(JobAtZero.(done := 1, lastHead := 10))));
    ForkIsStored();
    assert es[..0] == [] && es[..6] == es;
    RunPrefix(step, st, es, 0);
    RunPrefix(step, st, es, 1);
    RunPrefix(step, st, es, 2);
    RunPrefix(step, st, es, 3);
    RunPrefix(step, st, es, 4);
    RunPrefix(step, st, es, 5);
  }

  /** Headers 10, 11, ... are one chain, and 21 is another child of 10. */
  function SampleHeader(h: Hash): Block {
    if h == 21 then Block(h, 10, 1, 0, 0, 0, [])
    else if h <= 10 then Block(h, ZERO, 0, 0, 0, 0, [])
    else Block(h, h - 1, h - 10, 0, 0, 0, [])
  }

  // ----- one update -----

  /** The `k`-th header of a section is found, follows its predecessor and pleases the backend. */
  ghost predicate Accepts(
      c: Config, u: Universe, views: nat -> View, section: nat, oldHead: Hash, backend: nat -> bool, k: nat)
  {
    var number := FirstNumber(c, section) + k;
    var hash := Read(views(2 * k).canon, number);
    && hash != ZERO && hash in views(2 * k + 1).stored && u(hash).number == number
    && u(hash).parent == (if k == 0 then oldHead else Read(views(2 * k - 2).canon, FirstNumber(c, section) + k - 1))
    && backend(k)
  }

  /** `k` steps of a numbered iteration. */
  ghost function Iterate<S>(step: (S, nat) -> S, s0: S, k: nat): S {
    if k == 0 then s0 else step(Iterate(step, s0, k - 1), k - 1)
  }

  /** What holds at the start and is kept by every step holds at the end. */
  lemma {:induction false} IterateKeeps<S(!new)>(step: (S, nat) -> S, s0: S, k: nat, p: (S, nat) -> bool)
    requires p(s0, 0) && forall s: S, j: nat :: j < k && p(s, j) ==> p(step(s, j), j + 1)
    ensures p(Iterate(step, s0, k), k)
    decreases k
  {
    if k > 0 { IterateKeeps(step, s0, k - 1, p); }
  }

  /** The first `k` headers of a section as events. */
  ghost function AfterReads(c: Config, u: Universe, st: State, views: nat -> View, backend: nat -> bool, k: nat): State
    requires c.sectionSize > 0
  {
    Iterate((s: State, j: nat) => AfterRead(c, u, s, views, backend, j), st, k)
  }

  /** One header, and the backend's refusal of it. */
  ghost function AfterRead(c: Config, u: Universe, st: State, views: nat -> View, backend: nat -> bool, k: nat): State
    requires c.sectionSize > 0
  {
    var st1 := Next(c, u, st, HeaderRead(views(2 * k), views(2 * k + 1)));
    if backend(k) then st1 else Next(c, u, st1, BackendFails)
  }

  /** What may happen while a section is processed without the lock. */
  predicate Arrival(e: Event) { e.HeadEvent? || e.SectionsQuery? }

  predicate Arrivals(es: seq<Event>) { forall i :: 0 <= i < |es| ==> Arrival(es[i]) }

  /** The state after a sequence of events. */
  ghost function RunAll<S, E>(step: (S, E) -> S, s0: S, es: seq<E>): S {
    if es == [] then s0 else step(RunAll(step, s0, es[..|es| - 1]), es[|es| - 1])
  }

  ghost function Stepper(c: Config, u: Universe): (State, Event) -> State {
    (st: State, e: Event) => if c.sectionSize > 0 then Next(c, u, st, e) else st
  }

  ghost function AfterAll(c: Config, u: Universe, st: State, es: seq<Event>): State {
    RunAll(Stepper(c, u), st, es)
  }

  /** One whole update as events: the reset and the reads of `sectionSize` headers, with the backend's
      refusals, between the two locked halves; heads and queries arrive before and after. */
  ghost function AfterUpdate(c: Config, u: Universe, st: State, begin: View, early: seq<Event>, resets: bool,
                             views: nat -> View, backend: nat -> bool, late: seq<Event>, finish: View): State
    requires c.sectionSize > 0
  {
    var st1 := AfterAll(c, u, Next(c, u, st, UpdateBegins(begin)), early);
    var st2 := if resets then Processed(c, u, st1, views, backend) else Next(c, u, st1, BackendResetFails);
    Next(c, u, AfterAll(c, u, st2, late), UpdateFinishes(finish))
  }

  /** The reads of a section, and the backend's commit. */
  ghost function Processed(c: Config, u: Universe, st: State, views: nat -> View, backend: nat -> bool): State
    requires c.sectionSize > 0
  {
    var st' := AfterReads(c, u, st, views, backend, c.sectionSize);
    if backend(c.sectionSize) then st' else Next(c, u, st', BackendFails)
  }

  ghost predicate AllAccepted(
      c: Config, u: Universe, views: nat -> View, section: nat, oldHead: Hash, backend: nat -> bool, k: nat)
  {
    forall j: nat :: j < k ==> Accepts(c, u, views, section, oldHead, backend, j)
  }

  /** `st'` is `st` with the job `k` accepted headers further, or failed. */
  ghost predicate ReadSoFar(c: Config, u: Universe, st: State, views: nat -> View, backend: nat -> bool, k: nat, st': State)
    requires st.job.Some?
  {
    var job := st.job.value;
    && st'.job.Some? && st' == st.(job := st'.job)
    && st'.job.value.section == job.section && st'.job.value.oldHead == job.oldHead
    && (st'.job.value.failed <==> !AllAccepted(c, u, views, job.section, job.oldHead, backend, k))
    && (!st'.job.value.failed ==>
          && st'.job.value.done == k
          && st'.job.value.lastHead == if k == 0 then job.oldHead
                                       else Read(views(2 * k - 2).canon, FirstNumber(c, job.section) + k - 1))
  }

  lemma ReadStep(c: Config, u: Universe, st: State, views: nat -> View, backend: nat -> bool, k: nat, st': State)
    requires c.sectionSize > 0 && k < c.sectionSize && st.job.Some? && ReadSoFar(c, u, st, views, backend, k, st')
    ensures ReadSoFar(c, u, st, views, backend, k + 1, AfterRead(c, u, st', views, backend, k))
  {
    var job := st.job.value;
    assert AllAccepted(c, u, views, job.section, job.oldHead, backend, k + 1)
      <==> AllAccepted(c, u, views, job.section, job.oldHead, backend, k)
           && Accepts(c, u, views, job.section, job.oldHead, backend, k);
    assert 2 * (k + 1) - 2 == 2 * k;
  }

  /** The reads as events agree with the reads of `ProcessSection`. */
  lemma {:induction false} ReadsAgree(c: Config, u: Universe, st: State, views: nat -> View, backend: nat -> bool, k: nat)
    requires c.sectionSize > 0 && k <= c.sectionSize
    requires st.job.Some? && st.job.value.done == 0 && !st.job.value.failed && st.job.value.lastHead == st.job.value.oldHead
    ensures ReadSoFar(c, u, st, views, backend, k, AfterReads(c, u, st, views, backend, k))
  {
    var step := (s: State, j: nat) => AfterRead(c, u, s, views, backend, j);
    var p := (s: State, j: nat) => ReadSoFar(c, u, st, views, backend, j, s);
    forall s: State, j: nat | j < k && p(s, j) ensures p(step(s, j), j + 1) {
      ReadStep(c, u, st, views, backend, j, s);
    }
    IterateKeeps(step, st, k, p);
  }

  /** An update that nothing disturbs: it stores exactly the next section after the last valid one, with
      the head of the headers read, and leaves what is known; or it fails, and then takes nothing for known
      that is not stored. */
  lemma QuietUpdate(c: Config, u: Universe, st: State, begin: View, resets: bool, views: nat -> View,
                    backend: nat -> bool, finish: View)
    requires ConfigOk(c) && st.job.None? && st.known > st.stored
    ensures var v := VerifyLast(c, st, begin.canon);
      var oldHead := if v.stored > 0 then SectionHead(v, v.stored - 1) else ZERO;
      var st' := AfterUpdate(c, u, st, begin, [], resets, views, backend, [], finish);
      if resets && backend(c.sectionSize) && AllAccepted(c, u, views, v.stored, oldHead, backend, c.sectionSize) then
        && st'.stored == v.stored + 1 && st'.known == st.known && st'.job.None? && st'.checkpoint == st.checkpoint
        && st'.heads == v.heads[v.stored := Read(views(2 * c.sectionSize - 2).canon, LastNumber(c, v.stored))]
      else
        && st'.job.None? && st'.known == st'.stored
        && st'.stored == if resets then VerifyLast(c, v, finish.canon).stored else 0
  {
    var st1 := Begin(c, st, begin.canon);
    BeginIs(c, st, begin.canon);
    QuietIs(c, u, st, begin, resets, views, backend, finish);
    var v := VerifyLast(c, st, begin.canon);
    if resets {
      ProcessedIs(c, u, st1, views, backend);
      var st2 := Processed(c, u, st1, views, backend);
      if st2.job.value.failed {
        FailureDrops(c, v, st2, finish.canon);
      } else {
        SuccessStores(c, v, st2, finish.canon);
      }
    } else {
      FailureDrops(c, SetValid(v, 0), ResetFails(st1), finish.canon);
    }
  }

  lemma BeginIs(c: Config, st: State, canon: Index)
    requires ConfigOk(c) && st.job.None? && st.known > st.stored
    ensures var v := VerifyLast(c, st, canon);
      var oldHead := if v.stored > 0 then SectionHead(v, v.stored - 1) else ZERO;
      && Begin(c, st, canon) == v.(job := Some(Job(v.stored, oldHead, 0, oldHead, false)))
      && v.job.None? && v.known == st.known && v.checkpoint == st.checkpoint
  {
    VerifyStops(c, st, canon);
  }

  lemma {:induction false} QuietIs(c: Config, u: Universe, st: State, begin: View, resets: bool, views: nat -> View,
                                   backend: nat -> bool, finish: View)
    requires ConfigOk(c)
    ensures var st1 := Begin(c, st, begin.canon);
      AfterUpdate(c, u, st, begin, [], resets, views, backend, [], finish)
      == Finish(c, if resets then Processed(c, u, st1, views, backend) else ResetFails(st1), finish.canon)
  {
  }

  /** The middle of an update in the terms of its reads. */
  lemma {:induction false} ProcessedIs(c: Config, u: Universe, st: State, views: nat -> View, backend: nat -> bool)
    requires c.sectionSize > 0
    requires st.job.Some? && st.job.value.done == 0 && !st.job.value.failed && st.job.value.lastHead == st.job.value.oldHead
    ensures var job, st' := st.job.value, Processed(c, u, st, views, backend);
      && st'.job.Some? && st' == st.(job := st'.job)
      && st'.job.value.section == job.section && st'.job.value.oldHead == job.oldHead
      && (st'.job.value.failed
          <==> !(backend(c.sectionSize) && AllAccepted(c, u, views, job.section, job.oldHead, backend, c.sectionSize)))
      && (!st'.job.value.failed ==>
            && st'.job.value.done == c.sectionSize
            && st'.job.value.lastHead == Read(views(2 * c.sectionSize - 2).canon, LastNumber(c, job.section)))
  {
    ReadsAgree(c, u, st, views, backend, c.sectionSize);
  }

  lemma SuccessStores(c: Config, v: State, st: State, canon: Index)
    requires ConfigOk(c) && st.job.Some? && st == v.(job := st.job) && !st.job.value.failed && st.job.value.done == c.sectionSize
    requires st.job.value.section == v.stored
    requires st.job.value.oldHead == if v.stored > 0 then SectionHead(v, v.stored - 1) else ZERO
    ensures Finish(c, st, canon) ==
      v.(job := None, stored := v.stored + 1, heads := v.heads[v.stored := st.job.value.lastHead])
  {
    NothingToDrop(v.heads[v.stored := st.job.value.lastHead], v.stored + 1, v.stored);
  }

  lemma FailureDrops(c: Config, v: State, st: State, canon: Index)
    requires ConfigOk(c) && st.job.Some? && st == v.(job := st.job) && st.job.value.failed
    ensures var st' := Finish(c, st, canon);
      st'.job.None? && st'.known == st'.stored == VerifyLast(c, v, canon).stored
  {
    assert st.(job := None) == v.(job := None);
    VerifyIgnoresJob(c, v, canon, None);
    VerifyStops(c, v, canon);
  }

  lemma NothingToDrop(heads: map<nat, Hash>, lo: nat, hi: nat)
    requires hi <= lo
    ensures Without(heads, lo, hi) == heads
  {
  }

  /** How far a failed job came does not matter. */
  lemma FailureForgets(c: Config, st: State, job: Job, canon: Index)
    requires ConfigOk(c) && st.job.Some? && st.job.value.failed && job.failed
    ensures Finish(c, st, canon) == Finish(c, st.(job := Some(job)), canon)
  {
    assert st.(job := None) == st.(job := Some(job)).(job := None);
  }

  lemma {:induction false} VerifyIgnoresJob(c: Config, st: State, canon: Index, job: Option<Job>)
    requires c.sectionSize > 0
    ensures VerifyLast(c, st.(job := job), canon) == VerifyLast(c, st, canon).(job := job)
    decreases st.stored
  {
    if st.stored > 0 && st.stored > st.checkpoint && !LastMatches(c, st, canon) {
      assert SetValid(st.(job := job), st.stored - 1) == SetValid(st, st.stored - 1).(job := job);
      VerifyIgnoresJob(c, SetValid(st, st.stored - 1), canon, job);
    }
  }

  /** Heads and queries neither see nor touch the running job. */
  lemma ArrivalIgnoresJob(c: Config, u: Universe, st: State, e: Event, job: Option<Job>)
    requires c.sectionSize > 0 && Arrival(e)
    ensures Next(c, u, st.(job := job), e) == Next(c, u, st, e).(job := job)
  {
    if e.SectionsQuery? {
      VerifyIgnoresJob(c, st, e.view.canon, job);
    } else {
      NewHeadIgnoresJob(c, st, e.head, e.reorg, e.view.canon, job);
    }
  }

  lemma NewHeadIgnoresJob(c: Config, st: State, head: nat, reorg: bool, canon: Index, job: Option<Job>)
    requires c.sectionSize > 0
    ensures NewHead(c, st.(job := job), head, reorg, canon) == NewHead(c, st, head, reorg, canon).(job := job)
  {
  }

  lemma {:induction false} ArrivalsIgnoreJob(c: Config, u: Universe, st: State, es: seq<Event>, job: Option<Job>)
    requires c.sectionSize > 0 && Arrivals(es)
    ensures AfterAll(c, u, st.(job := job), es) == AfterAll(c, u, st, es).(job := job)
    decreases |es|
  {
    if es != [] {
      var n := |es| - 1;
      ArrivalsIgnoreJob(c, u, st, es[..n], job);
      ArrivalIgnoresJob(c, u, AfterAll(c, u, st, es[..n]), es[n], job);
    }
  }

  lemma ReadSeesJob(c: Config, u: Universe, st: State, st': State, first: View, second: View)
    requires st.job == st'.job
    ensures ReadNext(c, u, st', first, second) == st'.(job := ReadNext(c, u, st, first, second).job)
  {
  }

  /** It makes no difference whether a head or a query arrives before or after a header is read. */
  lemma ReadsCommute(c: Config, u: Universe, st: State, e: Event, first: View, second: View)
    requires c.sectionSize > 0 && Arrival(e)
    ensures Next(c, u, Next(c, u, st, e), HeaderRead(first, second)) == Next(c, u, Next(c, u, st, HeaderRead(first, second)), e)
  {
    var st' := Next(c, u, st, HeaderRead(first, second));
    var after := Next(c, u, st, e);
    ArrivalIgnoresJob(c, u, st, e, st.job);
    ArrivalIgnoresJob(c, u, st, e, st'.job);
    assert st.(job := st.job) == st && st.(job := st'.job) == st';
    assert after.job == st.job && Next(c, u, st', e) == after.(job := st'.job);
    ReadSeesJob(c, u, st, after, first, second);
  }

  /** Handing the result of `ProcessSection` to the second half is the same as the events. */
  lemma UpdateAgrees(c: Config, u: Universe, st: State, views: nat -> View, backend: nat -> bool, late: seq<Event>,
                     finish: View, st': State)
    requires ConfigOk(c) && Arrivals(late)
    requires st.job.Some? && st.job.value.done == 0 && !st.job.value.failed && st.job.value.lastHead == st.job.value.oldHead
    requires st'.job.Some? && st' == st.(job := st'.job)
    requires var job := st.job.value; var last := Read(views(2 * c.sectionSize - 2).canon, LastNumber(c, job.section));
             if backend(c.sectionSize) && AllAccepted(c, u, views, job.section, job.oldHead, backend, c.sectionSize)
             then st'.job.value == job.(done := c.sectionSize, lastHead := last)
             else st'.job.value.failed
    ensures Finish(c, AfterAll(c, u, st', late), finish.canon)
         == Finish(c, AfterAll(c, u, Processed(c, u, st, views, backend), late), finish.canon)
  {
    ReadsAgree(c, u, st, views, backend, c.sectionSize);
    var st3 := Processed(c, u, st, views, backend);
    if st3.job.value.failed {
      assert st3.(job := st'.job) == st';
      ArrivalsIgnoreJob(c, u, st3, late, st'.job);
      ArrivalsIgnoreJob(c, u, st3, late, st3.job);
      assert st3.(job := st3.job) == st3;
      FailureForgets(c, AfterAll(c, u, st3, late), st'.job.value, finish.canon);
    } else {
      assert st3 == st';
    }
  }

  // ----- the indexer's own code -----

  class Indexer {
    const c: Config
    var heads: map<nat, Hash>
    var storedSections: nat
    var knownSections: nat
    var checkpointSections: nat
    var job: Option<Job>

    ghost function Abs(): State
      reads this
    {
      State(heads, storedSections, knownSections, checkpointSections, job)
    }

    /** An indexer on an index database that may hold sections already. */
    constructor (c: Config, heads: map<nat, Hash>, storedSections: nat, ghost st: State)
      requires ConfigOk(c) && st.heads == heads && st.stored == storedSections
      ensures this.c == c && Abs() == Start(c, st, false)
      ensures this.heads == heads && this.storedSections == storedSections && knownSections == 0 && job.None?
    {
      this.c, this.heads, this.storedSections := c, heads, storedSections;
      knownSections, checkpointSections, job := 0, 0, None;
    }

    /** Adds the checkpoint, unless the index is past it. */
    method AddCheckpoint()
      requires ConfigOk(c) && c.checkpointSections > 0
      modifies this`heads, this`storedSections, this`checkpointSections
      ensures Abs() == Checkpointed(c, old(Abs()))
      ensures if old(checkpointSections) >= c.checkpointSections || c.checkpointSections <= old(storedSections)
              then unchanged(this)
              else checkpointSections == storedSections == c.checkpointSections
                   && heads == old(heads)[c.checkpointSections - 1 := c.checkpointHead]
    {
      var section := c.checkpointSections - 1;
      if checkpointSections >= section + 1 || section < storedSections { return; }
      checkpointSections := section + 1;
      heads := heads[section := c.checkpointHead];
      NothingToDrop(heads, section + 1, storedSections);
      SetValidSections(section + 1);
    }

    /** Removes the heads of dropped sections one by one, from the top. */
    method SetValidSections(sections: nat)
      modifies this`heads, this`storedSections
      ensures Abs() == SetValid(old(Abs()), sections)
    {
      while storedSections > sections
        invariant storedSections <= old(storedSections) || storedSections <= sections
        invariant old(storedSections) <= sections ==> storedSections == old(storedSections)
        invariant old(storedSections) > sections ==> sections <= storedSections
        invariant heads == Without(old(heads), storedSections, old(storedSections))
        decreases storedSections - sections
      {
        storedSections := storedSections - 1;
        heads := heads - {storedSections};
      }
      storedSections := sections;
    }

    /** Compares the last stored head with the chain and rolls back while they differ. */
    method VerifyLastHead(canon: Index)
      requires ConfigOk(c)
      modifies this`heads, this`storedSections
      ensures Abs() == VerifyLast(c, old(Abs()), canon)
    {
      ghost var v := VerifyLast(c, Abs(), canon);
      while storedSections > 0 && storedSections > checkpointSections
        invariant knownSections == old(knownSections) && checkpointSections == old(checkpointSections) && job == old(job)
        invariant VerifyLast(c, Abs(), canon) == v
        decreases storedSections
      {
        VerifyStep(c, Abs(), canon);
        var head := if storedSections - 1 in heads then heads[storedSections - 1] else ZERO;
        if head == Read(canon, LastNumber(c, storedSections - 1)) { return; }
        SetValidSections(storedSections - 1);
      }
    }

    /** Notifies the indexer of a new head, or of the common ancestor of a reorg. */
    method NotifyHead(head: nat, reorg: bool, canon: Index)
      requires ConfigOk(c)
      modifies this`heads, this`storedSections, this`knownSections
      ensures Abs() == NewHead(c, old(Abs()), head, reorg, canon)
      ensures !reorg ==> heads == old(heads) && storedSections == old(storedSections)
      ensures !reorg ==> forall s: nat :: KnownAfterHead(c, old(Abs()), knownSections, head, canon, s)
      ensures reorg ==>
        && (forall s: nat :: KnownAfterReorg(c, old(Abs()), knownSections, head, s))
        && (forall s: nat :: StoredAfterReorg(c, old(Abs()), storedSections, head, s))
        && (forall i :: i in heads <==> i in old(heads) && !(storedSections <= i < old(storedSections)))
    {
      if reorg { ReorgForgets(c, Abs(), head, canon); } else { HeadKnows(c, Abs(), head, canon); }
      if reorg {
        WholeSectionsIs(c, head + 1);
        var known := (head + 1) / c.sectionSize;
        var stored := known;
        if known < checkpointSections { known := 0; }
        if stored < checkpointSections { stored := checkpointSections; }
        if known < knownSections { knownSections := known; }
        if stored < storedSections { SetValidSections(stored); }
        return;
      }
      if head >= c.confirmsReq {
        WholeSectionsIs(c, head + 1 - c.confirmsReq);
        var sections := (head + 1 - c.confirmsReq) / c.sectionSize;
        if sections < checkpointSections { sections := 0; }
        if sections > knownSections {
          if knownSections < checkpointSections {
            var synced := Read(canon, LastNumber(c, checkpointSections - 1));
            if synced != c.checkpointHead { return; }
          }
          knownSections := sections;
        }
      }
    }

    /** The number of stored sections, the last block they cover and its hash.  With nothing stored the
        block number wraps around to the largest 64-bit value. */
    method Sections(ghost u: Universe, canon: Index) returns (count: nat, last: nat, head: Hash)
      requires ConfigOk(c)
      modifies this`heads, this`storedSections
      ensures Abs() == VerifyLast(c, old(Abs()), canon)
      ensures count == storedSections
      ensures count == 0 ==> last == 0xFFFF_FFFF_FFFF_FFFF && head == ZERO
      ensures count > 0 ==> last == LastNumber(c, count - 1) && head == SectionHead(Abs(), count - 1)
      ensures old(Inv(c, u, Abs(), false) && LinkedFromHeads(c, u, Abs(), canon)) ==> Answers(c, u, Abs(), canon)
    {
      if Inv(c, u, Abs(), false) && LinkedFromHeads(c, u, Abs(), canon) { QueryAnswer(c, u, Abs(), canon, false); }
      VerifyLastHead(canon);
      count := storedSections;
      if count == 0 { return 0, 0xFFFF_FFFF_FFFF_FFFF, ZERO; }
      last, head := LastNumber(c, count - 1), if count - 1 in heads then heads[count - 1] else ZERO;
    }

    /** The locked first half of an update. */
    method BeginUpdate(canon: Index)
      requires ConfigOk(c) && job.None?
      modifies this`heads, this`storedSections, this`job
      ensures Abs() == Begin(c, old(Abs()), canon)
    {
      if knownSections > storedSections {
        VerifyLastHead(canon);
        var section := storedSections;
        var oldHead := ZERO;
        if section > 0 { oldHead := if section - 1 in heads then heads[section - 1] else ZERO; }
        job := Some(Job(section, oldHead, 0, oldHead, false));
      }
    }

    /** The locked second half of an update, once the section was processed or failed. */
    method FinishUpdate(canon: Index)
      requires ConfigOk(c) && job.Some? && (job.value.failed || job.value.done == c.sectionSize)
      modifies this`heads, this`storedSections, this`knownSections, this`job
      ensures Abs() == Finish(c, old(Abs()), canon)
    {
      var Job(section, oldHead, _, newHead, failed) := job.value;
      job := None;
      var previous := if section > 0 && section - 1 in heads then heads[section - 1] else ZERO;
      if !failed && (section == 0 || oldHead == previous) {
        heads := heads[section := newHead];
        SetValidSections(section + 1);
      } else {
        VerifyLastHead(canon);
        knownSections := storedSections;
      }
    }

    /** Processes one section without the lock.  `views` gives the chain database at each read, two
        reads a header, and may change arbitrarily between them.  Success means a run of headers
        linked to each other and to the previous section, each canonical when it was read. */
    method ProcessSection(u: Universe, views: nat -> View, section: nat, oldHead: Hash, backend: nat -> bool)
        returns (r: Option<Hash>)
      requires ConfigOk(c)
      ensures r.Some? <==> backend(c.sectionSize) && AllAccepted(c, u, views, section, oldHead, backend, c.sectionSize)
      ensures r.Some? ==> r.value != ZERO && Up(u, r.value, c.sectionSize) == oldHead
      ensures r.Some? ==> u(r.value).number == LastNumber(c, section)
      ensures r.Some? ==> r.value == Read(views(2 * c.sectionSize - 2).canon, LastNumber(c, section))
      ensures r.Some? ==> forall k: nat :: k < c.sectionSize ==>
        Up(u, r.value, c.sectionSize - 1 - k) == Read(views(2 * k).canon, FirstNumber(c, section) + k)
    {
      var lastHead := oldHead;
      for k := 0 to c.sectionSize
        invariant Up(u, lastHead, k) == oldHead
        invariant AllAccepted(c, u, views, section, oldHead, backend, k)
        invariant lastHead == if k == 0 then oldHead else Read(views(2 * k - 2).canon, FirstNumber(c, section) + k - 1)
        invariant k > 0 ==> lastHead != ZERO && u(lastHead).number == FirstNumber(c, section) + k - 1
        invariant forall j: nat :: j < k ==> Up(u, lastHead, k - 1 - j) == Read(views(2 * j).canon, FirstNumber(c, section) + j)
      {
        assert k > 0 ==> 2 * (k - 1) == 2 * k - 2;
        ghost var accepted := Accepts(c, u, views, section, oldHead, backend, k);
        var number := FirstNumber(c, section) + k;
        var hash := Read(views(2 * k).canon, number);
        if hash == ZERO { return None; }
        if hash !in views(2 * k + 1).stored || u(hash).number != number { return None; }
        if u(hash).parent != lastHead { return None; }
        if !backend(k) { return None; }
        lastHead := hash;
      }
      if !backend(c.sectionSize) { return None; }
      return Some(lastHead);
    }

    /** The chain reports heads and callers ask for sections while a section is processed. */
    method Arrive(ghost u: Universe, es: seq<Event>)
      requires ConfigOk(c) && Arrivals(es)
      modifies this`heads, this`storedSections, this`knownSections
      ensures Abs() == AfterAll(c, u, old(Abs()), es) && job == old(job)
    {
      assert es[..0] == [];
      for i := 0 to |es|
        invariant Abs() == AfterAll(c, u, old(Abs()), es[..i]) && job == old(job)
      {
        assert es[..i + 1][..i] == es[..i];
        match es[i]
        case HeadEvent(head, reorg, view) => NotifyHead(head, reorg, view.canon);
        case SectionsQuery(view) => VerifyLastHead(view.canon);
      }
      assert es[..|es|] == es;
    }

    /** The unlocked middle of an update: the reset and the section.  What it leaves is as good as the
        events for the second half. */
    method RunJob(u: Universe, resets: bool, views: nat -> View, backend: nat -> bool, ghost late: seq<Event>, ghost finish: View)
      requires ConfigOk(c) && Arrivals(late) && job.Some?
      requires job.value.done == 0 && !job.value.failed && job.value.lastHead == job.value.oldHead
      modifies this`heads, this`storedSections, this`job
      ensures job.Some? && (job.value.failed || job.value.done == c.sectionSize)
      ensures var st := old(Abs());
        var st' := if resets then Processed(c, u, st, views, backend) else Next(c, u, st, BackendResetFails);
        Finish(c, AfterAll(c, u, Abs(), late), finish.canon) == Finish(c, AfterAll(c, u, st', late), finish.canon)
    {
      if !resets {
        SetValidSections(0);
        job := Some(job.value.(failed := true));
        return;
      }
      var r := ProcessSection(u, views, job.value.section, job.value.oldHead, backend);
      if r.Some? {
        job := Some(job.value.(done := c.sectionSize, lastHead := r.value));
      } else {
        job := Some(job.value.(failed := true));
      }
      UpdateAgrees(c, u, old(Abs()), views, backend, late, finish, Abs());
    }

    /** One turn of the update loop: it is exactly the run of its events. */
    method Update(u: Universe, begin: View, early: seq<Event>, resets: bool, views: nat -> View, backend: nat -> bool,
                  late: seq<Event>, finish: View)
      requires ConfigOk(c) && job.None? && Arrivals(early) && Arrivals(late)
      modifies this`heads, this`storedSections, this`knownSections, this`job
      ensures Abs() == if old(knownSections > storedSections)
                       then AfterUpdate(c, u, old(Abs()), begin, early, resets, views, backend, late, finish) else old(Abs())
    {
      if knownSections <= storedSections { return; }
      BeginUpdate(begin.canon);
      Arrive(u, early);
      RunJob(u, resets, views, backend, late, finish);
      Arrive(u, late);
      FinishUpdate(finish.canon);
    }
  }
}
