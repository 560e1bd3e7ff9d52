/**
 The event feed as a protocol: any number of subscribers and unsubscribers interleave with one send
 at a time.  A step is what one goroutine does atomically.

 An unsubscriber first looks in the inbox; failing that it waits until either no send is running,
 and deletes its case itself, or the running send accepts its request.  In the second case
 `Unsubscribe` returns before the sender has deleted the case.  A channel may be subscribed again once
 its `Unsubscribe` has returned, even then.
 */
module FeedProtocol {
  import opened Options
  import opened CaseList

  /** Life of a subscription. */
  datatype Status = Fresh | Live | Leaving | Gone

  /** A running send: the first `active` cases are still to be served.  `removing` is a request that
      was accepted but not yet carried out.  The rest is history: the channels taken in at the start,
      those served in order, and those removed. */
  datatype Sending = Sending(
    active: nat, nsent: nat, removing: Option<Chan>, taken: seq<Chan>, got: seq<Chan>, removed: set<Chan>)

  datatype State = State(inbox: seq<Chan>, cases: seq<Chan>, status: map<Chan, Status>, send: Option<Sending>)

  /** The send after serving channel `ch`. */
  function Served(s: Sending, ch: Chan): Sending
    requires s.active > 0
  {
    s.(active := s.active - 1, nsent := s.nsent + 1, got := s.got + [ch])
  }

  /** The send after deleting channel `ch`, found at index `i`; an active case shrinks the active part. */
  function Dropped(s: Sending, ch: Chan, i: nat): Sending {
    s.(active := if i < s.active then s.active - 1 else s.active, removing := None, removed := s.removed + {ch})
  }

  function StatusOf(st: State, ch: Chan): Status {
    if ch in st.status then st.status[ch] else Fresh
  }

  datatype Step =
    | Subscribe(ch: Chan)
    | LookInInbox(ch: Chan)     // first part of Unsubscribe
    | DeleteIdle(ch: Chan)      // Unsubscribe takes the send lock
    | RequestRemoval(ch: Chan)  // Unsubscribe hands its channel to the running send
    | BeginSend
    | Deliver(i: nat)           // the i-th active case is served
    | CarryOutRemoval           // the send deletes the requested case
    | EndSend

  predicate Enabled(st: State, step: Step) {
    match step
    case Subscribe(ch) => StatusOf(st, ch) == Fresh || StatusOf(st, ch) == Gone
    case LookInInbox(ch) => StatusOf(st, ch) == Live
    case DeleteIdle(ch) => StatusOf(st, ch) == Leaving && st.send.None?
    case RequestRemoval(ch) =>
      StatusOf(st, ch) == Leaving && st.send.Some? && st.send.value.removing.None? && st.send.value.active > 0
    case BeginSend => st.send.None?
    case Deliver(i) => st.send.Some? && st.send.value.removing.None? && i < st.send.value.active <= |st.cases|
    case CarryOutRemoval => st.send.Some? && st.send.value.removing.Some?
    case EndSend => st.send.Some? && st.send.value.removing.None? && st.send.value.active == 0
  }

  /** The index a step passes to `delete`; -1 would be a panic. */
  function DeleteIndex(st: State, step: Step): int {
    match step
    case DeleteIdle(ch) => Find(st.cases, ch)
    case CarryOutRemoval =>
      if st.send.Some? && st.send.value.removing.Some? then Find(st.cases, st.send.value.removing.value) else 0
    case _ => 0
  }

  function Next(st: State, step: Step): State
    requires Enabled(st, step) && DeleteIndex(st, step) != -1
  {
    match step
    case Subscribe(ch) => st.(inbox := st.inbox + [ch], status := st.status[ch := Live])
    case LookInInbox(ch) =>
      var i := Find(st.inbox, ch);
      if i != -1 then st.(inbox := Delete(st.inbox, i), status := st.status[ch := Gone])
      else st.(status := st.status[ch := Leaving])
    case DeleteIdle(ch) => st.(cases := Delete(st.cases, Find(st.cases, ch)), status := st.status[ch := Gone])
    case RequestRemoval(ch) =>
      st.(status := st.status[ch := Gone], send := Some(st.send.value.(removing := Some(ch))))
    case BeginSend =>
      var cases := st.cases + st.inbox;
      st.(cases := cases, inbox := [], send := Some(Sending(|cases|, 0, None, cases, [], {})))
    case Deliver(i) =>
      var s := st.send.value;
      st.(cases := Deactivate(st.cases, s.active, i), send := Some(Served(s, st.cases[i])))
    case CarryOutRemoval =>
      var s := st.send.value;
      var i := Find(st.cases, s.removing.value);
      st.(cases := Delete(st.cases, i), send := Some(Dropped(s, s.removing.value, i)))
    case EndSend => st.(send := None)
  }

  // ----- the invariant -----

  /** A channel is in exactly one of the two lists while it is subscribed; a leaving one is in `cases`;
      a gone one is in neither.  While an accepted removal is outstanding the old case is still there,
      whether or not the channel has been subscribed again. */
  ghost predicate Placed(st: State, ch: Chan) {
    var outstanding := st.send.Some? && st.send.value.removing == Some(ch);
    match StatusOf(st, ch)
    case Fresh => ch !in st.inbox && ch !in st.cases && !outstanding
    case Live => if outstanding then ch in st.inbox && ch in st.cases else (ch in st.inbox) != (ch in st.cases)
    case Leaving => ch !in st.inbox && ch in st.cases && !outstanding
    case Gone => ch !in st.inbox && (ch in st.cases <==> outstanding)
  }

  /** The books of a running send: every channel taken in is still a case or was removed; the inactive
      cases have been served and the active ones have not; nobody was served twice. */
  ghost predicate Balanced(cases: seq<Chan>, s: Sending) {
    && s.active <= |cases|
    && s.nsent == |s.got| && Distinct(s.got)
    && Distinct(s.taken)
    && (forall c :: c in s.taken <==> c in cases || c in s.removed)
    && (forall c :: c in s.removed ==> c !in cases)
    && (forall c :: c in cases[..s.active] ==> c !in s.got)
    && (forall c :: c in cases[s.active..] ==> c in s.got)
    && (forall c :: c in s.got ==> c in cases[s.active..] || c in s.removed)
  }

  ghost predicate Inv(st: State) {
    && Distinct(st.inbox) && Distinct(st.cases)
    && (forall ch :: Placed(st, ch))
    && (st.send.Some? ==> Balanced(st.cases, st.send.value))
  }

  const INITIAL: State := State([], [], map[], None)

  /** `delete` is never called with -1. */
  lemma DeleteNeverPanics(st: State, step: Step)
    requires Inv(st) && Enabled(st, step)
    ensures DeleteIndex(st, step) != -1
  {
    match step
    case DeleteIdle(ch) => assert Placed(st, ch);
    case CarryOutRemoval => assert Placed(st, st.send.value.removing.value);
    case _ =>
  }

  /** A delivery goes to a channel whose `Unsubscribe` has not returned. */
  lemma NoDeliveryAfterUnsubscribe(st: State, i: nat)
    requires Inv(st) && Enabled(st, Deliver(i))
    ensures StatusOf(st, st.cases[i]) == Live || StatusOf(st, st.cases[i]) == Leaving
  {
    assert Placed(st, st.cases[i]);
  }

  /** Gone is for ever, unless the channel is subscribed again. */
  lemma GoneStays(st: State, step: Step, ch: Chan)
    requires Inv(st) && Enabled(st, step) && DeleteIndex(st, step) != -1 && StatusOf(st, ch) == Gone
    requires step != Subscribe(ch)
    ensures StatusOf(Next(st, step), ch) == Gone
  {
  }

  /** Serving an active case keeps the books. */
  lemma BalancedDeliver(cases: seq<Chan>, s: Sending, i: nat)
    requires Distinct(cases) && Balanced(cases, s) && i < s.active
    ensures Balanced(Deactivate(cases, s.active, i), Served(s, cases[i]))
    ensures Distinct(Deactivate(cases, s.active, i))
  {
    DeactivateFacts(cases, s.active, i);
    assert cases == cases[..s.active] + cases[s.active..];
    assert cases[i] in cases[..s.active];
  }

  /** Deleting a case, active or not, keeps the books. */
  lemma BalancedDelete(cases: seq<Chan>, s: Sending, i: nat)
    requires Distinct(cases) && Balanced(cases, s) && i < |cases|
    ensures Balanced(Delete(cases, i), Dropped(s, cases[i], i))
    ensures Distinct(Delete(cases, i))
  {
    DeleteFacts(cases, i);
    if i < s.active { DeleteActive(cases, i, s.active); } else { DeleteInactive(cases, i, s.active); }
  }

  lemma SubscribeKeeps(st: State, ch: Chan)
    requires Inv(st) && Enabled(st, Subscribe(ch))
    ensures Inv(Next(st, Subscribe(ch)))
  {
    var st' := Next(st, Subscribe(ch));
    assert Placed(st, ch);
    forall c ensures Placed(st', c) { assert Placed(st, c); }
  }

  lemma LookKeeps(st: State, ch: Chan)
    requires Inv(st) && Enabled(st, LookInInbox(ch))
    ensures Inv(Next(st, LookInInbox(ch)))
  {
    var st' := Next(st, LookInInbox(ch));
    if Find(st.inbox, ch) != -1 { DeleteMembers(st.inbox, Find(st.inbox, ch)); }
    forall c ensures Placed(st', c) { assert Placed(st, c); }
  }

  lemma DeleteIdleKeeps(st: State, ch: Chan)
    requires Inv(st) && Enabled(st, DeleteIdle(ch)) && DeleteIndex(st, DeleteIdle(ch)) != -1
    ensures Inv(Next(st, DeleteIdle(ch)))
  {
    var st' := Next(st, DeleteIdle(ch));
    DeleteMembers(st.cases, Find(st.cases, ch));
    forall c ensures Placed(st', c) { assert Placed(st, c); }
  }

  lemma DeliverKeeps(st: State, i: nat)
    requires Inv(st) && Enabled(st, Deliver(i))
    ensures Inv(Next(st, Deliver(i)))
  {
    var st', s := Next(st, Deliver(i)), st.send.value;
    BalancedDeliver(st.cases, s, i);
    DeactivateFacts(st.cases, s.active, i);
    forall ch ensures Placed(st', ch) { assert Placed(st, ch); }
  }

  lemma CarryOutKeeps(st: State)
    requires Inv(st) && Enabled(st, CarryOutRemoval) && DeleteIndex(st, CarryOutRemoval) != -1
    ensures Inv(Next(st, CarryOutRemoval))
  {
    var st', s := Next(st, CarryOutRemoval), st.send.value;
    var i := Find(st.cases, s.removing.value);
    BalancedDelete(st.cases, s, i);
    DeleteMembers(st.cases, i);
    forall ch ensures Placed(st', ch) { assert Placed(st, ch); }
  }

  lemma BeginKeeps(st: State)
    requires Inv(st) && Enabled(st, BeginSend)
    ensures Inv(Next(st, BeginSend))
  {
    var st' := Next(st, BeginSend);
    forall i, j | 0 <= i < j < |st'.cases| ensures st'.cases[i] != st'.cases[j] {
      assert Placed(st, st'.cases[i]) && Placed(st, st'.cases[j]);
    }
    forall ch ensures Placed(st', ch) { assert Placed(st, ch); }
  }

  /** Every step of every goroutine keeps the invariant. */
  lemma StepKeepsInv(st: State, step: Step)
    requires Inv(st) && Enabled(st, step) && DeleteIndex(st, step) != -1
    ensures Inv(Next(st, step))
  {
    var st' := Next(st, step);
    match step
    case Subscribe(ch) => SubscribeKeeps(st, ch);
    case LookInInbox(ch) => LookKeeps(st, ch);
    case DeleteIdle(ch) => DeleteIdleKeeps(st, ch);
    case RequestRemoval(ch) =>
      forall c ensures Placed(st', c) { assert Placed(st, c); }
    case BeginSend => BeginKeeps(st);
    case Deliver(i) => DeliverKeeps(st, i);
    case CarryOutRemoval => CarryOutKeeps(st);
    case EndSend =>
      forall c ensures Placed(st', c) { assert Placed(st, c); }
  }

  // ----- whole sends and whole runs -----

  ghost function Count(s: seq<Chan>, c: Chan): nat { multiset(s)[c] }

  lemma DistinctCount(s: seq<Chan>, c: Chan)
    requires Distinct(s)
    ensures Count(s, c) == if c in s then 1 else 0
    decreases |s|
  {
    if s != [] {
      DistinctCount(s[1..], c);
      assert s == [s[0]] + s[1..];
    }
  }

  /** Every channel taken in and not removed meanwhile got the value exactly once, nobody got it twice
      or uninvited, and the count is right. */
  ghost predicate ServedAll(nsent: nat, taken: seq<Chan>, got: seq<Chan>, removed: set<Chan>) {
    && nsent == |got|
    && (forall c :: c in taken && c !in removed ==> Count(got, c) == 1)
    && (forall c :: c in removed ==> Count(got, c) <= 1)
    && (forall c :: c !in taken ==> Count(got, c) == 0)
  }

  lemma BalancedServesAll(cases: seq<Chan>, s: Sending)
    requires Balanced(cases, s) && s.active == 0
    ensures ServedAll(s.nsent, s.taken, s.got, s.removed)
  {
    assert cases[0..] == cases;
    forall c ensures Count(s.got, c) == if c in s.got then 1 else 0 { DistinctCount(s.got, c); }
  }

  ghost function ElementsOf(cs: seq<Chan>): set<Chan> { set c | c in cs }

  lemma {:induction false} DistinctSize(cs: seq<Chan>)
    requires Distinct(cs)
    ensures |ElementsOf(cs)| == |cs|
    decreases |cs|
  {
    if cs != [] {
      var n := |cs| - 1;
      DistinctSize(cs[..n]);
      assert cs == cs[..n] + [cs[n]];
      assert ElementsOf(cs) == ElementsOf(cs[..n]) + {cs[n]};
    }
  }

  lemma SubsetSize(a: set<Chan>, b: set<Chan>)
    requires a <= b
    ensures |a| <= |b|
  {
    assert b == a + (b - a);
  }

  /** A send serves as many channels as it took in, less at most those removed. */
  lemma ServedCount(cases: seq<Chan>, s: Sending)
    requires Balanced(cases, s) && s.active == 0
    ensures s.nsent <= |s.taken| <= s.nsent + |s.removed|
    ensures (forall c :: c in s.removed ==> c !in s.taken) ==> s.nsent == |s.taken|
  {
    assert cases[0..] == cases;
    DistinctSize(s.got);
    DistinctSize(s.taken);
    SubsetSize(ElementsOf(s.got), ElementsOf(s.taken));
    SubsetSize(ElementsOf(s.taken), ElementsOf(s.got) + s.removed);
    if forall c :: c in s.removed ==> c !in s.taken {
      assert ElementsOf(s.got) == ElementsOf(s.taken);
    }
  }

  /** When a send may end, it has served everybody. */
  lemma SendServesAll(st: State)
    requires Inv(st) && Enabled(st, EndSend)
    ensures ServedAll(st.send.value.nsent, st.send.value.taken, st.send.value.got, st.send.value.removed)
  {
    BalancedServesAll(st.cases, st.send.value);
  }

  /** Each turn of the sender shrinks active cases plus all cases, counting an accepted request as half
      a turn; no other goroutine makes it grow. */
  ghost function Measure(st: State): nat
    requires st.send.Some?
  {
    2 * (st.send.value.active + |st.cases|) + if st.send.value.removing.None? then 1 else 0
  }

  lemma SendTerminates(st: State, step: Step)
    requires Inv(st) && st.send.Some? && Enabled(st, step) && !step.EndSend? && DeleteIndex(st, step) != -1
    ensures Next(st, step).send.Some?
    ensures Measure(Next(st, step)) <= Measure(st)
    ensures step.Deliver? || step.RequestRemoval? || step.CarryOutRemoval? ==> Measure(Next(st, step)) < Measure(st)
  {
  }

  ghost predicate IsRun(trace: seq<State>, steps: seq<Step>) {
    && |trace| == |steps| + 1 && trace[0] == INITIAL
    && forall i :: 0 <= i < |steps| ==>
         Enabled(trace[i], steps[i]) && DeleteIndex(trace[i], steps[i]) != -1 && trace[i + 1] == Next(trace[i], steps[i])
  }

  lemma {:induction false} RunKeepsInv(trace: seq<State>, steps: seq<Step>, i: nat)
    requires IsRun(trace, steps) && i < |trace|
    ensures Inv(trace[i])
    decreases i
  {
    if i == 0 {
      forall ch ensures Placed(INITIAL, ch) { }
    } else {
      RunKeepsInv(trace, steps, i - 1);
      StepKeepsInv(trace[i - 1], steps[i - 1]);
    }
  }

  lemma {:induction false} RunGoneStays(trace: seq<State>, steps: seq<Step>, i: nat, j: nat, ch: Chan)
    requires IsRun(trace, steps) && i <= j < |trace| && StatusOf(trace[i], ch) == Gone
    requires forall k :: i <= k < j ==> steps[k] != Subscribe(ch)
    ensures StatusOf(trace[j], ch) == Gone
    decreases j
  {
    if i < j {
      RunGoneStays(trace, steps, i, j - 1, ch);
      RunKeepsInv(trace, steps, j - 1);
      GoneStays(trace[j - 1], steps[j - 1], ch);
    }
  }

  /** Over every run: once `Unsubscribe` has returned for a channel, no later delivery goes to it until it
      is subscribed again. */
  lemma RunSafe(trace: seq<State>, steps: seq<Step>, i: nat, j: nat, ch: Chan)
    requires IsRun(trace, steps) && i <= j < |steps| && StatusOf(trace[i], ch) == Gone
    requires forall k :: i <= k < j ==> steps[k] != Subscribe(ch)
    requires steps[j].Deliver?
    ensures trace[j].cases[steps[j].i] != ch
  {
    RunGoneStays(trace, steps, i, j, ch);
    RunKeepsInv(trace, steps, j);
    NoDeliveryAfterUnsubscribe(trace[j], steps[j].i);
  }

  /** No step that is possible in a reachable state passes -1 to `delete`, so the condition on it in
      `IsRun` excludes nothing. */
  lemma RunNeverPanics(trace: seq<State>, steps: seq<Step>, i: nat, step: Step)
    requires IsRun(trace, steps) && i < |trace| && Enabled(trace[i], step)
    ensures DeleteIndex(trace[i], step) != -1
  {
    RunKeepsInv(trace, steps, i);
    DeleteNeverPanics(trace[i], step);
  }
}
