/**
 The event feed's own code on its backing array.  Index 0 holds the case of the removal channel;
 subscribed channels follow.  Whether a receiver is ready, which case a blocking select picks, which
 channel asks to be removed and who subscribes or unsubscribes meanwhile are left open.

 Every change is recorded as a step of the protocol, so what holds over all its runs holds here.  The
 steps taken so far determine the run.
 */
module Feed {
  import opened Options
  import opened CaseList
  import opened FeedProtocol

  /** Stands for the removal channel, which no subscriber can hold. */
  const REMOVE_SUB: Chan := 0

  const FIRST_SUB_SEND_CASE: nat := 1

  class Feed {
    var buf: array<Chan>
    var len: nat
    var inbox: seq<Chan>
    var subscribed: set<Chan>  // channels whose Unsubscribe has not returned
    ghost var p: State
    ghost var trace: seq<State>
    ghost var steps: seq<Step>

    /** The lists are those of the protocol state `p`, which the recorded run has reached. */
    ghost predicate Valid()
      reads this, buf
    {
      && FIRST_SUB_SEND_CASE <= len <= buf.Length && buf[0] == REMOVE_SUB
      && p.inbox == inbox && p.cases == buf[1..len] && REMOVE_SUB !in p.status
      && (forall ch :: ch in subscribed <==> ch in p.status && (p.status[ch] == Live || p.status[ch] == Leaving))
      && IsRun(trace, steps) && p == trace[|steps|]
    }

    /** A send with these figures is running, and has removed only channels that asked for it. */
    ghost predicate InSend(active: nat, nsent: nat, taken: seq<Chan>, asking: set<Chan>)
      reads this
    {
      && active > 0 && p.send.Some? && p.send.value.removed <= asking
      && p.send.value == Sending(active - 1, nsent, None, taken, p.send.value.got, p.send.value.removed)
    }

    /** The subscribed channels that have been taken over into the send cases. */
    ghost function Cases(): seq<Chan>
      reads this, buf
      requires 1 <= len <= buf.Length
    {
      buf[1..len]
    }

    constructor ()
      ensures Valid() && fresh(buf) && Cases() == [] && inbox == [] && p.send.None?
    {
      buf := new Chan[1](_ => REMOVE_SUB);
      len, inbox, subscribed := 1, [], {};
      p, trace, steps := INITIAL, [INITIAL], [];
    }

    /** Records one step of the protocol. */
    ghost method Note(step: Step)
      requires IsRun(trace, steps) && p == trace[|steps|] && Enabled(p, step)
      modifies this`p, this`trace, this`steps
      ensures DeleteIndex(old(p), step) != -1 && p == Next(old(p), step) && Inv(p)
      ensures IsRun(trace, steps) && p == trace[|steps|]
      ensures trace == old(trace) + [p] && steps == old(steps) + [step]
    {
      ExtendRun(trace, steps, step);
      p := Next(p, step);
      trace, steps := trace + [p], steps + [step];
    }

    method Subscribe(ch: Chan)
      requires Valid() && ch !in subscribed && ch != REMOVE_SUB
      modifies this`inbox, this`subscribed, this`p, this`trace, this`steps
      ensures Valid() && inbox == old(inbox) + [ch] && p == Next(old(p), Step.Subscribe(ch))
      ensures old(steps) <= steps
    {
      inbox, subscribed := inbox + [ch], subscribed + {ch};
      Note(Step.Subscribe(ch));
    }

    /** The first part of Unsubscribe, which covers channels not yet taken over. */
    method LookInInbox(ch: Chan) returns (found: bool)
      requires Valid() && StatusOf(p, ch) == Live
      modifies this`inbox, this`subscribed, this`p, this`trace, this`steps
      ensures Valid() && found == (ch in old(inbox)) && p == Next(old(p), Step.LookInInbox(ch))
      ensures old(steps) <= steps
    {
      var i := Find(inbox, ch);
      if i != -1 { inbox, subscribed := Delete(inbox, i), subscribed - {ch}; }
      Note(Step.LookInInbox(ch));
      found := i != -1;
    }

    /** What other goroutines may do while a send is running, short of handing it a request: any number
        of channels subscribe, and any number begin to unsubscribe. */
    method Others()
      requires Valid()
      modifies this`inbox, this`subscribed, this`p, this`trace, this`steps
      ensures Valid() && p.send == old(p.send) && old(steps) <= steps
    {
      var n: int := *;
      while n > 0
        invariant Valid() && p.send == old(p.send) && old(steps) <= steps
        decreases n
      {
        n := n - 1;
        var ch: Chan := *;
        if ch !in subscribed {
          if ch != REMOVE_SUB { Subscribe(ch); }
        } else if ch in inbox {
          OnlyLive(trace, steps, ch);
          var _ := LookInInbox(ch);
        } else if StatusOf(p, ch) == Live {
          Note(Step.LookInInbox(ch));
        }
      }
    }

    /** The index of a channel among the send cases, or -1. */
    method FindCase(ch: Chan) returns (index: int)
      requires 1 <= len <= buf.Length
      ensures index == Find(buf[..len], ch)
    {
      var i := 0;
      while i < len
        invariant 0 <= i <= len
        invariant ch !in buf[..i]
      {
        if buf[i] == ch {
          FindFirst(buf[..len], ch, i);
          return i;
        }
        i := i + 1;
      }
      return -1;
    }

    /** Shifts the cases after `index` down by one. */
    method DeleteCase(index: nat)
      requires index < len <= buf.Length
      modifies this`len, buf
      ensures len == old(len) - 1 && buf[..len] == Delete(old(buf[..len]), index)
    {
      var j := index;
      while j < len - 1
        invariant index <= j < len == old(len)
        invariant forall k :: 0 <= k < index ==> buf[k] == old(buf[k])
        invariant forall k :: index <= k < j ==> buf[k] == old(buf[k + 1])
        invariant forall k :: j <= k < buf.Length ==> buf[k] == old(buf[k])
      {
        buf[j] := buf[j + 1];
        j := j + 1;
      }
      len := len - 1;
    }

    /** Swaps a case out of the first `active` ones. */
    method DeactivateCase(active: nat, index: nat)
      requires index < active <= len <= buf.Length
      modifies buf
      ensures buf[..len] == Deactivate(old(buf[..len]), active, index)
    {
      buf[index], buf[active - 1] := buf[active - 1], buf[index];
    }

    /** Finds a channel and deletes its case; the index counts the removal channel. */
    method DropCase(ch: Chan) returns (index: nat)
      requires 1 <= len <= buf.Length && ch in buf[1..len] && buf[0] != ch
      modifies this`len, buf
      ensures index == old(Find(buf[1..len], ch)) + 1
      ensures len == old(len) - 1 && 1 <= len && buf[0] == old(buf[0])
      ensures buf[1..len] == old(Delete(buf[1..len], Find(buf[1..len], ch)))
    {
      ghost var list := buf[..len];
      assert list[1..] == buf[1..len];
      FindTail(list, ch);
      index := FindCase(ch);
      DeleteTail(list, index);
      DeleteCase(index);
      assert buf[0] == buf[..len][0] && buf[1..len] == buf[..len][1..];
    }

    /** Takes a channel out of the feed while no send is running. */
    method Remove(ch: Chan)
      requires Valid() && StatusOf(p, ch) == Live && p.send.None?
      modifies this, buf
      ensures Valid() && buf == old(buf) && p.send.None? && StatusOf(p, ch) == Gone
      ensures old(steps) <= steps
      ensures old(ch in inbox) ==> Cases() == old(Cases()) && forall c :: c in inbox <==> old(c in inbox) && c != ch
      ensures old(ch !in inbox) ==> inbox == old(inbox) && forall c :: c in Cases() <==> c in old(Cases()) && c != ch
    {
      RunKeepsInv(trace, steps, |steps|);
      if ch in inbox { DeleteMembers(inbox, Find(inbox, ch)); }
      var found := LookInInbox(ch);
      if !found { RemoveIdle(ch); }
    }

    /** The second part of Unsubscribe, under the send lock. */
    method RemoveIdle(ch: Chan)
      requires Valid() && StatusOf(p, ch) == Leaving && p.send.None?
      modifies this`len, this`subscribed, this`p, this`trace, this`steps, buf
      ensures Valid() && p.send.None? && StatusOf(p, ch) == Gone && old(steps) <= steps
      ensures forall c :: c in Cases() <==> c in old(Cases()) && c != ch
    {
      RunKeepsInv(trace, steps, |steps|);
      assert Placed(p, ch) && Placed(p, REMOVE_SUB);
      DeleteMembers(p.cases, Find(p.cases, ch));
      var _ := DropCase(ch);
      subscribed := subscribed - {ch};
      Note(DeleteIdle(ch));
    }

    /** Appends the inbox to the send cases. */
    method TakeInbox()
      requires Valid() && p.send.None?
      modifies this
      ensures Valid() && fresh(buf) && inbox == [] && p == Next(old(p), BeginSend)
      ensures old(steps) <= steps
    {
      var a := new Chan[len + |inbox|](i requires 0 <= i < len + |inbox| reads this, buf requires len <= buf.Length
                                         => if i < len then buf[i] else inbox[i - len]);
      assert a[1..len + |inbox|] == buf[1..len] + inbox;
      buf, len, inbox := a, len + |inbox|, [];
      Note(BeginSend);
    }

    /** Delivers to every subscribed channel.  Terminates because every turn shrinks the active cases or
        all cases; serves every channel taken in and not removed exactly once.  It is a run of protocol
        steps whose last is the end of the send.  `asking` are the channels whose unsubscribers may hand
        in a request meanwhile: no other is removed, and with none of them among those taken in every
        channel is served. */
    method Send(asking: set<Chan>) returns (nsent: nat, ghost got: seq<Chan>, ghost removed: set<Chan>)
      requires Valid() && p.send.None?
      modifies this, buf
      ensures Valid() && p.send.None?
      ensures old(steps) < steps && steps[|steps| - 1] == EndSend
      ensures trace[|steps| - 1].send == Some(Sending(0, nsent, None, old(Cases() + inbox), got, removed))
      ensures ServedAll(nsent, old(Cases() + inbox), got, removed)
      ensures forall c :: c in Cases() <==> c in old(Cases() + inbox) && c !in removed
      ensures removed <= asking && nsent <= |old(Cases() + inbox)| <= nsent + |removed|
      ensures (forall c :: c in asking ==> c !in old(Cases() + inbox)) ==> nsent == |old(Cases() + inbox)|
    {
      TakeInbox();
      ghost var taken := Cases();
      nsent := 0;
      var active := len;  // the prefix of cases still to be served, counting index 0
      while true
        invariant Valid() && fresh(buf) && 1 <= active <= len && InSend(active, nsent, taken, asking)
        invariant old(steps) <= steps
        decreases active + len
      {
        active, nsent := FastPath(active, nsent, taken, asking);
        if active == FIRST_SUB_SEND_CASE { break; }
        active, nsent := SelectOne(active, nsent, taken, asking);
      }
      got, removed := Conclude(nsent, taken, asking);
    }

    /** With no case left to serve, the send has done its duty. */
    ghost method Conclude(nsent: nat, taken: seq<Chan>, asking: set<Chan>) returns (got: seq<Chan>, removed: set<Chan>)
      requires Valid() && InSend(FIRST_SUB_SEND_CASE, nsent, taken, asking)
      modifies this`p, this`trace, this`steps
      ensures Valid() && p.send.None? && steps == old(steps) + [EndSend] && trace == old(trace) + [p]
      ensures old(p).send == Some(Sending(0, nsent, None, taken, got, removed)) && ServedAll(nsent, taken, got, removed)
      ensures forall c :: c in Cases() <==> c in taken && c !in removed
      ensures removed <= asking && nsent <= |taken| <= nsent + |removed|
      ensures (forall c :: c in asking ==> c !in taken) ==> nsent == |taken|
    {
      got, removed := p.send.value.got, p.send.value.removed;
      RunKeepsInv(trace, steps, |steps|);
      SendServesAll(p);
      ServedCount(p.cases, p.send.value);
      Note(EndSend);
    }

    /** Tries every active case once without blocking. */
    method FastPath(active0: nat, nsent0: nat, ghost taken: seq<Chan>, ghost asking: set<Chan>) returns (active: nat, nsent: nat)
      requires Valid() && 1 <= active0 <= len && InSend(active0, nsent0, taken, asking)
      modifies this`inbox, this`subscribed, this`p, this`trace, this`steps, buf
      ensures Valid() && 1 <= active <= active0 && InSend(active, nsent, taken, asking)
      ensures old(steps) <= steps
    {
      active, nsent := active0, nsent0;
      var i := FIRST_SUB_SEND_CASE;
      while i < active
        invariant Valid() && 1 <= i && 1 <= active <= active0 <= len && InSend(active, nsent, taken, asking)
        invariant old(steps) <= steps
        decreases active - i
      {
        Others();
        var ready := *;
        if ready {
          ServeCase(active, i);
          active, nsent := active - 1, nsent + 1;
        } else {
          i := i + 1;
        }
      }
    }

    /** Blocks until some active case is served or some request for removal is received. */
    method SelectOne(active0: nat, nsent0: nat, ghost taken: seq<Chan>, asking: set<Chan>) returns (active: nat, nsent: nat)
      requires Valid() && 1 < active0 <= len && InSend(active0, nsent0, taken, asking)
      modifies this`inbox, this`subscribed, this`len, this`p, this`trace, this`steps, buf
      ensures Valid() && 1 <= active <= len && active + len < old(active0 + len) && InSend(active, nsent, taken, asking)
      ensures old(steps) <= steps
    {
      active, nsent := active0, nsent0;
      Others();
      var mayAsk := exists i :: FIRST_SUB_SEND_CASE <= i < len && buf[i] in asking;
      assert 0 <= 1 < active;
      var chosen :| 0 <= chosen < active && (chosen == 0 ==> mayAsk);
      if chosen == 0 {
        // the request of some unsubscriber is received
        var i :| FIRST_SUB_SEND_CASE <= i < len && buf[i] in asking;
        active := AcceptRemoval(active, nsent, taken, asking, buf[i]);
      } else {
        ServeCase(active, chosen);
        active, nsent := active - 1, nsent + 1;
      }
    }

    /** A case was served: it leaves the active part. */
    method ServeCase(active: nat, i: nat)
      requires Valid() && 1 <= i < active <= len && p.send.Some?
      requires p.send.value.removing.None? && p.send.value.active == active - 1
      modifies this`p, this`trace, this`steps, buf
      ensures Valid() && p == Next(old(p), Deliver(i - 1))
      ensures old(steps) <= steps
    {
      ghost var list := buf[..len];
      assert list[1..] == buf[1..len];
      DeactivateTail(list, active, i);
      DeactivateCase(active, i);
      assert buf[0] == buf[..len][0] && buf[1..len] == buf[..len][1..];
      Note(Deliver(i - 1));
    }

    /** A request for removal was received: the case is deleted, and `active` shrinks if it was active. */
    method AcceptRemoval(active0: nat, ghost nsent: nat, ghost taken: seq<Chan>, ghost asking: set<Chan>, ch: Chan)
        returns (active: nat)
      requires Valid() && 1 < active0 <= len && InSend(active0, nsent, taken, asking) && ch in Cases() && ch in asking
      modifies this`len, this`subscribed, this`p, this`trace, this`steps, buf
      ensures Valid() && len == old(len) - 1 && 1 <= active <= active0 && active <= len && InSend(active, nsent, taken, asking)
      ensures old(steps) <= steps
    {
      Request(ch);
      ghost var status := p.status;
      active := active0;
      var index := DropCase(ch);
      Note(CarryOutRemoval);
      assert p.status == status;
      if index < active { active := active - 1; }
    }

    /** The unsubscriber's side of a request: it did not find its channel in the inbox, then hands it over. */
    method Request(ch: Chan)
      requires Valid() && ch in Cases() && p.send.Some? && p.send.value.removing.None? && p.send.value.active > 0
      modifies this`subscribed, this`p, this`trace, this`steps
      ensures Valid() && ch != REMOVE_SUB && old(steps) <= steps
      ensures p.cases == old(p.cases) && p.send == Some(old(p.send).value.(removing := Some(ch)))
    {
      RunKeepsInv(trace, steps, |steps|);
      assert Placed(p, ch) && Placed(p, REMOVE_SUB);
      if StatusOf(p, ch) == Live { Note(Step.LookInInbox(ch)); }
      subscribed := subscribed - {ch};
      Note(RequestRemoval(ch));
    }
  }

  // ----- lemmas -----

  /** An enabled step makes a longer run. */
  lemma ExtendRun(trace: seq<State>, steps: seq<Step>, step: Step)
    requires IsRun(trace, steps) && Enabled(trace[|steps|], step)
    ensures DeleteIndex(trace[|steps|], step) != -1
    ensures Inv(Next(trace[|steps|], step)) && IsRun(trace + [Next(trace[|steps|], step)], steps + [step])
  {
    RunNeverPanics(trace, steps, |steps|, step);
    RunKeepsInv(trace, steps, |steps|);
    StepKeepsInv(trace[|steps|], step);
  }

  /** A channel in the inbox is live. */
  lemma OnlyLive(trace: seq<State>, steps: seq<Step>, ch: Chan)
    requires IsRun(trace, steps) && ch in trace[|steps|].inbox
    ensures StatusOf(trace[|steps|], ch) == Live
  {
    RunKeepsInv(trace, steps, |steps|);
    assert Placed(trace[|steps|], ch);
  }

  lemma {:induction false} FindFirst(cs: seq<Chan>, ch: Chan, i: nat)
    requires i < |cs| && cs[i] == ch && ch !in cs[..i]
    ensures Find(cs, ch) == i
    decreases i
  {
    if i > 0 {
      assert cs[..i][0] == cs[0] && cs[1..][..i - 1] == cs[..i][1..];
      FindFirst(cs[1..], ch, i - 1);
    }
  }

  /** Searching the list with the removal channel in front. */
  lemma FindTail(cs: seq<Chan>, ch: Chan)
    requires |cs| > 0 && cs[0] != ch && ch in cs[1..]
    ensures Find(cs, ch) == Find(cs[1..], ch) + 1 && Find(cs[1..], ch) >= 0
  {
  }

  lemma DeleteTail(cs: seq<Chan>, i: nat)
    requires 0 < i < |cs|
    ensures Delete(cs, i)[1..] == Delete(cs[1..], i - 1) && Delete(cs, i)[0] == cs[0]
  {
  }

  lemma DeactivateTail(cs: seq<Chan>, active: nat, i: nat)
    requires 0 < i < active <= |cs|
    ensures Deactivate(cs, active, i)[1..] == Deactivate(cs[1..], active - 1, i - 1)
    ensures Deactivate(cs, active, i)[0] == cs[0]
  {
  }
}
