/**
 The garbage collector of recent state tries on a non-archive node.

 Every written block references its state root once and queues it under its number; the queue is a
 priority queue that pops the lowest number.  References are counted per root.
 */
module TrieGC {
  type Root = nat

  datatype Entry = Entry(root: Root, number: nat)

  /** How many recent tries are kept in memory. */
  const TRIES_IN_MEMORY: nat := 128

  /** How often `r` is queued. */
  ghost function Queued(queue: seq<Entry>, r: Root): nat {
    if queue == [] then 0 else (if queue[0].root == r then 1 else 0) + Queued(queue[1..], r)
  }

  predicate Lowest(queue: seq<Entry>, i: nat) {
    i < |queue| && forall j :: 0 <= j < |queue| ==> queue[i].number <= queue[j].number
  }

  /** `after` holds exactly the entries of `before` above the limit, with their multiplicity. */
  ghost predicate Collected(before: seq<Entry>, after: seq<Entry>, limit: nat) {
    forall e: Entry :: multiset(after)[e] == if e.number > limit then multiset(before)[e] else 0
  }

  ghost predicate SameAbove(before: seq<Entry>, after: seq<Entry>, limit: nat) {
    forall e: Entry :: e.number > limit ==> multiset(after)[e] == multiset(before)[e]
  }

  /** Per root, references minus dereferences is the multiplicity in the queue. */
  ghost predicate Balanced(referenced: multiset<Root>, dereferenced: multiset<Root>, queue: seq<Entry>) {
    forall r: Root :: referenced[r] == dereferenced[r] + Queued(queue, r)
  }

  class TrieCache {
    var triegc: seq<Entry>
    /** References taken and given back since the start, per root. */
    ghost var referenced: multiset<Root>
    ghost var dereferenced: multiset<Root>

    ghost predicate Valid()
      reads this
    {
      Balanced(referenced, dereferenced, triegc)
    }

    constructor ()
      ensures Valid() && triegc == [] && referenced == multiset{}
    {
      triegc, referenced, dereferenced := [], multiset{}, multiset{};
    }

    /** Removes some entry of lowest number. */
    method Pop() returns (e: Entry)
      requires triegc != []
      modifies this`triegc
      ensures forall x :: x in old(triegc) ==> e.number <= x.number
      ensures multiset(triegc) == multiset(old(triegc)) - multiset{e} && e in old(triegc)
      ensures |triegc| == |old(triegc)| - 1
      ensures forall r :: Queued(old(triegc), r) == Queued(triegc, r) + if e.root == r then 1 else 0
    {
      LowestExists(triegc);
      var k: nat :| k < |triegc| && Lowest(triegc, k);
      e := triegc[k];
      assert triegc == triegc[..k] + [e] + triegc[k + 1..];
      forall r ensures Queued(triegc, r) == Queued(triegc[..k] + triegc[k + 1..], r) + if e.root == r then 1 else 0 {
        QueuedRemove(triegc, k, r);
      }
      triegc := triegc[..k] + triegc[k + 1..];
    }

    method Push(e: Entry)
      modifies this`triegc
      ensures triegc == old(triegc) + [e]
      ensures forall r :: Queued(triegc, r) == Queued(old(triegc), r) + if e.root == r then 1 else 0
    {
      forall r ensures Queued(triegc + [e], r) == Queued(triegc, r) + if e.root == r then 1 else 0 {
        QueuedConcat(triegc, [e], r);
      }
      triegc := triegc + [e];
    }

    /** The bookkeeping of a block write: one more reference for its root, then everything queued at or
        below `number - 128` is dereferenced and nothing above it. */
    method WriteBlock(root: Root, number: nat)
      requires Valid()
      modifies this
      ensures Valid()
      ensures referenced == old(referenced) + multiset{root}
      ensures number <= 128 ==> dereferenced == old(dereferenced) && triegc == old(triegc) + [Entry(root, number)]
      ensures number > 128 ==> Collected(old(triegc) + [Entry(root, number)], triegc, number - 128)
    {
      referenced := referenced + multiset{root};
      Push(Entry(root, number));
      if number <= TRIES_IN_MEMORY { return; }
      Collect(number - TRIES_IN_MEMORY);
    }

    /** Dereferences everything queued at or below `chosen`, pushing back the first entry above it. */
    method Collect(chosen: nat)
      requires Valid()
      modifies this`triegc, this`dereferenced
      ensures Valid()
      ensures Collected(old(triegc), triegc, chosen)
    {
      ghost var queued := triegc;
      while triegc != []
        invariant Valid() && SameAbove(queued, triegc, chosen)
        decreases |triegc|
      {
        var more := CollectOne(chosen, queued);
        if !more { return; }
      }
      NothingLeft(queued, chosen);
    }

    /** One turn of the collection: dereferences the lowest entry, or pushes it back and stops. */
    method CollectOne(chosen: nat, ghost queued: seq<Entry>) returns (more: bool)
      requires Valid() && triegc != [] && SameAbove(queued, triegc, chosen)
      modifies this`triegc, this`dereferenced
      ensures Valid()
      ensures more ==> |triegc| < |old(triegc)| && SameAbove(queued, triegc, chosen)
      ensures !more ==> Collected(queued, triegc, chosen)
    {
      ghost var before := triegc;
      var e := Pop();
      if e.number > chosen {
        // the lowest entry is above the limit, so all are
        AllAbove(queued, before, triegc, e, chosen);
        Restore(e, before);
        return false;
      }
      PoppedBelow(queued, before, triegc, e, chosen);
      PoppedBalance(referenced, dereferenced, before, triegc, e);
      dereferenced := dereferenced + multiset{e.root};
      more := true;
    }

    /** Pushes back the entry just popped from `before`. */
    method Restore(e: Entry, ghost before: seq<Entry>)
      requires Balanced(referenced, dereferenced, before)
      requires forall r :: Queued(before, r) == Queued(triegc, r) + if e.root == r then 1 else 0
      modifies this`triegc
      ensures Valid() && triegc == old(triegc) + [e]
    {
      ghost var rest := triegc;
      Push(e);
      PushedBack(referenced, dereferenced, before, rest, triegc, e);
    }

    /** Shutdown: dereferences whatever is still queued, so every reference is given back. */
    method Drain()
      requires Valid()
      modifies this`triegc, this`dereferenced
      ensures Valid() && triegc == [] && dereferenced == referenced
    {
      while triegc != []
        invariant Valid()
        decreases |triegc|
      {
        ghost var before := triegc;
        var e := Pop();
        PoppedBalance(referenced, dereferenced, before, triegc, e);
        dereferenced := dereferenced + multiset{e.root};
      }
    }
  }

  /** Any run of block writes followed by shutdown gives back every reference it took. */
  method RunAndStop(blocks: seq<Entry>) returns (cache: TrieCache)
    ensures cache.Valid() && cache.triegc == []
    ensures cache.referenced == cache.dereferenced
    ensures forall r :: cache.referenced[r] == Queued(blocks, r)
  {
    cache := new TrieCache();
    for i := 0 to |blocks|
      invariant fresh(cache) && cache.Valid()
      invariant forall r :: cache.referenced[r] == Queued(blocks[..i], r)
    {
      cache.WriteBlock(blocks[i].root, blocks[i].number);
      assert blocks[..i + 1] == blocks[..i] + [blocks[i]];
      forall r ensures Queued(blocks[..i + 1], r) == Queued(blocks[..i], r) + if blocks[i].root == r then 1 else 0 {
        QueuedConcat(blocks[..i], [blocks[i]], r);
      }
    }
    assert blocks[..|blocks|] == blocks;
    cache.Drain();
  }

  // ----- lemmas -----

  lemma {:induction false} LowestExists(queue: seq<Entry>)
    requires queue != []
    ensures exists k: nat :: k < |queue| && Lowest(queue, k)
    decreases |queue|
  {
    if |queue| == 1 {
      assert Lowest(queue, 0);
    } else {
      LowestExists(queue[1..]);
      var k: nat :| k < |queue[1..]| && Lowest(queue[1..], k);
      forall j | 1 <= j < |queue| ensures queue[k + 1].number <= queue[j].number {
        assert queue[j] == queue[1..][j - 1];
      }
      if queue[0].number <= queue[k + 1].number { assert Lowest(queue, 0); } else { assert Lowest(queue, k + 1); }
    }
  }

  lemma AllAbove(q0: seq<Entry>, q: seq<Entry>, rest: seq<Entry>, e: Entry, limit: nat)
    requires SameAbove(q0, q, limit) && e in q && multiset(rest) == multiset(q) - multiset{e}
    requires e.number > limit && forall x :: x in q ==> e.number <= x.number
    ensures Collected(q0, rest + [e], limit)
  {
    assert multiset(rest + [e]) == multiset(q);
    forall x: Entry ensures multiset(rest + [e])[x] == if x.number > limit then multiset(q0)[x] else 0 {
      if x.number <= limit { assert x !in q; }
    }
  }

  lemma PoppedBalance(refs: multiset<Root>, derefs: multiset<Root>, before: seq<Entry>, after: seq<Entry>, e: Entry)
    requires Balanced(refs, derefs, before)
    requires forall r :: Queued(before, r) == Queued(after, r) + if e.root == r then 1 else 0
    ensures Balanced(refs, derefs + multiset{e.root}, after)
  {
  }

  lemma PushedBack(
      refs: multiset<Root>, derefs: multiset<Root>, before: seq<Entry>, rest: seq<Entry>, after: seq<Entry>, e: Entry)
    requires Balanced(refs, derefs, before)
    requires forall r :: Queued(before, r) == Queued(rest, r) + if e.root == r then 1 else 0
    requires forall r :: Queued(after, r) == Queued(rest, r) + if e.root == r then 1 else 0
    ensures Balanced(refs, derefs, after)
  {
    forall r: Root ensures refs[r] == derefs[r] + Queued(after, r) {
      assert Queued(after, r) == Queued(before, r);
    }
  }

  lemma NothingLeft(q0: seq<Entry>, limit: nat)
    requires SameAbove(q0, [], limit)
    ensures Collected(q0, [], limit)
  {
  }

  lemma PoppedBelow(q0: seq<Entry>, q: seq<Entry>, rest: seq<Entry>, e: Entry, limit: nat)
    requires SameAbove(q0, q, limit) && e.number <= limit && multiset(rest) == multiset(q) - multiset{e}
    ensures SameAbove(q0, rest, limit)
  {
  }

  lemma {:induction false} QueuedConcat(a: seq<Entry>, b: seq<Entry>, r: Root)
    ensures Queued(a + b, r) == Queued(a, r) + Queued(b, r)
    decreases |a|
  {
    if a == [] { assert a + b == b; } else {
      assert (a + b)[1..] == a[1..] + b;
      QueuedConcat(a[1..], b, r);
    }
  }

  lemma QueuedRemove(queue: seq<Entry>, i: nat, r: Root)
    requires i < |queue|
    ensures Queued(queue, r) == Queued(queue[..i] + queue[i + 1..], r) + if queue[i].root == r then 1 else 0
  {
    assert queue == queue[..i] + ([queue[i]] + queue[i + 1..]);
    QueuedConcat(queue[..i], [queue[i]] + queue[i + 1..], r);
    QueuedConcat([queue[i]], queue[i + 1..], r);
    QueuedConcat(queue[..i], queue[i + 1..], r);
  }
}
