/**
 The header chain: batch import, the canonical-index reorg of a header batch, and ancestor lookup.
 Headers are blocks whose transactions are ignored.
 */
module HeaderChain {
  import opened Options
  import opened Chain
  import opened TotalDifficulty
  import opened ForkChoice
  import opened ChainSpec
  import opened Writers

  class HeaderChain {
    const genesisHeader: Block
    const ttd: Option<nat>

    // on disk
    var headers: Store
    var td: TdTable
    var canon: Index
    var headHeaderHash: Hash
    // in memory
    var currentHeader: Block
    var currentHeaderHash: Hash

    ghost predicate HeadIs(b: Block)
      reads this
    {
      headHeaderHash == currentHeaderHash == b.hash && currentHeader == b
    }

    ghost predicate Valid()
      reads this
    {
      HeadIs(currentHeader) && Consistent(headers, td, genesisHeader, canon, currentHeader)
    }

    constructor (genesis: Block, ttd: Option<nat>)
      requires genesis.number == 0 && genesis.parent == ZERO && genesis.hash != ZERO
      ensures Valid() && currentHeader == genesis && genesisHeader == genesis && this.ttd == ttd
      ensures headers == map[genesis.hash := genesis]
    {
      genesisHeader, this.ttd := genesis, ttd;
      headers := map[genesis.hash := genesis];
      td := map[(0, genesis.hash) := genesis.difficulty];
      canon := map[0 := genesis.hash];
      headHeaderHash, currentHeader, currentHeaderHash := genesis.hash, genesis, genesis.hash;
      new;
      forall h ensures Recorded(headers, td, h) && RootedAt(headers, genesis, h) { }
    }

    /** Collects canonical entries to delete, upwards from `number` until the first gap. */
    method EntriesFrom(number: nat) returns (doomed: set<nat>)
      requires Complete(headers, currentHeader) && IndexIsPath(canon, headers, currentHeader)
      requires WellFormed(headers) && Stored(headers, currentHeader)
      ensures forall n :: n in doomed <==> number <= n <= currentHeader.number
    {
      doomed := {};
      var i := number;
      while Read(canon, i) != ZERO
        invariant number <= i
        invariant i <= currentHeader.number + 1 || i == number
        invariant forall n :: n in doomed <==> number <= n < i
        decreases currentHeader.number + 1 - i
      {
        doomed := doomed + {i};
        i := i + 1;
      }
      if i <= currentHeader.number {
        PathNonZero(headers, currentHeader, i);
      }
    }

    /** Walks back from `first`, recording its path, until the index already agrees. */
    method WalkBack(first: Block) returns (writes: Option<Index>)
      requires Complete(headers, currentHeader) && IndexIsPath(canon, headers, currentHeader)
      requires WellFormed(headers) && Stored(headers, currentHeader) && Stored(headers, first)
      ensures writes.Some? <==> Complete(headers, first)
      ensures writes.Some? ==> forall n :: n in writes.value ==> n <= first.number
      ensures writes.Some? ==> forall n: nat :: n <= first.number ==> Read(canon + writes.value, n) == HashAt(headers, first, n)
    {
      var batch: Index := map[];
      var header := first;
      while Read(canon, header.number) != header.hash
        invariant header.number <= first.number && Stored(headers, header)
        invariant AncestorAt(headers, first, header.number) == Some(header)
        invariant forall n :: n in batch <==> header.number < n <= first.number
        invariant forall n :: n in batch ==> batch[n] == HashAt(headers, first, n)
        decreases header.number
      {
        batch := batch[header.number := header.hash];
        if header.number == 0 {
          ReachesIsComplete(headers, first);
          return Some(batch);
        }
        AncestorStep(headers, first, header.number);
        var parent := Parent(headers, header);
        if parent.None? {
          if Complete(headers, first) { CompleteReaches(headers, first, header.number - 1); }
          return None;
        }
        header := parent.value;
      }
      CrossLink(headers, canon, currentHeader, first, header);
      return Some(batch);
    }

    /** Adds the batch itself, each hash but the last taken from the next header's parent field. */
    static method ExtendWrites(base: Index, batch: seq<Block>) returns (writes: Index)
      requires batch != [] && Linked(batch)
      ensures forall n :: n in writes <==> n in base || batch[0].number <= n <= batch[|batch| - 1].number
      ensures forall i :: 0 <= i < |batch| ==> batch[i].number in writes && writes[batch[i].number] == batch[i].hash
      ensures forall n :: n in writes && n < batch[0].number ==> writes[n] == base[n]
    {
      writes := base;
      forall i | 0 <= i < |batch| ensures batch[i].number == batch[0].number + i { LinkedNumbers(batch, i); }
      for i := 0 to |batch| - 1
        invariant forall n :: n in writes <==> n in base || batch[0].number <= n < batch[0].number + i
        invariant forall j :: 0 <= j < i ==> batch[j].number in writes && writes[batch[j].number] == batch[j].hash
        invariant forall n :: n in writes && n < batch[0].number ==> writes[n] == base[n]
      {
        writes := writes[batch[i].number := batch[i + 1].parent];
      }
      writes := writes[batch[|batch| - 1].number := batch[|batch| - 1].hash];
    }

    /** Makes the canonical index the path of the last header of the batch, in one batch write. */
    method Reorg(batch: seq<Block>) returns (ok: bool)
      requires Complete(headers, currentHeader) && IndexIsPath(canon, headers, currentHeader)
      requires WellFormed(headers) && Stored(headers, currentHeader) && currentHeaderHash == currentHeader.hash
      requires Linked(batch) && forall i :: 0 <= i < |batch| ==> Stored(headers, batch[i])
      requires |batch| > 0 && batch[0].parent == currentHeader.hash ==> batch[0].number == currentHeader.number + 1
      modifies this`canon, this`headHeaderHash, this`currentHeader, this`currentHeaderHash
      ensures batch == [] ==> ok && unchanged(this)
      ensures batch != [] ==> (ok <==> Complete(headers, batch[|batch| - 1]))
      ensures !ok ==> unchanged(this)
      ensures batch != [] && ok ==> IndexIsPath(canon, headers, batch[|batch| - 1]) && HeadIs(batch[|batch| - 1])
    {
      if batch == [] { return true; }
      var first, last := batch[0], batch[|batch| - 1];
      var doomed: set<nat>, writes: Index := {}, map[];
      if first.parent != currentHeaderHash {
        doomed := EntriesFrom(last.number + 1);
        var back := WalkBack(first);
        CompleteBatch(headers, batch, |batch| - 1);
        if back.None? { return false; }
        writes := back.value;
      } else {
        CompleteBatch(headers, batch, |batch| - 1);
      }
      ghost var base := writes;
      writes := ExtendWrites(writes, batch);
      ReorgPath(headers, canon, currentHeader, batch, doomed, base, writes);
      canon := (canon - doomed) + writes;
      headHeaderHash, currentHeaderHash, currentHeader := last.hash, last.hash, last;
      ok := true;
    }

    /** Stores a linked batch with running total difficulties, skipping the leading headers that are
        already known; fails exactly when the parent of the first header is unknown. */
    method WriteHeaders(batch: seq<Block>) returns (inserted: Option<nat>)
      requires Valid() && Linked(batch) && BatchFits(headers, batch)
      modifies this`headers, this`td
      ensures Valid()
      ensures inserted.None? <==> batch != [] && Parent(old(headers), batch[0]).None?
      ensures inserted.None? ==> unchanged(this)
      ensures inserted.Some? ==> headers == AddAll(old(headers), batch)
      ensures inserted.Some? ==> inserted.value == |batch| - KnownPrefix(old(headers), batch)
      ensures Db(headers, td) == Written(old(Db(headers, td)), Headers(batch))
    {
      if batch == [] { return Some(0); }
      var ptd := GetTd(td, batch[0].parent, batch[0].number - 1);
      TdMeansStored(headers, td, batch[0].parent, batch[0].number - 1);
      if ptd.None? { return None; }
      var count;
      headers, td, count := Accumulate(headers, td, batch, ptd.value, genesisHeader, canon, currentHeader);
      HeadersWritten(old(Db(headers, td)), Db(headers, td), genesisHeader, batch);
      return Some(count);
    }

    /** The loop of `WriteHeaders`.  `s` and `t` are the tables with the pending batch applied; the known
        check reads the tables on disk. */
    static method Accumulate(
        s0: Store, td0: TdTable, batch: seq<Block>, ptd: nat, ghost genesis: Block, ghost canon: Index, ghost head: Block)
        returns (s: Store, t: TdTable, count: nat)
      requires Consistent(s0, td0, genesis, canon, head)
      requires batch != [] && Linked(batch) && BatchFits(s0, batch)
      requires ParentSum(s0, batch[0], ptd)
      ensures s == AddAll(s0, batch)
      ensures Consistent(s, t, genesis, canon, head)
      ensures count == |batch| - KnownPrefix(s0, batch)
    {
      var newTd: nat, parentKnown := ptd, true;
      s, t, count := s0, td0, 0;
      assert batch[..0] == [];
      for i := 0 to |batch|
        invariant s == AddAll(s0, batch[..i])
        invariant Consistent(s, t, genesis, canon, head)
        invariant forall j :: i <= j < |batch| ==> Fits(s, batch[j])
        invariant i < |batch| ==> ParentSum(s, batch[i], newTd)
        invariant parentKnown ==> count == 0 && i <= KnownPrefix(s0, batch)
        invariant parentKnown ==> s == s0
        invariant !parentKnown ==> count == i - KnownPrefix(s0, batch) && KnownPrefix(s0, batch) < i
      {
        var header := batch[i];
        assert batch[..i + 1] == batch[..i] + [header];
        AddAllSnoc(s0, batch[..i], header);
        AddKeepsConsistent(s, t, genesis, canon, head, header);
        newTd := newTd + header.difficulty;
        var alreadyKnown := parentKnown && Get(s0, header.hash, header.number).Some?;
        if parentKnown { KnownPrefixAt(s0, batch, i); }
        ghost var s', t' := s[header.hash := header], WithTd(t, header, newTd);
        if !alreadyKnown {
          t := WithTd(t, header, newTd);
          s := s[header.hash := header];
          count := count + 1;
        }
        assert s == s' && t == t';
        if i + 1 < |batch| { assert Parent(s, batch[i + 1]) == Some(header); }
        parentKnown := alreadyKnown;
      }
      assert batch[..|batch|] == batch;
    }

    /** Imports a header batch and lets the fork choice decide whether its last header becomes the head. */
    method WriteHeadersAndSetHead(batch: seq<Block>, preserve: Preserve, coin: bool) returns (r: Result<WriteStatus, ImportError>)
      requires Valid() && batch != [] && Linked(batch) && BatchFits(headers, batch)
      modifies this`headers, this`td, this`canon, this`headHeaderHash, this`currentHeader, this`currentHeaderHash
      ensures Valid()
      ensures Tree(headers, currentHeader) == ImportHeaders(ttd, old(Tree(headers, currentHeader)), batch)
      ensures r.Fail? <==> Parent(old(headers), batch[0]).None?
      ensures r.Fail? ==> unchanged(this)
      ensures r.Ok? ==> (r.value.CanonStat? <==> currentHeader != old(currentHeader))
      ensures r.Ok? ==> (r.value.SideStat? <==> KnownPrefix(old(headers), batch) < |batch|
                                                && !PrefersNew(ttd, headers, old(currentHeader), batch[|batch| - 1]))
    {
      var inserted := WriteHeaders(batch);
      if inserted.None? { return Fail(UnknownAncestor); }
      var last := batch[|batch| - 1];
      BatchStored(old(headers), batch);
      var localTd := GetTd(td, currentHeader.hash, currentHeader.number);
      var externTd := GetTd(td, last.hash, last.number);
      VerdictOnPathSums(ttd, headers, td, currentHeader, last, preserve, coin);
      var verdict := ReorgNeeded(ttd, localTd, externTd, currentHeader, last, preserve, coin);
      assert Recorded(headers, td, currentHeader.hash) && Recorded(headers, td, last.hash);
      if !verdict.value {
        return Ok(if inserted.value != 0 then SideStat else NonStat);
      }
      OnPathIff(headers, canon, currentHeader, last);
      if Read(canon, last.number) == last.hash && last.number <= currentHeader.number {
        return Ok(NonStat);
      }
      FirstNumber(headers, td, currentHeader, batch);
      var _ := Reorg(batch);
      return Ok(CanonStat);
    }
  }

  // ----- lemmas -----

  /** How many leading headers of the batch are stored. */
  function KnownPrefix(s: Store, batch: seq<Block>): (n: nat)
    ensures n <= |batch|
    decreases |batch|
  {
    if |batch| == 0 || Get(s, batch[0].hash, batch[0].number).None? then 0
    else 1 + KnownPrefix(s, batch[1..])
  }

  lemma {:induction false} KnownPrefixAt(s: Store, batch: seq<Block>, i: nat)
    requires i < |batch| && i <= KnownPrefix(s, batch)
    ensures KnownPrefix(s, batch) == i <==> Get(s, batch[i].hash, batch[i].number).None?
    decreases |batch|
  {
    if i > 0 { KnownPrefixAt(s, batch[1..], i - 1); }
  }

  lemma PathNonZero(s: Store, b: Block, n: nat)
    requires WellFormed(s) && Stored(s, b) && Complete(s, b) && n <= b.number
    ensures HashAt(s, b, n) != ZERO
  {
    CompleteReaches(s, b, n);
    if n < b.number { AncestorStored(s, b, n); }
  }

  /** Where the index already holds the header of a path, it holds the rest of that path too. */
  lemma CrossLink(s: Store, canon: Index, head: Block, first: Block, header: Block)
    requires WellFormed(s) && Stored(s, head) && Stored(s, first) && Complete(s, head) && IndexIsPath(canon, s, head)
    requires AncestorAt(s, first, header.number) == Some(header) && Stored(s, header)
    requires Read(canon, header.number) == header.hash
    ensures Complete(s, first)
    ensures forall n: nat :: n <= header.number ==> Read(canon, n) == HashAt(s, first, n)
  {
    assert Read(canon, header.number) == HashAt(s, head, header.number);
    SameHashSameBlock(s, head, first, header.number);
    CompleteReaches(s, head, header.number);
    CompleteReaches(s, head, 0);
    PathsAgreeBelow(s, head, first, header.number, 0);
    ReachesIsComplete(s, first);
    forall n: nat | n <= header.number ensures Read(canon, n) == HashAt(s, first, n) {
      PathsAgreeBelow(s, head, first, header.number, n);
    }
  }

  lemma {:induction false} LinkedNumbers(batch: seq<Block>, i: nat)
    requires Linked(batch) && i < |batch|
    ensures batch[i].number == batch[0].number + i
    decreases i
  {
    if i > 0 { LinkedNumbers(batch, i - 1); }
  }

  /** A stored linked batch is a stretch of the path of its last header. */
  lemma {:induction false} BatchPath(s: Store, batch: seq<Block>, i: nat, j: nat)
    requires WellFormed(s) && Linked(batch) && i <= j < |batch|
    requires forall k :: 0 <= k < |batch| ==> Stored(s, batch[k])
    ensures AncestorAt(s, batch[j], batch[i].number) == Some(batch[i])
    decreases j
  {
    LinkedNumbers(batch, i);
    LinkedNumbers(batch, j);
    if i < j {
      BatchPath(s, batch, i, j - 1);
      assert Parent(s, batch[j]) == Some(batch[j - 1]);
    }
  }

  lemma {:induction false} CompleteBatch(s: Store, batch: seq<Block>, j: nat)
    requires WellFormed(s) && Linked(batch) && j < |batch|
    requires forall k :: 0 <= k < |batch| ==> Stored(s, batch[k])
    ensures Complete(s, batch[j]) <==> Complete(s, batch[0])
    decreases j
  {
    if j > 0 {
      CompleteBatch(s, batch, j - 1);
      assert Parent(s, batch[j]) == Some(batch[j - 1]);
    }
  }

  /** `total` is the path sum of the stored parent of `b`. */
  ghost predicate ParentSum(s: Store, b: Block, total: nat) {
    Parent(s, b).Some? && total == PathSum(s, Parent(s, b).value)
  }

  /** What the writes of a header reorg hold: the batch, and below it the path of its first header. */
  ghost predicate WritesBatch(batch: seq<Block>, base: Index, writes: Index) {
    && batch != [] && Linked(batch)
    && (forall n :: n in writes <==> n in base || batch[0].number <= n <= batch[|batch| - 1].number)
    && (forall i :: 0 <= i < |batch| ==> batch[i].number in writes && writes[batch[i].number] == batch[i].hash)
    && (forall n :: n in writes && n < batch[0].number ==> writes[n] == base[n])
    && (forall n :: n in base ==> n <= batch[0].number)
  }

  /** The batch write of a header reorg turns the path of the head into the path of the last header. */
  lemma ReorgPath(
      s: Store, canon: Index, head: Block, batch: seq<Block>, doomed: set<nat>, base: Index, writes: Index)
    requires WellFormed(s) && Stored(s, head) && Complete(s, head) && IndexIsPath(canon, s, head)
    requires WritesBatch(batch, base, writes) && forall i :: 0 <= i < |batch| ==> Stored(s, batch[i])
    requires forall n :: n in doomed ==> batch[|batch| - 1].number < n
    requires || (Parent(s, batch[0]) == Some(head) && base == map[])
             || ((forall n: nat :: n <= batch[0].number ==> Read(canon + base, n) == HashAt(s, batch[0], n))
                 && (forall n :: n in doomed <==> batch[|batch| - 1].number < n <= head.number))
    ensures IndexIsPath((canon - doomed) + writes, s, batch[|batch| - 1])
  {
    var last := batch[|batch| - 1];
    LinkedNumbers(batch, |batch| - 1);
    forall n: nat ensures Read((canon - doomed) + writes, n) == HashAt(s, last, n) {
      assert Read(canon, n) == HashAt(s, head, n);
      if n > last.number {
        AboveBatch(canon, doomed, base, writes, batch, n);
      } else if n >= batch[0].number {
        WithinBatch(s, canon - doomed, base, writes, batch, n);
      } else {
        BelowBatch(canon, doomed, base, writes, batch, n);
        BatchBelow(s, batch, n);
      }
    }
  }

  lemma AboveBatch(canon: Index, doomed: set<nat>, base: Index, writes: Index, batch: seq<Block>, n: nat)
    requires WritesBatch(batch, base, writes) && batch[|batch| - 1].number < n && batch[0].number <= batch[|batch| - 1].number
    ensures Read((canon - doomed) + writes, n) == if n in doomed then ZERO else Read(canon, n)
  {
    assert n !in writes;
  }

  lemma WithinBatch(s: Store, kept: Index, base: Index, writes: Index, batch: seq<Block>, n: nat)
    requires WellFormed(s) && WritesBatch(batch, base, writes) && forall i :: 0 <= i < |batch| ==> Stored(s, batch[i])
    requires batch[0].number <= n <= batch[|batch| - 1].number
    ensures Read(kept + writes, n) == HashAt(s, batch[|batch| - 1], n)
  {
    LinkedNumbers(batch, |batch| - 1);
    var i := n - batch[0].number;
    LinkedNumbers(batch, i);
    BatchPath(s, batch, i, |batch| - 1);
    assert batch[i].number == n;
  }

  lemma BelowBatch(canon: Index, doomed: set<nat>, base: Index, writes: Index, batch: seq<Block>, n: nat)
    requires WritesBatch(batch, base, writes) && n < batch[0].number && n !in doomed
    ensures Read((canon - doomed) + writes, n) == Read(canon + base, n)
  {
  }

  /** Below its first header the path of a batch is the path of that header, or of its parent. */
  lemma BatchBelow(s: Store, batch: seq<Block>, n: nat)
    requires WellFormed(s) && batch != [] && Linked(batch) && n < batch[0].number
    requires forall k :: 0 <= k < |batch| ==> Stored(s, batch[k])
    ensures HashAt(s, batch[|batch| - 1], n) == HashAt(s, batch[0], n)
    ensures Parent(s, batch[0]).Some? ==> HashAt(s, batch[|batch| - 1], n) == HashAt(s, Parent(s, batch[0]).value, n)
  {
    BatchPath(s, batch, 0, |batch| - 1);
    AncestorCompose(s, batch[|batch| - 1], batch[0].number, n);
  }

  lemma {:induction false} BatchStored(s: Store, batch: seq<Block>)
    requires BatchFits(s, batch)
    ensures forall i :: 0 <= i < |batch| ==> Stored(AddAll(s, batch), batch[i])
    ensures Extends(s, AddAll(s, batch))
    decreases |batch|
  {
    if |batch| > 0 {
      var s1 := s[batch[0].hash := batch[0]];
      BatchStored(s1, batch[1..]);
      forall i | 0 <= i < |batch| ensures Stored(AddAll(s, batch), batch[i]) {
        if i > 0 { assert batch[1..][i - 1] == batch[i]; }
      }
    }
  }

  /** The index holds a stored header exactly when the header is on the path of the head. */
  lemma OnPathIff(s: Store, canon: Index, head: Block, b: Block)
    requires WellFormed(s) && Stored(s, head) && Stored(s, b) && IndexIsPath(canon, s, head)
    ensures Read(canon, b.number) == b.hash <==> AncestorAt(s, head, b.number) == Some(b)
  {
    assert Read(canon, b.number) == HashAt(s, head, b.number);
    if Read(canon, b.number) == b.hash { SameHashSameBlock(s, head, b, b.number); }
  }

  lemma FirstNumber(s: Store, td: TdTable, head: Block, batch: seq<Block>)
    requires Sound(s, td) && batch != [] && Stored(s, head) && Stored(s, batch[0]) && Parent(s, batch[0]).Some?
    ensures batch[0].parent == head.hash ==> batch[0].number == head.number + 1
  {
  }
}
