/**
 The full-block chain: head writes, reorgs, block import and side-chain import.

 The database tables are plain maps, a batch is written atomically, and the ancient store is empty.
 */
module BlockChain {
  import opened Options
  import opened Chain
  import opened Fork
  import opened TxIndex
  import opened TotalDifficulty
  import opened ForkChoice
  import opened ChainSpec
  import opened Writers

  /** The canonical index at some moment, and the block the head marker names then. */
  datatype Snapshot = Snapshot(canon: Index, head: Block)

  /** At or below the head marker the index is the marker's path. */
  ghost predicate Agrees(s: Store, snap: Snapshot) {
    forall n: nat :: n <= snap.head.number ==> Read(snap.canon, n) == HashAt(s, snap.head, n)
  }

  class BlockChain {
    const genesis: Block
    const ttd: Option<nat>

    // on disk
    var blocks: Store
    var td: TdTable
    var canon: Index
    var txLookup: Lookup
    var headHeaderHash: Hash
    var headFastBlockHash: Hash
    var headBlockHash: Hash
    // in memory
    var currentHeader: Block
    var currentSnapBlock: Block
    var currentBlock: Block

    /** Every head marker, on disk and in memory, denotes `b`. */
    ghost predicate HeadIs(b: Block)
      reads this
    {
      && headHeaderHash == headFastBlockHash == headBlockHash == b.hash
      && currentHeader == currentSnapBlock == currentBlock == b
    }

    ghost predicate Valid()
      reads this
    {
      HeadIs(currentBlock) && Consistent(blocks, td, genesis, canon, currentBlock)
    }

    /** The lookup table is exactly that of the path of the head. */
    ghost predicate LookupOk()
      reads this
    {
      Indexed(txLookup, blocks, currentBlock)
    }

    /** A database holding nothing but the genesis block, whose transactions, if any, are not indexed. */
    constructor (genesis: Block, ttd: Option<nat>)
      requires genesis.number == 0 && genesis.parent == ZERO && genesis.hash != ZERO
      ensures LookupOk() <==> genesis.txs == []
      ensures Valid() && currentBlock == genesis && this.genesis == genesis && this.ttd == ttd
      ensures blocks == map[genesis.hash := genesis]
    {
      this.genesis, this.ttd := genesis, ttd;
      blocks := map[genesis.hash := genesis];
      td := map[(0, genesis.hash) := genesis.difficulty];
      canon := map[0 := genesis.hash];
      txLookup := map[];
      headHeaderHash, headFastBlockHash, headBlockHash := genesis.hash, genesis.hash, genesis.hash;
      currentHeader, currentSnapBlock, currentBlock := genesis, genesis, genesis;
      new;
      forall h ensures Recorded(blocks, td, h) && RootedAt(blocks, genesis, h) { }
      if genesis.txs != [] {
        assert TxAt(blocks, genesis, genesis.txs[0], 0) && !Looks(txLookup, genesis.txs[0], 0);
      }
    }

    /** Injects a block as head: one batch for the markers, its canonical entry and its transactions. */
    method WriteHeadBlock(block: Block)
      modifies this`canon, this`txLookup, this`headHeaderHash, this`headFastBlockHash, this`headBlockHash,
               this`currentHeader, this`currentSnapBlock, this`currentBlock
      ensures HeadIs(block)
      ensures canon == old(canon)[block.number := block.hash]
      ensures txLookup == WriteEntries(old(txLookup), block)
    {
      headHeaderHash, headFastBlockHash := block.hash, block.hash;
      canon := canon[block.number := block.hash];
      txLookup := WriteEntries(txLookup, block);
      headBlockHash := block.hash;
      currentHeader, currentSnapBlock, currentBlock := block, block, block;
    }

    /** Writes the new side of the fork, all but the new head, in increasing order.  `snaps` is what a crash
        after each of the batches leaves. */
    method WriteNewSide(newHead: Block, ghost common: Block, newChain: seq<Block>)
        returns (added: set<TxHash>, ghost snaps: seq<Snapshot>)
      requires AncestorAt(blocks, newHead, common.number) == Some(common)
      requires IsSegment(blocks, newHead, common.number, newChain)
      modifies this`canon, this`txLookup, this`headHeaderHash, this`headFastBlockHash, this`headBlockHash,
               this`currentHeader, this`currentSnapBlock, this`currentBlock
      ensures SideSoFar(blocks, newHead, common.number, newHead.number, old(canon), old(txLookup), canon, txLookup, added)
      ensures |newChain| > 1 ==> HeadIs(newChain[1])
      ensures |newChain| <= 1 ==> unchanged(this)
      ensures |snaps| == if |newChain| <= 1 then 0 else |newChain| - 1
      ensures old(PathBelow(canon, blocks, newHead, common.number)) ==>
        forall k :: 0 <= k < |snaps| ==> Agrees(blocks, snaps[k])
    {
      added, snaps := {}, [];
      SideStart(blocks, newHead, common.number, canon, txLookup);
      if |newChain| <= 1 { return; }
      var i := |newChain| - 1;
      while i >= 1
        invariant 0 <= i < |newChain|
        invariant SideSoFar(blocks, newHead, common.number, newHead.number - i, old(canon), old(txLookup), canon, txLookup, added)
        invariant i < |newChain| - 1 ==> HeadIs(newChain[i + 1])
        invariant |snaps| == |newChain| - 1 - i
        invariant old(PathBelow(canon, blocks, newHead, common.number)) ==>
          forall k :: 0 <= k < |snaps| ==> Agrees(blocks, snaps[k])
      {
        SideStep(blocks, newHead, common.number, newHead.number - i, old(canon), old(txLookup), canon, txLookup, added, newChain[i]);
        WriteHeadBlock(newChain[i]);
        snaps := snaps + [Snapshot(canon, newChain[i])];
        added := added + TxSet(newChain[i]);
        i := i - 1;
      }
    }

    /** Deletes canonical entries upwards from `number + 1` until the first gap, in one batch together
        with the stale transaction entries. */
    method DropStale(number: nat, ghost top: nat, stale: set<TxHash>)
      requires forall n: nat :: number < n <= top ==> Read(canon, n) != ZERO
      requires forall n: nat :: top < n && number < n ==> Read(canon, n) == ZERO
      modifies this`canon, this`txLookup
      ensures forall n: nat :: Read(canon, n) == if n <= number then old(Read(canon, n)) else ZERO
      ensures txLookup == old(txLookup) - stale
    {
      var doomed: set<nat> := {};
      var i := number + 1;
      while Read(canon, i) != ZERO
        invariant number < i
        invariant i <= top + 1 || i == number + 1
        invariant forall n :: n in doomed <==> number < n < i
        decreases top + 1 - i
      {
        doomed := doomed + {i};
        i := i + 1;
      }
      forall n: nat ensures Read(canon - doomed, n) == if n <= number then Read(canon, n) else ZERO {
        assert n in doomed <==> number < n < i;
        assert n >= i ==> i > top && Read(canon, n) == ZERO;
      }
      canon := canon - doomed;
      txLookup := txLookup - stale;
    }

    /** The hashes of all transactions on the old side of the fork. */
    method Transactions(oldHead: Block, ghost common: Block, oldChain: seq<Block>) returns (deleted: set<TxHash>)
      requires IsSegment(blocks, oldHead, common.number, oldChain)
      ensures forall t :: t in deleted <==> TxBetween(blocks, oldHead, t, common.number, oldHead.number + 1)
    {
      deleted := {};
      ghost var top := oldHead.number + 1;
      var i := |oldChain|;
      while i > 0
        invariant 0 <= i <= |oldChain|
        invariant forall t :: t in deleted <==> TxBetween(blocks, oldHead, t, common.number, top - i)
      {
        i := i - 1;
        ghost var hi := oldHead.number - i;
        assert AncestorAt(blocks, oldHead, hi) == Some(oldChain[i]);
        forall t ensures TxBetween(blocks, oldHead, t, common.number, hi + 1) <==> t in deleted + TxSet(oldChain[i]) {
          BetweenStep(blocks, oldHead, t, common.number, hi);
        }
        deleted := deleted + TxSet(oldChain[i]);
      }
    }

    /** Rewrites both indexes from the path of `oldHead` to that of `newHead`, leaving the entry of
        the new head itself to `WriteHeadBlock`.  A crash between the batches that write the new side leaves
        the index in agreement with the head marker; one after the deletions does so exactly if the marker
        is on the new path, which it is not when the new side has no block below the new head. */
    method Reorg(oldHead: Block, newHead: Block) returns (ok: bool, ghost snaps: seq<Snapshot>)
      requires WellFormed(blocks) && Stored(blocks, newHead)
      requires Get(blocks, oldHead.hash, oldHead.number).Some? ==> oldHead == blocks[oldHead.hash]
      requires Complete(blocks, oldHead) && IndexIsPath(canon, blocks, oldHead)
      modifies this`canon, this`txLookup, this`headHeaderHash, this`headFastBlockHash, this`headBlockHash,
               this`currentHeader, this`currentSnapBlock, this`currentBlock
      ensures ok <==> Stored(blocks, oldHead) && Complete(blocks, newHead)
                      && HashAt(blocks, oldHead, 0) == HashAt(blocks, newHead, 0)
      ensures !ok ==> unchanged(this)
      ensures ok ==> forall n: nat :: n != newHead.number ==> Read(canon, n) == HashAt(blocks, newHead, n)
      ensures ok && old(Indexed(txLookup, blocks, oldHead)) && Unique(blocks, newHead) ==>
        Indexed(WriteEntries(txLookup, newHead), blocks, newHead)
      ensures ok ==>
        if LeavesOld(blocks, oldHead, newHead) then HeadIs(Parent(blocks, newHead).value)
        else unchanged(`headHeaderHash, `headFastBlockHash, `headBlockHash,
                       `currentHeader, `currentSnapBlock, `currentBlock)
      ensures forall k :: 0 <= k < |snaps| ==> Agrees(blocks, snaps[k])
      ensures ok && old(currentBlock) == oldHead ==>
        (Agrees(blocks, Snapshot(canon, currentBlock))
         <==> AncestorAt(blocks, newHead, currentBlock.number) == Some(currentBlock))
    {
      snaps := [];
      var r := FindFork(blocks, oldHead, newHead);
      if Stored(blocks, oldHead) { MeetIffSameRoot(blocks, oldHead, newHead); }
      if r.None? { return false, []; }
      assert Meet(blocks, oldHead, newHead, r.value.common.number);
      snaps := RewriteIndexes(oldHead, newHead, r.value);
      ok := true;
    }

    /** The part of a reorg after the fork was found. */
    method RewriteIndexes(oldHead: Block, newHead: Block, f: Fork) returns (ghost snaps: seq<Snapshot>)
      requires WellFormed(blocks) && Stored(blocks, newHead) && Stored(blocks, oldHead)
      requires Complete(blocks, oldHead) && IndexIsPath(canon, blocks, oldHead) && IsFork(blocks, oldHead, newHead, f)
      modifies this`canon, this`txLookup, this`headHeaderHash, this`headFastBlockHash, this`headBlockHash,
               this`currentHeader, this`currentSnapBlock, this`currentBlock
      ensures forall n: nat :: n != newHead.number ==> Read(canon, n) == HashAt(blocks, newHead, n)
      ensures old(Indexed(txLookup, blocks, oldHead)) && Unique(blocks, newHead) ==>
        Indexed(WriteEntries(txLookup, newHead), blocks, newHead)
      ensures if LeavesOld(blocks, oldHead, newHead) then HeadIs(Parent(blocks, newHead).value)
              else unchanged(`headHeaderHash, `headFastBlockHash, `headBlockHash,
                             `currentHeader, `currentSnapBlock, `currentBlock)
      ensures forall k :: 0 <= k < |snaps| ==> Agrees(blocks, snaps[k])
      ensures old(currentBlock) == oldHead ==>
        (Agrees(blocks, Snapshot(canon, currentBlock))
         <==> AncestorAt(blocks, newHead, currentBlock.number) == Some(currentBlock))
    {
      var deleted := Transactions(oldHead, f.common, f.oldChain);
      BelowFork(canon, blocks, oldHead, newHead, f.common);
      ghost var c := f.common.number;
      var added;
      added, snaps := WriteNewSide(newHead, f.common, f.newChain);
      var number := f.common.number;
      if |f.newChain| > 1 {
        number := f.newChain[1].number;
        assert AncestorAt(blocks, newHead, newHead.number - 1) == Some(f.newChain[1]);
        AncestorStep(blocks, newHead, newHead.number);
      }
      NewSideLeaves(blocks, oldHead, newHead, f);
      AfterSide(blocks, oldHead, newHead, c, number, old(canon), canon);
      ghost var overlay := txLookup;
      DropStale(number, oldHead.number, deleted - added);
      if Indexed(old(txLookup), blocks, oldHead) && Unique(blocks, newHead) {
        ReorgIndexes(old(txLookup), overlay, blocks, oldHead, newHead, c, deleted, added);
      }
      if old(currentBlock) == oldHead {
        MarkerStored(blocks, oldHead, newHead, c, number, currentBlock);
        AfterDrop(canon, blocks, newHead, number, currentBlock);
      }
    }

    /** Makes a stored block the head, reorganising first unless it sits directly on the head. */
    method WriteKnownBlock(block: Block) returns (ok: bool)
      requires Valid() && Stored(blocks, block)
      modifies this`canon, this`txLookup, this`headHeaderHash, this`headFastBlockHash, this`headBlockHash,
               this`currentHeader, this`currentSnapBlock, this`currentBlock
      ensures ok && Valid() && currentBlock == block
      ensures old(LookupOk()) ==> (LookupOk() <==> Unique(blocks, block))
    {
      ok := true;
      RootedPaths(blocks, td, genesis, currentBlock, block);
      if block.parent != currentBlock.hash {
        ghost var snaps;
        ok, snaps := Reorg(currentBlock, block);
      } else {
        ExtendPath(blocks, canon, currentBlock, block);
        if LookupOk() && Unique(blocks, block) { ExtendIndexes(txLookup, blocks, currentBlock, block); }
      }
      WriteHeadBlock(block);
      if LookupOk() { IndexedOnlyIfUnique(txLookup, blocks, block); }
    }

    /** Writes a block and its total difficulty; fails exactly when the parent is unknown. */
    method WriteBlockWithState(block: Block) returns (ok: bool)
      requires Valid() && block.hash != ZERO && (block.hash in blocks ==> blocks[block.hash] == block)
      modifies this`blocks, this`td
      ensures Valid()
      ensures ok <==> Parent(old(blocks), block).Some?
      ensures !ok ==> unchanged(this)
      ensures ok ==> blocks == old(blocks)[block.hash := block]
      ensures Db(blocks, td) == Written(old(Db(blocks, td)), OneBlock(block))
      ensures old(LookupOk()) ==> LookupOk()
    {
      var ptd := GetTd(td, block.parent, block.number - 1);
      TdMeansStored(blocks, td, block.parent, block.number - 1);
      if ptd.None? { return false; }
      AddKeepsConsistent(blocks, td, genesis, canon, currentBlock, block);
      AddKeepsLookup(blocks, td, txLookup, currentBlock, block);
      td := WithTd(td, block, block.difficulty + ptd.value);
      blocks := blocks[block.hash := block];
      ok := true;
    }

    /** Imports a block and lets the fork choice decide whether it becomes the head. */
    method WriteBlockAndSetHead(block: Block, preserve: Preserve, coin: bool) returns (r: Result<WriteStatus, ImportError>)
      requires Valid() && block.hash != ZERO && (block.hash in blocks ==> blocks[block.hash] == block)
      modifies this`blocks, this`td, this`canon, this`txLookup, this`headHeaderHash, this`headFastBlockHash,
               this`headBlockHash, this`currentHeader, this`currentSnapBlock, this`currentBlock
      ensures Valid()
      ensures old(LookupOk()) ==> (LookupOk() <==> Unique(blocks, currentBlock))
      ensures Tree(blocks, currentBlock) == Import(ttd, old(Tree(blocks, currentBlock)), block)
      ensures r.Fail? <==> Parent(old(blocks), block).None?
      ensures r.Fail? ==> unchanged(this)
      ensures r.Ok? ==> r.value == if PrefersNew(ttd, blocks, old(currentBlock), block) then CanonStat else SideStat
    {
      var ok := WriteBlockWithState(block);
      if LookupOk() { IndexedOnlyIfUnique(txLookup, blocks, currentBlock); }
      if !ok { return Fail(UnknownAncestor); }
      var localTd := GetTd(td, currentBlock.hash, currentBlock.number);
      var externTd := GetTd(td, block.hash, block.number);
      VerdictOnPathSums(ttd, blocks, td, currentBlock, block, preserve, coin);
      var verdict := ReorgNeeded(ttd, localTd, externTd, currentBlock, block, preserve, coin);
      if verdict.value {
        var _ := WriteKnownBlock(block);
        return Ok(CanonStat);
      }
      return Ok(SideStat);
    }

    /** One block of a side chain: a canonical block has its difficulty on file, any other is written on
        top of the running total.  `side` says which. */
    method ImportSideBlock(block: Block, running: Option<nat>) returns (r: Result<nat, ImportError>, side: bool)
      requires Valid() && Fits(blocks, block) && Parent(blocks, block).Some?
      requires running.Some? ==> running.value == PathSum(blocks, Parent(blocks, block).value)
      modifies this`blocks, this`td
      ensures Valid() && (old(LookupOk()) ==> LookupOk())
      ensures r.Fail? <==> GhostState(old(blocks), canon, currentBlock, block)
      ensures r.Fail? ==> unchanged(this)
      ensures r.Ok? ==> blocks == old(blocks)[block.hash := block] && r.value == PathSum(blocks, block)
      ensures r.Ok? ==> (side <==> Read(canon, block.number) != block.hash)
    {
      if Read(canon, block.number) != ZERO { IndexEntryStored(blocks, td, canon, currentBlock, block.number); }
      var canonical := Get(blocks, Read(canon, block.number), block.number);
      if currentBlock.number >= block.number && canonical.Some? && canonical.value.hash == block.hash {
        // A canonical block whose state was pruned: take its difficulty from the table.
        TdMeansStored(blocks, td, block.hash, block.number);
        assert blocks == blocks[block.hash := block];
        return Ok(GetTd(td, block.hash, block.number).value), false;
      }
      if currentBlock.number >= block.number && canonical.Some? && canonical.value.root == block.root {
        return Fail(GhostStateAttack), true;
      }
      TdMeansStored(blocks, td, block.parent, block.number - 1);
      var parentTd := if running.Some? then running else GetTd(td, block.parent, block.number - 1);
      var externTd := parentTd.value + block.difficulty;
      AddKeepsConsistent(blocks, td, genesis, canon, currentBlock, block);
      AddKeepsLookup(blocks, td, txLookup, currentBlock, block);
      if Get(blocks, block.hash, block.number).None? {
        td := WithTd(td, block, externTd);
        blocks := blocks[block.hash := block];
      } else {
        assert blocks == blocks[block.hash := block];
      }
      return Ok(externTd), true;
    }

    /** The import loop of a side chain whose state is pruned: writes the blocks with a running total
        difficulty that is reset on every canonical block met on the way.  Fails exactly at the first
        block, here number `k`, that shares its state root with another, canonical block of its height. */
    method InsertSideChain(batch: seq<Block>) returns (r: Result<(nat, Block), ImportError>, ghost k: nat)
      requires Valid() && |batch| > 0 && Linked(batch) && Parent(blocks, batch[0]).Some?
      requires BatchFits(blocks, batch)
      modifies this`blocks, this`td
      ensures Valid() && (old(LookupOk()) ==> LookupOk())
      ensures k <= |batch| && blocks == AddAll(old(blocks), batch[..k]) && (r.Ok? <==> k == |batch|)
      ensures forall i :: 0 <= i < k ==> !GhostAt(old(blocks), canon, currentBlock, batch, i)
      ensures r.Fail? ==> GhostAt(old(blocks), canon, currentBlock, batch, k)
      ensures r.Ok? ==> r.value.0 == PathSum(blocks, batch[|batch| - 1]) && r.value.1 == LastSide(canon, batch)
      ensures Db(blocks, td) == Written(old(Db(blocks, td)), SideBlocks(batch[..k]))
    {
      var externTd: Option<nat> := None;
      var lastBlock := batch[0];
      assert batch[..0] == [];
      k := 0;
      for i := 0 to |batch|
        invariant Valid() && (old(LookupOk()) ==> LookupOk())
        invariant blocks == AddAll(old(blocks), batch[..i])
        invariant k == i && forall j :: 0 <= j < i ==> !GhostAt(old(blocks), canon, currentBlock, batch, j)
        invariant externTd.Some? <==> i > 0
        invariant i > 0 ==> externTd.value == PathSum(blocks, batch[i - 1])
        invariant lastBlock == if i == 0 then batch[0] else LastSide(canon, batch[..i])
      {
        var block := batch[i];
        PrefixStored(old(blocks), batch, i);
        LastSideNext(canon, batch, i);
        var total, side := ImportSideBlock(block, externTd);
        if total.Fail? {
          SideWritten(old(Db(blocks, td)), Db(blocks, td), genesis, batch, i);
          return Fail(total.error), i;
        }
        externTd := Some(total.value);
        if side { lastBlock := block; }
        k := i + 1;
      }
      assert batch[..|batch|] == batch;
      SideWritten(old(Db(blocks, td)), Db(blocks, td), genesis, batch, |batch|);
      return Ok((externTd.value, lastBlock)), k;
    }
  }

  /** Up to height `n` the index is the path of `b`. */
  ghost predicate PathBelow(canon: Index, s: Store, b: Block, n: nat) {
    forall k: nat :: k <= n ==> Read(canon, k) == HashAt(s, b, k)
  }

  /** The new side strictly between heights `lo` and `hi` has been written over the canonical index and,
      if no transaction repeats, over the lookup table; `added` holds its transactions. */
  ghost predicate SideSoFar(s: Store, newHead: Block, lo: nat, hi: nat, canon0: Index, lookup0: Lookup,
                            canon: Index, lookup: Lookup, added: set<TxHash>) {
    && IndexSide(s, newHead, lo, hi, canon0, canon)
    && (Unique(s, newHead) ==> Overlaid(lookup, lookup0, s, newHead, lo, hi))
    && TxSide(s, newHead, lo, hi, added)
  }

  ghost predicate IndexSide(s: Store, newHead: Block, lo: nat, hi: nat, canon0: Index, canon: Index) {
    forall n: nat :: Read(canon, n) == if lo < n < hi then HashAt(s, newHead, n) else Read(canon0, n)
  }

  ghost predicate TxSide(s: Store, newHead: Block, lo: nat, hi: nat, added: set<TxHash>) {
    forall t :: t in added <==> TxBetween(s, newHead, t, lo, hi)
  }

  lemma SideStart(s: Store, newHead: Block, lo: nat, canon: Index, lookup: Lookup)
    ensures forall hi: nat :: hi <= lo + 1 ==> SideSoFar(s, newHead, lo, hi, canon, lookup, canon, lookup, {})
  {
    NothingBetween(lookup, s, newHead, lo);
  }

  /** One more block of the new side; a crash after it leaves index and marker in agreement. */
  lemma SideStep(s: Store, newHead: Block, lo: nat, hi: nat, canon0: Index, lookup0: Lookup,
                 canon: Index, lookup: Lookup, added: set<TxHash>, b: Block)
    requires lo < hi && AncestorAt(s, newHead, hi) == Some(b)
    requires SideSoFar(s, newHead, lo, hi, canon0, lookup0, canon, lookup, added)
    ensures SideSoFar(s, newHead, lo, hi + 1, canon0, lookup0, canon[b.number := b.hash], WriteEntries(lookup, b), added + TxSet(b))
    ensures PathBelow(canon0, s, newHead, lo) ==> Agrees(s, Snapshot(canon[b.number := b.hash], b))
  {
    if Unique(s, newHead) { OverlayStep(lookup, lookup0, s, newHead, lo, hi); }
    TxSideStep(s, newHead, lo, hi, added, b);
    IndexSideStep(s, newHead, lo, hi, canon0, canon, b);
  }

  lemma TxSideStep(s: Store, newHead: Block, lo: nat, hi: nat, added: set<TxHash>, b: Block)
    requires lo < hi && AncestorAt(s, newHead, hi) == Some(b) && TxSide(s, newHead, lo, hi, added)
    ensures TxSide(s, newHead, lo, hi + 1, added + TxSet(b))
  {
    forall t ensures TxBetween(s, newHead, t, lo, hi + 1) <==> t in added + TxSet(b) {
      BetweenStep(s, newHead, t, lo, hi);
    }
  }

  lemma IndexSideStep(s: Store, newHead: Block, lo: nat, hi: nat, canon0: Index, canon: Index, b: Block)
    requires lo < hi && AncestorAt(s, newHead, hi) == Some(b) && IndexSide(s, newHead, lo, hi, canon0, canon)
    ensures IndexSide(s, newHead, lo, hi + 1, canon0, canon[b.number := b.hash])
    ensures PathBelow(canon0, s, newHead, lo) ==> Agrees(s, Snapshot(canon[b.number := b.hash], b))
  {
    if PathBelow(canon0, s, newHead, lo) { SnapshotAgrees(s, canon[b.number := b.hash], newHead, b); }
  }

  /** With the new side written, the index is the new path up to `number`, and above it still the old one. */
  lemma AfterSide(s: Store, oldHead: Block, newHead: Block, c: nat, number: nat, canon0: Index, canon: Index)
    requires WellFormed(s) && Stored(s, oldHead) && Complete(s, oldHead) && IndexIsPath(canon0, s, oldHead)
    requires PathBelow(canon0, s, newHead, c) && c <= number && (number == c || number == newHead.number - 1)
    requires number == c ==> newHead.number <= c + 1
    requires IndexSide(s, newHead, c, newHead.number, canon0, canon)
    ensures forall n: nat :: n <= number ==> Read(canon, n) == HashAt(s, newHead, n)
    ensures forall n: nat :: number < n ==> Read(canon, n) == HashAt(s, oldHead, n)
    ensures forall n: nat :: number < n <= oldHead.number ==> Read(canon, n) != ZERO
  {
    forall n: nat
      ensures n <= number ==> Read(canon, n) == HashAt(s, newHead, n)
      ensures number < n ==> Read(canon, n) == HashAt(s, oldHead, n)
      ensures number < n <= oldHead.number ==> Read(canon, n) != ZERO
    {
      assert Read(canon0, n) == HashAt(s, oldHead, n);
      if n <= oldHead.number {
        CompleteReaches(s, oldHead, n);
        if n < oldHead.number { AncestorStored(s, oldHead, n); }
      }
    }
  }

  lemma SnapshotAgrees(s: Store, canon: Index, newHead: Block, b: Block)
    requires AncestorAt(s, newHead, b.number) == Some(b) && PathBelow(canon, s, newHead, b.number)
    ensures Agrees(s, Snapshot(canon, b))
  {
    forall n: nat | n <= b.number ensures Read(canon, n) == HashAt(s, b, n) {
      AncestorCompose(s, newHead, b.number, n);
    }
  }

  lemma BelowFork(canon: Index, s: Store, oldHead: Block, newHead: Block, common: Block)
    requires IndexIsPath(canon, s, oldHead)
    requires AncestorAt(s, oldHead, common.number) == Some(common) == AncestorAt(s, newHead, common.number)
    ensures PathBelow(canon, s, newHead, common.number)
  {
    forall k: nat | k <= common.number ensures Read(canon, k) == HashAt(s, newHead, k) {
      PathsAgreeBelow(s, oldHead, newHead, common.number, k);
    }
  }

  /** The parent of the new head is off the old path. */
  ghost predicate LeavesOld(s: Store, oldHead: Block, newHead: Block) {
    && Parent(s, newHead).Some?
    && AncestorAt(s, oldHead, Parent(s, newHead).value.number) != Parent(s, newHead)
  }

  lemma NewSideLeaves(s: Store, oldHead: Block, newHead: Block, f: Fork)
    requires IsFork(s, oldHead, newHead, f)
    ensures LeavesOld(s, oldHead, newHead) <==> |f.newChain| > 1
  {
    if newHead.number > 0 {
      assert AncestorAt(s, newHead, newHead.number - 1) == Parent(s, newHead);
      if f.common.number < newHead.number - 1 {
        assert AncestorAt(s, newHead, newHead.number - 1) == Some(f.newChain[1]);
        assert !Meet(s, oldHead, newHead, newHead.number - 1);
      } else if f.common.number == newHead.number {
        AncestorCompose(s, oldHead, newHead.number, newHead.number - 1);
      }
    }
  }

  /** A heavy block displaces two light ones on the same parent: until it is written as head itself, the
      marker names a block whose canonical entry is already gone. */
  lemma MarkerLeftBehind() returns (s: Store, oldHead: Block, newHead: Block)
    ensures WellFormed(s) && Stored(s, oldHead) && Stored(s, newHead) && Complete(s, oldHead) && Complete(s, newHead)
    ensures HashAt(s, oldHead, 0) == HashAt(s, newHead, 0) && PrefersNew(None, s, oldHead, newHead)
    ensures !LeavesOld(s, oldHead, newHead) && AncestorAt(s, newHead, oldHead.number) != Some(oldHead)
  {
    var genesis := Block(1, ZERO, 0, 1, 0, 0, []);
    var b := Block(2, 1, 1, 1, 0, 0, []);
    oldHead := Block(3, 2, 2, 1, 0, 0, []);
    newHead := Block(4, 1, 1, 9, 0, 0, []);
    s := map[1 := genesis, 2 := b, 3 := oldHead, 4 := newHead];
    assert Parent(s, oldHead) == Some(b) && Parent(s, b) == Some(genesis) && Parent(s, newHead) == Some(genesis);
    assert PathSum(s, b) == 2 && PathSum(s, oldHead) == 3 && PathSum(s, newHead) == 10;
  }

  /** The head marker after the new side was written: the block below the new head, or still the old head. */
  lemma MarkerStored(s: Store, oldHead: Block, newHead: Block, c: nat, number: nat, head: Block)
    requires WellFormed(s) && Stored(s, oldHead) && c <= number
    requires forall n: nat :: c < n ==> !Meet(s, oldHead, newHead, n)
    requires head == oldHead || (head.number == number < newHead.number && AncestorAt(s, newHead, number) == Some(head))
    ensures Stored(s, head)
    ensures AncestorAt(s, newHead, head.number) == Some(head) ==> head.number <= number
  {
    assert AncestorAt(s, newHead, oldHead.number) == Some(oldHead) ==> Meet(s, oldHead, newHead, oldHead.number);
    if head != oldHead { AncestorStored(s, newHead, number); }
  }

  /** After the deletions the index agrees with the head marker exactly if that is on the new path. */
  lemma AfterDrop(canon: Index, s: Store, newHead: Block, number: nat, head: Block)
    requires WellFormed(s) && Stored(s, newHead) && Stored(s, head)
    requires forall n: nat :: Read(canon, n) == if n <= number then HashAt(s, newHead, n) else ZERO
    requires AncestorAt(s, newHead, head.number) == Some(head) ==> head.number <= number
    ensures Agrees(s, Snapshot(canon, head)) <==> AncestorAt(s, newHead, head.number) == Some(head)
  {
    assert HashAt(s, head, head.number) == head.hash;
    if AncestorAt(s, newHead, head.number) == Some(head) {
      SnapshotAgrees(s, canon, newHead, head);
    } else if Read(canon, head.number) == head.hash {
      SameHashSameBlock(s, newHead, head, head.number);
    }
  }

  /** The last block of a batch that is not canonical, or its first block. */
  function LastSide(canon: Index, batch: seq<Block>): Block
    requires |batch| > 0
  {
    var last := batch[|batch| - 1];
    if |batch| == 1 || Read(canon, last.number) != last.hash then last else LastSide(canon, batch[..|batch| - 1])
  }

  lemma LastSideNext(canon: Index, batch: seq<Block>, i: nat)
    requires i < |batch|
    ensures LastSide(canon, batch[..i + 1]) ==
      if i == 0 || Read(canon, batch[i].number) != batch[i].hash then batch[i] else LastSide(canon, batch[..i])
  {
    assert batch[..i + 1][..i] == batch[..i];
  }

  /** An index entry names a stored block of its height, not above the head. */
  lemma IndexEntryStored(s: Store, td: TdTable, canon: Index, head: Block, n: nat)
    requires Sound(s, td) && Stored(s, head) && IndexIsPath(canon, s, head) && Read(canon, n) != ZERO
    ensures n <= head.number && Get(s, Read(canon, n), n).Some?
  {
    assert Read(canon, n) == HashAt(s, head, n);
    if n < head.number { AncestorStored(s, head, n); }
  }

  /** A block claiming the state root of the canonical block of its height without being that block. */
  ghost predicate GhostState(s: Store, canon: Index, head: Block, b: Block) {
    && b.number <= head.number && Get(s, Read(canon, b.number), b.number).Some?
    && s[Read(canon, b.number)].hash != b.hash && s[Read(canon, b.number)].root == b.root
  }

  /** Block `i` of a side chain claims such a root when its predecessors are stored. */
  ghost predicate GhostAt(s: Store, canon: Index, head: Block, batch: seq<Block>, i: nat) {
    i < |batch| && GhostState(AddAll(s, batch[..i]), canon, head, batch[i])
  }

  lemma RootedPaths(s: Store, td: TdTable, genesis: Block, a: Block, b: Block)
    requires Sound(s, td) && Rooted(s, genesis) && Stored(s, a) && Stored(s, b)
    ensures Complete(s, a) && Complete(s, b) && HashAt(s, a, 0) == HashAt(s, b, 0)
    ensures b.number == 0 ==> b.parent == ZERO
  {
    assert Recorded(s, td, a.hash) && Recorded(s, td, b.hash);
    assert RootedAt(s, genesis, a.hash) && RootedAt(s, genesis, b.hash);
  }

  /** Storing a block does not touch the lookup table of the head's path. */
  lemma AddKeepsLookup(s: Store, td: TdTable, lookup: Lookup, head: Block, b: Block)
    requires Sound(s, td) && Stored(s, head) && Fits(s, b)
    ensures Indexed(lookup, s, head) ==> Indexed(lookup, s[b.hash := b], head)
  {
    assert Recorded(s, td, head.hash);
    if Indexed(lookup, s, head) { IndexedMonotone(lookup, s, s[b.hash := b], head); }
  }

  /** Putting a child of the head into the index gives the path of the child. */
  lemma ExtendPath(s: Store, canon: Index, head: Block, b: Block)
    requires WellFormed(s) && Stored(s, head) && Stored(s, b) && Complete(s, b) && b.parent == head.hash
    requires b.number == 0 ==> b.parent == ZERO
    requires IndexIsPath(canon, s, head)
    ensures Parent(s, b) == Some(head)
    ensures IndexIsPath(canon[b.number := b.hash], s, b)
  {
    forall n: nat ensures Read(canon[b.number := b.hash], n) == HashAt(s, b, n) {
      assert Read(canon, n) == HashAt(s, head, n);
    }
  }
}
