/**
 The three writers of total difficulties on one database: header batches, single blocks and side chains.
 Each adds a difficulty to what the table, not the tree, says about the parent.
 */
module Writers {
  import opened Options
  import opened Chain
  import opened TotalDifficulty
  import opened ChainSpec

  datatype Db = Db(blocks: Store, td: TdTable)

  /** Writes a block on top of the recorded difficulty of its parent; without one, nothing. */
  function Write(db: Db, b: Block): Db {
    match GetTd(db.td, b.parent, b.number - 1)
    case Some(t) => Db(db.blocks[b.hash := b], WithTd(db.td, b, t + b.difficulty))
    case None => db
  }

  function WriteAll(db: Db, batch: seq<Block>): Db
    decreases |batch|
  {
    if batch == [] then db else WriteAll(Write(db, batch[0]), batch[1..])
  }

  /** A header batch, a single block, or as much of a side chain as was accepted. */
  datatype Writer = Headers(batch: seq<Block>) | OneBlock(b: Block) | SideBlocks(batch: seq<Block>)

  /** A batch on an unknown parent is refused as a whole. */
  function Written(db: Db, w: Writer): Db {
    match w
    case OneBlock(b) => Write(db, b)
    case _ =>
      if w.batch != [] && GetTd(db.td, w.batch[0].parent, w.batch[0].number - 1).Some? then WriteAll(db, w.batch) else db
  }

  ghost predicate Writable(db: Db, w: Writer) {
    match w
    case OneBlock(b) => Fits(db.blocks, b)
    case _ => Linked(w.batch) && BatchFits(db.blocks, w.batch)
  }

  /** Every recorded difficulty is the path sum of its block, and every block descends from genesis. */
  ghost predicate DbOk(genesis: Block, db: Db) {
    Sound(db.blocks, db.td) && Rooted(db.blocks, genesis)
  }

  lemma WriteKeeps(genesis: Block, db: Db, b: Block)
    requires DbOk(genesis, db) && Fits(db.blocks, b)
    ensures DbOk(genesis, Write(db, b)) && Extends(db.blocks, Write(db, b).blocks)
    ensures Parent(db.blocks, b).Some? ==> Write(db, b).blocks == db.blocks[b.hash := b]
    ensures Parent(db.blocks, b).None? ==> Write(db, b) == db
  {
    TdMeansStored(db.blocks, db.td, b.parent, b.number - 1);
    if Parent(db.blocks, b).Some? {
      AddKeepsSound(db.blocks, db.td, b);
      AddKeepsRooted(db.blocks, b, genesis);
    }
  }

  lemma {:induction false} WriteAllKeeps(genesis: Block, db: Db, batch: seq<Block>)
    requires DbOk(genesis, db) && Linked(batch) && BatchFits(db.blocks, batch)
    requires batch != [] ==> Parent(db.blocks, batch[0]).Some?
    ensures DbOk(genesis, WriteAll(db, batch)) && Extends(db.blocks, WriteAll(db, batch).blocks)
    ensures WriteAll(db, batch).blocks == AddAll(db.blocks, batch)
    decreases |batch|
  {
    if batch != [] {
      WriteKeeps(genesis, db, batch[0]);
      WriteAllKeeps(genesis, Write(db, batch[0]), batch[1..]);
    }
  }

  /** No writer breaks what another relies on, and nothing stored is lost. */
  lemma WriterKeeps(genesis: Block, db: Db, w: Writer)
    requires DbOk(genesis, db) && Writable(db, w)
    ensures DbOk(genesis, Written(db, w)) && Extends(db.blocks, Written(db, w).blocks)
  {
    match w
    case OneBlock(b) => WriteKeeps(genesis, db, b);
    case _ =>
      if w.batch != [] {
        TdMeansStored(db.blocks, db.td, w.batch[0].parent, w.batch[0].number - 1);
        if Parent(db.blocks, w.batch[0]).Some? { WriteAllKeeps(genesis, db, w.batch); }
      }
  }

  ghost predicate IsRun(trace: seq<Db>, writers: seq<Writer>) {
    && |trace| == |writers| + 1
    && forall i :: 0 <= i < |writers| ==> Writable(trace[i], writers[i]) && trace[i + 1] == Written(trace[i], writers[i])
  }

  /** A database holding nothing but genesis. */
  function Fresh(genesis: Block): Db {
    Db(map[genesis.hash := genesis], map[(0, genesis.hash) := genesis.difficulty])
  }

  /** In every reachable database, whatever mixture of writers led to it, each block has its ancestors and
      its recorded difficulty is their sum. */
  lemma {:induction false} RunSound(genesis: Block, trace: seq<Db>, writers: seq<Writer>, i: nat)
    requires genesis.number == 0 && genesis.parent == ZERO && genesis.hash != ZERO
    requires IsRun(trace, writers) && trace[0] == Fresh(genesis) && i < |trace|
    ensures DbOk(genesis, trace[i])
    decreases i
  {
    if i == 0 {
      forall h ensures Recorded(trace[0].blocks, trace[0].td, h) && RootedAt(trace[0].blocks, genesis, h) { }
    } else {
      RunSound(genesis, trace, writers, i - 1);
      WriterKeeps(genesis, trace[i - 1], writers[i - 1]);
    }
  }

  /** The tree determines the table. */
  lemma TableDetermined(s: Store, td: TdTable, td': TdTable)
    requires Sound(s, td) && Sound(s, td')
    ensures td == td'
  {
    forall k | k in td || k in td' ensures k in td && k in td' && td[k] == td'[k] {
      assert Recorded(s, td, k.1) && Recorded(s, td', k.1);
    }
  }

  /** A writer that stored the batch soundly did what `Written` says. */
  lemma HeadersWritten(db: Db, db': Db, genesis: Block, batch: seq<Block>)
    requires DbOk(genesis, db) && Linked(batch) && BatchFits(db.blocks, batch) && batch != []
    requires Parent(db.blocks, batch[0]).Some?
    requires db'.blocks == AddAll(db.blocks, batch) && Sound(db'.blocks, db'.td)
    ensures db' == Written(db, Headers(batch)) == Written(db, SideBlocks(batch))
  {
    TdMeansStored(db.blocks, db.td, batch[0].parent, batch[0].number - 1);
    WriteAllKeeps(genesis, db, batch);
    TableDetermined(db'.blocks, db'.td, WriteAll(db, batch).td);
  }

  /** The same for a prefix of a side chain. */
  lemma SideWritten(db: Db, db': Db, genesis: Block, batch: seq<Block>, k: nat)
    requires DbOk(genesis, db) && Linked(batch) && BatchFits(db.blocks, batch) && k <= |batch| && batch != []
    requires Parent(db.blocks, batch[0]).Some?
    requires db'.blocks == AddAll(db.blocks, batch[..k]) && Sound(db'.blocks, db'.td)
    ensures db' == Written(db, SideBlocks(batch[..k]))
  {
    if k == 0 {
      TableDetermined(db.blocks, db.td, db'.td);
    } else {
      HeadersWritten(db, db', genesis, batch[..k]);
    }
  }

  /** When the first `i` blocks of a batch are stored, the next one fits and has its parent. */
  lemma {:induction false} PrefixStored(s: Store, batch: seq<Block>, i: nat)
    requires Linked(batch) && BatchFits(s, batch) && i < |batch| && Parent(s, batch[0]).Some?
    ensures var s' := AddAll(s, batch[..i]);
      && (forall j :: i <= j < |batch| ==> Fits(s', batch[j]))
      && AddAll(s, batch[..i + 1]) == s'[batch[i].hash := batch[i]]
      && Parent(s', batch[i]) == if i == 0 then Parent(s, batch[0]) else Some(batch[i - 1])
    decreases i
  {
    assert batch[..i + 1] == batch[..i] + [batch[i]];
    AddAllSnoc(s, batch[..i], batch[i]);
    if i > 0 { PrefixStored(s, batch, i - 1); } else { assert batch[..0] == []; }
  }
}
