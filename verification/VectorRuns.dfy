/** Every run of store operations keeps flags, vectors and contents together. */
module VectorRuns {
  import opened Wrappers
  import opened Sequences
  import opened Schema
  import opened Vectors
  import opened Stores
  import opened Embedding
  import Update

  datatype Db = Db(graph: Graph, shelf: Shelf)

  /** One store operation with the vector extension loaded; `wipe` says that the model changed. */
  datatype Op =
    | SetModel(wipe: bool)
    | PutEmbeddings(rows: seq<(nat, Vector)>)
    | ReplaceFile(path: string, lang: string, hash: nat, idx: FileIndex)
    | RemoveFile(path: string)

  function Apply(db: Db, op: Op, blake3: string -> nat): Db {
    match op
    case SetModel(wipe) => db.(shelf := if wipe then Wipe(db.shelf, true) else EnsureTable(db.shelf))
    case PutEmbeddings(rows) => db.(shelf := Put(db.shelf, rows))
    case ReplaceFile(path, lang, hash, idx) =>
      if !WellFormed(idx) then db
      else Db(InsertFile(DeleteFile(db.graph, path), path, lang, hash, idx),
              ReplaceShelf(db.graph, db.shelf, path, idx.chunks, true, blake3))
    case RemoveFile(path) => Db(DeleteFile(db.graph, path), DropPath(db.graph, db.shelf, path, true))
  }

  function Run(db: Db, ops: seq<Op>, blake3: string -> nat): Db {
    if ops == [] then db else Apply(Run(db, ops[..|ops| - 1], blake3), ops[|ops| - 1], blake3)
  }

  /** Vectors are only ever written for chunks that exist. */
  predicate Live(db: Db, op: Op) { op.PutEmbeddings? ==> RowIds(op.rows) <= ChunkIds(db.shelf.chunks) }

  ghost predicate AllLive(db: Db, ops: seq<Op>, blake3: string -> nat) {
    forall i :: 0 <= i < |ops| ==> Live(Run(db, ops[..i], blake3), ops[i])
  }

  /** Vectors are only ever written with the embedding of the chunk they are for. */
  ghost predicate Faithful(db: Db, op: Op, f: string -> Vector) {
    op.PutEmbeddings? ==>
      forall r, c :: r in op.rows && c in db.shelf.chunks && c.id == r.0 ==> r.1 == f(c.content)
  }

  ghost predicate AllFaithful(db: Db, ops: seq<Op>, blake3: string -> nat, f: string -> Vector) {
    forall i :: 0 <= i < |ops| ==> Faithful(Run(db, ops[..i], blake3), ops[i], f)
  }

  /** Each flagged chunk has a vector, and it is the embedding of that chunk's content. */
  ghost predicate OwnVectors(v: Shelf, f: string -> Vector) {
    forall c :: c in v.chunks && c.embedded ==> c.id in TableOf(v.table) && TableOf(v.table)[c.id] == f(c.content)
  }

  /** One operation keeps the flags exact precisely when it writes vectors for live chunks only. */
  lemma ApplyMatches(db: Db, op: Op, blake3: string -> nat)
    requires FlagsMatch(db.shelf)
    ensures FlagsMatch(Apply(db, op, blake3).shelf) <==> Live(db, op)
  {
    hide FlagsMatch;
    match op
    case SetModel(wipe) =>
      WipeMatches(db.shelf, true) by { FlagsAscend(db.shelf); }
      EnsureTableMatches(db.shelf);
    case PutEmbeddings(rows) => PutMatches(db.shelf, rows);
    case ReplaceFile(path, lang, hash, idx) => Update.ReplaceShelfMatches(db.graph, db.shelf, path, idx.chunks, blake3);
    case RemoveFile(path) => Update.DropPathMatches(db.graph, db.shelf, path);
  }

  lemma FlagsAscend(v: Shelf)
    requires FlagsMatch(v)
    ensures ChunkIdsAscend(v.chunks)
  {
  }

  /** Over any run, flags and vector rows stay the same set of ids if vectors are only written for live chunks. */
  lemma {:induction false} FlagsMatchInRun(db: Db, ops: seq<Op>, blake3: string -> nat)
    requires FlagsMatch(db.shelf) && AllLive(db, ops, blake3)
    ensures FlagsMatch(Run(db, ops, blake3).shelf)
  {
    hide FlagsMatch, Apply;
    if ops != [] {
      var init := ops[..|ops| - 1];
      forall i | 0 <= i < |init| ensures Live(Run(db, init[..i], blake3), init[i]) {
        assert init[..i] == ops[..i];
      }
      FlagsMatchInRun(db, init, blake3);
      ApplyMatches(Run(db, init, blake3), ops[|ops| - 1], blake3);
    }
  }

  lemma PutKeepsOwn(v: Shelf, rows: seq<(nat, Vector)>, f: string -> Vector)
    requires OwnVectors(v, f)
    requires forall r, c :: r in rows && c in v.chunks && c.id == r.0 ==> r.1 == f(c.content)
    ensures OwnVectors(Put(v, rows), f)
  {
    hide Flag, Upsert;
    var after := Put(v, rows);
    FlagMembers(v.chunks, RowIds(rows));
    forall c | rows != [] && c in after.chunks && c.embedded
      ensures c.id in TableOf(after.table) && TableOf(after.table)[c.id] == f(c.content)
    {
      var o :| o in v.chunks && c == FlagRow(o, RowIds(rows));
      assert o.id in RowIds(rows) || o.embedded;
      UpsertOwn(TableOf(v.table), rows, o, f);
    }
  }

  lemma UpsertOwn(table: map<nat, Vector>, rows: seq<(nat, Vector)>, o: ChunkRow, f: string -> Vector)
    requires o.id in RowIds(rows) || (o.id in table && table[o.id] == f(o.content))
    requires forall r :: r in rows && r.0 == o.id ==> r.1 == f(o.content)
    ensures o.id in Upsert(table, rows) && Upsert(table, rows)[o.id] == f(o.content)
  {
    UpsertValue(table, rows, o.id, f(o.content));
  }

  lemma DropKeepsOwn(v: Shelf, fileId: nat, f: string -> Vector)
    requires OwnVectors(v, f) && ChunkIdsAscend(v.chunks)
    ensures OwnVectors(DropFile(v, fileId, true), f)
  {
    var gone := Keep(v.chunks, (c: ChunkRow) => c.fileId == fileId);
    forall c | c in DropFile(v, fileId, true).chunks ensures c in v.chunks && c.id !in ChunkIds(gone) {
      forall d | d in gone ensures d.id != c.id {}
    }
  }

  lemma ApplyKeepsOwn(db: Db, op: Op, blake3: string -> nat, f: string -> Vector)
    requires OwnVectors(db.shelf, f) && ChunkIdsAscend(db.shelf.chunks) && Faithful(db, op, f)
    ensures OwnVectors(Apply(db, op, blake3).shelf, f)
  {
    hide Put, DropFile;
    match op
    case SetModel(wipe) =>
      forall c | c in Unflag(db.shelf.chunks) ensures !c.embedded {}
    case PutEmbeddings(rows) => PutKeepsOwn(db.shelf, rows, f);
    case ReplaceFile(path, lang, hash, idx) =>
      var file := FileByPath(db.graph.files, path);
      if file.Some? { DropKeepsOwn(db.shelf, file.value.id, f); }
      var left := DeleteFile(db.graph, path);
      var kept := DropPath(db.graph, db.shelf, path, true);
      forall c | c in NewChunkRows(idx.chunks, NextFileId(left.files), NextSymbolId(left.symbols),
                                   NextChunkId(kept.chunks), blake3)
        ensures !c.embedded {}
    case RemoveFile(path) =>
      var file := FileByPath(db.graph.files, path);
      if file.Some? { DropKeepsOwn(db.shelf, file.value.id, f); }
  }

  /** Over any such run, every flagged chunk carries the vector of its own content, whatever ids were reused. */
  lemma {:induction false} OwnVectorsInRun(db: Db, ops: seq<Op>, blake3: string -> nat, f: string -> Vector)
    requires FlagsMatch(db.shelf) && OwnVectors(db.shelf, f)
    requires AllLive(db, ops, blake3) && AllFaithful(db, ops, blake3, f)
    ensures OwnVectors(Run(db, ops, blake3).shelf, f)
  {
    hide FlagsMatch, OwnVectors, Apply, Live, Faithful;
    if ops != [] {
      var init := ops[..|ops| - 1];
      forall i | 0 <= i < |init|
        ensures Live(Run(db, init[..i], blake3), init[i]) && Faithful(Run(db, init[..i], blake3), init[i], f)
      {
        assert init[..i] == ops[..i];
      }
      OwnVectorsInRun(db, init, blake3, f);
      FlagsMatchInRun(db, init, blake3);
      FlagsAscend(Run(db, init, blake3).shelf);
      ApplyKeepsOwn(Run(db, init, blake3), ops[|ops| - 1], blake3, f);
    }
  }

  lemma MissingHasId(chunks: seq<ChunkRow>, c: ChunkRow)
    ensures c in chunks && !c.embedded ==> c.id in MissingIds(chunks)
  {
  }

  /** Draining the backlog of a shelf with own vectors leaves every chunk with the vector of its own content. */
  lemma DrainedShelfOwnsAll(before: Shelf, after: Shelf, done: set<nat>, f: string -> Vector)
    requires ChunkIdsAscend(before.chunks) && OwnVectors(before, f)
    requires after.chunks == Flag(before.chunks, done) && MissingIds(after.chunks) == {}
    requires Progress(before, after.table, MissingIds(before.chunks), f)
    ensures OwnVectors(after, f) && forall c :: c in after.chunks ==> c.embedded
  {
    hide Flag;
    FlagMembers(before.chunks, done);
    forall c | c in after.chunks
      ensures c.embedded && c.id in TableOf(after.table) && TableOf(after.table)[c.id] == f(c.content)
    {
      MissingHasId(after.chunks, c);
      var o :| o in before.chunks && c == FlagRow(o, done);
      if o.embedded {
        assert o.id !in MissingIds(before.chunks);
        assert SameEntry(TableOf(after.table), TableOf(before.table), o.id);
      } else {
        assert o.id in MissingIds(before.chunks);
      }
    }
  }

  /** Without the extension, vectors of deleted chunks stay in the table. */
  lemma OrphanedVector(v: Shelf, fileId: nat, c: ChunkRow)
    requires FlagsMatch(v) && c in v.chunks && c.fileId == fileId && c.embedded
    ensures !FlagsMatch(DropFile(v, fileId, false))
  {
    var after := DropFile(v, fileId, false);
    assert c.id in VectorIds(after);
    forall d | d in after.chunks ensures d.id != c.id { assert d in v.chunks && d != c; }
  }

  lemma NothingOrphaned(v: Shelf, fileId: nat)
    requires FlagsMatch(v) && forall c :: c in v.chunks && c.fileId == fileId ==> !c.embedded
    ensures FlagsMatch(DropFile(v, fileId, false))
  {
    var after := DropFile(v, fileId, false);
    KeepOrder(v.chunks, (c: ChunkRow) => c.fileId != fileId, (a: ChunkRow, b: ChunkRow) => a.id < b.id);
    forall id | id in VectorIds(v) ensures id in (set c | c in after.chunks && c.embedded :: c.id) {
      var c :| c in v.chunks && c.embedded && c.id == id;
      assert c in after.chunks;
    }
  }

  /** Without the extension a deletion leaves the vectors behind: the flags survive it only if none was set. */
  lemma DropWithoutExtension(v: Shelf, fileId: nat)
    requires FlagsMatch(v)
    ensures FlagsMatch(DropFile(v, fileId, false)) <==>
            forall c :: c in v.chunks && c.fileId == fileId ==> !c.embedded
  {
    hide FlagsMatch, DropFile;
    if c :| c in v.chunks && c.fileId == fileId && c.embedded {
      OrphanedVector(v, fileId, c);
    } else {
      NothingOrphaned(v, fileId);
    }
  }
}
