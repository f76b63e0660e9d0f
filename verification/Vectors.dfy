/** Chunk rows, the vector table beside them, and the flag that says which chunks have a vector. */
module Vectors {
  import opened Wrappers
  import opened Sequences
  import opened Schema

  type Vector = seq<real>

  datatype ChunkRow = ChunkRow(id: nat, fileId: nat, symbolId: Option<nat>, startLine: nat, endLine: nat,
                               content: string, contentHash: nat, tokenCount: nat, isTest: bool, embedded: bool)

  /** The chunk table, and the vector table when it exists. */
  datatype Shelf = Shelf(chunks: seq<ChunkRow>, table: Option<map<nat, Vector>>)

  function ChunkIds(chunks: seq<ChunkRow>): set<nat> { set c | c in chunks :: c.id }

  function VectorIds(v: Shelf): set<nat> { if v.table.Some? then v.table.value.Keys else {} }

  ghost predicate ChunkIdsAscend(chunks: seq<ChunkRow>) {
    forall i, j :: 0 <= i < j < |chunks| ==> chunks[i].id < chunks[j].id
  }

  function FlaggedIds(chunks: seq<ChunkRow>): set<nat> { set c | c in chunks && c.embedded :: c.id }

  /** "Flagged embedded" and "has a vector row" are the same set of ids. */
  ghost predicate FlagsMatch(v: Shelf) {
    && ChunkIdsAscend(v.chunks)
    && VectorIds(v) == FlaggedIds(v.chunks)
  }

  /** Primary keys, file references, and the stored hash of every chunk's content. */
  ghost predicate ChunksValid(files: seq<FileRow>, chunks: seq<ChunkRow>, blake3: string -> nat) {
    && ChunkIdsAscend(chunks)
    && forall c :: c in chunks ==> FileById(files, c.fileId).Some? && c.contentHash == blake3(c.content)
  }

  // ---- operations ----

  function NextChunkId(chunks: seq<ChunkRow>): nat { if chunks == [] then 1 else chunks[|chunks| - 1].id + 1 }

  /** Deleting a file's chunks; their vectors go first, when the extension is there to delete them. */
  function DropFile(v: Shelf, fileId: nat, vecAvailable: bool): Shelf {
    var gone := ChunkIds(Keep(v.chunks, (c: ChunkRow) => c.fileId == fileId));
    Shelf(Keep(v.chunks, (c: ChunkRow) => c.fileId != fileId),
          if vecAvailable && v.table.Some? then Some(v.table.value - gone) else v.table)
  }

  function ChunkRowOf(c: NewChunk, i: nat, fileId: nat, symbolBase: nat, base: nat, blake3: string -> nat): ChunkRow {
    ChunkRow(base + i, fileId, ShiftIndex(c.symbol, symbolBase), c.startLine, c.endLine, c.content,
             blake3(c.content), EstimateTokens(c.content), c.isTest, false)
  }

  function NewChunkRows(chunks: seq<NewChunk>, fileId: nat, symbolBase: nat, base: nat,
                        blake3: string -> nat): seq<ChunkRow>
  {
    seq(|chunks|, i requires 0 <= i < |chunks| => ChunkRowOf(chunks[i], i, fileId, symbolBase, base, blake3))
  }

  function AddChunks(v: Shelf, chunks: seq<NewChunk>, fileId: nat, symbolBase: nat, blake3: string -> nat): Shelf {
    v.(chunks := v.chunks + NewChunkRows(chunks, fileId, symbolBase, NextChunkId(v.chunks), blake3))
  }

  function DropPath(g: Graph, v: Shelf, path: string, vecAvailable: bool): Shelf {
    match FileByPath(g.files, path)
    case Some(f) => DropFile(v, f.id, vecAvailable)
    case None => v
  }

  function ReplaceShelf(g: Graph, v: Shelf, path: string, chunks: seq<NewChunk>, vecAvailable: bool,
                        blake3: string -> nat): Shelf {
    var left := DeleteFile(g, path);
    AddChunks(DropPath(g, v, path, vecAvailable), chunks, NextFileId(left.files), NextSymbolId(left.symbols), blake3)
  }

  function Unflag(chunks: seq<ChunkRow>): seq<ChunkRow> {
    seq(|chunks|, i requires 0 <= i < |chunks| => chunks[i].(embedded := false))
  }

  /** A model change: no vector survives, and an empty table takes their place when it can. */
  function Wipe(v: Shelf, vecAvailable: bool): Shelf {
    Shelf(Unflag(v.chunks), if vecAvailable then Some(map[]) else None)
  }

  function EnsureTable(v: Shelf): Shelf { if v.table.None? then v.(table := Some(map[])) else v }

  function FlagRow(c: ChunkRow, ids: set<nat>): ChunkRow { if c.id in ids then c.(embedded := true) else c }

  function Flag(chunks: seq<ChunkRow>, ids: set<nat>): seq<ChunkRow> {
    seq(|chunks|, i requires 0 <= i < |chunks| => FlagRow(chunks[i], ids))
  }

  /** The same chunks, some of them flagged since. */
  ghost predicate FlaggedFrom(before: seq<ChunkRow>, now: seq<ChunkRow>) { exists ids :: now == Flag(before, ids) }

  function RowIds(rows: seq<(nat, Vector)>): set<nat> { set r | r in rows :: r.0 }

  /** Later rows replace earlier ones for the same chunk. */
  function Upsert(table: map<nat, Vector>, rows: seq<(nat, Vector)>): (r: map<nat, Vector>)
    ensures r.Keys == table.Keys + RowIds(rows)
  {
    if rows == [] then table
    else
      var last := rows[|rows| - 1];
      assert rows == rows[..|rows| - 1] + [last];
      Upsert(table, rows[..|rows| - 1])[last.0 := last.1]
  }

  /** Vectors and flags written in one transaction. */
  function Put(v: Shelf, rows: seq<(nat, Vector)>): Shelf {
    if rows == [] then v
    else Shelf(Flag(v.chunks, RowIds(rows)), Some(Upsert(if v.table.Some? then v.table.value else map[], rows)))
  }

  lemma FlaggingIsValid(files: seq<FileRow>, chunks: seq<ChunkRow>, ids: set<nat>, blake3: string -> nat)
    requires ChunksValid(files, chunks, blake3)
    ensures ChunksValid(files, Unflag(chunks), blake3) && ChunksValid(files, Flag(chunks, ids), blake3)
  {
    hide FileById;
    forall i | 0 <= i < |chunks|
      ensures FileById(files, Unflag(chunks)[i].fileId).Some? && FileById(files, Flag(chunks, ids)[i].fileId).Some?
      ensures chunks[i].contentHash == blake3(chunks[i].content)
    {
      assert chunks[i] in chunks;
    }
  }

  /** Writing one more row extends what the rows before it wrote. */
  lemma PutOneMore(chunks: seq<ChunkRow>, table: map<nat, Vector>, rows: seq<(nat, Vector)>, i: nat)
    requires i < |rows|
    ensures Upsert(table, rows[..i + 1]) == Upsert(table, rows[..i])[rows[i].0 := rows[i].1]
    ensures Flag(Flag(chunks, RowIds(rows[..i])), {rows[i].0}) == Flag(chunks, RowIds(rows[..i + 1]))
  {
    assert rows[..i + 1][..i] == rows[..i] && rows[..i + 1][i] == rows[i];
    assert rows[..i + 1] == rows[..i] + [rows[i]];
    assert RowIds(rows[..i + 1]) == RowIds(rows[..i]) + {rows[i].0};
  }

  // ---- the flags stay in step ----

  lemma WipeMatches(v: Shelf, vecAvailable: bool)
    requires ChunkIdsAscend(v.chunks)
    ensures FlagsMatch(Wipe(v, vecAvailable))
  {
    forall c | c in Unflag(v.chunks) ensures !c.embedded {}
  }

  lemma EnsureTableMatches(v: Shelf)
    requires FlagsMatch(v)
    ensures FlagsMatch(EnsureTable(v))
  {
  }

  lemma DropFileMatches(v: Shelf, fileId: nat)
    requires FlagsMatch(v)
    ensures FlagsMatch(DropFile(v, fileId, true))
  {
    var after := DropFile(v, fileId, true);
    var gone := ChunkIds(Keep(v.chunks, (c: ChunkRow) => c.fileId == fileId));
    KeepOrder(v.chunks, (c: ChunkRow) => c.fileId != fileId, (a: ChunkRow, b: ChunkRow) => a.id < b.id);
    assert FlaggedIds(after.chunks) == FlaggedIds(v.chunks) - gone by { FlagsOfRest(v.chunks, fileId); }
  }

  lemma FlagsOfRest(chunks: seq<ChunkRow>, fileId: nat)
    requires ChunkIdsAscend(chunks)
    ensures FlaggedIds(Keep(chunks, (c: ChunkRow) => c.fileId != fileId)) ==
            FlaggedIds(chunks) - ChunkIds(Keep(chunks, (c: ChunkRow) => c.fileId == fileId))
  {
    forall c, d | c in chunks && d in chunks && c.id == d.id ensures c == d {}
  }

  /** New chunks take ids no vector row uses, so none inherits the vector of a deleted chunk. */
  lemma AddChunksMatches(v: Shelf, chunks: seq<NewChunk>, fileId: nat, symbolBase: nat, blake3: string -> nat)
    requires FlagsMatch(v)
    ensures FlagsMatch(AddChunks(v, chunks, fileId, symbolBase, blake3))
    ensures forall c :: c in NewChunkRows(chunks, fileId, symbolBase, NextChunkId(v.chunks), blake3) ==>
              c.id !in VectorIds(v)
  {
    var added := NewChunkRows(chunks, fileId, symbolBase, NextChunkId(v.chunks), blake3);
    var after := AddChunks(v, chunks, fileId, symbolBase, blake3);
    forall c | c in v.chunks ensures c.id < NextChunkId(v.chunks) {}
    forall c | c in added ensures c.id >= NextChunkId(v.chunks) && !c.embedded {}
    assert forall c :: c in after.chunks <==> c in v.chunks || c in added;
    assert ChunkIdsAscend(after.chunks);
  }

  lemma FlagMembers(chunks: seq<ChunkRow>, ids: set<nat>)
    ensures forall c :: c in chunks ==> FlagRow(c, ids) in Flag(chunks, ids)
    ensures forall c :: c in Flag(chunks, ids) ==> exists o :: o in chunks && c == FlagRow(o, ids)
  {
    var flagged := Flag(chunks, ids);
    forall c | c in chunks ensures FlagRow(c, ids) in flagged {
      var i :| 0 <= i < |chunks| && chunks[i] == c;
      assert flagged[i] == FlagRow(c, ids);
    }
    forall c | c in flagged ensures exists o :: o in chunks && c == FlagRow(o, ids) {
      var i :| 0 <= i < |flagged| && flagged[i] == c;
      assert chunks[i] in chunks;
    }
  }

  lemma FlagIds(chunks: seq<ChunkRow>, ids: set<nat>)
    ensures (set c | c in Flag(chunks, ids) && c.embedded :: c.id) ==
            (set c | c in chunks && c.embedded :: c.id) + (ids * ChunkIds(chunks))
  {
    hide Flag;
    FlagMembers(chunks, ids);
    forall c | c in chunks && (c.embedded || c.id in ids) ensures c.id in FlaggedIds(Flag(chunks, ids)) {
      assert FlagRow(c, ids) in Flag(chunks, ids);
    }
  }

  /** Writing vectors keeps the flags exact precisely when every id written is a live chunk. */
  lemma PutMatches(v: Shelf, rows: seq<(nat, Vector)>)
    requires FlagsMatch(v)
    ensures FlagsMatch(Put(v, rows)) <==> RowIds(rows) <= ChunkIds(v.chunks)
  {
    if rows != [] {
      FlagIds(v.chunks, RowIds(rows));
      var flagged := set c | c in v.chunks && c.embedded :: c.id;
      assert VectorIds(Put(v, rows)) == flagged + RowIds(rows);
      assert flagged <= ChunkIds(v.chunks);
    } else {
      assert RowIds(rows) == {};
    }
  }
}
