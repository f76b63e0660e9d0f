/**
 What deleting, replacing and resolving leave behind, row by row: statements about the tables before and after
 that do not say how the tables are computed.
 */
module Effects {
  import opened Wrappers
  import opened Sequences
  import opened Schema
  import opened Incremental
  import opened Resolver
  import opened Vectors

  // ---- deleting a file ----

  /** `id` is the file indexed at `path`. */
  ghost predicate Held(files: seq<FileRow>, path: string, id: nat) {
    exists f :: f in files && f.path == path && f.id == id
  }

  ghost predicate SymbolHeld(g: Graph, path: string, id: nat) {
    exists s :: s in g.symbols && s.id == id && Held(g.files, path, s.fileId)
  }

  ghost predicate ChunkHeld(files: seq<FileRow>, chunks: seq<ChunkRow>, path: string, id: nat) {
    exists c :: c in chunks && c.id == id && Held(files, path, c.fileId)
  }

  /** The row of an edge that stays: its target is cut when that symbol goes. */
  ghost function Spared(g: Graph, path: string, e: EdgeRow): EdgeRow {
    if e.dstId.Some? && SymbolHeld(g, path, e.dstId.value) then e.(dstId := None) else e
  }

  /** Exactly the rows of the file at `path` are gone; all others stand unchanged, in order, but for cut targets. */
  ghost predicate FileGone(g: Graph, after: Graph, path: string) {
    && FileIdsAscend(after.files) && SymbolIdsAscend(after.symbols) && EdgeIdsAscend(after.edges)
    && (forall f :: f in after.files <==> f in g.files && f.path != path)
    && (forall s :: s in after.symbols <==> s in g.symbols && !Held(g.files, path, s.fileId))
    && (forall e :: e in g.edges && !SymbolHeld(g, path, e.srcId) ==> Spared(g, path, e) in after.edges)
    && (forall x :: x in after.edges ==>
          exists e :: e in g.edges && !SymbolHeld(g, path, e.srcId) && x == Spared(g, path, e))
  }

  /** The same vector under `id`, or none in both. */
  ghost predicate SameVector(a: Option<map<nat, Vector>>, b: Option<map<nat, Vector>>, id: nat) {
    && ((a.Some? && id in a.value) <==> (b.Some? && id in b.value))
    && (a.Some? && id in a.value && b.Some? && id in b.value ==> a.value[id] == b.value[id])
  }

  /** Of chunks and vectors too; without the extension the vectors of the file stay behind. */
  ghost predicate ChunksGone(files: seq<FileRow>, v: Shelf, after: Shelf, path: string, vecAvailable: bool) {
    && ChunkIdsAscend(after.chunks)
    && (forall c :: c in after.chunks <==> c in v.chunks && !Held(files, path, c.fileId))
    && (after.table.Some? <==> v.table.Some?)
    && (forall c :: c in after.chunks ==> SameVector(v.table, after.table, c.id))
    && (forall id :: !vecAvailable || !ChunkHeld(files, v.chunks, path, id) ==> SameVector(v.table, after.table, id))
    && (forall id :: vecAvailable && after.table.Some? && ChunkHeld(files, v.chunks, path, id) ==>
          id !in after.table.value)
  }

  lemma HeldIs(files: seq<FileRow>, path: string, id: nat)
    requires PathsUnique(files)
    ensures Held(files, path, id) <==> FileByPath(files, path).Some? && FileByPath(files, path).value.id == id
  {
    if Held(files, path, id) {
      var f :| f in files && f.path == path && f.id == id;
      FileByPathUnique(files, f);
    }
  }

  lemma SymbolHeldIs(g: Graph, path: string, id: nat)
    requires Schema.Valid(g) && SymbolById(g.symbols, id).Some?
    ensures SymbolHeld(g, path, id) <==> SymbolById(DeleteFile(g, path).symbols, id).None?
  {
    hide SymbolById, FileByPath, Held;
    var s := SymbolById(g.symbols, id).value;
    HeldIs(g.files, path, s.fileId);
    forall x | x in g.symbols && x.id == id ensures x == s { SymbolByIdUnique(g.symbols, x); }
    SymbolKept(g.symbols, if FileByPath(g.files, path).Some? then FileByPath(g.files, path).value.id else 0, id);
    assert SymbolHeld(g, path, id) <==> Held(g.files, path, s.fileId);
  }

  lemma SparedIs(g: Graph, path: string, e: EdgeRow)
    requires Schema.Valid(g) && e in g.edges
    ensures SymbolHeld(g, path, e.srcId) <==> SymbolById(DeleteFile(g, path).symbols, e.srcId).None?
    ensures Spared(g, path, e) == CutTarget(e, DeleteFile(g, path).symbols)
  {
    hide SymbolById, SymbolHeld, DeleteFile;
    SymbolHeldIs(g, path, e.srcId);
    if e.dstId.Some? { SymbolHeldIs(g, path, e.dstId.value); }
  }

  lemma CascadeHas(edges: seq<EdgeRow>, left: seq<SymbolRow>, e: EdgeRow)
    requires e in edges && SymbolById(left, e.srcId).Some?
    ensures CutTarget(e, left) in CascadeEdges(edges, left)
  {
    hide SymbolById;
    var kept := Keep(edges, (e: EdgeRow) => SymbolById(left, e.srcId).Some?);
    assert e in kept;
    var i :| 0 <= i < |kept| && kept[i] == e;
    assert CascadeEdges(edges, left)[i] == CutTarget(e, left);
  }

  lemma NothingHeld(g: Graph, path: string)
    ensures FileByPath(g.files, path).None? ==>
              && (forall id :: !Held(g.files, path, id))
              && (forall id :: !SymbolHeld(g, path, id))
  {
  }

  lemma FilesLeft(g: Graph, path: string)
    requires Schema.Valid(g)
    ensures forall f :: f in DeleteFile(g, path).files <==> f in g.files && f.path != path
    ensures forall s :: s in DeleteFile(g, path).symbols <==> s in g.symbols && !Held(g.files, path, s.fileId)
  {
    hide CascadeEdges;
    forall id ensures Held(g.files, path, id) <==>
                      FileByPath(g.files, path).Some? && FileByPath(g.files, path).value.id == id
    {
      HeldIs(g.files, path, id);
    }
  }

  lemma EdgesLeft(g: Graph, path: string)
    requires Schema.Valid(g)
    ensures DeleteFile(g, path).edges ==
            if FileByPath(g.files, path).Some? then CascadeEdges(g.edges, DeleteFile(g, path).symbols) else g.edges
  {
  }

  lemma ValidAscends(g: Graph)
    requires Schema.Valid(g)
    ensures FileIdsAscend(g.files) && SymbolIdsAscend(g.symbols) && EdgeIdsAscend(g.edges)
  {
  }

  lemma DeletionEffect(g: Graph, path: string)
    requires Schema.Valid(g)
    ensures FileGone(g, DeleteFile(g, path), path)
  {
    hide Schema.Valid, FileIdsAscend, SymbolIdsAscend, EdgeIdsAscend, DeleteFile, Spared, SymbolHeld, Held, FileByPath;
    var after := DeleteFile(g, path);
    DeleteIsValid(g, path);
    ValidAscends(after);
    FilesLeft(g, path);
    forall e | e in g.edges && !SymbolHeld(g, path, e.srcId) ensures Spared(g, path, e) in after.edges {
      EdgeSpared(g, path, e);
    }
    forall x | x in after.edges
      ensures exists e :: e in g.edges && !SymbolHeld(g, path, e.srcId) && x == Spared(g, path, e)
    {
      var e := EdgeStemsFrom(g, path, x);
    }
  }

  lemma EdgeSpared(g: Graph, path: string, e: EdgeRow)
    requires Schema.Valid(g) && e in g.edges && !SymbolHeld(g, path, e.srcId)
    ensures Spared(g, path, e) in DeleteFile(g, path).edges
  {
    EdgesLeft(g, path);
    NothingHeld(g, path);
    SparedIs(g, path, e);
    hide Schema.Valid, DeleteFile, CascadeEdges, SymbolHeld, Held, SymbolById, FileByPath, CutTarget;
    if FileByPath(g.files, path).Some? { CascadeHas(g.edges, DeleteFile(g, path).symbols, e); }
  }

  lemma EdgeStemsFrom(g: Graph, path: string, x: EdgeRow) returns (e: EdgeRow)
    requires Schema.Valid(g) && x in DeleteFile(g, path).edges
    ensures e in g.edges && !SymbolHeld(g, path, e.srcId) && x == Spared(g, path, e)
  {
    var left := DeleteFile(g, path).symbols;
    EdgesLeft(g, path);
    NothingHeld(g, path);
    CascadeRows(g.edges, left);
    hide Schema.Valid, DeleteFile, CascadeEdges, SymbolHeld, Held, SymbolById, FileByPath;
    if FileByPath(g.files, path).Some? {
      e :| Survivor(g.edges, left, e, x);
      SparedIs(g, path, e);
    } else {
      e := x;
    }
  }

  lemma DropEffect(g: Graph, v: Shelf, path: string, vecAvailable: bool)
    requires Schema.Valid(g) && ChunkIdsAscend(v.chunks)
    ensures ChunksGone(g.files, v, DropPath(g, v, path, vecAvailable), path, vecAvailable)
  {
    hide FileByPath, Held, DropFile, ChunkIdsAscend;
    forall id ensures Held(g.files, path, id) <==>
                      FileByPath(g.files, path).Some? && FileByPath(g.files, path).value.id == id
    {
      HeldIs(g.files, path, id);
    }
    if FileByPath(g.files, path).Some? {
      var f := FileByPath(g.files, path).value;
      ChunksLeft(v, f.id, vecAvailable);
      VectorsLeft(v, f.id, vecAvailable);
      forall id ensures ChunkHeld(g.files, v.chunks, path, id) <==> InFileChunks(v.chunks, f.id, id) {}
    }
  }

  ghost predicate InFileChunks(chunks: seq<ChunkRow>, fileId: nat, id: nat) {
    exists c :: c in chunks && c.id == id && c.fileId == fileId
  }

  lemma ChunksLeft(v: Shelf, fileId: nat, vecAvailable: bool)
    requires ChunkIdsAscend(v.chunks)
    ensures var after := DropFile(v, fileId, vecAvailable);
            && ChunkIdsAscend(after.chunks) && (forall c :: c in after.chunks <==> c in v.chunks && c.fileId != fileId)
            && (after.table.Some? <==> v.table.Some?)
            && forall c :: c in after.chunks ==> !InFileChunks(v.chunks, fileId, c.id)
  {
    KeepOrder(v.chunks, (c: ChunkRow) => c.fileId != fileId, (a: ChunkRow, b: ChunkRow) => a.id < b.id);
    forall a, b | a in v.chunks && b in v.chunks && a.id == b.id ensures a == b {}
  }

  lemma VectorsLeft(v: Shelf, fileId: nat, vecAvailable: bool)
    ensures var after := DropFile(v, fileId, vecAvailable);
            && (forall id :: !vecAvailable || !InFileChunks(v.chunks, fileId, id) ==>
                  SameVector(v.table, after.table, id))
            && (forall id :: vecAvailable && after.table.Some? && InFileChunks(v.chunks, fileId, id) ==>
                  id !in after.table.value)
  {
    hide Keep;
    var gone := ChunkIds(Keep(v.chunks, (c: ChunkRow) => c.fileId == fileId));
    assert forall id :: id in gone <==> InFileChunks(v.chunks, fileId, id);
  }

  // ---- adding a file ----

  ghost predicate ShowsSymbol(rows: seq<SymbolRow>, n: nat, i: nat, fileId: nat, batch: seq<NewSymbol>)
    requires ParentsPrecede(batch) && |rows| == n + |batch| && i < |batch|
  {
    var r, s := rows[n + i], batch[i];
    && r.fileId == fileId && r.name == s.name && r.qualname == s.qualname && r.kind == s.kind && r.sig == s.sig
    && r.startLine == s.startLine && r.endLine == s.endLine && r.arity == s.arity
    && r.parent == match s.parent { case Some(p) => Some(rows[n + p].id) case None => None }
  }

  /** A new call is unresolved. */
  ghost predicate ShowsEdge(r: EdgeRow, symbols: seq<SymbolRow>, n: nat, e: NewEdge) {
    && n + e.src < |symbols| && r.srcId == symbols[n + e.src].id && r.kind == e.kind && r.dstName == e.dstName
    && r.dstArity == e.dstArity
    && r.dstId == None && r.confidence == NameOnly
  }

  ghost predicate ShowsChunk(r: ChunkRow, symbols: seq<SymbolRow>, n: nat, fileId: nat, c: NewChunk,
                             blake3: string -> nat)
  {
    && (c.symbol.Some? ==> n + c.symbol.value < |symbols|)
    && r.fileId == fileId && r.startLine == c.startLine && r.endLine == c.endLine && r.content == c.content
    && r.contentHash == blake3(c.content) && r.tokenCount == |c.content| / 4 && r.isTest == c.isTest && !r.embedded
    && r.symbolId == match c.symbol { case Some(s) => Some(symbols[n + s].id) case None => None }
  }

  /** The batch stands behind the rows that were left, field by field, its indices turned into row ids. */
  ghost predicate BatchAdded(left: Graph, after: Graph, path: string, lang: string, hash: nat, idx: FileIndex) {
    && WellFormed(idx)
    && (exists id :: after.files == left.files + [FileRow(id, path, lang, hash)])
    && left.symbols <= after.symbols && |after.symbols| == |left.symbols| + |idx.symbols|
    && left.edges <= after.edges && |after.edges| == |left.edges| + |idx.edges|
    && FileIdsAscend(after.files) && SymbolIdsAscend(after.symbols) && EdgeIdsAscend(after.edges)
    && var fileId := after.files[|after.files| - 1].id;
    && (forall i :: 0 <= i < |idx.symbols| ==>
          ShowsSymbol(after.symbols, |left.symbols|, i, fileId, idx.symbols))
    && (forall i :: 0 <= i < |idx.edges| ==>
          ShowsEdge(after.edges[|left.edges| + i], after.symbols, |left.symbols|, idx.edges[i]))
  }

  ghost predicate BatchChunksAdded(left: Shelf, after: Shelf, graph: Graph, idx: FileIndex, blake3: string -> nat) {
    && WellFormed(idx) && graph.files != [] && |idx.symbols| <= |graph.symbols|
    && after.table == left.table && ChunkIdsAscend(after.chunks)
    && left.chunks <= after.chunks && |after.chunks| == |left.chunks| + |idx.chunks|
    && (forall i :: 0 <= i < |idx.chunks| ==>
          ShowsChunk(after.chunks[|left.chunks| + i], graph.symbols, |graph.symbols| - |idx.symbols|,
                     graph.files[|graph.files| - 1].id, idx.chunks[i], blake3))
  }

  /** A replacement: the file's old rows are gone, all others stand, and the batch stands behind them. */
  ghost predicate FileReplaced(g: Graph, v: Shelf, after: Graph, shelf: Shelf, path: string, lang: string, hash: nat,
                               idx: FileIndex, vecAvailable: bool, blake3: string -> nat)
  {
    exists left, rest ::
      && FileGone(g, left, path) && ChunksGone(g.files, v, rest, path, vecAvailable)
      && BatchAdded(left, after, path, lang, hash, idx) && BatchChunksAdded(rest, shelf, after, idx, blake3)
  }

  lemma InsertionEffect(left: Graph, path: string, lang: string, hash: nat, idx: FileIndex)
    requires Schema.Valid(left) && FileByPath(left.files, path).None? && WellFormed(idx)
    ensures BatchAdded(left, InsertFile(left, path, lang, hash, idx), path, lang, hash, idx)
  {
    hide Schema.Valid, FileIdsAscend, SymbolIdsAscend, EdgeIdsAscend, FileByPath, ShowsSymbol, ShowsEdge;
    InsertIsValid(left, path, lang, hash, idx);
    var after := InsertFile(left, path, lang, hash, idx);
    ValidAscends(after);
    var n, fileId := |left.symbols|, NextFileId(left.files);
    assert after.files == left.files + [FileRow(fileId, path, lang, hash)];
    forall i | 0 <= i < |idx.symbols| ensures ShowsSymbol(after.symbols, n, i, fileId, idx.symbols) {
      SymbolShown(left.symbols, idx.symbols, fileId, i);
    }
    forall i | 0 <= i < |idx.edges| ensures ShowsEdge(after.edges[|left.edges| + i], after.symbols, n, idx.edges[i]) {
      EdgeShown(left, idx, fileId, i);
    }
  }

  lemma EdgeShown(left: Graph, idx: FileIndex, fileId: nat, i: nat)
    requires WellFormed(idx) && i < |idx.edges|
    ensures var base := NextSymbolId(left.symbols);
            ShowsEdge((left.edges + NewEdgeRows(idx.edges, base, NextEdgeId(left.edges)))[|left.edges| + i],
                      left.symbols + NewSymbolRows(idx.symbols, fileId, base), |left.symbols|, idx.edges[i])
  {
    assert idx.edges[i] in idx.edges;
  }

  lemma SymbolShown(left: seq<SymbolRow>, batch: seq<NewSymbol>, fileId: nat, i: nat)
    requires ParentsPrecede(batch) && i < |batch|
    ensures ShowsSymbol(left + NewSymbolRows(batch, fileId, NextSymbolId(left)), |left|, i, fileId, batch)
  {
    var rows, base := left + NewSymbolRows(batch, fileId, NextSymbolId(left)), NextSymbolId(left);
    assert forall k :: 0 <= k < |batch| ==> rows[|left| + k] == SymbolRowOf(batch[k], k, fileId, base);
  }

  lemma ChunksEffect(left: Graph, rest: Shelf, path: string, lang: string, hash: nat, idx: FileIndex,
                     blake3: string -> nat)
    requires WellFormed(idx) && ChunkIdsAscend(rest.chunks)
    ensures BatchChunksAdded(rest, AddChunks(rest, idx.chunks, NextFileId(left.files), NextSymbolId(left.symbols),
                                             blake3),
                             InsertFile(left, path, lang, hash, idx), idx, blake3)
  {
    var fileId, base := NextFileId(left.files), NextSymbolId(left.symbols);
    var after, graph := AddChunks(rest, idx.chunks, fileId, base, blake3), InsertFile(left, path, lang, hash, idx);
    AddedAscend(rest.chunks, idx.chunks, fileId, base, blake3);
    var n := |left.symbols|;
    forall i | 0 <= i < |idx.chunks|
      ensures ShowsChunk(after.chunks[|rest.chunks| + i], graph.symbols, n, fileId, idx.chunks[i], blake3)
    {
      var c := idx.chunks[i];
      assert c in idx.chunks;
      assert after.chunks[|rest.chunks| + i] == ChunkRowOf(c, i, fileId, base, NextChunkId(rest.chunks), blake3);
    }
  }

  lemma AddedAscend(chunks: seq<ChunkRow>, batch: seq<NewChunk>, fileId: nat, base: nat, blake3: string -> nat)
    requires ChunkIdsAscend(chunks)
    ensures ChunkIdsAscend(chunks + NewChunkRows(batch, fileId, base, NextChunkId(chunks), blake3))
  {
    var all := chunks + NewChunkRows(batch, fileId, base, NextChunkId(chunks), blake3);
    forall i, j | 0 <= i < j < |all| ensures all[i].id < all[j].id {
      if i < |chunks| <= j { assert chunks[i].id <= chunks[|chunks| - 1].id; }
    }
  }

  lemma ReplacementEffect(g: Graph, v: Shelf, path: string, lang: string, hash: nat, idx: FileIndex, vecAvailable: bool,
                          blake3: string -> nat)
    requires Schema.Valid(g) && ChunkIdsAscend(v.chunks) && WellFormed(idx)
    ensures FileReplaced(g, v, InsertFile(DeleteFile(g, path), path, lang, hash, idx),
                         ReplaceShelf(g, v, path, idx.chunks, vecAvailable, blake3), path, lang, hash, idx,
                         vecAvailable, blake3)
  {
    hide Schema.Valid, FileByPath, DeleteFile, DropPath, FileGone, ChunksGone, BatchAdded, BatchChunksAdded, WellFormed;
    var left, rest := DeleteFile(g, path), DropPath(g, v, path, vecAvailable);
    DeleteIsValid(g, path);
    DeletionEffect(g, path);
    DropEffect(g, v, path, vecAvailable);
    InsertionEffect(left, path, lang, hash, idx);
    assert ChunkIdsAscend(rest.chunks) by { GoneAscends(g.files, v, rest, path, vecAvailable); }
    ChunksEffect(left, rest, path, lang, hash, idx, blake3);
  }

  lemma GoneAscends(files: seq<FileRow>, v: Shelf, after: Shelf, path: string, vecAvailable: bool)
    requires ChunksGone(files, v, after, path, vecAvailable)
    ensures ChunkIdsAscend(after.chunks)
  {
  }

  // ---- the symbols of chunks ----

  /** A chunk's symbol, when it has one, is a symbol of the chunk's own file; so no deletion has to clear one. */
  ghost predicate ChunkSymbolsHeld(symbols: seq<SymbolRow>, chunks: seq<ChunkRow>) {
    forall c :: c in chunks ==> ChunkSymbolHeld(symbols, c)
  }

  ghost predicate ChunkSymbolHeld(symbols: seq<SymbolRow>, c: ChunkRow) {
    c.symbolId.Some? ==>
      SymbolById(symbols, c.symbolId.value).Some? && SymbolById(symbols, c.symbolId.value).value.fileId == c.fileId
  }

  lemma HeldAfterFlagging(symbols: seq<SymbolRow>, before: seq<ChunkRow>, after: seq<ChunkRow>)
    requires ChunkSymbolsHeld(symbols, before) && |after| == |before|
    requires forall k :: 0 <= k < |before| ==> after[k] == before[k].(embedded := after[k].embedded)
    ensures ChunkSymbolsHeld(symbols, after)
  {
    hide SymbolById;
    forall c | c in after ensures ChunkSymbolHeld(symbols, c) {
      var k :| 0 <= k < |after| && after[k] == c;
      assert before[k] in before && ChunkSymbolHeld(symbols, before[k]);
    }
  }

  lemma HeldAfterFlag(symbols: seq<SymbolRow>, chunks: seq<ChunkRow>, ids: set<nat>)
    requires ChunkSymbolsHeld(symbols, chunks)
    ensures ChunkSymbolsHeld(symbols, Flag(chunks, ids))
  {
    hide ChunkSymbolsHeld;
    HeldAfterFlagging(symbols, chunks, Flag(chunks, ids));
  }

  lemma NothingPut(chunks: seq<ChunkRow>, table: map<nat, Vector>)
    ensures Flag(chunks, RowIds([])) == chunks && Upsert(table, []) == table
  {
    assert RowIds([]) == {};
  }

  lemma HeldAfterDropping(g: Graph, v: Shelf, path: string, vecAvailable: bool)
    requires Schema.Valid(g) && ChunkSymbolsHeld(g.symbols, v.chunks)
    ensures ChunkSymbolsHeld(DeleteFile(g, path).symbols, DropPath(g, v, path, vecAvailable).chunks)
  {
    hide SymbolById, FileByPath, CascadeEdges;
    if FileByPath(g.files, path).Some? {
      var f := FileByPath(g.files, path).value;
      forall c | c in DropPath(g, v, path, vecAvailable).chunks
        ensures ChunkSymbolHeld(OutsideFile(g.symbols, f.id), c)
      {
        assert ChunkSymbolHeld(g.symbols, c);
        if c.symbolId.Some? { SymbolKept(g.symbols, f.id, c.symbolId.value); }
      }
    }
  }

  lemma HeldAfterAdding(left: Graph, rest: Shelf, path: string, lang: string, hash: nat, idx: FileIndex,
                        blake3: string -> nat)
    requires Schema.Valid(left) && ChunkSymbolsHeld(left.symbols, rest.chunks) && WellFormed(idx)
    ensures ChunkSymbolsHeld(InsertFile(left, path, lang, hash, idx).symbols,
                             AddChunks(rest, idx.chunks, NextFileId(left.files), NextSymbolId(left.symbols),
                                       blake3).chunks)
  {
    ValidAscends(left);
    hide Schema.Valid, SymbolIdsAscend, SymbolById, NewSymbolRows, NewEdgeRows, NextSymbolId, NextFileId,
         ChunkSymbolsHeld, NewChunkRows, WellFormed;
    var fileId := NextFileId(left.files);
    var symbols := left.symbols + NewSymbolRows(idx.symbols, fileId, NextSymbolId(left.symbols));
    OldChunksHeld(left.symbols, idx.symbols, fileId, rest.chunks);
    NewChunksHeld(left.symbols, idx, fileId, NextChunkId(rest.chunks), blake3);
    HeldTogether(symbols, rest.chunks,
                 NewChunkRows(idx.chunks, fileId, NextSymbolId(left.symbols), NextChunkId(rest.chunks), blake3));
  }

  lemma HeldTogether(symbols: seq<SymbolRow>, a: seq<ChunkRow>, b: seq<ChunkRow>)
    requires ChunkSymbolsHeld(symbols, a) && ChunkSymbolsHeld(symbols, b)
    ensures ChunkSymbolsHeld(symbols, a + b)
  {
    hide ChunkSymbolHeld;
  }

  lemma OldChunksHeld(symbols: seq<SymbolRow>, batch: seq<NewSymbol>, fileId: nat, chunks: seq<ChunkRow>)
    requires SymbolIdsAscend(symbols) && ChunkSymbolsHeld(symbols, chunks)
    ensures ChunkSymbolsHeld(symbols + NewSymbolRows(batch, fileId, NextSymbolId(symbols)), chunks)
  {
    hide SymbolIdsAscend, NewSymbolRows, NextSymbolId, ChunkSymbolHeld;
    var all := symbols + NewSymbolRows(batch, fileId, NextSymbolId(symbols));
    forall c | c in chunks ensures ChunkSymbolHeld(all, c) { OldChunkHeld(symbols, batch, fileId, c); }
  }

  lemma NewChunksHeld(symbols: seq<SymbolRow>, idx: FileIndex, fileId: nat, first: nat, blake3: string -> nat)
    requires SymbolIdsAscend(symbols) && WellFormed(idx)
    ensures var base := NextSymbolId(symbols);
            ChunkSymbolsHeld(symbols + NewSymbolRows(idx.symbols, fileId, base),
                             NewChunkRows(idx.chunks, fileId, base, first, blake3))
  {
    hide SymbolIdsAscend, NewSymbolRows, NextSymbolId, ChunkSymbolHeld, WellFormed;
    var base := NextSymbolId(symbols);
    var added := NewChunkRows(idx.chunks, fileId, base, first, blake3);
    forall c | c in added ensures ChunkSymbolHeld(symbols + NewSymbolRows(idx.symbols, fileId, base), c) {
      var k: nat :| k < |added| && added[k] == c;
      NewChunkHeld(symbols, idx, fileId, first, blake3, k);
    }
  }

  lemma OldChunkHeld(symbols: seq<SymbolRow>, batch: seq<NewSymbol>, fileId: nat, c: ChunkRow)
    requires SymbolIdsAscend(symbols) && ChunkSymbolHeld(symbols, c)
    ensures ChunkSymbolHeld(symbols + NewSymbolRows(batch, fileId, NextSymbolId(symbols)), c)
  {
    hide SymbolIdsAscend, SymbolById, NewSymbolRows, NextSymbolId;
    if c.symbolId.Some? { AppendedKeepsOld(symbols, batch, fileId, c.symbolId.value); }
  }

  lemma NewChunkHeld(symbols: seq<SymbolRow>, idx: FileIndex, fileId: nat, first: nat, blake3: string -> nat, k: nat)
    requires SymbolIdsAscend(symbols) && WellFormed(idx) && k < |idx.chunks|
    ensures var base := NextSymbolId(symbols);
            ChunkSymbolHeld(symbols + NewSymbolRows(idx.symbols, fileId, base),
                            NewChunkRows(idx.chunks, fileId, base, first, blake3)[k])
  {
    hide SymbolIdsAscend, SymbolById, NewSymbolRows, NextSymbolId;
    assert idx.chunks[k] in idx.chunks;
    var s := idx.chunks[k].symbol;
    if s.Some? { AppendedSymbol(symbols, idx.symbols, fileId, s.value); }
  }

  // ---- resolving ----

  /** The row with its target and confidence as the chooser says for its calling symbol; nothing else moves. */
  ghost predicate Retargeted(symbols: seq<SymbolRow>, was: EdgeRow, e: EdgeRow) {
    && e.id == was.id && e.srcId == was.srcId && e.kind == was.kind && e.dstName == was.dstName
    && e.dstArity == was.dstArity
    && forall s :: s in symbols && s.id == was.srcId ==>
         Choose(symbols, Call(s.fileId, was.dstName, was.dstArity)) == Choice(e.dstId, e.confidence)
  }

  lemma ResolvingRetargets(symbols: seq<SymbolRow>, e: EdgeRow)
    requires SymbolIdsAscend(symbols)
    ensures Retargeted(symbols, e, ResolveEdge(symbols, e))
  {
    hide Choose, SymbolById;
    forall s | s in symbols && s.id == e.srcId ensures SymbolById(symbols, e.srcId) == Some(s) {
      SymbolByIdUnique(symbols, s);
    }
  }

  // ---- flags and vectors ----

  /** The same rows in the same order, none of them flagged any more. */
  ghost predicate FlagsDropped(before: seq<ChunkRow>, after: seq<ChunkRow>) {
    |after| == |before| && forall k :: 0 <= k < |before| ==> after[k] == before[k].(embedded := false)
  }

  ghost predicate WrittenFor(rows: seq<(nat, Vector)>, id: nat) { exists i :: 0 <= i < |rows| && rows[i].0 == id }

  /** The same rows in the same order, those written for flagged besides. */
  ghost predicate FlagsAdded(before: seq<ChunkRow>, after: seq<ChunkRow>, rows: seq<(nat, Vector)>) {
    && |after| == |before|
    && forall k :: 0 <= k < |before| ==>
         after[k] == before[k].(embedded := before[k].embedded || WrittenFor(rows, before[k].id))
  }

  ghost predicate LastFor(rows: seq<(nat, Vector)>, i: nat)
    requires i < |rows|
  {
    forall j :: i < j < |rows| ==> rows[j].0 != rows[i].0
  }

  /** Each written id has the last vector written for it, every other the one it had. */
  ghost predicate Written(before: Option<map<nat, Vector>>, after: Option<map<nat, Vector>>, rows: seq<(nat, Vector)>) {
    && (after.Some? <==> before.Some? || rows != [])
    && (forall i :: 0 <= i < |rows| && LastFor(rows, i) ==>
          after.Some? && rows[i].0 in after.value && after.value[rows[i].0] == rows[i].1)
    && (forall id :: !WrittenFor(rows, id) ==> SameVector(before, after, id))
  }

  lemma WrittenNext(before: map<nat, Vector>, now: map<nat, Vector>, rows: seq<(nat, Vector)>, row: (nat, Vector))
    requires Written(Some(before), Some(now), rows)
    ensures Written(Some(before), Some(now[row.0 := row.1]), rows + [row])
  {
    var more, after := rows + [row], now[row.0 := row.1];
    forall i | 0 <= i < |more| && LastFor(more, i) ensures more[i].0 in after && after[more[i].0] == more[i].1 {
      if i < |rows| {
        assert more[|rows|].0 != more[i].0;
        assert forall j :: i < j < |rows| ==> more[j] == rows[j];
        assert LastFor(rows, i);
      }
    }
    forall id | !WrittenFor(more, id) ensures SameVector(Some(before), Some(after), id) {
      assert more[|rows|].0 != id;
      assert forall i :: 0 <= i < |rows| ==> more[i] == rows[i];
      assert !WrittenFor(rows, id);
    }
  }

  lemma {:induction false} UpsertEffect(table: map<nat, Vector>, rows: seq<(nat, Vector)>)
    ensures Written(Some(table), Some(Upsert(table, rows)), rows)
  {
    if rows != [] {
      var init, last := rows[..|rows| - 1], rows[|rows| - 1];
      UpsertEffect(table, init);
      WrittenNext(table, Upsert(table, init), init, last);
      hide Written;
      assert rows == init + [last];
    }
  }

  lemma PutEffect(v: Shelf, rows: seq<(nat, Vector)>)
    ensures FlagsAdded(v.chunks, Put(v, rows).chunks, rows)
    ensures Written(v.table, Put(v, rows).table, rows)
  {
    UpsertEffect(if v.table.Some? then v.table.value else map[], rows);
    forall id ensures id in RowIds(rows) <==> WrittenFor(rows, id) {
      if WrittenFor(rows, id) {
        var i :| 0 <= i < |rows| && rows[i].0 == id;
        assert rows[i] in rows;
      }
    }
  }

  lemma WipeEffect(v: Shelf, vecAvailable: bool)
    ensures FlagsDropped(v.chunks, Wipe(v, vecAvailable).chunks)
  {
  }
}
