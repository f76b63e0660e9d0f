/**
 The index tables. A table is the sequence of its rows in id order; a new row gets the id after the
 largest one in use, so the id of a deleted last row is handed out again.
 */
module Schema {
  import opened Wrappers
  import opened Sequences

  datatype SymbolKind = Module | Class | Struct | Enum | Trait | Interface | Function | Method | Type | Const
  datatype EdgeKind = Calls | Imports
  datatype Confidence = Exact | NameArity | NameOnly

  // What a parsed file contributes; cross references are indices into the same batch.
  datatype NewSymbol = NewSymbol(name: string, qualname: string, kind: SymbolKind, sig: Option<string>,
                                 startLine: nat, endLine: nat, parent: Option<nat>, arity: Option<nat>)
  datatype NewEdge = NewEdge(src: nat, kind: EdgeKind, dstName: string, dstArity: Option<nat>)
  datatype NewChunk = NewChunk(symbol: Option<nat>, startLine: nat, endLine: nat, content: string, isTest: bool)
  datatype FileIndex = FileIndex(symbols: seq<NewSymbol>, edges: seq<NewEdge>, chunks: seq<NewChunk>)

  // Hashes stand for 256-bit digests read as numbers.
  datatype FileRow = FileRow(id: nat, path: string, lang: string, hash: nat)
  datatype SymbolRow = SymbolRow(id: nat, fileId: nat, name: string, qualname: string, kind: SymbolKind,
                                 sig: Option<string>, startLine: nat, endLine: nat, parent: Option<nat>,
                                 arity: Option<nat>)
  datatype EdgeRow = EdgeRow(id: nat, srcId: nat, kind: EdgeKind, dstName: string, dstArity: Option<nat>,
                             dstId: Option<nat>, confidence: Confidence)
  datatype Graph = Graph(files: seq<FileRow>, symbols: seq<SymbolRow>, edges: seq<EdgeRow>)

  function EstimateTokens(text: string): nat { |text| / 4 }

  // ---- lookups ----

  function FileByPath(files: seq<FileRow>, path: string): (r: Option<FileRow>)
    ensures r.Some? ==> r.value in files && r.value.path == path
    ensures r.None? <==> forall f :: f in files ==> f.path != path
  {
    First(files, (f: FileRow) => f.path == path)
  }

  function SymbolById(symbols: seq<SymbolRow>, id: nat): (r: Option<SymbolRow>)
    ensures r.Some? ==> r.value in symbols && r.value.id == id
    ensures r.None? <==> forall s :: s in symbols ==> s.id != id
  {
    First(symbols, (s: SymbolRow) => s.id == id)
  }

  function FileById(files: seq<FileRow>, id: nat): (r: Option<FileRow>)
    ensures r.Some? ==> r.value in files && r.value.id == id
    ensures r.None? <==> forall f :: f in files ==> f.id != id
  {
    First(files, (f: FileRow) => f.id == id)
  }

  function FileHash(g: Graph, path: string): Option<nat> {
    match FileByPath(g.files, path)
    case Some(f) => Some(f.hash)
    case None => None
  }

  // ---- integrity ----

  ghost predicate FileIdsAscend(files: seq<FileRow>) {
    forall i, j :: 0 <= i < j < |files| ==> files[i].id < files[j].id
  }

  ghost predicate SymbolIdsAscend(symbols: seq<SymbolRow>) {
    forall i, j :: 0 <= i < j < |symbols| ==> symbols[i].id < symbols[j].id
  }

  ghost predicate EdgeIdsAscend(edges: seq<EdgeRow>) {
    forall i, j :: 0 <= i < j < |edges| ==> edges[i].id < edges[j].id
  }

  ghost predicate PathsUnique(files: seq<FileRow>) {
    forall i, j :: 0 <= i < j < |files| ==> files[i].path != files[j].path
  }

  /** The parent of a symbol, when it has one, is a symbol of its own file. */
  ghost predicate ParentHeld(symbols: seq<SymbolRow>, s: SymbolRow) {
    s.parent.Some? ==>
      SymbolById(symbols, s.parent.value).Some? && SymbolById(symbols, s.parent.value).value.fileId == s.fileId
  }

  ghost predicate ParentsHeld(symbols: seq<SymbolRow>) { forall s :: s in symbols ==> ParentHeld(symbols, s) }

  /** Primary keys, the unique path, and every foreign key of the graph tables. */
  ghost predicate Valid(g: Graph) {
    && FileIdsAscend(g.files) && SymbolIdsAscend(g.symbols) && EdgeIdsAscend(g.edges)
    && PathsUnique(g.files)
    && (forall s :: s in g.symbols ==> FileById(g.files, s.fileId).Some?)
    && ParentsHeld(g.symbols)
    && (forall e :: e in g.edges ==> SymbolById(g.symbols, e.srcId).Some?)
    && (forall e :: e in g.edges && e.dstId.Some? ==> SymbolById(g.symbols, e.dstId.value).Some?)
  }

  /** The file that holds the calling symbol of an edge. */
  ghost function SourceFile(g: Graph, e: EdgeRow): nat
    requires SymbolById(g.symbols, e.srcId).Some?
  {
    SymbolById(g.symbols, e.srcId).value.fileId
  }

  ghost function PathOf(g: Graph, e: EdgeRow): string
    requires Valid(g) && e in g.edges
  {
    FileById(g.files, SourceFile(g, e)).value.path
  }

  lemma SymbolByIdUnique(symbols: seq<SymbolRow>, s: SymbolRow)
    requires SymbolIdsAscend(symbols) && s in symbols
    ensures SymbolById(symbols, s.id) == Some(s)
  {
  }

  lemma FileByPathUnique(files: seq<FileRow>, f: FileRow)
    requires PathsUnique(files) && f in files
    ensures FileByPath(files, f.path) == Some(f)
  {
  }

  lemma FileByIdUnique(files: seq<FileRow>, f: FileRow)
    requires FileIdsAscend(files) && f in files
    ensures FileById(files, f.id) == Some(f)
  {
  }

  // ---- deletion with its cascades ----

  function InFile(symbols: seq<SymbolRow>, fileId: nat): seq<SymbolRow> {
    Keep(symbols, (s: SymbolRow) => s.fileId == fileId)
  }

  function OutsideFile(symbols: seq<SymbolRow>, fileId: nat): seq<SymbolRow> {
    Keep(symbols, (s: SymbolRow) => s.fileId != fileId)
  }

  function CutTarget(e: EdgeRow, symbols: seq<SymbolRow>): EdgeRow {
    if e.dstId.Some? && SymbolById(symbols, e.dstId.value).None? then e.(dstId := None) else e
  }

  /** Edges out of deleted symbols go; edges into them lose their target but keep their confidence. */
  function CascadeEdges(edges: seq<EdgeRow>, left: seq<SymbolRow>): (r: seq<EdgeRow>) {
    var kept := Keep(edges, (e: EdgeRow) => SymbolById(left, e.srcId).Some?);
    seq(|kept|, i requires 0 <= i < |kept| => CutTarget(kept[i], left))
  }

  function DeleteFile(g: Graph, path: string): Graph {
    match FileByPath(g.files, path)
    case None => g
    case Some(f) =>
      var left := OutsideFile(g.symbols, f.id);
      Graph(Keep(g.files, (x: FileRow) => x.path != path), left, CascadeEdges(g.edges, left))
  }

  // ---- insertion ----

  function NextFileId(files: seq<FileRow>): nat { if files == [] then 1 else files[|files| - 1].id + 1 }
  function NextSymbolId(symbols: seq<SymbolRow>): nat { if symbols == [] then 1 else symbols[|symbols| - 1].id + 1 }
  function NextEdgeId(edges: seq<EdgeRow>): nat { if edges == [] then 1 else edges[|edges| - 1].id + 1 }

  /** The batch indices a file may use: parents earlier in the batch, edges and chunks inside it. */
  predicate WellFormed(idx: FileIndex) {
    && ParentsPrecede(idx.symbols)
    && EdgesInside(idx.edges, |idx.symbols|)
    && ChunksInside(idx.chunks, |idx.symbols|)
  }

  predicate ParentsPrecede(symbols: seq<NewSymbol>) {
    forall i :: 0 <= i < |symbols| && symbols[i].parent.Some? ==> symbols[i].parent.value < i
  }

  predicate EdgesInside(edges: seq<NewEdge>, symbols: nat) { forall e :: e in edges ==> e.src < symbols }

  predicate ChunksInside(chunks: seq<NewChunk>, symbols: nat) {
    forall c :: c in chunks && c.symbol.Some? ==> c.symbol.value < symbols
  }

  function ShiftIndex(i: Option<nat>, base: nat): Option<nat> {
    if i.Some? then Some(base + i.value) else None
  }

  function SymbolRowOf(s: NewSymbol, i: nat, fileId: nat, base: nat): SymbolRow {
    SymbolRow(base + i, fileId, s.name, s.qualname, s.kind, s.sig, s.startLine, s.endLine,
              ShiftIndex(s.parent, base), s.arity)
  }

  function EdgeRowOf(e: NewEdge, i: nat, symbolBase: nat, base: nat): EdgeRow {
    EdgeRow(base + i, symbolBase + e.src, e.kind, e.dstName, e.dstArity, None, NameOnly)
  }

  function NewSymbolRows(symbols: seq<NewSymbol>, fileId: nat, base: nat): seq<SymbolRow> {
    seq(|symbols|, i requires 0 <= i < |symbols| => SymbolRowOf(symbols[i], i, fileId, base))
  }

  function NewEdgeRows(edges: seq<NewEdge>, symbolBase: nat, base: nat): seq<EdgeRow> {
    seq(|edges|, i requires 0 <= i < |edges| => EdgeRowOf(edges[i], i, symbolBase, base))
  }

  function InsertFile(g: Graph, path: string, lang: string, hash: nat, idx: FileIndex): Graph {
    var fileId, base := NextFileId(g.files), NextSymbolId(g.symbols);
    Graph(g.files + [FileRow(fileId, path, lang, hash)],
          g.symbols + NewSymbolRows(idx.symbols, fileId, base),
          g.edges + NewEdgeRows(idx.edges, base, NextEdgeId(g.edges)))
  }
}
