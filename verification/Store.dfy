/** The writer's store: the index tables, the meta table, and the cached answer to "is there a vector table?". */
module Stores {
  import opened Wrappers
  import opened Sequences
  import opened Schema
  import opened Resolver
  import opened Incremental
  import opened Vectors
  import opened Effects
  import Decimal
  import Names

  datatype Error = BadIndex | EmbedderFailed | LengthMismatch | NoProgress

  /** Which edges a resolve pass selects. */
  datatype Filter = AllEdges | ByName(name: string)

  predicate Selects(f: Filter, e: EdgeRow) { f.ByName? ==> Names.SuffixMatch(e.dstName, f.name) }

  function Passed(symbols: seq<SymbolRow>, f: Filter, e: EdgeRow): EdgeRow {
    if Selects(f, e) then ResolveEdge(symbols, e) else e
  }

  function ResolveWhere(g: Graph, f: Filter): Graph {
    g.(edges := seq(|g.edges|, i requires 0 <= i < |g.edges| => Passed(g.symbols, f, g.edges[i])))
  }

  function NameSet(names: seq<string>): set<string> { set n | n in names }

  /** The selected edges that find a symbol. */
  function Hits(symbols: seq<SymbolRow>, edges: seq<EdgeRow>, f: Filter): nat {
    |Keep(edges, (e: EdgeRow) => Selects(f, e) && ResolveEdge(symbols, e).dstId.Some?)|
  }

  function Distinct(names: seq<string>): (r: seq<string>)
    ensures forall n :: n in r <==> n in names
    ensures forall i, j :: 0 <= i < j < |r| ==> r[i] != r[j]
  {
    if names == [] then []
    else
      var init, last := Distinct(names[..|names| - 1]), names[|names| - 1];
      assert names == names[..|names| - 1] + [last];
      if last in init then init else init + [last]
  }

  function TotalHits(symbols: seq<SymbolRow>, edges: seq<EdgeRow>, names: seq<string>): nat {
    if names == [] then 0
    else TotalHits(symbols, edges, names[..|names| - 1]) + Hits(symbols, edges, ByName(names[|names| - 1]))
  }

  function Listed<T(!new)>(rows: seq<T>, name: T -> string): (r: seq<string>)
    ensures forall n :: n in r <==> exists x :: x in rows && name(x) == n
  {
    var r := seq(|rows|, i requires 0 <= i < |rows| => name(rows[i]));
    assert forall i :: 0 <= i < |rows| ==> rows[i] in rows && r[i] == name(rows[i]);
    r
  }

  function NameList(symbols: seq<SymbolRow>): seq<string> { Listed(symbols, (s: SymbolRow) => s.name) }

  function BatchNameList(symbols: seq<NewSymbol>): seq<string> { Listed(symbols, (s: NewSymbol) => s.name) }

  lemma BatchNamesListed(idx: FileIndex)
    ensures forall n :: n in BatchNameList(idx.symbols) <==> n in BatchNames(idx)
  {
  }

  /** The distinct names a file defines, as its rows list them. */
  function SymbolNames(g: Graph, path: string): (r: seq<string>)
    ensures forall n :: n in r <==> n in NamesIn(g, path)
    ensures forall i, j :: 0 <= i < j < |r| ==> r[i] != r[j]
  {
    match FileByPath(g.files, path)
    case Some(f) => Distinct(NameList(InFile(g.symbols, f.id)))
    case None => []
  }

  // ---- inserting a batch ----

  /** A name that the file at the path had before, or has in the batch. */
  ghost predicate NamedThere(g: Graph, path: string, idx: FileIndex, n: string) {
    || (exists s :: s in g.symbols && s.name == n && Held(g.files, path, s.fileId))
    || (exists s :: s in idx.symbols && s.name == n)
  }

  lemma NamesAre(g: Graph, path: string, idx: FileIndex, n: string)
    requires Schema.Valid(g)
    ensures n in NamesIn(g, path) + BatchNames(idx) <==> NamedThere(g, path, idx, n)
  {
    hide Held, FileByPath;
    forall s | s in g.symbols
      ensures Held(g.files, path, s.fileId) <==>
              FileByPath(g.files, path).Some? && FileByPath(g.files, path).value.id == s.fileId
    {
      HeldIs(g.files, path, s.fileId);
    }
  }

  lemma NoParents()
    ensures ParentsPrecede([])
  {
  }

  lemma OneMoreParent(batch: seq<NewSymbol>, i: nat)
    requires i < |batch|
    ensures ParentsPrecede(batch[..i + 1]) <==>
            ParentsPrecede(batch[..i]) && (batch[i].parent.Some? ==> batch[i].parent.value < i)
    ensures ParentsPrecede(batch) ==> ParentsPrecede(batch[..i + 1])
  {
    assert forall k :: 0 <= k < i ==> batch[..i + 1][k] == batch[..i][k];
    assert batch[..i + 1][i] == batch[i];
  }

  /** Inserts symbols one by one, resolving each parent among the ids handed out so far. */
  method InsertSymbols(table: seq<SymbolRow>, batch: seq<NewSymbol>, fileId: nat)
    returns (r: Result<seq<SymbolRow>, Error>, ids: seq<nat>)
    ensures r == if ParentsPrecede(batch) then Ok(table + NewSymbolRows(batch, fileId, NextSymbolId(table)))
                 else Err(BadIndex)
    ensures r.Ok? ==> ids == seq(|batch|, i requires 0 <= i < |batch| => NextSymbolId(table) + i)
    ensures r.Ok? ==> ParentsPrecede(batch) && table <= r.value && |r.value| == |table| + |batch|
    ensures r.Ok? ==> forall i :: 0 <= i < |batch| ==> ShowsSymbol(r.value, |table|, i, fileId, batch)
  {
    hide ParentsPrecede, ShowsSymbol;
    ghost var base := NextSymbolId(table);
    var rows := table;
    ids := [];
    NoParents();
    assert batch[..0] == [];
    for i := 0 to |batch|
      invariant rows == table + NewSymbolRows(batch[..i], fileId, base)
      invariant |ids| == i && forall k :: 0 <= k < i ==> ids[k] == base + k
      invariant ParentsPrecede(batch[..i])
    {
      OneMoreParent(batch, i);
      var s := batch[i];
      var parent := None;
      if s.parent.Some? {
        if s.parent.value >= |ids| { return Err(BadIndex), ids; }
        parent := Some(ids[s.parent.value]);
      }
      var id := NextSymbolId(rows);
      assert id == base + i;
      var row := SymbolRow(id, fileId, s.name, s.qualname, s.kind, s.sig, s.startLine, s.endLine, parent, s.arity);
      rows := rows + [row];
      assert NewSymbolRows(batch[..i + 1], fileId, base) ==
             NewSymbolRows(batch[..i], fileId, base) + [SymbolRowOf(s, i, fileId, base)];
      ids := ids + [id];
    }
    assert batch[..|batch|] == batch;
    forall i | 0 <= i < |batch| ensures ShowsSymbol(rows, |table|, i, fileId, batch) {
      SymbolShown(table, batch, fileId, i);
    }
    r := Ok(rows);
  }

  method InsertEdges(table: seq<EdgeRow>, batch: seq<NewEdge>, ids: seq<nat>, ghost base: nat)
    returns (r: Result<seq<EdgeRow>, Error>)
    requires forall k :: 0 <= k < |ids| ==> ids[k] == base + k
    ensures r == if EdgesInside(batch, |ids|) then Ok(table + NewEdgeRows(batch, base, NextEdgeId(table)))
                 else Err(BadIndex)
  {
    ghost var first := NextEdgeId(table);
    var rows := table;
    for i := 0 to |batch|
      invariant rows == table + NewEdgeRows(batch[..i], base, first)
      invariant EdgesInside(batch[..i], |ids|)
    {
      var e := batch[i];
      if e.src >= |ids| {
        assert batch[i] in batch;
        return Err(BadIndex);
      }
      var id := NextEdgeId(rows);
      assert id == first + i;
      rows := rows + [EdgeRow(id, ids[e.src], e.kind, e.dstName, e.dstArity, None, NameOnly)];
      assert batch[..i + 1] == batch[..i] + [e];
    }
    assert batch[..|batch|] == batch;
    r := Ok(rows);
  }

  method InsertChunks(v: Shelf, batch: seq<NewChunk>, fileId: nat, ids: seq<nat>, ghost base: nat,
                      blake3: string -> nat)
    returns (r: Result<Shelf, Error>)
    requires forall k :: 0 <= k < |ids| ==> ids[k] == base + k
    ensures r == if ChunksInside(batch, |ids|) then Ok(AddChunks(v, batch, fileId, base, blake3)) else Err(BadIndex)
  {
    ghost var first := NextChunkId(v.chunks);
    var rows := v.chunks;
    for i := 0 to |batch|
      invariant rows == v.chunks + NewChunkRows(batch[..i], fileId, base, first, blake3)
      invariant ChunksInside(batch[..i], |ids|)
    {
      var c := batch[i];
      var symbolId := None;
      if c.symbol.Some? {
        if c.symbol.value >= |ids| {
          assert batch[i] in batch;
          return Err(BadIndex);
        }
        symbolId := Some(ids[c.symbol.value]);
      }
      var id := NextChunkId(rows);
      assert id == first + i;
      rows := rows + [ChunkRow(id, fileId, symbolId, c.startLine, c.endLine, c.content, blake3(c.content),
                               EstimateTokens(c.content), c.isTest, false)];
      assert batch[..i + 1] == batch[..i] + [c];
    }
    assert batch[..|batch|] == batch;
    r := Ok(v.(chunks := rows));
  }

  lemma ReplacedChunksValid(g: Graph, chunks: seq<ChunkRow>, path: string, vecAvailable: bool, table: Option<map<nat,
                            Vector>>, blake3: string -> nat)
    requires Schema.Valid(g) && ChunksValid(g.files, chunks, blake3)
    ensures ChunksValid(DeleteFile(g, path).files, DropPath(g, Shelf(chunks, table), path, vecAvailable).chunks, blake3)
  {
    match FileByPath(g.files, path)
    case None =>
    case Some(f) =>
      var kept := Keep(chunks, (c: ChunkRow) => c.fileId != f.id);
      var files := DeleteFile(g, path).files;
      KeepOrder(chunks, (c: ChunkRow) => c.fileId != f.id, (a: ChunkRow, b: ChunkRow) => a.id < b.id);
      forall c | c in kept ensures FileById(files, c.fileId).Some? {
        var x := FileById(g.files, c.fileId).value;
        FileByPathUnique(g.files, f);
        FileByPathUnique(g.files, x);
        assert x in files;
      }
  }

  lemma ValidChunksAscend(files: seq<FileRow>, chunks: seq<ChunkRow>, blake3: string -> nat)
    requires ChunksValid(files, chunks, blake3)
    ensures ChunkIdsAscend(chunks)
  {
  }

  lemma DropKeepsTable(g: Graph, v: Shelf, path: string, vecAvailable: bool)
    ensures DropPath(g, v, path, vecAvailable).table.Some? == v.table.Some?
  {
  }

  lemma AddedChunksValid(files: seq<FileRow>, v: Shelf, f: FileRow, batch: seq<NewChunk>, base: nat,
                         blake3: string -> nat)
    requires ChunksValid(files, v.chunks, blake3)
    ensures ChunksValid(files + [f], AddChunks(v, batch, f.id, base, blake3).chunks, blake3)
  {
    var all := AddChunks(v, batch, f.id, base, blake3).chunks;
    forall i, j | 0 <= i < j < |all| ensures all[i].id < all[j].id {
      if i < |v.chunks| <= j {
        assert v.chunks[i].id <= v.chunks[|v.chunks| - 1].id;
      }
    }
    forall i | 0 <= i < |all|
      ensures FileById(files + [f], all[i].fileId).Some? && all[i].contentHash == blake3(all[i].content)
    {
      if i < |v.chunks| {
        assert v.chunks[i] in v.chunks;
        assert FileById(files, all[i].fileId).value in files + [f];
      } else {
        assert all[i].fileId == f.id && f in files + [f];
      }
    }
  }

  // ---- counting what a resolve pass writes ----

  lemma NoHits(symbols: seq<SymbolRow>, f: Filter)
    ensures Hits(symbols, [], f) == 0
  {
  }

  lemma HitsOneMore(symbols: seq<SymbolRow>, edges: seq<EdgeRow>, f: Filter, i: nat)
    requires i < |edges|
    ensures Hits(symbols, edges[..i + 1], f) ==
            Hits(symbols, edges[..i], f)
            + (if Selects(f, edges[i]) && ResolveEdge(symbols, edges[i]).dstId.Some? then 1 else 0)
  {
    hide ResolveEdge;
    assert edges[..i + 1] == edges[..i] + [edges[i]];
    KeepLast(edges[..i], edges[i], (e: EdgeRow) => Selects(f, e) && ResolveEdge(symbols, e).dstId.Some?);
  }

  lemma {:induction false} HitsUnchanged(symbols: seq<SymbolRow>, before: seq<EdgeRow>, after: seq<EdgeRow>, f: Filter)
    requires |before| == |after|
    requires forall i :: 0 <= i < |before| ==> RewrittenRow(symbols, before[i], after[i])
    ensures Hits(symbols, after, f) == Hits(symbols, before, f)
  {
    if before != [] {
      HitsUnchanged(symbols, before[..|before| - 1], after[..|after| - 1], f);
      assert RewrittenRow(symbols, before[|before| - 1], after[|after| - 1]);
    }
  }

  // ---- what a resolve pass does to the rows ----

  /** Selected rows point where the chooser says, the others stand; nothing but target and confidence moves. */
  ghost predicate PassedOver(symbols: seq<SymbolRow>, before: seq<EdgeRow>, after: seq<EdgeRow>, f: Filter) {
    && |after| == |before|
    && forall k :: 0 <= k < |before| ==>
         if f == AllEdges || Names.SuffixMatch(before[k].dstName, f.name) then Retargeted(symbols, before[k], after[k])
         else after[k] == before[k]
  }

  ghost predicate PassedOverNames(symbols: seq<SymbolRow>, before: seq<EdgeRow>, after: seq<EdgeRow>,
                                  names: seq<string>)
  {
    && |after| == |before|
    && forall k :: 0 <= k < |before| ==>
         if exists n :: n in names && Names.SuffixMatch(before[k].dstName, n) then
           Retargeted(symbols, before[k], after[k])
         else after[k] == before[k]
  }

  /** Where a selected row has a target afterwards. */
  function Targeted(before: seq<EdgeRow>, after: seq<EdgeRow>, f: Filter): set<int> {
    set k | 0 <= k < |before| && k < |after| && after[k].dstId.Some?
            && (f == AllEdges || Names.SuffixMatch(before[k].dstName, f.name))
  }

  lemma {:induction false} HitsAreTargeted(symbols: seq<SymbolRow>, before: seq<EdgeRow>, after: seq<EdgeRow>,
                                           f: Filter)
    requires |after| == |before| && forall k :: 0 <= k < |before| ==> after[k] == Passed(symbols, f, before[k])
    ensures Hits(symbols, before, f) == |Targeted(before, after, f)|
  {
    hide ResolveEdge, Names.SuffixMatch, Hits;
    if before == [] {
      NoHits(symbols, f);
      assert Targeted(before, after, f) == {};
    } else {
      var n := |before| - 1;
      HitsAreTargeted(symbols, before[..n], after[..n], f);
      HitsOneMore(symbols, before, f, n);
      assert before[..n + 1] == before;
      TargetedNext(before, after, f, n);
    }
  }

  lemma TargetedNext(before: seq<EdgeRow>, after: seq<EdgeRow>, f: Filter, n: nat)
    requires |after| == |before| == n + 1
    ensures |Targeted(before, after, f)| == |Targeted(before[..n], after[..n], f)|
            + if after[n].dstId.Some? && (f == AllEdges || Names.SuffixMatch(before[n].dstName, f.name)) then 1 else 0
  {
    hide Names.SuffixMatch;
    var init := Targeted(before[..n], after[..n], f);
    assert Targeted(before, after, f) ==
           init + if after[n].dstId.Some? && (f == AllEdges || Names.SuffixMatch(before[n].dstName, f.name)) then {n}
                  else {};
  }

  lemma WhereRetargets(g: Graph, f: Filter)
    requires Schema.Valid(g)
    ensures PassedOver(g.symbols, g.edges, ResolveWhere(g, f).edges, f)
  {
    hide ResolveEdge, Retargeted, Names.SuffixMatch;
    forall e ensures Retargeted(g.symbols, e, ResolveEdge(g.symbols, e)) { ResolvingRetargets(g.symbols, e); }
  }

  lemma NamesRetarget(g: Graph, names: seq<string>)
    requires Schema.Valid(g)
    ensures PassedOverNames(g.symbols, g.edges, ResolveNames(g, NameSet(names)).edges, names)
  {
    hide ResolveEdge, Retargeted, Names.SuffixMatch;
    forall e ensures Retargeted(g.symbols, e, ResolveEdge(g.symbols, e)) { ResolvingRetargets(g.symbols, e); }
  }

  function GenerationIn(meta: map<string, string>): nat {
    if "index_generation" !in meta then 0
    else match Decimal.ParseU64(meta["index_generation"]) case Some(n) => n case None => 0
  }

  const SCHEMA_VERSION := "5"

  /** The tables a database file holds. */
  datatype Saved = Saved(graph: Graph, shelf: Shelf, meta: map<string, string>)

  /** A file that is there, can be read, and was written under this build's schema. */
  predicate Usable(found: Option<Saved>) {
    && found.Some?
    && "schema_version" in found.value.meta
    && found.value.meta["schema_version"] == SCHEMA_VERSION
  }

  ghost predicate SavedValid(saved: Saved, blake3: string -> nat) {
    && Schema.Valid(saved.graph) && ChunksValid(saved.graph.files, saved.shelf.chunks, blake3)
    && ChunkSymbolsHeld(saved.graph.symbols, saved.shelf.chunks)
  }

  /** The model that meta says the vectors are from. */
  predicate Recorded(meta: map<string, string>, modelId: string, dim: nat) {
    && "model_id" in meta && meta["model_id"] == modelId
    && "model_dim" in meta && meta["model_dim"] == Decimal.Print(dim)
  }

  lemma RecordedMeans(meta: map<string, string>, modelId: string, dim: nat)
    ensures Recorded(meta, modelId, dim) <==>
            "model_id" in meta && meta["model_id"] == modelId
            && "model_dim" in meta && meta["model_dim"] == Decimal.Print(dim)
  {
  }

  ghost predicate SameButModel(before: map<string, string>, after: map<string, string>) {
    after - {"model_id", "model_dim", "index_generation"} == before - {"model_id", "model_dim", "index_generation"}
  }

  lemma SameMeta(meta: map<string, string>)
    ensures SameButModel(meta, meta)
  {
  }

  function BumpedMeta(meta: map<string, string>): map<string, string> {
    meta["index_generation" := Decimal.Print(GenerationIn(meta) + 1)]
  }

  lemma BumpCounts(meta: map<string, string>)
    ensures GenerationIn(meta) + 1 < Decimal.U64_LIMIT ==> GenerationIn(BumpedMeta(meta)) == GenerationIn(meta) + 1
  {
    Decimal.ParsePrinted(GenerationIn(meta) + 1);
  }

  lemma FirstGeneration(meta: map<string, string>)
    ensures "index_generation" !in meta ==> Decimal.Print(GenerationIn(meta) + 1) == "1"
  {
  }

  lemma BumpKeepsModel(before: map<string, string>, meta: map<string, string>, modelId: string, dim: nat)
    requires Recorded(meta, modelId, dim) && SameButModel(before, meta)
    ensures Recorded(BumpedMeta(meta), modelId, dim) && SameButModel(before, BumpedMeta(meta))
  {
    hide GenerationIn, Decimal.Print;
  }

  function ModelMeta(meta: map<string, string>, modelId: string, dim: nat): map<string, string> {
    meta["model_id" := modelId]["model_dim" := Decimal.Print(dim)]
  }

  /** A model recorded and announced. */
  lemma ModelChanged(meta: map<string, string>, modelId: string, dim: nat)
    ensures var after := BumpedMeta(ModelMeta(meta, modelId, dim));
            && Recorded(after, modelId, dim) && SameButModel(meta, after)
            && (GenerationIn(meta) + 1 < Decimal.U64_LIMIT ==> GenerationIn(after) == GenerationIn(meta) + 1)
  {
    hide GenerationIn, Decimal.Print, BumpedMeta;
    OtherKeys(meta, "model_id", modelId);
    OtherKeys(meta["model_id" := modelId], "model_dim", Decimal.Print(dim));
    BumpCounts(ModelMeta(meta, modelId, dim));
    BumpKeepsModel(meta, ModelMeta(meta, modelId, dim), modelId, dim);
  }

  lemma OtherKeys(meta: map<string, string>, key: string, value: string)
    requires key != "index_generation"
    ensures GenerationIn(meta[key := value]) == GenerationIn(meta) == GenerationIn(meta - {key})
  {
  }

  class Store {
    const vecAvailable: bool
    const blake3: string -> nat
    var files: seq<FileRow>
    var symbols: seq<SymbolRow>
    var edges: seq<EdgeRow>
    var chunks: seq<ChunkRow>
    var vecTable: Option<map<nat, Vector>>
    var meta: map<string, string>
    var vecTableCached: Option<bool>

    ghost function G(): Graph
      reads this
    {
      Graph(files, symbols, edges)
    }

    ghost function V(): Shelf
      reads this
    {
      Shelf(chunks, vecTable)
    }

    /** Table integrity; and the cache, when filled, tells the truth to the one connection that alters the schema. */
    ghost predicate Valid()
      reads this
    {
      && Schema.Valid(G())
      && ChunksValid(files, chunks, blake3) && ChunkSymbolsHeld(symbols, chunks)
      && (vecTableCached.Some? ==> vecTableCached.value == vecTable.Some?)
    }

    /** Opens a database: tables of this build's schema are taken over as they stand, anything else makes way. */
    constructor (vecAvailable: bool, blake3: string -> nat, found: Option<Saved>)
      requires Usable(found) ==> SavedValid(found.value, blake3)
      ensures Valid() && vecTableCached.None? && this.vecAvailable == vecAvailable && this.blake3 == blake3
      ensures if found.Some? && "schema_version" in found.value.meta && found.value.meta["schema_version"] == "5" then
                G() == found.value.graph && V() == found.value.shelf && meta == found.value.meta
              else G() == Graph([], [], []) && V() == Shelf([], None) && meta == map["schema_version" := "5"]
    {
      this.vecAvailable, this.blake3, vecTableCached := vecAvailable, blake3, None;
      if Usable(found) {
        files, symbols, edges := found.value.graph.files, found.value.graph.symbols, found.value.graph.edges;
        chunks, vecTable, meta := found.value.shelf.chunks, found.value.shelf.table, found.value.meta;
      } else {
        files, symbols, edges, chunks, vecTable := [], [], [], [], None;
        meta := map["schema_version" := SCHEMA_VERSION];
      }
    }

    // ---- meta ----

    method SetMeta(key: string, value: string)
      modifies this`meta
      ensures meta == old(meta)[key := value]
    {
      meta := meta[key := value];
    }

    method DeleteMeta(key: string)
      modifies this`meta
      ensures meta == old(meta) - {key}
    {
      meta := meta - {key};
    }

    /** One more than before, for as long as the counter fits its 64 bits. */
    method BumpGeneration()
      modifies this`meta
      ensures meta == BumpedMeta(old(meta))
      ensures "index_generation" !in old(meta) ==> meta == old(meta)["index_generation" := "1"]
      ensures old(GenerationIn(meta)) + 1 < Decimal.U64_LIMIT ==> GenerationIn(meta) == old(GenerationIn(meta)) + 1
    {
      hide GenerationIn, Decimal.Print;
      BumpCounts(meta);
      FirstGeneration(meta);
      var next := GenerationIn(meta) + 1;
      SetMeta("index_generation", Decimal.Print(next));
    }

    // ---- vector table ----

    method VecTableExists() returns (exists_: bool)
      requires Valid()
      modifies this`vecTableCached
      ensures Valid() && exists_ == vecTable.Some? && vecTableCached == Some(exists_)
    {
      if vecTableCached.None? {
        vecTableCached := Some(vecTable.Some?);
      }
      exists_ := vecTableCached.value;
    }

    method EnsureVecTable()
      requires Valid()
      modifies this`vecTable, this`vecTableCached
      ensures Valid()
      ensures V() == if vecAvailable then EnsureTable(old(V())) else old(V())
    {
      if !vecAvailable { return; }
      var present := VecTableExists();
      if present { return; }
      vecTable := Some(map[]);
      vecTableCached := Some(true);
    }

    /** Wipes on a change of model; otherwise only makes sure the table is there. A new table is announced. */
    method SetModel(modelId: string, dim: nat) returns (wiped: bool)
      requires Valid()
      modifies this
      ensures Valid() && G() == old(G())
      ensures wiped == !Recorded(old(meta), modelId, dim)
      ensures !wiped <==> "model_id" in old(meta) && old(meta)["model_id"] == modelId
                          && "model_dim" in old(meta) && old(meta)["model_dim"] == Decimal.Print(dim)
      ensures V() == if wiped then Wipe(old(V()), vecAvailable)
                     else if vecAvailable then EnsureTable(old(V())) else old(V())
      ensures if wiped then FlagsDropped(old(chunks), chunks) else chunks == old(chunks)
      ensures vecTable == if vecAvailable && (wiped || old(vecTable).None?) then Some(map[])
                          else if wiped then None else old(vecTable)
      ensures Recorded(meta, modelId, dim) && SameButModel(old(meta), meta)
      ensures old(GenerationIn(meta)) + 1 < Decimal.U64_LIMIT ==>
                GenerationIn(meta) ==
                old(GenerationIn(meta)) + (if wiped || vecTable.Some? != old(vecTable.Some?) then 1 else 0)
    {
      RecordedMeans(meta, modelId, dim);
      hide Schema.Valid, ChunksValid, ChunkSymbolsHeld, GenerationIn, Decimal.Print, Recorded, SameButModel, BumpedMeta;
      if Recorded(meta, modelId, dim) {
        SameMeta(meta);
        BumpKeepsModel(meta, meta, modelId, dim);
        var existed := VecTableExists();
        EnsureVecTable();
        var present := VecTableExists();
        if !existed && present {
          BumpGeneration();
        }
        return false;
      }
      ModelChanged(meta, modelId, dim);
      FlaggingIsValid(files, chunks, {}, blake3);
      WipeEffect(V(), vecAvailable);
      HeldAfterFlagging(symbols, chunks, Unflag(chunks));
      vecTable := None;
      chunks := Unflag(chunks);
      if vecAvailable {
        vecTable := Some(map[]);
      }
      SetMeta("model_id", modelId);
      SetMeta("model_dim", Decimal.Print(dim));
      vecTableCached := Some(vecAvailable);
      BumpGeneration();
      return true;
    }

    /** The rows go in together with their flags; the table appears first when it is missing. */
    method PutEmbeddings(rows: seq<(nat, Vector)>)
      requires Valid()
      modifies this`chunks, this`vecTable, this`vecTableCached
      ensures Valid()
      ensures V() == if vecAvailable then Put(old(V()), rows) else old(V())
      ensures vecAvailable ==> FlagsAdded(old(chunks), chunks, rows) && Written(old(vecTable), vecTable, rows)
    {
      hide Schema.Valid, ChunksValid, ChunkSymbolsHeld, FlagsAdded, Written, Flag, RowIds, Upsert;
      PutEffect(V(), rows);
      if !vecAvailable || rows == [] { return; }
      var present := VecTableExists();
      if !present {
        EnsureVecTable();
      }
      FlaggingIsValid(files, chunks, RowIds(rows), blake3);
      ghost var before := if old(vecTable).Some? then old(vecTable).value else map[];
      var table, marked := vecTable.value, chunks;
      NothingPut(chunks, before);
      assert rows[..0] == [];
      for i := 0 to |rows|
        modifies {}
        invariant table == Upsert(before, rows[..i])
        invariant marked == Flag(chunks, RowIds(rows[..i]))
      {
        PutOneMore(chunks, before, rows, i);
        table := table[rows[i].0 := rows[i].1];
        marked := Flag(marked, {rows[i].0});
      }
      assert rows[..|rows|] == rows;
      HeldAfterFlag(symbols, chunks, RowIds(rows));
      vecTable := Some(table);
      chunks := marked;
    }

    // ---- files ----

    /** The old rows go with everything that hangs off them, the new ones come in, or nothing changes at all. */
    method ReplaceFile(path: string, lang: string, hash: nat, idx: FileIndex)
      returns (r: Result<(nat, seq<string>), Error>)
      requires Valid()
      modifies this`files, this`symbols, this`edges, this`chunks, this`vecTable
      ensures Valid()
      ensures !WellFormed(idx) ==> r == Err(BadIndex) && G() == old(G()) && V() == old(V())
      ensures WellFormed(idx) ==>
                && r.Ok? && r.value.0 == NextFileId(DeleteFile(old(G()), path).files)
                && G() == InsertFile(DeleteFile(old(G()), path), path, lang, hash, idx)
                && V() == ReplaceShelf(old(G()), old(V()), path, idx.chunks, vecAvailable, blake3)
                && FileReplaced(old(G()), old(V()), G(), V(), path, lang, hash, idx, vecAvailable, blake3)
                && (forall n :: n in r.value.1 <==> n in NamesIn(old(G()), path) + BatchNames(idx))
                && (forall n :: n in r.value.1 <==> NamedThere(old(G()), path, idx, n))
                && (forall i, j :: 0 <= i < j < |r.value.1| ==> r.value.1[i] != r.value.1[j])
    {
      hide Schema.Valid, ChunksValid, FileByPath, SymbolNames, DropPath, DeleteFile, NamesIn, ParentsPrecede,
           EdgesInside, ChunksInside, NewSymbolRows, NewEdgeRows, NewChunkRows, NextFileId, NextSymbolId, NextEdgeId,
           BatchNames, BatchNameList, FileReplaced, NamedThere, ChunkSymbolsHeld;
      var g := Graph(files, symbols, edges);
      var oldNames := SymbolNames(g, path);
      var shelf := DropPath(g, Shelf(chunks, vecTable), path, vecAvailable);
      var left := DeleteFile(g, path);
      DropKeepsTable(g, Shelf(chunks, vecTable), path, vecAvailable);
      DeleteIsValid(g, path);
      ReplacedChunksValid(g, chunks, path, vecAvailable, vecTable, blake3);

      var f := FileRow(NextFileId(left.files), path, lang, hash);
      var symbolRows, ids := InsertSymbols(left.symbols, idx.symbols, f.id);
      if symbolRows.Err? { return Err(BadIndex); }
      var edgeRows := InsertEdges(left.edges, idx.edges, ids, NextSymbolId(left.symbols));
      if edgeRows.Err? { return Err(BadIndex); }
      var newShelf := InsertChunks(shelf, idx.chunks, f.id, ids, NextSymbolId(left.symbols), blake3);
      if newShelf.Err? { return Err(BadIndex); }

      ValidChunksAscend(files, chunks, blake3);
      ReplacementEffect(g, V(), path, lang, hash, idx, vecAvailable, blake3);
      HeldAfterDropping(g, V(), path, vecAvailable);
      HeldAfterAdding(left, shelf, path, lang, hash, idx, blake3);
      InsertIsValid(left, path, lang, hash, idx);
      AddedChunksValid(left.files, shelf, f, idx.chunks, NextSymbolId(left.symbols), blake3);
      files, symbols, edges := left.files + [f], symbolRows.value, edgeRows.value;
      chunks, vecTable := newShelf.value.chunks, newShelf.value.table;

      var touched := Distinct(oldNames + BatchNameList(idx.symbols));
      BatchNamesListed(idx);
      forall n ensures n in touched <==> NamedThere(g, path, idx, n) { NamesAre(g, path, idx, n); }
      return Ok((f.id, touched));
    }

    method RemoveFile(path: string) returns (existed: bool)
      requires Valid()
      modifies this`files, this`symbols, this`edges, this`chunks, this`vecTable
      ensures Valid()
      ensures existed == FileByPath(old(files), path).Some?
      ensures G() == DeleteFile(old(G()), path) && V() == DropPath(old(G()), old(V()), path, vecAvailable)
      ensures FileGone(old(G()), G(), path) && ChunksGone(old(files), old(V()), V(), path, vecAvailable)
    {
      hide Schema.Valid, ChunksValid, ChunkSymbolsHeld, FileByPath, DeleteFile, DropPath, FileGone, ChunksGone;
      var g := Graph(files, symbols, edges);
      var shelf := DropPath(g, Shelf(chunks, vecTable), path, vecAvailable);
      var left := DeleteFile(g, path);
      DropKeepsTable(g, Shelf(chunks, vecTable), path, vecAvailable);
      DeleteIsValid(g, path);
      ReplacedChunksValid(g, chunks, path, vecAvailable, vecTable, blake3);
      ValidChunksAscend(files, chunks, blake3);
      DeletionEffect(g, path);
      DropEffect(g, V(), path, vecAvailable);
      HeldAfterDropping(g, V(), path, vecAvailable);
      existed := FileByPath(files, path).Some?;
      files, symbols, edges := left.files, left.symbols, left.edges;
      chunks, vecTable := shelf.chunks, shelf.table;
    }

    // ---- resolving ----

    /** Rewrites every selected edge with the chooser's answer, found or not. */
    method ResolveSelected(f: Filter) returns (updated: nat)
      requires Valid()
      modifies this`edges
      ensures Valid() && G() == ResolveWhere(old(G()), f)
      ensures PassedOver(symbols, old(edges), edges, f)
      ensures updated == Hits(symbols, old(edges), f) == |Targeted(old(edges), edges, f)|
    {
      hide Schema.Valid, ChunksValid, ChunkSymbolsHeld, ResolveEdge, Hits, PassedOver, Targeted;
      WhereRetargets(G(), f);
      updated := 0;
      var rows := edges;
      assert edges[..0] == [] && Hits(symbols, [], f) == 0 by { NoHits(symbols, f); }
      for i := 0 to |rows|
        modifies {}
        invariant |rows| == |edges|
        invariant forall k :: 0 <= k < |rows| ==> rows[k] == if k < i then Passed(symbols, f, edges[k]) else edges[k]
        invariant updated == Hits(symbols, edges[..i], f)
      {
        HitsOneMore(symbols, edges, f, i);
        if Selects(f, rows[i]) {
          var e := ResolveEdge(symbols, rows[i]);
          rows := rows[i := e];
          if e.dstId.Some? { updated := updated + 1; }
        }
      }
      assert edges[..|edges|] == edges;
      assert rows == ResolveWhere(G(), f).edges;
      HitsAreTargeted(symbols, edges, rows, f);
      RewriteIsValid(G(), rows);
      edges := rows;
    }

    method ResolveAllEdges() returns (updated: nat)
      requires Valid()
      modifies this`edges
      ensures Valid() && G() == ResolveAll(old(G()))
      ensures |edges| == |old(edges)| && forall k :: 0 <= k < |edges| ==> Retargeted(symbols, old(edges)[k], edges[k])
    {
      hide Schema.Valid, ChunksValid, ChunkSymbolsHeld, ResolveEdge, Retargeted;
      updated := ResolveSelected(AllEdges);
    }

    /** One pass per name; together they rewrite exactly the edges some name matches. */
    method ResolveEdgesForNames(names: seq<string>) returns (total: nat)
      requires Valid()
      modifies this`edges
      ensures Valid() && G() == ResolveNames(old(G()), NameSet(names))
      ensures PassedOverNames(symbols, old(edges), edges, names)
      ensures total == TotalHits(symbols, old(edges), names)
    {
      hide Schema.Valid, ChunksValid, ChunkSymbolsHeld, ResolveEdge, Hits, PassedOver, PassedOverNames;
      NamesRetarget(G(), names);
      total := 0;
      ghost var g := G();
      for i := 0 to |names|
        invariant Valid() && G() == ResolveNames(g, NameSet(names[..i]))
        invariant files == old(files) && symbols == old(symbols)
        invariant total == TotalHits(symbols, g.edges, names[..i])
      {
        ghost var before := G();
        HitsUnchanged(symbols, g.edges, before.edges, ByName(names[i]));
        var updated := ResolveSelected(ByName(names[i]));
        ResolveOneMore(g, names, i);
        assert names[..i + 1][..i] == names[..i];
        total := total + updated;
      }
      assert names[..|names|] == names;
    }
  }

  lemma ResolveTwice(symbols: seq<SymbolRow>, e: EdgeRow)
    ensures ResolveEdge(symbols, ResolveEdge(symbols, e)) == ResolveEdge(symbols, e)
  {
  }

  lemma ResolveOneMore(g: Graph, names: seq<string>, i: nat)
    requires i < |names|
    ensures ResolveWhere(ResolveNames(g, NameSet(names[..i])), ByName(names[i])) ==
            ResolveNames(g, NameSet(names[..i + 1]))
  {
    hide Choose;
    var sofar, next := NameSet(names[..i]), NameSet(names[..i + 1]);
    assert next == sofar + {names[i]} by { assert names[..i + 1] == names[..i] + [names[i]]; }
    forall k | 0 <= k < |g.edges|
      ensures ResolveWhere(ResolveNames(g, sofar), ByName(names[i])).edges[k] == ResolveNames(g, next).edges[k]
    {
      var e := g.edges[k];
      ResolveTwice(g.symbols, e);
      MatchesUnion(e, sofar, {names[i]});
      assert Matches(e, {names[i]}) == Selects(ByName(names[i]), e);
    }
  }
}
