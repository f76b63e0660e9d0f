/**
 Incremental edge resolution as a step on the graph tables, and what any run of steps leaves behind
 compared with resolving every edge again.
 */
module Incremental {
  import opened Wrappers
  import opened Sequences
  import opened Schema
  import opened Resolver
  import Names

  // ---- rewriting edges ----

  function WithChoice(e: EdgeRow, c: Choice): EdgeRow { e.(dstId := c.dstId, confidence := c.confidence) }

  function CallFrom(src: SymbolRow, e: EdgeRow): Call { Call(src.fileId, e.dstName, e.dstArity) }

  /** The row a full resolve would leave for `e`. */
  function ResolveEdge(symbols: seq<SymbolRow>, e: EdgeRow): EdgeRow {
    match SymbolById(symbols, e.srcId)
    case Some(src) => WithChoice(e, Choose(symbols, CallFrom(src, e)))
    case None => e
  }

  predicate Matches(e: EdgeRow, names: set<string>) {
    exists n :: n in names && Names.SuffixMatch(e.dstName, n)
  }

  function ResolveAll(g: Graph): Graph {
    g.(edges := seq(|g.edges|, i requires 0 <= i < |g.edges| => ResolveEdge(g.symbols, g.edges[i])))
  }

  function ResolveNames(g: Graph, names: set<string>): Graph {
    g.(edges := seq(|g.edges|, i requires 0 <= i < |g.edges| =>
                      if Matches(g.edges[i], names) then ResolveEdge(g.symbols, g.edges[i]) else g.edges[i]))
  }

  // ---- one file at a time ----

  /** How a path looks on disk; `parsed` is None when the parser panics. */
  datatype Content =
    | Missing
    | Unsupported
    | Unreadable
    | Source(lang: string, hash: nat, parsed: Option<FileIndex>)

  datatype Event = Event(path: string, content: Content)

  function BatchNames(idx: FileIndex): set<string> { set s | s in idx.symbols :: s.name }

  function NamesIn(g: Graph, path: string): set<string> {
    match FileByPath(g.files, path)
    case Some(f) => set s | s in g.symbols && s.fileId == f.id :: s.name
    case None => {}
  }

  predicate Replaces(g: Graph, ev: Event) {
    && ev.content.Source? && FileHash(g, ev.path) != Some(ev.content.hash)
    && ev.content.parsed.Some? && WellFormed(ev.content.parsed.value)
  }

  predicate Removes(g: Graph, ev: Event) {
    (ev.content.Missing? || ev.content.Unsupported?) && FileHash(g, ev.path).Some?
  }

  /** The names a step re-resolves: what the file defined before and what it defines now. */
  function Touched(g: Graph, ev: Event): set<string> {
    if Replaces(g, ev) then NamesIn(g, ev.path) + BatchNames(ev.content.parsed.value)
    else if Removes(g, ev) then NamesIn(g, ev.path)
    else {}
  }

  function Rewritten(g: Graph, ev: Event): Graph {
    if Replaces(g, ev) then
      InsertFile(DeleteFile(g, ev.path), ev.path, ev.content.lang, ev.content.hash, ev.content.parsed.value)
    else if Removes(g, ev) then DeleteFile(g, ev.path)
    else g
  }

  function Step(g: Graph, ev: Event): Graph {
    if Replaces(g, ev) || Removes(g, ev) then ResolveNames(Rewritten(g, ev), Touched(g, ev)) else g
  }

  function Run(g: Graph, events: seq<Event>): Graph {
    if events == [] then g else Step(Run(g, events[..|events| - 1]), events[|events| - 1])
  }

  /** The names re-resolved since the run last replaced `path`; None when it never did. */
  function TouchedSince(g: Graph, events: seq<Event>, path: string): Option<set<string>> {
    if events == [] then None
    else
      var before, ev := Run(g, events[..|events| - 1]), events[|events| - 1];
      if Replaces(before, ev) && ev.path == path then Some(Touched(before, ev))
      else Later(TouchedSince(g, events[..|events| - 1], path), Touched(before, ev))
  }

  function Later(since: Option<set<string>>, names: set<string>): Option<set<string>> {
    if since.Some? then Some(since.value + names) else None
  }

  /** Resolved as of now, unless the edge is newer than every re-resolve of its name. */
  function Expected(symbols: seq<SymbolRow>, e: EdgeRow, since: Option<set<string>>): EdgeRow {
    if since.Some? && !Matches(e, since.value) then WithChoice(e, Unresolved) else ResolveEdge(symbols, e)
  }

  // ---- integrity is kept ----

  lemma SymbolKept(symbols: seq<SymbolRow>, fileId: nat, id: nat)
    requires SymbolIdsAscend(symbols)
    ensures SymbolById(OutsideFile(symbols, fileId), id) ==
            match SymbolById(symbols, id) {
              case Some(s) => if s.fileId != fileId then Some(s) else None
              case None => None
            }
  {
    KeepOrder(symbols, (s: SymbolRow) => s.fileId != fileId, (a: SymbolRow, b: SymbolRow) => a.id < b.id);
    match SymbolById(symbols, id)
    case Some(s) => if s.fileId != fileId { SymbolByIdUnique(OutsideFile(symbols, fileId), s); }
    case None =>
  }

  lemma FilesKept(files: seq<FileRow>, path: string)
    requires FileIdsAscend(files) && PathsUnique(files)
    ensures var left := Keep(files, (x: FileRow) => x.path != path);
            FileIdsAscend(left) && PathsUnique(left) && FileByPath(left, path).None?
  {
    var keep := (x: FileRow) => x.path != path;
    KeepOrder(files, keep, (a: FileRow, b: FileRow) => a.id < b.id);
    KeepOrder(files, keep, (a: FileRow, b: FileRow) => a.path != b.path);
  }

  /** A row of another file: it survives the deletion, perhaps without its target. */
  ghost predicate Survivor(edges: seq<EdgeRow>, left: seq<SymbolRow>, was: EdgeRow, e: EdgeRow) {
    was in edges && SymbolById(left, was.srcId).Some? && e == CutTarget(was, left)
  }

  lemma CascadeRows(edges: seq<EdgeRow>, left: seq<SymbolRow>)
    requires EdgeIdsAscend(edges)
    ensures EdgeIdsAscend(CascadeEdges(edges, left))
    ensures forall e :: e in CascadeEdges(edges, left) ==> SymbolById(left, e.srcId).Some?
    ensures forall e :: e in CascadeEdges(edges, left) && e.dstId.Some? ==> SymbolById(left, e.dstId.value).Some?
    ensures forall e :: e in CascadeEdges(edges, left) ==> exists was :: Survivor(edges, left, was, e)
  {
    var live := (e: EdgeRow) => SymbolById(left, e.srcId).Some?;
    var kept := Keep(edges, live);
    KeepOrder(edges, live, (a: EdgeRow, b: EdgeRow) => a.id < b.id);
    forall e | e in CascadeEdges(edges, left)
      ensures SymbolById(left, e.srcId).Some?
      ensures e.dstId.Some? ==> SymbolById(left, e.dstId.value).Some?
      ensures exists was :: Survivor(edges, left, was, e)
    {
      var i :| 0 <= i < |kept| && e == CutTarget(kept[i], left);
      assert kept[i] in kept;
      assert Survivor(edges, left, kept[i], e);
    }
  }

  /** A file goes with all its symbols, so no symbol left loses its parent. */
  lemma ParentsKept(symbols: seq<SymbolRow>, fileId: nat)
    requires SymbolIdsAscend(symbols) && ParentsHeld(symbols)
    ensures ParentsHeld(OutsideFile(symbols, fileId))
  {
    hide SymbolById;
    var left := OutsideFile(symbols, fileId);
    forall s | s in left ensures ParentHeld(left, s) {
      assert ParentHeld(symbols, s);
      if s.parent.Some? { SymbolKept(symbols, fileId, s.parent.value); }
    }
  }

  lemma DeleteIsValid(g: Graph, path: string)
    requires Valid(g)
    ensures Valid(DeleteFile(g, path))
    ensures FileByPath(DeleteFile(g, path).files, path).None?
  {
    match FileByPath(g.files, path)
    case None =>
    case Some(f) =>
      var left := OutsideFile(g.symbols, f.id);
      var files := DeleteFile(g, path).files;
      FilesKept(g.files, path);
      KeepOrder(g.symbols, (s: SymbolRow) => s.fileId != f.id, (a: SymbolRow, b: SymbolRow) => a.id < b.id);
      CascadeRows(g.edges, left);
      ParentsKept(g.symbols, f.id);
      forall s | s in left ensures FileById(files, s.fileId).Some? {
        var x := FileById(g.files, s.fileId).value;
        FileByPathUnique(g.files, f);
        FileByPathUnique(g.files, x);
        assert x in files;
      }
  }

  /** Old symbols keep their rows and ids when a batch is inserted behind them. */
  lemma SymbolsAppended(symbols: seq<SymbolRow>, batch: seq<NewSymbol>, fileId: nat)
    requires SymbolIdsAscend(symbols)
    ensures SymbolIdsAscend(symbols + NewSymbolRows(batch, fileId, NextSymbolId(symbols)))
  {
    var all := symbols + NewSymbolRows(batch, fileId, NextSymbolId(symbols));
    forall i, j | 0 <= i < j < |all| ensures all[i].id < all[j].id {
      if i < |symbols| <= j {
        assert symbols[i].id <= symbols[|symbols| - 1].id;
      }
    }
  }

  lemma AppendedSymbol(symbols: seq<SymbolRow>, batch: seq<NewSymbol>, fileId: nat, i: nat)
    requires SymbolIdsAscend(symbols) && i < |batch|
    ensures var base := NextSymbolId(symbols);
            SymbolById(symbols + NewSymbolRows(batch, fileId, base), base + i) ==
              Some(SymbolRowOf(batch[i], i, fileId, base))
  {
    var base := NextSymbolId(symbols);
    var all := symbols + NewSymbolRows(batch, fileId, base);
    SymbolsAppended(symbols, batch, fileId);
    assert all[|symbols| + i] == SymbolRowOf(batch[i], i, fileId, base);
    SymbolByIdUnique(all, all[|symbols| + i]);
  }

  lemma AppendedKeepsOld(symbols: seq<SymbolRow>, batch: seq<NewSymbol>, fileId: nat, id: nat)
    requires SymbolIdsAscend(symbols) && SymbolById(symbols, id).Some?
    ensures SymbolById(symbols + NewSymbolRows(batch, fileId, NextSymbolId(symbols)), id) == SymbolById(symbols, id)
  {
    var all := symbols + NewSymbolRows(batch, fileId, NextSymbolId(symbols));
    SymbolsAppended(symbols, batch, fileId);
    hide SymbolById, NewSymbolRows;
    assert SymbolById(symbols, id).value in all;
    SymbolByIdUnique(all, SymbolById(symbols, id).value);
  }

  /** Every parent of the batch is in the batch, earlier. */
  lemma ParentsAppended(symbols: seq<SymbolRow>, batch: seq<NewSymbol>, fileId: nat)
    requires SymbolIdsAscend(symbols) && ParentsHeld(symbols) && ParentsPrecede(batch)
    ensures ParentsHeld(symbols + NewSymbolRows(batch, fileId, NextSymbolId(symbols)))
  {
    var base := NextSymbolId(symbols);
    var added := NewSymbolRows(batch, fileId, base);
    hide SymbolById, NextSymbolId;
    forall s | s in symbols + added ensures ParentHeld(symbols + added, s) {
      if s in symbols {
        assert ParentHeld(symbols, s);
        if s.parent.Some? { AppendedKeepsOld(symbols, batch, fileId, s.parent.value); }
      } else {
        var i :| 0 <= i < |batch| && s == SymbolRowOf(batch[i], i, fileId, base);
        if s.parent.Some? { AppendedSymbol(symbols, batch, fileId, batch[i].parent.value); }
      }
    }
  }

  lemma FilesAppended(files: seq<FileRow>, f: FileRow)
    requires FileIdsAscend(files) && PathsUnique(files)
    requires FileByPath(files, f.path).None? && f.id == NextFileId(files)
    ensures FileIdsAscend(files + [f]) && PathsUnique(files + [f])
    ensures forall x :: x in files + [f] ==> FileById(files + [f], x.id) == Some(x)
    ensures forall x :: x in files + [f] ==> FileByPath(files + [f], x.path) == Some(x)
  {
    FileKeysAppended(files, f);
    hide FileIdsAscend, PathsUnique, FileById, FileByPath;
    var all := files + [f];
    forall x | x in all ensures FileById(all, x.id) == Some(x) && FileByPath(all, x.path) == Some(x) {
      FileByIdUnique(all, x);
      FileByPathUnique(all, x);
    }
  }

  lemma FileKeysAppended(files: seq<FileRow>, f: FileRow)
    requires FileIdsAscend(files) && PathsUnique(files)
    requires FileByPath(files, f.path).None? && f.id == NextFileId(files)
    ensures FileIdsAscend(files + [f]) && PathsUnique(files + [f])
  {
    forall i | 0 <= i < |files| ensures files[i].id < f.id && files[i].path != f.path {
      assert files[i] in files && files[i].id <= files[|files| - 1].id;
    }
  }

  lemma EdgesAppended(edges: seq<EdgeRow>, batch: seq<NewEdge>, symbolBase: nat)
    requires EdgeIdsAscend(edges)
    ensures EdgeIdsAscend(edges + NewEdgeRows(batch, symbolBase, NextEdgeId(edges)))
  {
    var all := edges + NewEdgeRows(batch, symbolBase, NextEdgeId(edges));
    forall i, j | 0 <= i < j < |all| ensures all[i].id < all[j].id {
      if i < |edges| <= j {
        assert edges[i].id <= edges[|edges| - 1].id;
      }
    }
  }

  lemma OldTargetsKept(symbols: seq<SymbolRow>, added: seq<SymbolRow>, id: nat)
    requires SymbolById(symbols, id).Some?
    ensures SymbolById(symbols + added, id).Some?
  {
    assert SymbolById(symbols, id).value in symbols + added;
  }

  lemma NewEdgeSources(symbols: seq<SymbolRow>, idx: FileIndex, fileId: nat, ebase: nat, e: EdgeRow)
    requires SymbolIdsAscend(symbols) && WellFormed(idx)
    requires e in NewEdgeRows(idx.edges, NextSymbolId(symbols), ebase)
    ensures e == WithChoice(e, Unresolved)
    ensures var src := SymbolById(symbols + NewSymbolRows(idx.symbols, fileId, NextSymbolId(symbols)), e.srcId);
            src.Some? && src.value.fileId == fileId
  {
    hide SymbolById, NextSymbolId, NewSymbolRows;
    var i :| 0 <= i < |idx.edges| && e == EdgeRowOf(idx.edges[i], i, NextSymbolId(symbols), ebase);
    assert idx.edges[i] in idx.edges;
    AppendedSymbol(symbols, idx.symbols, fileId, idx.edges[i].src);
  }

  lemma AppendedEdgeTargets(symbols: seq<SymbolRow>, edges: seq<EdgeRow>, idx: FileIndex, fileId: nat, ebase: nat)
    requires SymbolIdsAscend(symbols) && WellFormed(idx)
    requires forall e :: e in edges ==> SymbolById(symbols, e.srcId).Some?
    requires forall e :: e in edges && e.dstId.Some? ==> SymbolById(symbols, e.dstId.value).Some?
    ensures var base := NextSymbolId(symbols);
            var all := symbols + NewSymbolRows(idx.symbols, fileId, base);
            forall e :: e in edges + NewEdgeRows(idx.edges, base, ebase) ==>
              && SymbolById(all, e.srcId).Some?
              && (e.dstId.Some? ==> SymbolById(all, e.dstId.value).Some?)
  {
    var base := NextSymbolId(symbols);
    var added := NewSymbolRows(idx.symbols, fileId, base);
    forall e | e in edges + NewEdgeRows(idx.edges, base, ebase)
      ensures SymbolById(symbols + added, e.srcId).Some?
      ensures e.dstId.Some? ==> SymbolById(symbols + added, e.dstId.value).Some?
    {
      if e in edges {
        OldTargetsKept(symbols, added, e.srcId);
        if e.dstId.Some? { OldTargetsKept(symbols, added, e.dstId.value); }
      } else {
        NewEdgeSources(symbols, idx, fileId, ebase, e);
      }
    }
  }

  lemma AppendedSymbolFiles(files: seq<FileRow>, symbols: seq<SymbolRow>, f: FileRow, batch: seq<NewSymbol>, base: nat)
    requires FileIdsAscend(files) && PathsUnique(files)
    requires FileByPath(files, f.path).None? && f.id == NextFileId(files)
    requires forall s :: s in symbols ==> FileById(files, s.fileId).Some?
    ensures forall s :: s in symbols + NewSymbolRows(batch, f.id, base) ==> FileById(files + [f], s.fileId).Some?
  {
    FilesAppended(files, f);
    forall s | s in symbols + NewSymbolRows(batch, f.id, base) ensures FileById(files + [f], s.fileId).Some? {
      if s in symbols {
        assert FileById(files, s.fileId).value in files + [f];
      } else {
        assert s.fileId == f.id && f in files + [f];
      }
    }
  }

  lemma InsertIsValid(g: Graph, path: string, lang: string, hash: nat, idx: FileIndex)
    requires Valid(g) && FileByPath(g.files, path).None? && WellFormed(idx)
    ensures Valid(InsertFile(g, path, lang, hash, idx))
  {
    var f, base := FileRow(NextFileId(g.files), path, lang, hash), NextSymbolId(g.symbols);
    FilesAppended(g.files, f);
    SymbolsAppended(g.symbols, idx.symbols, f.id);
    ParentsAppended(g.symbols, idx.symbols, f.id);
    EdgesAppended(g.edges, idx.edges, base);
    AppendedSymbolFiles(g.files, g.symbols, f, idx.symbols, base);
    AppendedEdgeTargets(g.symbols, g.edges, idx, f.id, NextEdgeId(g.edges));
  }

  lemma PickedFrom(cands: seq<SymbolRow>, call: Call)
    ensures Pick(cands, call).dstId.Some? ==> exists s :: s in cands && s.id == Pick(cands, call).dstId.value
  {
    var q, a, n := ByQualname(cands, call), ByArity(cands, call), ByName(cands, call);
    assert q.Some? ==> q.value in cands;
    assert a.Some? ==> a.value in cands;
    assert n.Some? ==> n.value in cands;
  }

  /** Any choice is a symbol of the table that bears the edge's last segment. */
  lemma ChoiceInTable(symbols: seq<SymbolRow>, call: Call)
    requires SymbolIdsAscend(symbols) && Choose(symbols, call).dstId.Some?
    ensures var target := SymbolById(symbols, Choose(symbols, call).dstId.value);
            target.Some? && target.value.name == Names.LastSegment(call.dstName)
  {
    CandidatesAreNamed(symbols, call);
    PickedFrom(Candidates(symbols, call), call);
    var s :| s in Candidates(symbols, call) && s.id == Choose(symbols, call).dstId.value;
    SymbolByIdUnique(symbols, s);
  }

  lemma ResolvedTarget(symbols: seq<SymbolRow>, e: EdgeRow)
    requires SymbolIdsAscend(symbols) && SymbolById(symbols, e.srcId).Some?
    requires ResolveEdge(symbols, e).dstId.Some?
    ensures var target := SymbolById(symbols, ResolveEdge(symbols, e).dstId.value);
            target.Some? && target.value.name == Names.LastSegment(e.dstName)
  {
    ChoiceInTable(symbols, CallFrom(SymbolById(symbols, e.srcId).value, e));
  }

  ghost predicate RewrittenRow(symbols: seq<SymbolRow>, from: EdgeRow, to: EdgeRow) {
    to == from || to == ResolveEdge(symbols, from)
  }

  lemma RewriteIsValid(g: Graph, edges: seq<EdgeRow>)
    requires Valid(g) && |edges| == |g.edges|
    requires forall i :: 0 <= i < |edges| ==> RewrittenRow(g.symbols, g.edges[i], edges[i])
    ensures Valid(g.(edges := edges))
  {
    forall i | 0 <= i < |edges|
      ensures edges[i].id == g.edges[i].id && SymbolById(g.symbols, edges[i].srcId).Some?
      ensures edges[i].dstId.Some? ==> SymbolById(g.symbols, edges[i].dstId.value).Some?
    {
      var e := g.edges[i];
      assert e in g.edges;
      if edges[i] != e && edges[i].dstId.Some? { ResolvedTarget(g.symbols, e); }
    }
  }

  lemma ResolveIsValid(g: Graph, names: set<string>)
    requires Valid(g)
    ensures Valid(ResolveNames(g, names)) && Valid(ResolveAll(g))
  {
    RewriteIsValid(g, ResolveNames(g, names).edges);
    RewriteIsValid(g, ResolveAll(g).edges);
  }

  lemma StepIsValid(g: Graph, ev: Event)
    requires Valid(g)
    ensures Valid(Rewritten(g, ev)) && Valid(Step(g, ev))
  {
    DeleteIsValid(g, ev.path);
    if Replaces(g, ev) {
      InsertIsValid(DeleteFile(g, ev.path), ev.path, ev.content.lang, ev.content.hash, ev.content.parsed.value);
    }
    ResolveIsValid(Rewritten(g, ev), Touched(g, ev));
  }

  lemma {:induction false} RunIsValid(g: Graph, events: seq<Event>)
    requires Valid(g)
    ensures Valid(Run(g, events))
  {
    if events != [] {
      RunIsValid(g, events[..|events| - 1]);
      StepIsValid(Run(g, events[..|events| - 1]), events[|events| - 1]);
    }
  }

  // ---- what a step does to one edge ----

  /** A table that changes only in rows named in `names` chooses alike for every other name. */
  lemma SameNamedSameChoice(before: seq<SymbolRow>, after: seq<SymbolRow>, call: Call)
    requires Named(before, Names.LastSegment(call.dstName)) == Named(after, Names.LastSegment(call.dstName))
    ensures Choose(before, call) == Choose(after, call)
  {
  }

  lemma NamedAfterDelete(symbols: seq<SymbolRow>, fileId: nat, name: string)
    requires forall s :: s in symbols && s.fileId == fileId ==> s.name != name
    ensures Named(OutsideFile(symbols, fileId), name) == Named(symbols, name)
  {
    KeepTwice(symbols, (s: SymbolRow) => s.fileId != fileId, (s: SymbolRow) => s.name == name,
              (s: SymbolRow) => s.name == name);
  }

  lemma NamedAfterInsert(symbols: seq<SymbolRow>, added: seq<SymbolRow>, name: string)
    requires forall s :: s in added ==> s.name != name
    ensures Named(symbols + added, name) == Named(symbols, name)
  {
    KeepConcat(symbols, added, (s: SymbolRow) => s.name == name);
    KeepNone(added, (s: SymbolRow) => s.name == name);
  }

  /** Names a step does not touch keep their symbols, row for row. */
  lemma NamedAfterStep(g: Graph, ev: Event, name: string)
    requires Valid(g) && name !in Touched(g, ev)
    requires Replaces(g, ev) || Removes(g, ev)
    ensures Named(Rewritten(g, ev).symbols, name) == Named(g.symbols, name)
  {
    match FileByPath(g.files, ev.path) {
      case Some(f) =>
        assert forall s :: s in g.symbols && s.fileId == f.id ==> s.name in NamesIn(g, ev.path);
        NamedAfterDelete(g.symbols, f.id, name);
      case None =>
    }
    if Replaces(g, ev) {
      var g1, idx := DeleteFile(g, ev.path), ev.content.parsed.value;
      var added := NewSymbolRows(idx.symbols, NextFileId(g1.files), NextSymbolId(g1.symbols));
      forall s | s in added ensures s.name in BatchNames(idx) {
        var i :| 0 <= i < |added| && added[i] == s;
        assert idx.symbols[i] in idx.symbols;
      }
      NamedAfterInsert(g1.symbols, added, name);
    }
  }

  lemma DeletedLookups(g: Graph, path: string, s: SymbolRow)
    requires Valid(g) && s in DeleteFile(g, path).symbols
    ensures SymbolById(g.symbols, s.id) == Some(s) && SymbolById(DeleteFile(g, path).symbols, s.id) == Some(s)
    ensures FileById(g.files, s.fileId).Some? && FileById(g.files, s.fileId).value.path != path
    ensures FileById(DeleteFile(g, path).files, s.fileId) == FileById(g.files, s.fileId)
  {
    DeleteIsValid(g, path);
    SymbolByIdUnique(g.symbols, s);
    SymbolByIdUnique(DeleteFile(g, path).symbols, s);
    var x := FileById(g.files, s.fileId).value;
    FileByPathUnique(g.files, x);
    assert x in DeleteFile(g, path).files;
    FileByIdUnique(DeleteFile(g, path).files, x);
  }

  /** Symbols outside the rewritten file keep their rows, and their files keep their paths. */
  lemma KeptLookups(g: Graph, ev: Event, s: SymbolRow)
    requires Valid(g) && s in DeleteFile(g, ev.path).symbols
    requires Replaces(g, ev) || Removes(g, ev)
    ensures SymbolById(g.symbols, s.id) == Some(s) && SymbolById(Rewritten(g, ev).symbols, s.id) == Some(s)
    ensures FileById(g.files, s.fileId).Some? && FileById(g.files, s.fileId).value.path != ev.path
    ensures FileById(Rewritten(g, ev).files, s.fileId) == FileById(g.files, s.fileId)
  {
    DeletedLookups(g, ev.path, s);
    if Replaces(g, ev) {
      StepIsValid(g, ev);
      var x := FileById(g.files, s.fileId).value;
      assert s in Rewritten(g, ev).symbols && x in Rewritten(g, ev).files;
      SymbolByIdUnique(Rewritten(g, ev).symbols, s);
      FileByIdUnique(Rewritten(g, ev).files, x);
    }
  }

  /** An edge of another file whose name the step touches is resolved as of now. */
  lemma TouchedEdge(g: Graph, ev: Event, was: EdgeRow, since: Option<set<string>>)
    requires Matches(was, Touched(g, ev))
    ensures var g2, names := Rewritten(g, ev), Touched(g, ev);
            var now := ResolveEdge(g2.symbols, CutTarget(was, DeleteFile(g, ev.path).symbols));
            now == Expected(g2.symbols, now, Later(since, names))
  {
  }

  /** Names a step leaves alone resolve as before. */
  lemma UntouchedChoice(g: Graph, ev: Event, was: EdgeRow)
    requires Valid(g) && (Replaces(g, ev) || Removes(g, ev))
    requires SymbolById(DeleteFile(g, ev.path).symbols, was.srcId).Some?
    requires !Matches(was, Touched(g, ev))
    ensures ResolveEdge(Rewritten(g, ev).symbols, was) == ResolveEdge(g.symbols, was)
    ensures Names.LastSegment(was.dstName) !in Touched(g, ev)
  {
    var src := SymbolById(DeleteFile(g, ev.path).symbols, was.srcId).value;
    KeptLookups(g, ev, src);
    Names.LastSegmentIsSelected(was.dstName);
    NamedAfterStep(g, ev, Names.LastSegment(was.dstName));
    SameNamedSameChoice(g.symbols, Rewritten(g, ev).symbols, CallFrom(src, was));
  }

  /** The cascade cuts only targets whose name the step touches. */
  lemma TargetKept(g: Graph, ev: Event, e: EdgeRow, since: Option<set<string>>)
    requires Valid(g) && (Replaces(g, ev) || Removes(g, ev))
    requires e in g.edges && e == Expected(g.symbols, e, since)
    requires Names.LastSegment(e.dstName) !in Touched(g, ev)
    ensures CutTarget(e, DeleteFile(g, ev.path).symbols) == e
  {
    if e.dstId.Some? {
      ResolvedTarget(g.symbols, e);
      var s := SymbolById(g.symbols, e.dstId.value).value;
      match FileByPath(g.files, ev.path)
      case None =>
      case Some(f) =>
        assert s.fileId == f.id ==> s.name in NamesIn(g, ev.path);
        SymbolKept(g.symbols, f.id, s.id);
    }
  }

  lemma MatchesUnion(e: EdgeRow, a: set<string>, b: set<string>)
    ensures Matches(e, a + b) <==> Matches(e, a) || Matches(e, b)
  {
    if Matches(e, a) || Matches(e, b) {
      var n :| n in a + b && Names.SuffixMatch(e.dstName, n);
    }
  }

  /** An edge of another file whose name the step leaves alone keeps its row, and is still as expected. */
  lemma UntouchedEdge(g: Graph, ev: Event, was: EdgeRow, since: Option<set<string>>)
    requires Valid(g) && (Replaces(g, ev) || Removes(g, ev))
    requires was in g.edges && SymbolById(DeleteFile(g, ev.path).symbols, was.srcId).Some?
    requires was == Expected(g.symbols, was, since) && !Matches(was, Touched(g, ev))
    ensures CutTarget(was, DeleteFile(g, ev.path).symbols) == was
    ensures was == Expected(Rewritten(g, ev).symbols, was, Later(since, Touched(g, ev)))
  {
    UntouchedChoice(g, ev, was);
    TargetKept(g, ev, was, since);
    if since.Some? { MatchesUnion(was, since.value, Touched(g, ev)); }
  }

  // ---- runs ----

  /** Every edge is as its file's history says. */
  ghost predicate Tracked(g: Graph, since: string -> Option<set<string>>)
    requires Valid(g)
  {
    forall e :: e in g.edges ==> TrackedEdge(g, e, since)
  }

  ghost predicate TrackedEdge(g: Graph, e: EdgeRow, since: string -> Option<set<string>>)
    requires Valid(g) && e in g.edges
  {
    e == Expected(g.symbols, e, since(PathOf(g, e)))
  }

  function SinceAfter(g: Graph, ev: Event, since: string -> Option<set<string>>): string -> Option<set<string>> {
    p => if Replaces(g, ev) && ev.path == p then Some(Touched(g, ev)) else Later(since(p), Touched(g, ev))
  }

  lemma DeletedEdge(g: Graph, path: string, e: EdgeRow)
    requires Valid(g) && e in DeleteFile(g, path).edges
    ensures exists was :: Survivor(g.edges, DeleteFile(g, path).symbols, was, e)
  {
    var f := FileByPath(g.files, path);
    if f.None? {
      assert Survivor(g.edges, g.symbols, e, e);
    } else {
      CascadeRows(g.edges, OutsideFile(g.symbols, f.value.id));
    }
  }

  /** Calls of the inserted file start unresolved and belong to it. */
  lemma InsertedEdge(g: Graph, path: string, lang: string, hash: nat, idx: FileIndex, e: EdgeRow)
    requires Valid(g) && FileByPath(g.files, path).None? && WellFormed(idx)
    requires Valid(InsertFile(g, path, lang, hash, idx))
    requires e in NewEdgeRows(idx.edges, NextSymbolId(g.symbols), NextEdgeId(g.edges))
    ensures e == WithChoice(e, Unresolved)
    ensures e in InsertFile(g, path, lang, hash, idx).edges && PathOf(InsertFile(g, path, lang, hash, idx), e) == path
  {
    hide Choose, First, Keep, NewSymbolRows, NewEdgeRows;
    var f := FileRow(NextFileId(g.files), path, lang, hash);
    NewEdgeSources(g.symbols, idx, f.id, NextEdgeId(g.edges), e);
    FilesAppended(g.files, f);
    assert f in g.files + [f];
  }

  /** Resolving names leaves every edge in its file. */
  lemma PathUnchanged(g: Graph, e: EdgeRow, names: set<string>)
    requires Valid(g) && Valid(ResolveNames(g, names)) && e in g.edges
    ensures var now := if Matches(e, names) then ResolveEdge(g.symbols, e) else e;
            now in ResolveNames(g, names).edges && PathOf(ResolveNames(g, names), now) == PathOf(g, e)
  {
    var i :| 0 <= i < |g.edges| && g.edges[i] == e;
    assert ResolveNames(g, names).edges[i] == if Matches(e, names) then ResolveEdge(g.symbols, e) else e;
  }

  lemma SurvivorPath(g: Graph, ev: Event, was: EdgeRow, e: EdgeRow)
    requires Valid(g) && (Replaces(g, ev) || Removes(g, ev)) && Valid(Rewritten(g, ev))
    requires Survivor(g.edges, DeleteFile(g, ev.path).symbols, was, e) && e in Rewritten(g, ev).edges
    ensures PathOf(Rewritten(g, ev), e) == PathOf(g, was) != ev.path
  {
    KeptLookups(g, ev, SymbolById(DeleteFile(g, ev.path).symbols, was.srcId).value);
  }

  lemma SurvivorExpected(g: Graph, ev: Event, was: EdgeRow, e: EdgeRow, since: Option<set<string>>)
    requires Valid(g) && (Replaces(g, ev) || Removes(g, ev))
    requires Survivor(g.edges, DeleteFile(g, ev.path).symbols, was, e)
    requires was == Expected(g.symbols, was, since)
    ensures var now := if Matches(e, Touched(g, ev)) then ResolveEdge(Rewritten(g, ev).symbols, e) else e;
            now == Expected(Rewritten(g, ev).symbols, now, Later(since, Touched(g, ev)))
  {
    assert Matches(e, Touched(g, ev)) == Matches(was, Touched(g, ev));
    if Matches(was, Touched(g, ev)) {
      TouchedEdge(g, ev, was, since);
    } else {
      UntouchedEdge(g, ev, was, since);
    }
  }

  lemma SurvivorTracked(g: Graph, ev: Event, since: string -> Option<set<string>>, was: EdgeRow, e: EdgeRow)
    requires Valid(g) && Tracked(g, since) && (Replaces(g, ev) || Removes(g, ev))
    requires Survivor(g.edges, DeleteFile(g, ev.path).symbols, was, e) && e in Rewritten(g, ev).edges
    requires Valid(Rewritten(g, ev))
    ensures var now := if Matches(e, Touched(g, ev)) then ResolveEdge(Rewritten(g, ev).symbols, e) else e;
            now == Expected(Rewritten(g, ev).symbols, now, SinceAfter(g, ev, since)(PathOf(Rewritten(g, ev), e)))
  {
    hide Choose, SymbolById, FileById, FileByPath;
    SurvivorPath(g, ev, was, e);
    assert TrackedEdge(g, was, since);
    SurvivorExpected(g, ev, was, e, since(PathOf(g, was)));
  }

  lemma NewEdgeTracked(g: Graph, ev: Event, since: string -> Option<set<string>>, e: EdgeRow)
    requires Valid(g) && Replaces(g, ev) && Valid(Rewritten(g, ev))
    requires e in Rewritten(g, ev).edges && e !in DeleteFile(g, ev.path).edges
    ensures var now := if Matches(e, Touched(g, ev)) then ResolveEdge(Rewritten(g, ev).symbols, e) else e;
            now == Expected(Rewritten(g, ev).symbols, now, SinceAfter(g, ev, since)(PathOf(Rewritten(g, ev), e)))
  {
    DeleteIsValid(g, ev.path);
    InsertedEdge(DeleteFile(g, ev.path), ev.path, ev.content.lang, ev.content.hash, ev.content.parsed.value, e);
  }

  lemma RewrittenEdgeTracked(g: Graph, ev: Event, since: string -> Option<set<string>>, e: EdgeRow)
    requires Valid(g) && Tracked(g, since) && (Replaces(g, ev) || Removes(g, ev)) && Valid(Rewritten(g, ev))
    requires e in Rewritten(g, ev).edges
    ensures var now := if Matches(e, Touched(g, ev)) then ResolveEdge(Rewritten(g, ev).symbols, e) else e;
            now == Expected(Rewritten(g, ev).symbols, now, SinceAfter(g, ev, since)(PathOf(Rewritten(g, ev), e)))
  {
    if e in DeleteFile(g, ev.path).edges {
      DeletedEdge(g, ev.path, e);
      var was :| Survivor(g.edges, DeleteFile(g, ev.path).symbols, was, e);
      SurvivorTracked(g, ev, since, was, e);
    } else {
      NewEdgeTracked(g, ev, since, e);
    }
  }

  /** A step that rewrites nothing touches no name. */
  lemma IdleStepTracked(g: Graph, ev: Event, since: string -> Option<set<string>>)
    requires Valid(g) && Tracked(g, since) && !Replaces(g, ev) && !Removes(g, ev)
    ensures Tracked(g, SinceAfter(g, ev, since))
  {
    hide ResolveEdge, Matches, PathOf, Valid;
    forall e | e in g.edges ensures TrackedEdge(g, e, SinceAfter(g, ev, since)) {
      assert TrackedEdge(g, e, since);
      var s := since(PathOf(g, e));
      if s.Some? { assert s.value + {} == s.value; }
    }
  }

  lemma ResolvedEdgeTracked(g: Graph, ev: Event, since: string -> Option<set<string>>, now: EdgeRow)
    requires Valid(g) && Tracked(g, since) && (Replaces(g, ev) || Removes(g, ev)) && Valid(Rewritten(g, ev))
    requires Valid(Step(g, ev)) && now in Step(g, ev).edges
    ensures TrackedEdge(Step(g, ev), now, SinceAfter(g, ev, since))
  {
    hide Choose, SymbolById, FileById, FileByPath;
    var g2 := Rewritten(g, ev);
    var i :| 0 <= i < |g2.edges| && Step(g, ev).edges[i] == now;
    var e := g2.edges[i];
    assert e in g2.edges;
    RewrittenEdgeTracked(g, ev, since, e);
    PathUnchanged(g2, e, Touched(g, ev));
  }

  /** One step keeps every edge as its file's history says. */
  lemma StepTracked(g: Graph, ev: Event, since: string -> Option<set<string>>)
    requires Valid(g) && Tracked(g, since)
    ensures Valid(Step(g, ev)) && Tracked(Step(g, ev), SinceAfter(g, ev, since))
  {
    StepIsValid(g, ev);
    if Replaces(g, ev) || Removes(g, ev) {
      forall now | now in Step(g, ev).edges ensures TrackedEdge(Step(g, ev), now, SinceAfter(g, ev, since)) {
        ResolvedEdgeTracked(g, ev, since, now);
      }
    } else {
      IdleStepTracked(g, ev, since);
    }
  }

  /** A graph as `resolve_all_edges` leaves it. */
  ghost predicate FullyResolved(g: Graph) { ResolveAll(g) == g }

  lemma FullyResolvedTracked(g: Graph)
    requires Valid(g) && FullyResolved(g)
    ensures Tracked(g, _ => None)
  {
    forall e | e in g.edges ensures TrackedEdge(g, e, _ => None) {
      var i :| 0 <= i < |g.edges| && g.edges[i] == e;
      assert ResolveAll(g).edges[i] == ResolveEdge(g.symbols, e);
    }
  }

  lemma SameSince(g: Graph, a: string -> Option<set<string>>, b: string -> Option<set<string>>)
    requires Valid(g) && Tracked(g, a) && forall p :: a(p) == b(p)
    ensures Tracked(g, b)
  {
    forall e | e in g.edges ensures TrackedEdge(g, e, b) { assert TrackedEdge(g, e, a); }
  }

  /**
   After any run of updates on a fully resolved graph, each edge is exactly its full-resolve row, unless its file was
   replaced in the run and no name touched since then matches it: then it is unresolved.
   */
  lemma {:induction false} EdgesAfterRun(g: Graph, events: seq<Event>)
    requires Valid(g) && FullyResolved(g)
    ensures Valid(Run(g, events)) && Tracked(Run(g, events), p => TouchedSince(g, events, p))
  {
    if events == [] {
      FullyResolvedTracked(g);
      SameSince(g, _ => None, p => TouchedSince(g, events, p));
    } else {
      var init, ev := events[..|events| - 1], events[|events| - 1];
      EdgesAfterRun(g, init);
      var since := p => TouchedSince(g, init, p);
      StepTracked(Run(g, init), ev, since);
      var now := SinceAfter(Run(g, init), ev, since);
      forall p ensures now(p) == TouchedSince(g, events, p) { assert since(p) == TouchedSince(g, init, p); }
      SameSince(Run(g, events), now, p => TouchedSince(g, events, p));
    }
  }
}
