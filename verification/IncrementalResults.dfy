/** What the run theorem means for callers: when incremental resolution equals a full resolve, and when it does not. */
module IncrementalResults {
  import opened Wrappers
  import opened Sequences
  import opened Schema
  import opened Resolver
  import opened Incremental
  import Names

  /** Edges of files the run did not replace are exactly what a full resolve would write now. */
  lemma UnreplacedFilesResolved(g: Graph, events: seq<Event>, e: EdgeRow)
    requires Schema.Valid(g) && FullyResolved(g)
    requires Schema.Valid(Run(g, events)) && e in Run(g, events).edges
    requires TouchedSince(g, events, PathOf(Run(g, events), e)).None?
    ensures e == ResolveEdge(Run(g, events).symbols, e)
  {
    hide ResolveEdge;
    EdgesAfterRun(g, events);
    assert TrackedEdge(Run(g, events), e, p => TouchedSince(g, events, p));
  }

  /** No edge dangles or points at the wrong symbol: a target is always the current full-resolve answer. */
  lemma ResolvedEdgesAreRight(g: Graph, events: seq<Event>, e: EdgeRow)
    requires Schema.Valid(g) && FullyResolved(g)
    requires e in Run(g, events).edges && e.dstId.Some?
    ensures var now := Run(g, events);
            && e == ResolveEdge(now.symbols, e)
            && SymbolById(now.symbols, e.dstId.value).Some?
            && SymbolById(now.symbols, e.dstId.value).value.name == Names.LastSegment(e.dstName)
  {
    hide ResolveEdge;
    EdgesAfterRun(g, events);
    assert TrackedEdge(Run(g, events), e, p => TouchedSince(g, events, p));
    ResolvedTarget(Run(g, events).symbols, e);
  }

  /** An edge that misses its full-resolve answer is an unresolved call of a replaced file, to an untouched name. */
  lemma StaleEdgesAreWaiting(g: Graph, events: seq<Event>, e: EdgeRow)
    requires Schema.Valid(g) && FullyResolved(g)
    requires Schema.Valid(Run(g, events)) && e in Run(g, events).edges
    requires e != ResolveEdge(Run(g, events).symbols, e)
    ensures e.dstId.None?
    ensures var since := TouchedSince(g, events, PathOf(Run(g, events), e));
            since.Some? && Names.LastSegment(e.dstName) !in since.value
  {
    hide ResolveEdge;
    EdgesAfterRun(g, events);
    assert TrackedEdge(Run(g, events), e, p => TouchedSince(g, events, p));
    Names.LastSegmentIsSelected(e.dstName);
  }

  // ---- one replacement ----

  predicate CallCovered(g: Graph, ev: Event, c: NewEdge) {
    exists n :: n in Touched(g, ev) && Names.SuffixMatch(c.dstName, n)
  }

  /** Outside the touched names, the file's calls find nothing among the other files' symbols. */
  ghost predicate NoOutsideTargets(g: Graph, ev: Event)
    requires Replaces(g, ev)
  {
    var others := DeleteFile(g, ev.path);
    forall c :: c in ev.content.parsed.value.edges && !CallCovered(g, ev, c) ==>
      Choose(others.symbols, Call(NextFileId(others.files), c.dstName, c.dstArity)) == Unresolved
  }

  lemma FullyResolvedEdgewise(g: Graph)
    ensures FullyResolved(g) <==> forall e :: e in g.edges ==> e == ResolveEdge(g.symbols, e)
  {
    hide ResolveEdge;
    if forall e :: e in g.edges ==> e == ResolveEdge(g.symbols, e) {
      assert forall i :: 0 <= i < |g.edges| ==> g.edges[i] in g.edges;
      assert ResolveAll(g).edges == g.edges;
    }
    if FullyResolved(g) {
      forall e | e in g.edges ensures e == ResolveEdge(g.symbols, e) {
        var i :| 0 <= i < |g.edges| && g.edges[i] == e;
        assert ResolveAll(g).edges[i] == ResolveEdge(g.symbols, e);
      }
    }
  }

  function NewRow(g: Graph, ev: Event, i: nat): EdgeRow
    requires Replaces(g, ev) && i < |ev.content.parsed.value.edges|
  {
    var g1 := DeleteFile(g, ev.path);
    EdgeRowOf(ev.content.parsed.value.edges[i], i, NextSymbolId(g1.symbols), NextEdgeId(g1.edges))
  }

  lemma NewRowSource(g: Graph, ev: Event, i: nat)
    requires Schema.Valid(g) && Replaces(g, ev) && i < |ev.content.parsed.value.edges|
    ensures var src := SymbolById(Rewritten(g, ev).symbols, NewRow(g, ev, i).srcId);
            src.Some? && src.value.fileId == NextFileId(DeleteFile(g, ev.path).files)
    ensures NewRow(g, ev, i) == WithChoice(NewRow(g, ev, i), Unresolved)
  {
    hide SymbolById, First, Keep, DeleteFile, Schema.Valid;
    var idx, g1 := ev.content.parsed.value, DeleteFile(g, ev.path);
    assert SymbolIdsAscend(g1.symbols) by { DeletedAscends(g, ev.path); }
    var row := NewRow(g, ev, i);
    assert NewEdgeRows(idx.edges, NextSymbolId(g1.symbols), NextEdgeId(g1.edges))[i] == row;
    NewEdgeSources(g1.symbols, idx, NextFileId(g1.files), NextEdgeId(g1.edges), row);
  }

  lemma DeletedAscends(g: Graph, path: string)
    requires Schema.Valid(g)
    ensures SymbolIdsAscend(DeleteFile(g, path).symbols)
  {
    DeleteIsValid(g, path);
  }

  lemma UntouchedByInsert(g: Graph, ev: Event, call: Call)
    requires Replaces(g, ev) && Names.LastSegment(call.dstName) !in Touched(g, ev)
    ensures Choose(Rewritten(g, ev).symbols, call) == Choose(DeleteFile(g, ev.path).symbols, call)
  {
    hide Choose, DeleteFile;
    var idx, g1, last := ev.content.parsed.value, DeleteFile(g, ev.path), Names.LastSegment(call.dstName);
    var added := NewSymbolRows(idx.symbols, NextFileId(g1.files), NextSymbolId(g1.symbols));
    NewNames(idx, NextFileId(g1.files), NextSymbolId(g1.symbols), last);
    NamedAfterInsert(g1.symbols, added, last);
    SameNamedSameChoice(g1.symbols, g1.symbols + added, call);
  }

  /** An uncovered call is already right exactly when the other files offer it nothing. */
  lemma UncoveredCall(g: Graph, ev: Event, i: nat)
    requires Schema.Valid(g) && Replaces(g, ev) && i < |ev.content.parsed.value.edges|
    requires !CallCovered(g, ev, ev.content.parsed.value.edges[i])
    ensures var c, g1 := ev.content.parsed.value.edges[i], DeleteFile(g, ev.path);
            NewRow(g, ev, i) == ResolveEdge(Rewritten(g, ev).symbols, NewRow(g, ev, i)) <==>
            Choose(g1.symbols, Call(NextFileId(g1.files), c.dstName, c.dstArity)) == Unresolved
  {
    hide Choose, SymbolById, DeleteFile, Schema.Valid, Touched, Rewritten;
    var c := ev.content.parsed.value.edges[i];
    NewRowSource(g, ev, i);
    Names.LastSegmentIsSelected(c.dstName);
    UntouchedByInsert(g, ev, Call(NextFileId(DeleteFile(g, ev.path).files), c.dstName, c.dstArity));
  }

  lemma NewNames(idx: FileIndex, fileId: nat, base: nat, name: string)
    requires name !in BatchNames(idx)
    ensures forall s :: s in NewSymbolRows(idx.symbols, fileId, base) ==> s.name != name
  {
    forall s | s in NewSymbolRows(idx.symbols, fileId, base) ensures s.name in BatchNames(idx) {
      var i :| 0 <= i < |idx.symbols| && s == SymbolRowOf(idx.symbols[i], i, fileId, base);
      assert idx.symbols[i] in idx.symbols;
    }
  }

  /** Where each row of the stepped table comes from. */
  lemma StepRows(g: Graph, ev: Event, e: EdgeRow)
    requires Schema.Valid(g) && Replaces(g, ev) && e in Step(g, ev).edges
    ensures (exists o :: o in DeleteFile(g, ev.path).edges && e == Settled(g, ev, o))
            || (exists i :: 0 <= i < |ev.content.parsed.value.edges| && e == Settled(g, ev, NewRow(g, ev, i)))
  {
    hide ResolveEdge, Matches, DeleteFile;
    var k :| 0 <= k < |Step(g, ev).edges| && Step(g, ev).edges[k] == e;
    var o := Rewritten(g, ev).edges[k];
    assert e == Settled(g, ev, o);
    var n := |DeleteFile(g, ev.path).edges|;
    if k >= n {
      assert o == NewRow(g, ev, k - n);
    }
  }

  function Settled(g: Graph, ev: Event, e: EdgeRow): EdgeRow {
    if Matches(e, Touched(g, ev)) then ResolveEdge(Rewritten(g, ev).symbols, e) else e
  }

  lemma NewRowSettles(g: Graph, ev: Event, i: nat)
    requires Schema.Valid(g) && Replaces(g, ev) && i < |ev.content.parsed.value.edges|
    ensures Settled(g, ev, NewRow(g, ev, i)) in Step(g, ev).edges
  {
    hide ResolveEdge, Matches, DeleteFile;
    var k := |DeleteFile(g, ev.path).edges| + i;
    assert Rewritten(g, ev).edges[k] == NewRow(g, ev, i);
    assert Step(g, ev).edges[k] == Settled(g, ev, NewRow(g, ev, i));
  }

  lemma SettledTwice(g: Graph, ev: Event, e: EdgeRow)
    requires Matches(e, Touched(g, ev))
    ensures ResolveEdge(Rewritten(g, ev).symbols, Settled(g, ev, e)) == Settled(g, ev, e)
  {
  }

  /**
   Replacing a file leaves a fully resolved graph fully resolved exactly when each of its calls is matched by
   a name the file defined before or defines now, or has no target in the other files.
   */
  lemma ReplaceMeetsFullResolve(g: Graph, ev: Event)
    requires Schema.Valid(g) && FullyResolved(g) && Replaces(g, ev)
    ensures FullyResolved(Step(g, ev)) <==> NoOutsideTargets(g, ev)
  {
    hide ResolveEdge, Choose, DeleteFile, Matches;
    var now, calls := Step(g, ev), ev.content.parsed.value.edges;
    FullyResolvedEdgewise(now);
    if FullyResolved(now) {
      forall c | c in calls && !CallCovered(g, ev, c)
        ensures var others := DeleteFile(g, ev.path);
                Choose(others.symbols, Call(NextFileId(others.files), c.dstName, c.dstArity)) == Unresolved
      {
        var i :| 0 <= i < |calls| && calls[i] == c;
        UncoveredCall(g, ev, i);
        NewRowSettles(g, ev, i);
        CoveredIsMatched(g, ev, i);
      }
    }
    if NoOutsideTargets(g, ev) {
      forall e | e in now.edges ensures e == ResolveEdge(now.symbols, e) { SettledRow(g, ev, e); }
    }
  }

  lemma CoveredIsMatched(g: Graph, ev: Event, i: nat)
    requires Replaces(g, ev) && i < |ev.content.parsed.value.edges|
    ensures Matches(NewRow(g, ev, i), Touched(g, ev)) <==> CallCovered(g, ev, ev.content.parsed.value.edges[i])
  {
  }

  lemma SettledRow(g: Graph, ev: Event, e: EdgeRow)
    requires Schema.Valid(g) && FullyResolved(g) && Replaces(g, ev)
    requires NoOutsideTargets(g, ev) && e in Step(g, ev).edges
    ensures e == ResolveEdge(Step(g, ev).symbols, e)
  {
    hide ResolveEdge, Choose, DeleteFile, Matches;
    var calls := ev.content.parsed.value.edges;
    StepRows(g, ev, e);
    if i :| 0 <= i < |calls| && e == Settled(g, ev, NewRow(g, ev, i)) {
      CoveredIsMatched(g, ev, i);
      if CallCovered(g, ev, calls[i]) {
        SettledTwice(g, ev, NewRow(g, ev, i));
      } else {
        assert calls[i] in calls;
        UncoveredCall(g, ev, i);
      }
    } else {
      var o :| o in DeleteFile(g, ev.path).edges && e == Settled(g, ev, o);
      SurvivorSettled(g, ev, o);
    }
  }

  lemma SurvivorSettled(g: Graph, ev: Event, o: EdgeRow)
    requires Schema.Valid(g) && FullyResolved(g) && Replaces(g, ev)
    requires o in DeleteFile(g, ev.path).edges
    ensures Settled(g, ev, o) == ResolveEdge(Rewritten(g, ev).symbols, Settled(g, ev, o))
  {
    hide ResolveEdge, Choose, DeleteFile, Matches;
    FullyResolvedEdgewise(g);
    DeletedEdge(g, ev.path, o);
    var was :| Survivor(g.edges, DeleteFile(g, ev.path).symbols, was, o);
    SurvivorExpected(g, ev, was, o, None);
  }

  lemma LoneSymbolChosen(s: SymbolRow, call: Call)
    requires Names.Plain(s.name) && Names.SuffixMatch(call.dstName, s.name)
    ensures Choose([s], call).dstId.Some?
  {
    hide Choose;
    if Choose([s], call).dstId.None? {
      UnresolvedIsAmbiguous([s], call, s);
    }
  }

  /** One file with one function, and no calls. */
  function OneFunction(): Graph {
    Graph([FileRow(1, "a.py", "python", 0)], [SymbolRow(1, 1, "f", "a.f", Function, None, 1, 2, None, None)], [])
  }

  /** A new file with a call to that function. */
  function NewCaller(): Event {
    Event("b.py", Source("python", 1, Some(FileIndex([NewSymbol("g", "b.g", Function, None, 1, 2, None, None)],
                                                     [NewEdge(0, Calls, "f", None)], []))))
  }

  lemma OneFunctionIsResolved()
    ensures Schema.Valid(OneFunction()) && FullyResolved(OneFunction())
  {
    var g := OneFunction();
    assert g.files[0] in g.files && FileById(g.files, 1).Some?;
  }

  lemma NewCallerArrives()
    ensures Replaces(OneFunction(), NewCaller()) && DeleteFile(OneFunction(), "b.py") == OneFunction()
    ensures Touched(OneFunction(), NewCaller()) == {"g"}
  {
    assert FileByPath(OneFunction().files, "b.py").None?;
  }

  /** Updates alone do not always amount to a full resolve: a new file's call to an old function stays unresolved. */
  lemma UpdateCanMissFullResolve() returns (g: Graph, ev: Event)
    ensures g == OneFunction() && ev == NewCaller()
    ensures Schema.Valid(g) && FullyResolved(g) && !FullyResolved(Step(g, ev))
  {
    hide Choose, Schema.Valid, FullyResolved, Replaces, Touched, DeleteFile, Step;
    g, ev := OneFunction(), NewCaller();
    var call := NewEdge(0, Calls, "f", None);
    OneFunctionIsResolved();
    NewCallerArrives();
    assert !CallCovered(g, ev, call);
    Names.FreeOfSeparators("f");
    LoneSymbolChosen(g.symbols[0], Call(NextFileId(g.files), "f", None));
    assert call in ev.content.parsed.value.edges;
    ReplaceMeetsFullResolve(g, ev);
  }
}
