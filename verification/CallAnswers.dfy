/** The answers built on the walks: one edge per caller row, order and cap; and the callee rows. */
module CallAnswers {
  import opened Wrappers
  import opened Sequences
  import opened Sorting
  import opened Schema
  import opened Recursion
  import opened CallGraph
  import Names

  // ---- the edge shown for a caller ----

  /** The edges the pick chooses from: calls of the target at depth 1, calls into the previous depth below it. */
  predicate Explains(e: EdgeRow, reach: set<Hop>, target: nat, name: string, h: Hop) {
    && e.srcId == h.id && e.kind == Calls
    && (|| (h.depth == 1 && IntoTarget(e, target, name))
        || (h.depth > 1 && e.dstId.Some? && Hop(e.dstId.value, h.depth - 1) in reach))
  }

  function Explaining(edges: seq<EdgeRow>, reach: set<Hop>, target: nat, name: string, h: Hop): seq<EdgeRow> {
    Keep(edges, (e: EdgeRow) => Explains(e, reach, target, name, h))
  }

  /** A resolved edge before a name match, then the smallest id. */
  function Pick(edges: seq<EdgeRow>, reach: set<Hop>, target: nat, name: string, h: Hop): Option<EdgeRow> {
    var candidates := Explaining(edges, reach, target, name, h);
    match First(candidates, (e: EdgeRow) => e.dstId.Some?)
    case Some(e) => Some(e)
    case None => if candidates == [] then None else Some(candidates[0])
  }

  lemma FirstIsSmallest(edges: seq<EdgeRow>, p: EdgeRow -> bool)
    requires EdgeIdsAscend(edges) && First(edges, p).Some?
    ensures forall e :: e in edges && p(e) ==> First(edges, p).value.id <= e.id
  {
    var i := FirstIndex(edges, p);
    forall e | e in edges && p(e) ensures First(edges, p).value.id <= e.id {
      var j :| 0 <= j < |edges| && edges[j] == e;
      assert i <= j;
    }
  }

  lemma PickIsBest(edges: seq<EdgeRow>, reach: set<Hop>, target: nat, name: string, h: Hop)
    requires EdgeIdsAscend(edges)
    ensures match Pick(edges, reach, target, name, h)
      case None => forall e :: e in edges ==> !Explains(e, reach, target, name, h)
      case Some(p) =>
        && p in edges && Explains(p, reach, target, name, h)
        && (forall e :: e in edges && Explains(e, reach, target, name, h) && (e.dstId.Some? || p.dstId.None?) ==>
              p.id <= e.id)
        && (p.dstId.None? ==> forall e :: e in edges && Explains(e, reach, target, name, h) ==> e.dstId.None?)
  {
    var candidates := Explaining(edges, reach, target, name, h);
    KeepOrder(edges, (e: EdgeRow) => Explains(e, reach, target, name, h), (a: EdgeRow, b: EdgeRow) => a.id < b.id);
    var resolved := (e: EdgeRow) => e.dstId.Some?;
    if First(candidates, resolved).Some? {
      FirstIsSmallest(candidates, resolved);
    } else if candidates != [] {
      assert candidates[0] in candidates;
      forall e | e in candidates ensures candidates[0].id <= e.id {
        var j :| 0 <= j < |candidates| && candidates[j] == e;
      }
    }
  }

  /** The edge-picking join keeps every reached pair. */
  lemma PickNeverMissing(edges: seq<EdgeRow>, target: nat, name: string, maxDepth: nat, h: Hop)
    requires maxDepth >= 1 && EdgeIdsAscend(edges) && h in Reach(edges, target, name, maxDepth)
    ensures Pick(edges, Reach(edges, target, name, maxDepth), target, name, h).Some?
  {
    hide Reach, Pick;
    var reach := Reach(edges, target, name, maxDepth);
    PickIsBest(edges, reach, target, name, h);
    ReachIsPathEnumeration(edges, target, name, maxDepth, h.id, h.depth);
    if h.depth == 1 {
      WalkOfOne(edges, h.id, target, name);
      var e :| e in edges && IntoTarget(e, target, name) && e.srcId == h.id;
      assert Explains(e, reach, target, name, h);
    } else {
      WalkLonger(edges, h.id, h.depth - 1, target, name);
      var e :| e in edges && e.srcId == h.id && e.kind == Calls && e.dstId.Some?
               && WalkOfLength(edges, e.dstId.value, h.depth - 1, target, name);
      ReachIsPathEnumeration(edges, target, name, maxDepth, e.dstId.value, h.depth - 1);
      assert Explains(e, reach, target, name, h);
    }
  }

  // ---- rows, order and cap ----

  datatype CallerRow = CallerRow(symbol: SymbolRow, path: string, viaName: string, confidence: Option<Confidence>,
                                 depth: nat)

  /** The joins of one reached pair; None would be a dropped row. */
  function JoinRow(g: Graph, reach: set<Hop>, target: nat, name: string, h: Hop): Option<CallerRow> {
    match SymbolById(g.symbols, h.id)
    case None => None
    case Some(s) =>
      match FileById(g.files, s.fileId)
      case None => None
      case Some(f) =>
        match Pick(g.edges, reach, target, name, h)
        case None => None
        case Some(e) =>
          Some(CallerRow(s, f.path, e.dstName, if e.dstId.Some? then Some(e.confidence) else None, h.depth))
  }

  predicate IsGuess(g: Graph, reach: set<Hop>, target: nat, name: string, h: Hop) {
    var e := Pick(g.edges, reach, target, name, h);
    e.Some? && e.value.dstId.None?
  }

  /** Depth first, then known callers before guesses, then the symbol id. */
  predicate HopBefore(a: Hop, aGuess: bool, b: Hop, bGuess: bool) {
    a.depth < b.depth || (a.depth == b.depth && ((!aGuess && bGuess) || (aGuess == bGuess && a.id <= b.id)))
  }

  function AnswerOrder(g: Graph, reach: set<Hop>, target: nat, name: string): (Hop, Hop) -> bool {
    (a: Hop, b: Hop) => HopBefore(a, IsGuess(g, reach, target, name, a), b, IsGuess(g, reach, target, name, b))
  }

  function Ordered(g: Graph, reach: set<Hop>, target: nat, name: string, rows: seq<Hop>): seq<Hop> {
    SortBy(rows, AnswerOrder(g, reach, target, name))
  }

  function JoinAll(g: Graph, reach: set<Hop>, target: nat, name: string, hops: seq<Hop>): seq<CallerRow> {
    if hops == [] then []
    else
      var init := JoinAll(g, reach, target, name, hops[..|hops| - 1]);
      match JoinRow(g, reach, target, name, hops[|hops| - 1])
      case Some(r) => init + [r]
      case None => init
  }

  function Take(hops: seq<Hop>, cap: nat): seq<Hop> { if |hops| <= cap then hops else hops[..cap] }

  /** The whole query, for whatever order `rows` the engine lists the recursive result in. */
  function WalkCallers(g: Graph, target: nat, name: string, maxDepth: nat, cap: nat, rows: seq<Hop>): seq<CallerRow> {
    var depth := if maxDepth >= 1 then maxDepth else 1;
    var reach := Reach(g.edges, target, name, depth);
    JoinAll(g, reach, target, name, Take(Ordered(g, reach, target, name, rows), cap))
  }

  /** A depth of 0 is read as 1. */
  lemma DepthIsAtLeastOne(g: Graph, target: nat, name: string, cap: nat, rows: seq<Hop>)
    ensures WalkCallers(g, target, name, 0, cap, rows) == WalkCallers(g, target, name, 1, cap, rows)
  {
  }

  /** A listing of the recursive result: each row once. */
  ghost predicate Lists(rows: seq<Hop>, reach: set<Hop>) {
    (forall h :: h in rows <==> h in reach) && forall i, j :: 0 <= i < j < |rows| ==> rows[i] != rows[j]
  }

  predicate Shows(r: CallerRow, h: Hop, guess: bool) {
    r.symbol.id == h.id && r.depth == h.depth && (r.confidence.None? <==> guess)
  }

  lemma JoinKeepsRow(g: Graph, target: nat, name: string, maxDepth: nat, h: Hop)
    requires Valid(g) && maxDepth >= 1 && h in Reach(g.edges, target, name, maxDepth)
    ensures var reach := Reach(g.edges, target, name, maxDepth);
            var row := JoinRow(g, reach, target, name, h);
            row.Some? && Shows(row.value, h, IsGuess(g, reach, target, name, h))
  {
    hide Reach, Pick;
    PickNeverMissing(g.edges, target, name, maxDepth, h);
    PickIsBest(g.edges, Reach(g.edges, target, name, maxDepth), target, name, h);
  }

  lemma {:induction false} JoinAllKeepsRows(g: Graph, target: nat, name: string, maxDepth: nat, hops: seq<Hop>)
    requires Valid(g) && maxDepth >= 1
    requires forall h :: h in hops ==> h in Reach(g.edges, target, name, maxDepth)
    ensures var reach := Reach(g.edges, target, name, maxDepth);
            var r := JoinAll(g, reach, target, name, hops);
            && |r| == |hops|
            && forall i :: 0 <= i < |r| ==> Shows(r[i], hops[i], IsGuess(g, reach, target, name, hops[i]))
  {
    hide Valid, Reach, JoinRow, IsGuess;
    if hops != [] {
      var init := hops[..|hops| - 1];
      assert forall h :: h in init ==> h in hops;
      JoinAllKeepsRows(g, target, name, maxDepth, init);
      JoinKeepsRow(g, target, name, maxDepth, hops[|hops| - 1]);
    }
  }

  lemma OrderIsTotal(g: Graph, reach: set<Hop>, target: nat, name: string)
    ensures var le := AnswerOrder(g, reach, target, name);
            Total(le) && forall x, y :: le(x, y) && le(y, x) ==> x == y
  {
    hide IsGuess;
  }

  /** The answer does not depend on the order in which the engine lists the recursive result. */
  lemma OrderIsUnique(g: Graph, reach: set<Hop>, target: nat, name: string, a: seq<Hop>, b: seq<Hop>)
    requires multiset(a) == multiset(b)
    ensures Ordered(g, reach, target, name, a) == Ordered(g, reach, target, name, b)
  {
    hide IsGuess, Total;
    var le := AnswerOrder(g, reach, target, name);
    OrderIsTotal(g, reach, target, name);
    SortBySorted(a, le);
    SortBySorted(b, le);
    SortByElements(a, le);
    SortByElements(b, le);
    SortedUnique(SortBy(a, le), SortBy(b, le), le);
  }

  ghost predicate Listed(r: seq<CallerRow>, v: nat, d: nat) {
    exists i :: 0 <= i < |r| && r[i].symbol.id == v && r[i].depth == d
  }

  /** Uncapped, the answer has exactly one row per reached pair, so per pair some call path witnesses. */
  lemma EachPairOnce(g: Graph, target: nat, name: string, maxDepth: nat, cap: nat, rows: seq<Hop>)
    requires Valid(g) && maxDepth >= 1 && Lists(rows, Reach(g.edges, target, name, maxDepth)) && |rows| <= cap
    ensures var r := WalkCallers(g, target, name, maxDepth, cap, rows);
            && (forall v: nat, d: nat :: Listed(r, v, d) <==>
                               1 <= d <= maxDepth && WalkOfLength(g.edges, v, d, target, name))
            && (forall i, j :: 0 <= i < j < |r| ==> (r[i].symbol.id, r[i].depth) != (r[j].symbol.id, r[j].depth))
  {
    hide Valid, Reach, JoinRow, IsGuess, WalkOfLength, JoinAll;
    var reach := Reach(g.edges, target, name, maxDepth);
    var hops := Ordered(g, reach, target, name, rows);
    OrderedLists(g, reach, target, name, rows);
    assert Take(hops, cap) == hops;
    JoinAllKeepsRows(g, target, name, maxDepth, hops);
    var r := WalkCallers(g, target, name, maxDepth, cap, rows);
    forall v: nat, d: nat
      ensures Listed(r, v, d) <==>
              1 <= d <= maxDepth && WalkOfLength(g.edges, v, d, target, name)
    {
      ReachIsPathEnumeration(g.edges, target, name, maxDepth, v, d);
      if Hop(v, d) in reach {
        var i :| 0 <= i < |hops| && hops[i] == Hop(v, d);
        assert Shows(r[i], hops[i], IsGuess(g, reach, target, name, hops[i]));
      }
      if Listed(r, v, d) {
        var i :| 0 <= i < |r| && r[i].symbol.id == v && r[i].depth == d;
        assert Shows(r[i], hops[i], IsGuess(g, reach, target, name, hops[i]));
        assert hops[i] == Hop(v, d) && hops[i] in hops;
      }
    }
  }

  lemma OrderedLists(g: Graph, reach: set<Hop>, target: nat, name: string, rows: seq<Hop>)
    requires Lists(rows, reach)
    ensures Lists(Ordered(g, reach, target, name, rows), reach)
  {
    hide IsGuess;
    var le := AnswerOrder(g, reach, target, name);
    SortByElements(rows, le);
    StayDifferent(rows, SortBy(rows, le));
  }

  /** A guess kept under the cap means that every known caller at its depth, or nearer, was kept before it. */
  lemma KeptGuessKeepsKnown(g: Graph, target: nat, name: string, maxDepth: nat, cap: nat, rows: seq<Hop>, i: nat,
                            h: Hop)
    requires Valid(g) && maxDepth >= 1 && Lists(rows, Reach(g.edges, target, name, maxDepth))
    requires i < |WalkCallers(g, target, name, maxDepth, cap, rows)|
    requires WalkCallers(g, target, name, maxDepth, cap, rows)[i].confidence.None?
    requires h in Reach(g.edges, target, name, maxDepth)
    requires h.depth <= WalkCallers(g, target, name, maxDepth, cap, rows)[i].depth
    requires !IsGuess(g, Reach(g.edges, target, name, maxDepth), target, name, h)
    ensures exists j :: 0 <= j < i && WalkCallers(g, target, name, maxDepth, cap, rows)[j].symbol.id == h.id
                        && WalkCallers(g, target, name, maxDepth, cap, rows)[j].depth == h.depth
  {
    hide Valid, Reach, JoinRow, IsGuess, JoinAll, Total;
    var reach := Reach(g.edges, target, name, maxDepth);
    var le := AnswerOrder(g, reach, target, name);
    var hops := Ordered(g, reach, target, name, rows);
    OrderedLists(g, reach, target, name, rows);
    OrderIsTotal(g, reach, target, name);
    SortBySorted(rows, le);
    var kept, answer := Take(hops, cap), WalkCallers(g, target, name, maxDepth, cap, rows);
    assert forall x :: x in kept ==> x in hops;
    JoinAllKeepsRows(g, target, name, maxDepth, kept);
    assert kept[i] == hops[i] && Shows(answer[i], hops[i], IsGuess(g, reach, target, name, hops[i]));
    var k :| 0 <= k < |hops| && hops[k] == h;
    assert !le(hops[i], hops[k]);
    assert k < i;
    assert kept[k] == h && Shows(answer[k], h, false);
  }

  // ---- what a row of the answer says ----

  /** A call that puts symbol `v` at depth `d`: of the target itself, or of a symbol one call nearer to it. */
  ghost predicate Witness(g: Graph, target: nat, name: string, v: nat, d: nat, e: EdgeRow) {
    && e in g.edges && e.srcId == v && e.kind == Calls
    && if d == 1 then e.dstId == Some(target) || (e.dstId.None? && Names.SuffixMatch(e.dstName, name))
       else d > 1 && e.dstId.Some? && WalkOfLength(g.edges, e.dstId.value, d - 1, target, name)
  }

  /** The witness shown: a resolved one when there is any, and the oldest of those. */
  ghost predicate Shown(g: Graph, target: nat, name: string, v: nat, d: nat, e: EdgeRow) {
    && Witness(g, target, name, v, d, e)
    && forall x :: Witness(g, target, name, v, d, x) ==>
         (x.dstId.Some? ==> e.dstId.Some?) && ((e.dstId.Some? ==> x.dstId.Some?) ==> e.id <= x.id)
  }

  /** The symbol's own row, the path of its file, and name and confidence of the witness shown. */
  ghost predicate RowMeans(g: Graph, target: nat, name: string, r: CallerRow) {
    && r.symbol in g.symbols && (exists f :: f in g.files && f.id == r.symbol.fileId && f.path == r.path)
    && exists e :: Shown(g, target, name, r.symbol.id, r.depth, e) && r.viaName == e.dstName
                   && r.confidence == if e.dstId.Some? then Some(e.confidence) else None
  }

  lemma ExplainsIsWitness(g: Graph, target: nat, name: string, maxDepth: nat, h: Hop, e: EdgeRow)
    requires maxDepth >= 1 && 1 <= h.depth <= maxDepth
    ensures e in g.edges && Explains(e, Reach(g.edges, target, name, maxDepth), target, name, h) <==>
            Witness(g, target, name, h.id, h.depth, e)
  {
    hide Reach, WalkOfLength, Names.SuffixMatch;
    if h.depth > 1 && e.dstId.Some? {
      ReachIsPathEnumeration(g.edges, target, name, maxDepth, e.dstId.value, h.depth - 1);
    }
  }

  lemma PickIsShown(g: Graph, target: nat, name: string, maxDepth: nat, h: Hop, e: EdgeRow)
    requires Valid(g) && maxDepth >= 1 && h in Reach(g.edges, target, name, maxDepth)
    requires Pick(g.edges, Reach(g.edges, target, name, maxDepth), target, name, h) == Some(e)
    ensures Shown(g, target, name, h.id, h.depth, e)
  {
    hide SymbolIdsAscend, FileIdsAscend, PathsUnique, ParentsHeld, Reach, Pick, Explains, Witness, WalkOfLength;
    var reach := Reach(g.edges, target, name, maxDepth);
    assert EdgeIdsAscend(g.edges);
    hide Valid;
    PickIsBest(g.edges, reach, target, name, h);
    ReachIsPathEnumeration(g.edges, target, name, maxDepth, h.id, h.depth);
    ExplainsIsWitness(g, target, name, maxDepth, h, e);
    forall x | Witness(g, target, name, h.id, h.depth, x)
      ensures x in g.edges && Explains(x, reach, target, name, h)
    {
      ExplainsIsWitness(g, target, name, maxDepth, h, x);
    }
  }

  lemma JoinRowMeans(g: Graph, target: nat, name: string, maxDepth: nat, h: Hop)
    requires Valid(g) && maxDepth >= 1 && h in Reach(g.edges, target, name, maxDepth)
    ensures var row := JoinRow(g, Reach(g.edges, target, name, maxDepth), target, name, h);
            && row.Some? && row.value.symbol.id == h.id && row.value.depth == h.depth
            && RowMeans(g, target, name, row.value)
  {
    hide Reach, Pick, Shown, Valid, IsGuess;
    var reach := Reach(g.edges, target, name, maxDepth);
    JoinKeepsRow(g, target, name, maxDepth, h);
    var e := Pick(g.edges, reach, target, name, h).value;
    PickIsShown(g, target, name, maxDepth, h, e);
    var f := FileById(g.files, SymbolById(g.symbols, h.id).value.fileId).value;
    assert f in g.files;
  }

  lemma {:induction false} JoinAllMeans(g: Graph, target: nat, name: string, maxDepth: nat, hops: seq<Hop>)
    requires Valid(g) && maxDepth >= 1
    requires forall h :: h in hops ==> h in Reach(g.edges, target, name, maxDepth)
    ensures var r := JoinAll(g, Reach(g.edges, target, name, maxDepth), target, name, hops);
            |r| == |hops| && forall i :: 0 <= i < |r| ==>
              r[i].symbol.id == hops[i].id && r[i].depth == hops[i].depth && RowMeans(g, target, name, r[i])
  {
    hide Valid, Reach, JoinRow, RowMeans;
    if hops != [] {
      var init := hops[..|hops| - 1];
      assert forall h :: h in init ==> h in hops;
      JoinAllMeans(g, target, name, maxDepth, init);
      JoinRowMeans(g, target, name, maxDepth, hops[|hops| - 1]);
    }
  }

  /** Every row of the answer, capped or not, is that of a symbol, its file and the witness shown. */
  lemma AnswerRows(g: Graph, target: nat, name: string, maxDepth: nat, cap: nat, rows: seq<Hop>)
    requires Valid(g) && maxDepth >= 1 && Lists(rows, Reach(g.edges, target, name, maxDepth))
    ensures forall r :: r in WalkCallers(g, target, name, maxDepth, cap, rows) ==> RowMeans(g, target, name, r)
  {
    hide Valid, Reach, JoinAll, RowMeans, IsGuess;
    var hops := Ordered(g, Reach(g.edges, target, name, maxDepth), target, name, rows);
    OrderedLists(g, Reach(g.edges, target, name, maxDepth), target, name, rows);
    assert forall x :: x in Take(hops, cap) ==> x in hops;
    JoinAllMeans(g, target, name, maxDepth, Take(hops, cap));
  }

  /** Nearer callers first; at one depth known callers before guesses; then by symbol id. */
  ghost predicate RowBefore(a: CallerRow, b: CallerRow) {
    || a.depth < b.depth
    || (a.depth == b.depth && a.confidence.Some? && b.confidence.None?)
    || (a.depth == b.depth && a.confidence.Some? == b.confidence.Some? && a.symbol.id < b.symbol.id)
  }

  lemma AnswerSorted(g: Graph, target: nat, name: string, maxDepth: nat, cap: nat, rows: seq<Hop>)
    requires Valid(g) && maxDepth >= 1 && Lists(rows, Reach(g.edges, target, name, maxDepth))
    ensures var r := WalkCallers(g, target, name, maxDepth, cap, rows);
            forall i, j :: 0 <= i < j < |r| ==> RowBefore(r[i], r[j])
  {
    hide Valid, Reach, JoinAll, IsGuess, Total;
    var reach := Reach(g.edges, target, name, maxDepth);
    var le, hops := AnswerOrder(g, reach, target, name), Ordered(g, reach, target, name, rows);
    OrderedLists(g, reach, target, name, rows);
    OrderIsTotal(g, reach, target, name);
    SortBySorted(rows, le);
    var kept, r := Take(hops, cap), WalkCallers(g, target, name, maxDepth, cap, rows);
    assert forall x :: x in kept ==> x in hops;
    JoinAllKeepsRows(g, target, name, maxDepth, kept);
    forall i, j | 0 <= i < j < |r| ensures RowBefore(r[i], r[j]) {
      assert kept[i] == hops[i] && kept[j] == hops[j] && le(hops[i], hops[j]) && hops[i] != hops[j];
      assert Shows(r[i], hops[i], IsGuess(g, reach, target, name, hops[i]));
      assert Shows(r[j], hops[j], IsGuess(g, reach, target, name, hops[j]));
    }
  }

  lemma {:induction false} JoinPrefix(g: Graph, target: nat, name: string, maxDepth: nat, hops: seq<Hop>, k: nat)
    requires Valid(g) && maxDepth >= 1 && k <= |hops|
    requires forall h :: h in hops ==> h in Reach(g.edges, target, name, maxDepth)
    ensures var reach := Reach(g.edges, target, name, maxDepth);
            JoinAll(g, reach, target, name, hops[..k]) <= JoinAll(g, reach, target, name, hops)
    decreases |hops|
  {
    hide Valid, Reach, JoinRow;
    if k == |hops| {
      assert hops[..k] == hops;
    } else {
      var init := hops[..|hops| - 1];
      assert forall h :: h in init ==> h in hops;
      JoinPrefix(g, target, name, maxDepth, init, k);
      assert init[..k] == hops[..k];
    }
  }

  /** The cap keeps the first rows of the whole answer, as many as there is room for. */
  lemma CapKeepsFirst(g: Graph, target: nat, name: string, maxDepth: nat, cap: nat, rows: seq<Hop>)
    requires Valid(g) && maxDepth >= 1 && Lists(rows, Reach(g.edges, target, name, maxDepth))
    ensures var kept, whole := WalkCallers(g, target, name, maxDepth, cap, rows),
                               WalkCallers(g, target, name, maxDepth, |rows|, rows);
            kept <= whole && |whole| == |rows| && |kept| == if cap < |rows| then cap else |rows|
  {
    hide Valid, Reach, JoinAll, IsGuess, RowMeans;
    var hops := Ordered(g, Reach(g.edges, target, name, maxDepth), target, name, rows);
    OrderedLists(g, Reach(g.edges, target, name, maxDepth), target, name, rows);
    assert forall x :: x in Take(hops, cap) ==> x in hops;
    JoinAllMeans(g, target, name, maxDepth, hops);
    JoinAllMeans(g, target, name, maxDepth, Take(hops, cap));
    if cap < |hops| { JoinPrefix(g, target, name, maxDepth, hops, cap); }
  }

  // ---- callees ----

  function Targets(edges: seq<EdgeRow>, maxDepth: nat, h: Hop): seq<Hop> {
    if h.depth < maxDepth then TargetsAt(Keep(edges, (e: EdgeRow) => CallFrom(e, h.id) && e.dstId.Some?), h.depth + 1)
    else []
  }

  predicate CallFrom(e: EdgeRow, id: nat) { e.kind == Calls && e.srcId == id }

  function TargetsAt(edges: seq<EdgeRow>, depth: nat): seq<Hop> {
    seq(|edges|, i requires 0 <= i < |edges| => Hop(if edges[i].dstId.Some? then edges[i].dstId.value else 0, depth))
  }

  lemma TargetMeaning(edges: seq<EdgeRow>, maxDepth: nat, h: Hop, x: Hop)
    ensures x in Targets(edges, maxDepth, h) <==>
            h.depth < maxDepth && x.depth == h.depth + 1
            && exists e :: e in edges && CallFrom(e, h.id) && e.dstId == Some(x.id)
  {
    var kept := Keep(edges, (e: EdgeRow) => CallFrom(e, h.id) && e.dstId.Some?);
    if x in TargetsAt(kept, h.depth + 1) {
      var i :| 0 <= i < |kept| && TargetsAt(kept, h.depth + 1)[i] == x;
      assert kept[i] in kept;
      assert kept[i] in edges && CallFrom(kept[i], h.id) && kept[i].dstId == Some(x.id);
    }
    if e :| e in edges && CallFrom(e, h.id) && e.dstId == Some(x.id) && x.depth == h.depth + 1 {
      assert e in kept;
      var i :| 0 <= i < |kept| && kept[i] == e;
      assert TargetsAt(kept, h.depth + 1)[i] == x;
    }
  }

  function ForwardUniverse(edges: seq<EdgeRow>, start: nat, maxDepth: nat): set<Hop> {
    (set e, d | e in edges && 1 <= d <= maxDepth && e.dstId.Some? :: Hop(e.dstId.value, d)) + {Hop(start, 0)}
  }

  lemma TargetsStayIn(edges: seq<EdgeRow>, start: nat, maxDepth: nat)
    ensures StaysIn(h => Targets(edges, maxDepth, h), ForwardUniverse(edges, start, maxDepth))
  {
    forall h, x | h in ForwardUniverse(edges, start, maxDepth) && x in Targets(edges, maxDepth, h)
      ensures x in ForwardUniverse(edges, start, maxDepth)
    {
      TargetMeaning(edges, maxDepth, h, x);
    }
  }

  function ForwardReach(edges: seq<EdgeRow>, start: nat, maxDepth: nat): set<Hop> {
    TargetsStayIn(edges, start, maxDepth);
    Closure(h => Targets(edges, maxDepth, h), ForwardUniverse(edges, start, maxDepth), {Hop(start, 0)}, [Hop(start, 0)])
  }

  /** A path of resolved calls that ends in `v`. */
  ghost predicate PathTo(edges: seq<EdgeRow>, w: seq<EdgeRow>, start: nat, v: nat)
    decreases |w|
  {
    if w == [] then v == start
    else
      var last := w[|w| - 1];
      last in edges && last.kind == Calls && last.dstId == Some(v) && PathTo(edges, w[..|w| - 1], start, last.srcId)
  }

  ghost predicate PathOfLength(edges: seq<EdgeRow>, start: nat, v: nat, d: nat) {
    exists w :: |w| == d && PathTo(edges, w, start, v)
  }

  lemma PathLonger(edges: seq<EdgeRow>, start: nat, v: nat, d: nat)
    ensures PathOfLength(edges, start, v, d + 1) <==>
            exists e :: e in edges && e.kind == Calls && e.dstId == Some(v) && PathOfLength(edges, start, e.srcId, d)
  {
    if PathOfLength(edges, start, v, d + 1) {
      var w: seq<EdgeRow> :| |w| == d + 1 && PathTo(edges, w, start, v);
      assert |w[..d]| == d && PathTo(edges, w[..d], start, w[d].srcId);
      assert PathOfLength(edges, start, w[d].srcId, d);
    }
    if e :| e in edges && e.kind == Calls && e.dstId == Some(v) && PathOfLength(edges, start, e.srcId, d) {
      var w: seq<EdgeRow> :| |w| == d && PathTo(edges, w, start, e.srcId);
      assert (w + [e])[..d] == w;
      assert |w + [e]| == d + 1 && PathTo(edges, w + [e], start, v);
    }
  }

  lemma ForwardReachIsClosed(edges: seq<EdgeRow>, start: nat, maxDepth: nat)
    ensures var r := ForwardReach(edges, start, maxDepth);
            Hop(start, 0) in r && forall h, x :: h in r && x in Targets(edges, maxDepth, h) ==> x in r
  {
    hide ForwardUniverse, Targets;
    TargetsStayIn(edges, start, maxDepth);
    var next, queue := h => Targets(edges, maxDepth, h), [Hop(start, 0)];
    assert {Hop(start, 0)} <= ForwardUniverse(edges, start, maxDepth) by { StartInUniverse(edges, start, maxDepth); }
    assert Elements(queue) <= {Hop(start, 0)};
    assert forall h :: h in {Hop(start, 0)} ==> h == queue[0] && h in queue;
    ClosureIsClosed(next, ForwardUniverse(edges, start, maxDepth), {Hop(start, 0)}, queue);
    var r := ForwardReach(edges, start, maxDepth);
    assert r == Closure(next, ForwardUniverse(edges, start, maxDepth), {Hop(start, 0)}, queue);
    forall h, x | h in r && x in Targets(edges, maxDepth, h) ensures x in r { assert x in next(h); }
  }

  lemma StartInUniverse(edges: seq<EdgeRow>, start: nat, maxDepth: nat)
    ensures {Hop(start, 0)} <= ForwardUniverse(edges, start, maxDepth)
  {
  }

  lemma {:induction false} PathsAreReached(edges: seq<EdgeRow>, start: nat, maxDepth: nat, v: nat, d: nat)
    requires d <= maxDepth && PathOfLength(edges, start, v, d)
    ensures Hop(v, d) in ForwardReach(edges, start, maxDepth)
    decreases d
  {
    hide ForwardReach;
    ForwardReachIsClosed(edges, start, maxDepth);
    if d > 0 {
      PathLonger(edges, start, v, d - 1);
      var e :| e in edges && e.kind == Calls && e.dstId == Some(v) && PathOfLength(edges, start, e.srcId, d - 1);
      PathsAreReached(edges, start, maxDepth, e.srcId, d - 1);
      TargetMeaning(edges, maxDepth, Hop(e.srcId, d - 1), Hop(v, d));
    }
  }

  lemma ForwardReachedArePaths(edges: seq<EdgeRow>, start: nat, maxDepth: nat)
    ensures forall h :: h in ForwardReach(edges, start, maxDepth) ==>
              h.depth <= maxDepth && PathOfLength(edges, start, h.id, h.depth)
  {
    hide ForwardUniverse, Targets, PathOfLength;
    TargetsStayIn(edges, start, maxDepth);
    StartInUniverse(edges, start, maxDepth);
    var next, queue := h => Targets(edges, maxDepth, h), [Hop(start, 0)];
    var p := (h: Hop) => h.depth <= maxDepth && PathOfLength(edges, start, h.id, h.depth);
    assert p(Hop(start, 0)) by { EmptyPath(edges, start); }
    forall h, x | p(h) && x in next(h) ensures p(x) {
      TargetMeaning(edges, maxDepth, h, x);
      PathLonger(edges, start, x.id, h.depth);
    }
    assert Elements(queue) <= {Hop(start, 0)};
    ClosureIsLeast(next, ForwardUniverse(edges, start, maxDepth), {Hop(start, 0)}, queue, p);
  }

  lemma EmptyPath(edges: seq<EdgeRow>, start: nat)
    ensures PathOfLength(edges, start, start, 0)
  {
    var none: seq<EdgeRow> := [];
    assert |none| == 0 && PathTo(edges, none, start, start);
  }

  /** The rows of `callees_of` before its limit: every call, resolved or not, out of a node reached below the depth. */
  function CalleeRows(edges: seq<EdgeRow>, start: nat, maxDepth: nat): set<(EdgeRow, nat)> {
    set h, e | h in ForwardReach(edges, start, maxDepth) && h.depth < maxDepth && e in edges && CallFrom(e, h.id)
      :: (e, h.depth + 1)
  }

  /** A call is listed at depth d exactly when d - 1 resolved calls lead from the start to its caller. */
  lemma CalleesArePaths(edges: seq<EdgeRow>, start: nat, maxDepth: nat, e: EdgeRow, d: nat)
    ensures (e, d) in CalleeRows(edges, start, maxDepth) <==>
            1 <= d <= maxDepth && e in edges && e.kind == Calls && PathOfLength(edges, start, e.srcId, d - 1)
  {
    hide ForwardReach, PathOfLength;
    ForwardReachedArePaths(edges, start, maxDepth);
    if 1 <= d <= maxDepth && e in edges && e.kind == Calls && PathOfLength(edges, start, e.srcId, d - 1) {
      PathsAreReached(edges, start, maxDepth, e.srcId, d - 1);
      assert Hop(e.srcId, d - 1).depth + 1 == d && CallFrom(e, e.srcId);
    }
  }
}
