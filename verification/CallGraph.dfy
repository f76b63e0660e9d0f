/** Walks over the call graph: node-deduplicated recursion, the edge picked for each row, and the capped answer. */
module CallGraph {
  import opened Wrappers
  import opened Sequences
  import opened Schema
  import opened Recursion
  import Names

  // ---- hops ----

  predicate Into(e: EdgeRow, id: nat) { e.kind == Calls && e.dstId == Some(id) }

  /** A call of the target: resolved to it, or unresolved and matching its name. */
  predicate IntoTarget(e: EdgeRow, target: nat, name: string) {
    e.kind == Calls && (e.dstId == Some(target) || (e.dstId.None? && Names.SuffixMatch(e.dstName, name)))
  }

  function SourcesAt(edges: seq<EdgeRow>, depth: nat): seq<Hop> {
    seq(|edges|, i requires 0 <= i < |edges| => Hop(edges[i].srcId, depth))
  }

  function Seeds(edges: seq<EdgeRow>, target: nat, name: string): seq<Hop> {
    SourcesAt(Keep(edges, (e: EdgeRow) => IntoTarget(e, target, name)), 1)
  }

  function CallersOfHop(edges: seq<EdgeRow>, maxDepth: nat, h: Hop): seq<Hop> {
    if h.depth < maxDepth then SourcesAt(Keep(edges, (e: EdgeRow) => Into(e, h.id)), h.depth + 1) else []
  }

  function Universe(edges: seq<EdgeRow>, maxDepth: nat): set<Hop> {
    set e, d | e in edges && 1 <= d <= maxDepth :: Hop(e.srcId, d)
  }

  lemma CallersStayIn(edges: seq<EdgeRow>, maxDepth: nat)
    ensures StaysIn(h => CallersOfHop(edges, maxDepth, h), Universe(edges, maxDepth))
  {
    forall h, x | h in Universe(edges, maxDepth) && x in CallersOfHop(edges, maxDepth, h)
      ensures x in Universe(edges, maxDepth)
    {
      CallersOfHopMeaning(edges, maxDepth, h, x);
    }
  }

  lemma SeedMeaning(edges: seq<EdgeRow>, target: nat, name: string, x: Hop)
    ensures x in Seeds(edges, target, name) <==>
            x.depth == 1 && exists e :: e in edges && IntoTarget(e, target, name) && e.srcId == x.id
  {
    var kept := Keep(edges, (e: EdgeRow) => IntoTarget(e, target, name));
    SourcesMeaning(kept, 1, x);
  }

  lemma SourcesMeaning(edges: seq<EdgeRow>, depth: nat, x: Hop)
    ensures x in SourcesAt(edges, depth) <==> x.depth == depth && exists e :: e in edges && e.srcId == x.id
  {
    if x in SourcesAt(edges, depth) {
      var i :| 0 <= i < |edges| && SourcesAt(edges, depth)[i] == x;
      assert edges[i] in edges;
    }
    if x.depth == depth && exists e :: e in edges && e.srcId == x.id {
      var e :| e in edges && e.srcId == x.id;
      var i :| 0 <= i < |edges| && edges[i] == e;
      assert SourcesAt(edges, depth)[i] == x;
    }
  }

  lemma CallersOfHopMeaning(edges: seq<EdgeRow>, maxDepth: nat, h: Hop, x: Hop)
    ensures x in CallersOfHop(edges, maxDepth, h) <==>
            h.depth < maxDepth && x.depth == h.depth + 1 && exists e :: e in edges && Into(e, h.id) && e.srcId == x.id
  {
    SourcesMeaning(Keep(edges, (e: EdgeRow) => Into(e, h.id)), h.depth + 1, x);
  }

  /** The rows of the recursive query behind `callers_of` and `impact_of`. */
  function Reach(edges: seq<EdgeRow>, target: nat, name: string, maxDepth: nat): set<Hop>
    requires maxDepth >= 1
  {
    CallersStayIn(edges, maxDepth);
    var seeds := Unseen({}, Seeds(edges, target, name));
    SeedsInUniverse(edges, target, name, maxDepth);
    Closure(h => CallersOfHop(edges, maxDepth, h), Universe(edges, maxDepth), Elements(seeds), seeds)
  }

  lemma SeedsInUniverse(edges: seq<EdgeRow>, target: nat, name: string, maxDepth: nat)
    requires maxDepth >= 1
    ensures Elements(Unseen({}, Seeds(edges, target, name))) <= Universe(edges, maxDepth)
  {
    forall x | x in Elements(Unseen({}, Seeds(edges, target, name))) ensures x in Universe(edges, maxDepth) {
      assert x in Elements(Seeds(edges, target, name));
      SeedMeaning(edges, target, name, x);
    }
  }

  // ---- call paths ----

  /** A call path from `v` to the target: resolved hops, the last one perhaps a name match. */
  ghost predicate Walk(edges: seq<EdgeRow>, w: seq<EdgeRow>, v: nat, target: nat, name: string)
    decreases |w|
  {
    && |w| > 0 && w[0] in edges && w[0].srcId == v && w[0].kind == Calls
    && if |w| == 1 then w[0].dstId == Some(target) || (w[0].dstId.None? && Names.SuffixMatch(w[0].dstName, name))
       else w[0].dstId.Some? && Walk(edges, w[1..], w[0].dstId.value, target, name)
  }

  ghost predicate WalkOfLength(edges: seq<EdgeRow>, v: nat, d: nat, target: nat, name: string) {
    exists w :: |w| == d && Walk(edges, w, v, target, name)
  }

  /** A path one call longer is a call into the start of a path. */
  lemma WalkLonger(edges: seq<EdgeRow>, v: nat, d: nat, target: nat, name: string)
    requires d >= 1
    ensures WalkOfLength(edges, v, d + 1, target, name) <==>
            exists e :: e in edges && e.srcId == v && e.kind == Calls && e.dstId.Some?
                        && WalkOfLength(edges, e.dstId.value, d, target, name)
  {
    if WalkOfLength(edges, v, d + 1, target, name) {
      var w: seq<EdgeRow> :| |w| == d + 1 && Walk(edges, w, v, target, name);
      assert |w[1..]| == d && Walk(edges, w[1..], w[0].dstId.value, target, name);
      assert WalkOfLength(edges, w[0].dstId.value, d, target, name);
    }
    if e :| e in edges && e.srcId == v && e.kind == Calls && e.dstId.Some?
            && WalkOfLength(edges, e.dstId.value, d, target, name) {
      var w: seq<EdgeRow> :| |w| == d && Walk(edges, w, e.dstId.value, target, name);
      assert ([e] + w)[1..] == w;
      assert |[e] + w| == d + 1 && Walk(edges, [e] + w, v, target, name);
    }
  }

  lemma WalkOfOne(edges: seq<EdgeRow>, v: nat, target: nat, name: string)
    ensures WalkOfLength(edges, v, 1, target, name) <==>
            exists e :: e in edges && IntoTarget(e, target, name) && e.srcId == v
  {
    if e :| e in edges && IntoTarget(e, target, name) && e.srcId == v {
      assert |[e]| == 1 && Walk(edges, [e], v, target, name);
    }
  }

  lemma ReachIsClosed(edges: seq<EdgeRow>, target: nat, name: string, maxDepth: nat)
    requires maxDepth >= 1
    ensures var r := Reach(edges, target, name, maxDepth);
            && (forall x :: x in Seeds(edges, target, name) ==> x in r)
            && (forall h, x :: h in r && x in CallersOfHop(edges, maxDepth, h) ==> x in r)
  {
    hide Universe, Seeds, CallersOfHop;
    CallersStayIn(edges, maxDepth);
    SeedsInUniverse(edges, target, name, maxDepth);
    var seeds := Unseen({}, Seeds(edges, target, name));
    var next := h => CallersOfHop(edges, maxDepth, h);
    assert ClosedBehind(next, Elements(seeds), seeds);
    ClosureIsClosed(next, Universe(edges, maxDepth), Elements(seeds), seeds);
    var r := Reach(edges, target, name, maxDepth);
    assert r == Closure(next, Universe(edges, maxDepth), Elements(seeds), seeds);
    forall x | x in Seeds(edges, target, name) ensures x in r {
      assert x in Elements(Seeds(edges, target, name));
      assert x in Elements(seeds);
    }
    forall h, x | h in r && x in CallersOfHop(edges, maxDepth, h) ensures x in r { assert x in next(h); }
  }

  lemma {:induction false} WalksAreReached(edges: seq<EdgeRow>, target: nat, name: string, maxDepth: nat, v: nat,
                                           d: nat)
    requires 1 <= d <= maxDepth && WalkOfLength(edges, v, d, target, name)
    ensures Hop(v, d) in Reach(edges, target, name, maxDepth)
    decreases d
  {
    hide Reach;
    ReachIsClosed(edges, target, name, maxDepth);
    if d == 1 {
      WalkOfOne(edges, v, target, name);
      SeedMeaning(edges, target, name, Hop(v, 1));
    } else {
      WalkLonger(edges, v, d - 1, target, name);
      var e :| e in edges && e.srcId == v && e.kind == Calls && e.dstId.Some?
               && WalkOfLength(edges, e.dstId.value, d - 1, target, name);
      WalksAreReached(edges, target, name, maxDepth, e.dstId.value, d - 1);
      CallersOfHopMeaning(edges, maxDepth, Hop(e.dstId.value, d - 1), Hop(v, d));
    }
  }

  ghost predicate Proper(edges: seq<EdgeRow>, target: nat, name: string, maxDepth: nat, h: Hop) {
    1 <= h.depth <= maxDepth && WalkOfLength(edges, h.id, h.depth, target, name)
  }

  lemma ReachedAreWalks(edges: seq<EdgeRow>, target: nat, name: string, maxDepth: nat)
    requires maxDepth >= 1
    ensures forall h :: h in Reach(edges, target, name, maxDepth) ==> Proper(edges, target, name, maxDepth, h)
  {
    hide Universe, Seeds, CallersOfHop, WalkOfLength;
    CallersStayIn(edges, maxDepth);
    SeedsInUniverse(edges, target, name, maxDepth);
    var seeds := Unseen({}, Seeds(edges, target, name));
    var next := h => CallersOfHop(edges, maxDepth, h);
    var p := h => Proper(edges, target, name, maxDepth, h);
    forall h | h in Elements(seeds) ensures p(h) {
      assert h in Elements(Seeds(edges, target, name));
      SeedMeaning(edges, target, name, h);
      WalkOfOne(edges, h.id, target, name);
    }
    forall h, x | p(h) && x in next(h) ensures p(x) {
      CallersOfHopMeaning(edges, maxDepth, h, x);
      WalkLonger(edges, x.id, h.depth, target, name);
    }
    ClosureIsLeast(next, Universe(edges, maxDepth), Elements(seeds), seeds, p);
  }

  /** The deduplicated recursion reaches exactly the (node, depth) pairs that some call path witnesses. */
  lemma ReachIsPathEnumeration(edges: seq<EdgeRow>, target: nat, name: string, maxDepth: nat, v: nat, d: nat)
    requires maxDepth >= 1
    ensures Hop(v, d) in Reach(edges, target, name, maxDepth) <==>
            1 <= d <= maxDepth && WalkOfLength(edges, v, d, target, name)
  {
    hide Reach, WalkOfLength;
    ReachedAreWalks(edges, target, name, maxDepth);
    if 1 <= d <= maxDepth && WalkOfLength(edges, v, d, target, name) {
      WalksAreReached(edges, target, name, maxDepth, v, d);
    }
  }

  // ---- size ----

  function CallerIds(edges: seq<EdgeRow>): set<nat> { set e | e in edges :: e.srcId }

  function Grid(ids: set<nat>, maxDepth: nat): set<Hop> { set i, d | i in ids && 1 <= d <= maxDepth :: Hop(i, d) }

  function Row(ids: set<nat>, depth: nat): set<Hop> { set i | i in ids :: Hop(i, depth) }

  lemma GridGrows(ids: set<nat>, maxDepth: nat)
    ensures Grid(ids, 0) == {}
    ensures Grid(ids, maxDepth + 1) == Grid(ids, maxDepth) + Row(ids, maxDepth + 1)
    ensures Grid(ids, maxDepth) !! Row(ids, maxDepth + 1)
  {
  }

  lemma {:induction false} GridSize(ids: set<nat>, maxDepth: nat)
    ensures |Grid(ids, maxDepth)| == |ids| * maxDepth
  {
    hide Grid, Row;
    if maxDepth == 0 {
      GridGrows(ids, 0);
    } else {
      GridSize(ids, maxDepth - 1);
      GridGrows(ids, maxDepth - 1);
      RowSize(ids, maxDepth);
      assert |ids| * (maxDepth - 1) + |ids| == |ids| * maxDepth;
    }
  }

  lemma {:induction false} RowSize(ids: set<nat>, depth: nat)
    ensures |Row(ids, depth)| == |ids|
  {
    if ids == {} {
      assert Row(ids, depth) == {};
    } else {
      var x :| x in ids;
      RowSize(ids - {x}, depth);
      assert Row(ids, depth) == Row(ids - {x}, depth) + {Hop(x, depth)} && Hop(x, depth) !in Row(ids - {x}, depth);
    }
  }

  /** Cycles or not, the recursion holds at most one row per calling symbol and depth. */
  lemma ReachIsBounded(edges: seq<EdgeRow>, target: nat, name: string, maxDepth: nat)
    requires maxDepth >= 1
    ensures |Reach(edges, target, name, maxDepth)| <= |CallerIds(edges)| * maxDepth
  {
    var grid := Grid(CallerIds(edges), maxDepth);
    GridSize(CallerIds(edges), maxDepth);
    forall h | h in Universe(edges, maxDepth) ensures h in grid {}
    var reach := Reach(edges, target, name, maxDepth);
    CallersStayIn(edges, maxDepth);
    SeedsInUniverse(edges, target, name, maxDepth);
    assert reach <= Universe(edges, maxDepth);
    assert grid == reach + (grid - reach);
  }
}
