/** Reciprocal rank fusion of the keyword and vector lists, the structural priors, and the final order. */
module Fusion {
  import opened Wrappers
  import opened Sequences
  import opened Sorting

  const RRF_K := 60.0
  const CANDIDATES := 50

  /** What a lookup of a candidate chunk returns; the path rules are answers given from outside. */
  datatype ChunkFacts = ChunkFacts(tokens: nat, testPath: bool, isTest: bool, nonCorePath: bool, isModule: bool)
  datatype Priors = Priors(test: real, preamble: real, tiny: real, nonCore: real, tinyFloor: nat)
  datatype SearchOutcome = Strong | WeakVectorOnly

  /** A chunk with its score. */
  type Scored = (int, real)

  const DEFAULT_PRIORS := Priors(0.4, 0.5, 0.7, 0.3, 32)

  // ---- fused scores ----

  function Weight(rank: nat): real { 1.0 / (RRF_K + rank as real) }

  /** What a ranked list gives a chunk. */
  function ListScore(list: seq<int>, id: int, n: nat): real
    requires n <= |list|
  {
    if n == 0 then 0.0 else ListScore(list, id, n - 1) + if list[n - 1] == id then Weight(n - 1) else 0.0
  }

  function Fused(keyword: seq<int>, vector: seq<int>, id: int): real {
    ListScore(keyword, id, |keyword|) + ListScore(vector, id, |vector|)
  }

  function Get(scores: map<int, real>, id: int): real { if id in scores then scores[id] else 0.0 }

  method AddList(before: map<int, real>, list: seq<int>) returns (scores: map<int, real>)
    ensures forall id :: id in scores <==> id in before || id in list
    ensures forall id :: Get(scores, id) == Get(before, id) + ListScore(list, id, |list|)
  {
    hide Weight;
    scores := before;
    for rank := 0 to |list|
      invariant forall id :: id in scores <==> id in before || id in list[..rank]
      invariant forall id :: Get(scores, id) == Get(before, id) + ListScore(list, id, rank)
    {
      assert list[..rank + 1] == list[..rank] + [list[rank]];
      scores := scores[list[rank] := Get(scores, list[rank]) + Weight(rank)];
    }
    assert list[..|list|] == list;
  }

  /** The last place a list gives a chunk. */
  function LastRank(list: seq<int>, id: int, n: nat): (r: Option<nat>)
    requires n <= |list|
    ensures r.Some? ==> r.value < n && list[r.value] == id
    ensures r.None? ==> id !in list[..n]
  {
    if n == 0 then None
    else if list[n - 1] == id then Some(n - 1)
    else
      assert list[..n] == list[..n - 1] + [list[n - 1]];
      LastRank(list, id, n - 1)
  }

  function Place(vectorRank: map<int, nat>, id: int): Option<nat> {
    if id in vectorRank then Some(vectorRank[id]) else None
  }

  method RankMap(list: seq<int>) returns (vectorRank: map<int, nat>)
    ensures forall id :: Place(vectorRank, id) == LastRank(list, id, |list|)
  {
    vectorRank := map[];
    for rank := 0 to |list|
      invariant forall id :: Place(vectorRank, id) == LastRank(list, id, rank)
    {
      vectorRank := vectorRank[list[rank] := rank];
    }
  }

  // ---- priors ----

  /** The product of the penalties a chunk earns. */
  function Factor(row: ChunkFacts, p: Priors, skipTest: bool, skipNonCore: bool): real {
    (if !skipTest && (row.testPath || row.isTest) then p.test else 1.0)
    * (if !skipNonCore && row.nonCorePath then p.nonCore else 1.0)
    * (if row.isModule then p.preamble else 1.0)
    * (if row.tokens < p.tinyFloor then p.tiny else 1.0)
  }

  function FactorOf(rows: map<int, ChunkFacts>, id: int, p: Priors, skipTest: bool, skipNonCore: bool): real {
    if id in rows then Factor(rows[id], p, skipTest, skipNonCore) else 1.0
  }

  /** One chunk's score, penalty by penalty. */
  method Penalise(score: real, row: ChunkFacts, p: Priors, skipTest: bool, skipNonCore: bool) returns (s: real)
    ensures s == score * Factor(row, p, skipTest, skipNonCore)
  {
    s := score;
    var a, b := 1.0, 1.0;
    if !skipTest && (row.testPath || row.isTest) { s, a := s * p.test, p.test; }
    if !skipNonCore && row.nonCorePath { s, b := s * p.nonCore, p.nonCore; }
    assert s == score * (a * b);
    var c, d := 1.0, 1.0;
    if row.isModule { s, c := s * p.preamble, p.preamble; }
    if row.tokens < p.tinyFloor { s, d := s * p.tiny, p.tiny; }
    Reassociate(score, a * b, c, d);
  }

  lemma Reassociate(s: real, x: real, c: real, d: real)
    ensures s * x * c * d == s * (x * c * d)
  {
    assert s * x * c == s * (x * c);
    assert s * (x * c) * d == s * ((x * c) * d);
  }

  lemma HasMember(ids: set<int>)
    requires ids != {}
    ensures exists id :: id in ids
  {
    assert (forall id :: id !in ids) ==> ids == {};
  }

  /** A score with the penalties its chunk earns. */
  function Weighted(score: real, rows: map<int, ChunkFacts>, id: int, p: Priors, seeksTests: bool,
                    seeksNonCore: bool): real
  {
    score * FactorOf(rows, id, p, seeksTests, seeksNonCore)
  }

  /** A penalty of 1 changes nothing, so skipping it is the same. */
  lemma SkippedIsWeighted(score: real, rows: map<int, ChunkFacts>, id: int, p: Priors, seeksTests: bool,
                          seeksNonCore: bool)
    ensures var skipTest, skipNonCore := p.test == 1.0 || seeksTests, p.nonCore == 1.0 || seeksNonCore;
            && (id in rows ==>
                  Weighted(score, rows, id, p, seeksTests, seeksNonCore) ==
                  score * Factor(rows[id], p, skipTest, skipNonCore))
            && (id !in rows || (skipTest && skipNonCore && p.preamble == 1.0 && p.tiny == 1.0) ==>
                  Weighted(score, rows, id, p, seeksTests, seeksNonCore) == score)
  {
    var skipTest, skipNonCore := p.test == 1.0 || seeksTests, p.nonCore == 1.0 || seeksNonCore;
    if id in rows {
      assert Factor(rows[id], p, skipTest, skipNonCore) == Factor(rows[id], p, seeksTests, seeksNonCore);
    }
  }

  method ApplyPriors(scores: map<int, real>, rows: map<int, ChunkFacts>, p: Priors, seeksTests: bool,
                     seeksNonCore: bool)
    returns (out: map<int, real>)
    ensures out.Keys == scores.Keys
    ensures forall id :: id in scores ==> out[id] == Weighted(scores[id], rows, id, p, seeksTests, seeksNonCore)
  {
    hide Weighted, Factor;
    var skipTest, skipNonCore := p.test == 1.0 || seeksTests, p.nonCore == 1.0 || seeksNonCore;
    out := scores;
    if skipTest && skipNonCore && p.preamble == 1.0 && p.tiny == 1.0 {
      forall id | id in scores ensures out[id] == Weighted(scores[id], rows, id, p, seeksTests, seeksNonCore) {
        SkippedIsWeighted(scores[id], rows, id, p, seeksTests, seeksNonCore);
      }
      return;
    }
    var todo := scores.Keys;
    while todo != {}
      invariant todo <= scores.Keys && out.Keys == scores.Keys
      invariant forall id :: id in todo ==> out[id] == scores[id]
      invariant forall id :: id in scores && id !in todo ==>
                  out[id] == Weighted(scores[id], rows, id, p, seeksTests, seeksNonCore)
      decreases |todo|
    {
      HasMember(todo);
      var id :| id in todo;
      SkippedIsWeighted(scores[id], rows, id, p, seeksTests, seeksNonCore);
      if id in rows {
        var s := Penalise(out[id], rows[id], p, skipTest, skipNonCore);
        out := out[id := s];
      }
      todo := todo - {id};
    }
  }

  // ---- the final order ----

  /** A place in the vector list comes before none. */
  predicate PlaceLe(a: Option<nat>, b: Option<nat>) { b.None? || (a.Some? && a.value <= b.value) }

  /** Score first, then the vector list's order, then the chunk id. */
  predicate Before(vectorRank: map<int, nat>, a: Scored, b: Scored) {
    var x, y := Place(vectorRank, a.0), Place(vectorRank, b.0);
    a.1 > b.1 || (a.1 == b.1 && (if x == y then a.0 <= b.0 else PlaceLe(x, y)))
  }

  function Order(vectorRank: map<int, nat>): (Scored, Scored) -> bool {
    (a: Scored, b: Scored) => Before(vectorRank, a, b)
  }

  lemma OrderIsTotal(vectorRank: map<int, nat>)
    ensures Total(Order(vectorRank))
    ensures forall a, b :: Order(vectorRank)(a, b) && Order(vectorRank)(b, a) ==> a == b
  {
  }

  /** Every candidate once, with its score, in the final order. */
  ghost predicate Ranking(all: seq<Scored>, scores: map<int, real>, vectorRank: map<int, nat>) {
    && Sorted(all, Order(vectorRank))
    && (forall i, j :: 0 <= i < j < |all| ==> all[i].0 != all[j].0)
    && (forall x :: x in all <==> x.0 in scores && x.1 == scores[x.0])
  }

  method Listed(scores: map<int, real>) returns (all: seq<Scored>)
    ensures forall i, j :: 0 <= i < j < |all| ==> all[i].0 != all[j].0
    ensures forall x :: x in all <==> x.0 in scores && x.1 == scores[x.0]
  {
    all := [];
    var todo := scores.Keys;
    while todo != {}
      invariant todo <= scores.Keys
      invariant forall i, j :: 0 <= i < j < |all| ==> all[i].0 != all[j].0
      invariant forall x :: x in all <==> x.0 in scores && x.0 !in todo && x.1 == scores[x.0]
      decreases |todo|
    {
      HasMember(todo);
      var id :| id in todo;
      assert forall k :: 0 <= k < |all| ==> all[k] in all;
      all := all + [(id, scores[id])];
      todo := todo - {id};
    }
  }

  lemma KeepsDistinct(a: seq<Scored>, b: seq<Scored>)
    requires multiset(a) == multiset(b) && forall i, j :: 0 <= i < j < |a| ==> a[i].0 != a[j].0
    ensures forall i, j :: 0 <= i < j < |b| ==> b[i].0 != b[j].0
  {
    SameElements(b, a);
    StayDifferent(a, b);
    forall i, j | 0 <= i < j < |b| ensures b[i].0 != b[j].0 {
      assert b[i] in a && b[j] in a;
      var p :| 0 <= p < |a| && a[p] == b[i];
      var q :| 0 <= q < |a| && a[q] == b[j];
      assert p != q;
    }
  }

  /** The order of the results does not depend on the order in which the candidates were collected. */
  lemma RankingIsUnique(a: seq<Scored>, b: seq<Scored>, scores: map<int, real>, vectorRank: map<int, nat>)
    requires Ranking(a, scores, vectorRank) && Ranking(b, scores, vectorRank)
    ensures a == b
  {
    OrderIsTotal(vectorRank);
    forall x ensures multiset(a)[x] == multiset(b)[x] {
      CountedOnce(a, x);
      CountedOnce(b, x);
    }
    assert multiset(a) == multiset(b);
    SortedUnique(a, b, Order(vectorRank));
  }

  // ---- the search ----

  function Near(knn: seq<(int, real)>, floor: Option<real>): seq<(int, real)> {
    if floor.Some? then Keep(knn, (h: (int, real)) => h.1 <= floor.value) else knn
  }

  function Ids(hits: seq<(int, real)>): seq<int> { seq(|hits|, i requires 0 <= i < |hits| => hits[i].0) }

  /** The vector candidates that take part: the near ones, or all when nothing else matched. */
  function VectorList(knn: Option<seq<(int, real)>>, floor: Option<real>, keywordHit: bool): seq<int> {
    if knn.None? then []
    else
      var near := Near(knn.value, floor);
      Ids(if near == [] && !keywordHit then knn.value else near)
  }

  /** Within the floor; or there is none; or nothing is within it and no keyword hit covers the query. */
  ghost predicate TakesPart(knn: seq<(int, real)>, floor: Option<real>, keywordHit: bool, h: (int, real)) {
    floor.None? || h.1 <= floor.value || (!keywordHit && forall x :: x in knn ==> x.1 > floor.value)
  }

  /** `places` are exactly the positions of the neighbours that take part, in order. */
  ghost predicate PlacesOf(knn: seq<(int, real)>, floor: Option<real>, keywordHit: bool, places: seq<nat>) {
    && (forall i, j :: 0 <= i < j < |places| ==> places[i] < places[j])
    && (forall p: nat :: p in places <==> p < |knn| && TakesPart(knn, floor, keywordHit, knn[p]))
  }

  ghost predicate IdsAt(knn: seq<(int, real)>, places: seq<nat>, vector: seq<int>) {
    |vector| == |places| && forall i :: 0 <= i < |places| ==> places[i] < |knn| && vector[i] == knn[places[i]].0
  }

  /** The vector list: the ids of the neighbours that take part, in their order, with no gaps. */
  ghost predicate Participants(knn: Option<seq<(int, real)>>, floor: Option<real>, keywordHit: bool, vector: seq<int>) {
    match knn
    case None => vector == []
    case Some(hits) => exists places :: PlacesOf(hits, floor, keywordHit, places) && IdsAt(hits, places, vector)
  }

  lemma KeptIds(knn: seq<(int, real)>, p: ((int, real)) -> bool) returns (places: seq<nat>)
    ensures Picks(knn, p, places) && IdsAt(knn, places, Ids(Keep(knn, p)))
  {
    hide Keep, Picks;
    places := KeepPlaces(knn, p);
  }

  lemma AllPlaces(knn: seq<(int, real)>) returns (places: seq<nat>)
    ensures Picks(knn, (h: (int, real)) => true, places) && IdsAt(knn, places, Ids(knn))
  {
    hide Keep, IdsAt, Ids;
    places := KeptIds(knn, (h: (int, real)) => true);
    KeepAll(knn, (h: (int, real)) => true);
  }

  lemma ListIsParticipants(knn: Option<seq<(int, real)>>, floor: Option<real>, keywordHit: bool)
    ensures Participants(knn, floor, keywordHit, VectorList(knn, floor, keywordHit))
  {
    if knn.Some? {
      var hits, near := knn.value, Near(knn.value, floor);
      hide Keep, Ids, IdsAt, PlacesOf, Picks;
      if floor.None? || (near == [] && !keywordHit) {
        if floor.Some? { NoneNear(hits, floor.value); }
        var places := AllPlaces(hits);
        AllArePlaces(hits, floor, keywordHit, places);
      } else {
        SomeNear(hits, floor.value);
        var places := KeptIds(hits, (h: (int, real)) => h.1 <= floor.value);
        NearArePlaces(hits, floor.value, keywordHit, places);
      }
    }
  }

  lemma AllArePlaces(hits: seq<(int, real)>, floor: Option<real>, keywordHit: bool, places: seq<nat>)
    requires Picks(hits, (h: (int, real)) => true, places)
    requires floor.None? || (!keywordHit && forall x :: x in hits ==> x.1 > floor.value)
    ensures PlacesOf(hits, floor, keywordHit, places)
  {
  }

  lemma NearArePlaces(hits: seq<(int, real)>, floor: real, keywordHit: bool, places: seq<nat>)
    requires Picks(hits, (h: (int, real)) => h.1 <= floor, places)
    requires keywordHit || exists x :: x in hits && x.1 <= floor
    ensures PlacesOf(hits, Some(floor), keywordHit, places)
  {
  }

  lemma NoneNear(hits: seq<(int, real)>, floor: real)
    requires Near(hits, Some(floor)) == []
    ensures forall x :: x in hits ==> x.1 > floor
  {
    hide Keep;
    forall x | x in hits ensures x.1 > floor {
      assert x.1 <= floor ==> x in Near(hits, Some(floor));
    }
  }

  lemma SomeNear(hits: seq<(int, real)>, floor: real)
    ensures Near(hits, Some(floor)) != [] ==> exists x :: x in hits && x.1 <= floor
  {
    hide Keep;
    var near := Near(hits, Some(floor));
    if near != [] { assert near[0] in near; }
  }

  /** An id is in the vector list exactly when a neighbour with that id takes part. */
  lemma ParticipantIds(knn: Option<seq<(int, real)>>, floor: Option<real>, keywordHit: bool, vector: seq<int>, id: int)
    requires Participants(knn, floor, keywordHit, vector)
    ensures id in vector <==>
            knn.Some? && exists h :: h in knn.value && h.0 == id && TakesPart(knn.value, floor, keywordHit, h)
  {
    if knn.Some? {
      hide TakesPart, PlacesOf, IdsAt;
      var hits := knn.value;
      var places :| PlacesOf(hits, floor, keywordHit, places) && IdsAt(hits, places, vector);
      if id in vector { ListedTakesPart(hits, floor, keywordHit, places, vector, id); }
      if h :| h in hits && h.0 == id && TakesPart(hits, floor, keywordHit, h) {
        PartIsListed(hits, floor, keywordHit, places, vector, h);
      }
    }
  }

  lemma ListedTakesPart(hits: seq<(int, real)>, floor: Option<real>, keywordHit: bool, places: seq<nat>,
                        vector: seq<int>, id: int)
    requires PlacesOf(hits, floor, keywordHit, places) && IdsAt(hits, places, vector) && id in vector
    ensures exists h :: h in hits && h.0 == id && TakesPart(hits, floor, keywordHit, h)
  {
    hide TakesPart;
    var i :| 0 <= i < |vector| && vector[i] == id;
    assert places[i] in places && hits[places[i]] in hits;
  }

  lemma PartIsListed(hits: seq<(int, real)>, floor: Option<real>, keywordHit: bool, places: seq<nat>,
                     vector: seq<int>, h: (int, real))
    requires PlacesOf(hits, floor, keywordHit, places) && IdsAt(hits, places, vector)
    requires h in hits && TakesPart(hits, floor, keywordHit, h)
    ensures h.0 in vector
  {
    hide TakesPart;
    var p :| 0 <= p < |hits| && hits[p] == h;
    assert p in places;
    var i :| 0 <= i < |places| && places[i] == p;
    assert vector[i] == h.0;
  }

  ghost predicate SomethingNear(knn: Option<seq<(int, real)>>, floor: Option<real>) {
    knn.Some? && exists h :: h in knn.value && (floor.None? || h.1 <= floor.value)
  }

  /** The fused scores of both lists, and the places in the vector list. */
  method Collect(keyword: seq<int>, keywordHit: bool, knn: Option<seq<(int, real)>>, floor: Option<real>)
    returns (scores: map<int, real>, vectorRank: map<int, nat>, nearVectorHit: bool)
    ensures var vector := VectorList(knn, floor, keywordHit);
            && (forall id :: id in scores <==> id in keyword || id in vector)
            && (forall id :: id in scores ==> scores[id] == Fused(keyword, vector, id))
            && (forall id :: Place(vectorRank, id) == LastRank(vector, id, |vector|))
            && Participants(knn, floor, keywordHit, vector)
    ensures nearVectorHit <==> SomethingNear(knn, floor)
  {
    hide ListScore, LastRank, Near, SomethingNear, Participants;
    ListIsParticipants(knn, floor, keywordHit);
    scores := AddList(map[], keyword);
    NoScores();
    NoRanks();
    nearVectorHit, vectorRank := false, map[];
    NothingNear(floor);
    if knn.Some? {
      var near := Near(knn.value, floor);
      NearMeans(knn.value, floor);
      var list := knn.value;
      if !(near == [] && !keywordHit) {
        nearVectorHit := near != [];
        list := near;
      }
      scores := AddList(scores, Ids(list));
      vectorRank := RankMap(Ids(list));
    }
    ghost var vector := VectorList(knn, floor, keywordHit);
    assert forall id :: Get(scores, id) == Fused(keyword, vector, id);
  }

  method RankAll(scores: map<int, real>, vectorRank: map<int, nat>) returns (all: seq<Scored>)
    ensures Ranking(all, scores, vectorRank)
  {
    hide Order;
    var listed := Listed(scores);
    all := SortBy(listed, Order(vectorRank));
    OrderIsTotal(vectorRank);
    SortBySorted(listed, Order(vectorRank));
    SortByElements(listed, Order(vectorRank));
    KeepsDistinct(listed, all);
  }

  /**
   Fuses the two lists, applies the priors and ranks. `keyword` is the keyword list, `keywordHit` whether one of
   its hits covers the query; the result is the top of the one ranking of all candidates.
   */
  method SearchHybridScored(keyword: seq<int>, keywordHit: bool, knn: Option<seq<(int, real)>>, floor: Option<real>,
                            rows: map<int, ChunkFacts>, p: Priors, seeksTests: bool, seeksNonCore: bool, limit: nat)
    returns (ranked: seq<Scored>, outcome: SearchOutcome, ghost all: seq<Scored>, ghost scores: map<int, real>,
             ghost vectorRank: map<int, nat>)
    ensures Scores(keyword, VectorList(knn, floor, keywordHit), rows, p, seeksTests, seeksNonCore, scores, vectorRank)
    ensures Participants(knn, floor, keywordHit, VectorList(knn, floor, keywordHit))
    ensures forall id :: id in scores <==> id in keyword || ScoredByVector(knn, floor, keywordHit, id)
    ensures forall i, j :: 0 <= i < j < |all| ==>
              RankedBefore(VectorList(knn, floor, keywordHit), all[i], all[j])
    ensures Ranking(all, scores, vectorRank) && ranked == all[..if limit < |all| then limit else |all|]
    ensures outcome == WeakVectorOnly <==> !keywordHit && !SomethingNear(knn, floor) && ranked != []
  {
    hide VectorList, Fused, FactorOf, SomethingNear, Ranking, Participants, ScoredByVector, RankedBefore;
    ListIsParticipants(knn, floor, keywordHit);
    forall id ensures id in VectorList(knn, floor, keywordHit) <==> ScoredByVector(knn, floor, keywordHit, id) {
      ListedIsScored(knn, floor, keywordHit, id);
    }
    var sums, places, nearVectorHit := Collect(keyword, keywordHit, knn, floor);
    var finals := ApplyPriors(sums, rows, p, seeksTests, seeksNonCore);
    var sorted := RankAll(finals, places);
    ranked := sorted[..if limit < |sorted| then limit else |sorted|];
    outcome := if keywordHit || nearVectorHit || ranked == [] then Strong else WeakVectorOnly;
    all, scores, vectorRank := sorted, finals, places;
    RankingOrder(all, scores, vectorRank, VectorList(knn, floor, keywordHit));
  }

  /** Some neighbour with this id takes part. */
  ghost predicate ScoredByVector(knn: Option<seq<(int, real)>>, floor: Option<real>, keywordHit: bool, id: int) {
    knn.Some? && exists h :: h in knn.value && h.0 == id && TakesPart(knn.value, floor, keywordHit, h)
  }

  lemma ListedIsScored(knn: Option<seq<(int, real)>>, floor: Option<real>, keywordHit: bool, id: int)
    ensures id in VectorList(knn, floor, keywordHit) <==> ScoredByVector(knn, floor, keywordHit, id)
  {
    hide VectorList, Participants, TakesPart;
    ListIsParticipants(knn, floor, keywordHit);
    ParticipantIds(knn, floor, keywordHit, VectorList(knn, floor, keywordHit), id);
  }

  ghost predicate LastPlace(vector: seq<int>, id: int, p: nat) {
    p < |vector| && vector[p] == id && forall q :: p < q < |vector| ==> vector[q] != id
  }

  /** Earlier in the vector list; or in it at all when the other is not; or neither is, and the id is smaller. */
  ghost predicate WinsTie(vector: seq<int>, a: int, b: int) {
    if a in vector then b !in vector || exists p, q :: LastPlace(vector, a, p) && LastPlace(vector, b, q) && p < q
    else b !in vector && a < b
  }

  ghost predicate RankedBefore(vector: seq<int>, a: Scored, b: Scored) {
    a.1 > b.1 || (a.1 == b.1 && WinsTie(vector, a.0, b.0))
  }

  lemma {:induction false} LastRankIs(list: seq<int>, id: int, n: nat)
    requires n <= |list|
    ensures match LastRank(list, id, n)
      case Some(p) => p < n && LastPlace(list[..n], id, p)
      case None => id !in list[..n]
  {
    if n > 0 {
      LastRankIs(list, id, n - 1);
      assert list[..n] == list[..n - 1] + [list[n - 1]];
    }
  }

  lemma BeforeIsRanked(vector: seq<int>, vectorRank: map<int, nat>, a: Scored, b: Scored)
    requires forall id :: Place(vectorRank, id) == LastRank(vector, id, |vector|)
    requires Before(vectorRank, a, b) && a.0 != b.0
    ensures RankedBefore(vector, a, b)
  {
    hide LastRank, Place, LastPlace;
    LastRankIs(vector, a.0, |vector|);
    LastRankIs(vector, b.0, |vector|);
    assert vector[..|vector|] == vector;
    var x, y := Place(vectorRank, a.0), Place(vectorRank, b.0);
    if x.Some? && y.Some? { TwoLastPlaces(vector, a.0, b.0, x.value, y.value); }
    InVector(vector, a.0, x);
    InVector(vector, b.0, y);
  }

  lemma TwoLastPlaces(vector: seq<int>, a: int, b: int, p: nat, q: nat)
    requires LastPlace(vector, a, p) && LastPlace(vector, b, q) && a != b
    ensures p != q
  {
  }

  lemma InVector(vector: seq<int>, id: int, p: Option<nat>)
    requires p.Some? ==> LastPlace(vector, id, p.value)
    requires p.None? ==> id !in vector
    ensures id in vector <==> p.Some?
  {
  }

  lemma RankingOrder(all: seq<Scored>, scores: map<int, real>, vectorRank: map<int, nat>, vector: seq<int>)
    requires Ranking(all, scores, vectorRank)
    requires forall id :: Place(vectorRank, id) == LastRank(vector, id, |vector|)
    ensures forall i, j :: 0 <= i < j < |all| ==> RankedBefore(vector, all[i], all[j])
  {
    hide Place, LastRank, RankedBefore, Before;
    forall i, j | 0 <= i < j < |all| ensures RankedBefore(vector, all[i], all[j]) {
      assert Order(vectorRank)(all[i], all[j]);
      BeforeIsRanked(vector, vectorRank, all[i], all[j]);
    }
  }

  // ---- each penalty on its own ----

  /** Without traits only the size counts. */
  lemma PlainFactor(row: ChunkFacts, p: Priors, skipTest: bool, skipNonCore: bool)
    requires !row.testPath && !row.isTest && !row.nonCorePath && !row.isModule
    ensures Factor(row, p, skipTest, skipNonCore) == if row.tokens < p.tinyFloor then p.tiny else 1.0
  {
  }

  /** A module chunk loses by the preamble penalty, whatever else it loses by. */
  lemma PreambleMultiplies(row: ChunkFacts, p: Priors, skipTest: bool, skipNonCore: bool)
    requires !row.isModule
    ensures Factor(row.(isModule := true), p, skipTest, skipNonCore) ==
            Factor(row, p, skipTest, skipNonCore) * p.preamble
  {
    var x := (if !skipTest && (row.testPath || row.isTest) then p.test else 1.0)
             * (if !skipNonCore && row.nonCorePath then p.nonCore else 1.0);
    Regroup(x, p.preamble, if row.tokens < p.tinyFloor then p.tiny else 1.0);
  }

  /** So does a chunk outside the core, unless that penalty is suspended. */
  lemma NonCoreMultiplies(row: ChunkFacts, p: Priors, skipTest: bool, skipNonCore: bool)
    requires !row.nonCorePath
    ensures Factor(row.(nonCorePath := true), p, skipTest, skipNonCore) ==
            Factor(row, p, skipTest, skipNonCore) * if skipNonCore then 1.0 else p.nonCore
  {
    var a := if !skipTest && (row.testPath || row.isTest) then p.test else 1.0;
    var c, d := if row.isModule then p.preamble else 1.0, if row.tokens < p.tinyFloor then p.tiny else 1.0;
    Regroup(a, if skipNonCore then 1.0 else p.nonCore, c);
    Regroup(a * c, if skipNonCore then 1.0 else p.nonCore, d);
  }

  /** And a test, told by its path or by its own flag. */
  lemma TestMultiplies(row: ChunkFacts, p: Priors, skipTest: bool, skipNonCore: bool, byPath: bool)
    requires !row.testPath && !row.isTest
    ensures Factor(if byPath then row.(testPath := true) else row.(isTest := true), p, skipTest, skipNonCore) ==
            Factor(row, p, skipTest, skipNonCore) * if skipTest then 1.0 else p.test
  {
    var t := if skipTest then 1.0 else p.test;
    var b := if !skipNonCore && row.nonCorePath then p.nonCore else 1.0;
    var c, d := if row.isModule then p.preamble else 1.0, if row.tokens < p.tinyFloor then p.tiny else 1.0;
    Regroup(1.0, t, b);
    Regroup(b, t, c);
    Regroup(b * c, t, d);
  }

  lemma Regroup(x: real, c: real, d: real)
    ensures x * c * d == x * d * c
  {
    assert x * c * d == x * (c * d);
    assert x * d * c == x * (d * c);
  }

  /** Every chunk of either list, with its fused score and its penalties. */
  ghost predicate Scores(keyword: seq<int>, vector: seq<int>, rows: map<int, ChunkFacts>, p: Priors, seeksTests: bool,
                         seeksNonCore: bool, scores: map<int, real>, vectorRank: map<int, nat>)
  {
    && (forall id :: id in scores <==> id in keyword || id in vector)
    && (forall id :: id in scores ==>
          scores[id] == Fused(keyword, vector, id) * FactorOf(rows, id, p, seeksTests, seeksNonCore))
    && (forall id :: Place(vectorRank, id) == LastRank(vector, id, |vector|))
  }

  lemma NothingNear(floor: Option<real>)
    ensures !SomethingNear(None, floor)
  {
  }

  lemma NoRanks()
    ensures forall id :: LastRank([], id, 0) == None
  {
  }

  lemma NoScores()
    ensures forall id :: ListScore([], id, 0) == 0.0
  {
  }

  lemma NearMeans(knn: seq<(int, real)>, floor: Option<real>)
    ensures Near(knn, floor) != [] <==> SomethingNear(Some(knn), floor)
  {
    var near := Near(knn, floor);
    if near != [] { assert near[0] in near; }
  }

  // ---- bounds ----

  /** A candidate list: at most fifty chunks, each once. */
  ghost predicate CandidateList(list: seq<int>) {
    |list| <= CANDIDATES && forall i, j :: 0 <= i < j < |list| ==> list[i] != list[j]
  }

  lemma WeightBounds(rank: nat)
    requires rank < CANDIDATES
    ensures 1.0 / 109.0 <= Weight(rank) <= 1.0 / 60.0
  {
    var d := RRF_K + rank as real;
    assert 60.0 <= d <= 109.0;
    Reciprocal(60.0, d);
    Reciprocal(d, 109.0);
  }

  lemma Reciprocal(a: real, b: real)
    requires 0.0 < a <= b
    ensures 1.0 / b <= 1.0 / a
  {
    assert (1.0 / a) * a == 1.0 && (1.0 / b) * b == 1.0;
    assert (1.0 / b) * a <= (1.0 / b) * b by { assert 1.0 / b > 0.0; }
  }

  lemma {:induction false} ListScoreBounds(list: seq<int>, id: int, n: nat)
    requires n <= |list| && CandidateList(list)
    ensures id in list[..n] ==> 1.0 / 109.0 <= ListScore(list, id, n) <= 1.0 / 60.0
    ensures id !in list[..n] ==> ListScore(list, id, n) == 0.0
  {
    if n > 0 {
      ListScoreBounds(list, id, n - 1);
      WeightBounds(n - 1);
      assert list[..n] == list[..n - 1] + [list[n - 1]];
      assert list[n - 1] !in list[..n - 1];
    }
  }

  function Lists(keyword: seq<int>, vector: seq<int>, id: int): nat {
    (if id in keyword then 1 else 0) + (if id in vector then 1 else 0)
  }

  /** A fused score lies within the bounds of the number of lists that hold the chunk. */
  lemma FusedBounds(keyword: seq<int>, vector: seq<int>, id: int)
    requires CandidateList(keyword) && CandidateList(vector)
    ensures var n := Lists(keyword, vector, id) as real;
            n * (1.0 / 109.0) <= Fused(keyword, vector, id) <= n * (1.0 / 60.0)
  {
    hide ListScore;
    ListScoreBounds(keyword, id, |keyword|);
    ListScoreBounds(vector, id, |vector|);
    assert keyword[..|keyword|] == keyword && vector[..|vector|] == vector;
  }

  /** Before the priors, a chunk in both lists beats any chunk in only one. */
  lemma BothBeatsOne(keyword: seq<int>, vector: seq<int>, both: int, one: int)
    requires CandidateList(keyword) && CandidateList(vector)
    requires Lists(keyword, vector, both) == 2 && Lists(keyword, vector, one) == 1
    ensures Fused(keyword, vector, both) > Fused(keyword, vector, one)
  {
    hide Fused, Lists;
    FusedBounds(keyword, vector, both);
    FusedBounds(keyword, vector, one);
  }

  /** A test, preamble or non-core chunk whose penalty applies. */
  predicate Penalised(row: ChunkFacts, seeksTests: bool, seeksNonCore: bool) {
    (!seeksTests && (row.testPath || row.isTest)) || (!seeksNonCore && row.nonCorePath) || row.isModule
  }

  predicate Unpenalised(rows: map<int, ChunkFacts>, id: int, seeksTests: bool, seeksNonCore: bool) {
    id in rows ==> !Penalised(rows[id], seeksTests, seeksNonCore) && rows[id].tokens >= DEFAULT_PRIORS.tinyFloor
  }

  lemma DefaultFactor(row: ChunkFacts, seeksTests: bool, seeksNonCore: bool)
    ensures 0.0 < Factor(row, DEFAULT_PRIORS, seeksTests, seeksNonCore) <= 1.0
    ensures Penalised(row, seeksTests, seeksNonCore) ==> Factor(row, DEFAULT_PRIORS, seeksTests, seeksNonCore) <= 0.5
  {
  }

  /**
   With the default priors a penalised chunk is never ranked before an unpenalised one that as many lists found:
   at equal numbers of lists the penalty outweighs any difference in rank.
   */
  lemma PenaltyOutweighsRank(keyword: seq<int>, vector: seq<int>, rows: map<int, ChunkFacts>, seeksTests: bool,
                             seeksNonCore: bool, scores: map<int, real>, vectorRank: map<int, nat>, all: seq<Scored>,
                             i: nat, j: nat)
    requires CandidateList(keyword) && CandidateList(vector)
    requires Scores(keyword, vector, rows, DEFAULT_PRIORS, seeksTests, seeksNonCore, scores, vectorRank)
    requires Ranking(all, scores, vectorRank) && i < |all| && j < |all|
    requires all[i].0 in rows && Penalised(rows[all[i].0], seeksTests, seeksNonCore)
    requires Unpenalised(rows, all[j].0, seeksTests, seeksNonCore)
    requires Lists(keyword, vector, all[i].0) <= Lists(keyword, vector, all[j].0)
    ensures j < i
  {
    hide Fused, FactorOf, Lists, Penalised, Unpenalised, Place, LastRank;
    var a, b := all[i], all[j];
    assert a in all && b in all && (i < j ==> Order(vectorRank)(a, b));
    AtLeastOneList(keyword, vector, b.0);
    PenaltyOutweighs(keyword, vector, rows, seeksTests, seeksNonCore, a.0, b.0);
  }

  lemma PenaltyOutweighs(keyword: seq<int>, vector: seq<int>, rows: map<int, ChunkFacts>, seeksTests: bool,
                         seeksNonCore: bool, a: int, b: int)
    requires CandidateList(keyword) && CandidateList(vector)
    requires a in rows && Penalised(rows[a], seeksTests, seeksNonCore) && Unpenalised(rows, b, seeksTests, seeksNonCore)
    requires Lists(keyword, vector, a) <= Lists(keyword, vector, b) && Lists(keyword, vector, b) >= 1
    ensures Fused(keyword, vector, a) * FactorOf(rows, a, DEFAULT_PRIORS, seeksTests, seeksNonCore)
            < Fused(keyword, vector, b) * FactorOf(rows, b, DEFAULT_PRIORS, seeksTests, seeksNonCore)
  {
    hide Fused, Factor, Lists, Penalised, Unpenalised;
    FusedBounds(keyword, vector, a);
    FusedBounds(keyword, vector, b);
    DefaultFactor(rows[a], seeksTests, seeksNonCore);
    UnpenalisedFactor(rows, b, seeksTests, seeksNonCore);
    HalfIsLess(Lists(keyword, vector, a), Lists(keyword, vector, b), Fused(keyword, vector, a),
               Factor(rows[a], DEFAULT_PRIORS, seeksTests, seeksNonCore));
  }

  lemma AtLeastOneList(keyword: seq<int>, vector: seq<int>, id: int)
    requires id in keyword || id in vector
    ensures Lists(keyword, vector, id) >= 1
  {
  }

  lemma UnpenalisedFactor(rows: map<int, ChunkFacts>, id: int, seeksTests: bool, seeksNonCore: bool)
    requires Unpenalised(rows, id, seeksTests, seeksNonCore)
    ensures FactorOf(rows, id, DEFAULT_PRIORS, seeksTests, seeksNonCore) == 1.0
  {
  }

  lemma HalfIsLess(n: nat, m: nat, fused: real, f: real)
    requires n <= m && m >= 1 && 0.0 <= fused <= n as real * (1.0 / 60.0) && 0.0 < f <= 0.5
    ensures fused * f < m as real * (1.0 / 109.0)
  {
    assert fused * f <= fused * 0.5;
    assert n as real * (1.0 / 60.0) <= m as real * (1.0 / 60.0);
  }
}
