/**
 When a tiny fragment outranks a full chunk: the tiny penalty is softer than the others, and rank can make up
 for it.
 */
module TinyFragments {
  import opened Wrappers
  import opened Fusion

  /** A chunk whose only penalty is that of a tiny fragment. */
  predicate OnlyTiny(rows: map<int, ChunkFacts>, id: int, seeksTests: bool, seeksNonCore: bool) {
    id in rows && !Penalised(rows[id], seeksTests, seeksNonCore) && rows[id].tokens < DEFAULT_PRIORS.tinyFloor
  }

  function RankIn(list: seq<int>, id: int): Option<nat> { LastRank(list, id, |list|) }

  // ---- fused scores as fractions ----

  function Numerator(k: Option<nat>, v: Option<nat>): nat {
    if k.Some? && v.Some? then 120 + k.value + v.value else if k.Some? || v.Some? then 1 else 0
  }

  function Denominator(k: Option<nat>, v: Option<nat>): (d: nat)
    ensures d > 0
  {
    (if k.Some? then 60 + k.value else 1) * (if v.Some? then 60 + v.value else 1)
  }

  lemma {:induction false} ListScoreIsWeight(list: seq<int>, id: int, n: nat)
    requires n <= |list| && CandidateList(list)
    ensures ListScore(list, id, n) ==
            match LastRank(list, id, n) { case Some(k) => Weight(k) case None => 0.0 }
  {
    hide Weight;
    if n > 0 {
      ListScoreIsWeight(list, id, n - 1);
      if list[n - 1] == id {
        assert LastRank(list, id, n - 1).None? by { AtMostOnce(list, n); }
      }
    }
  }

  lemma AtMostOnce(list: seq<int>, n: nat)
    requires 0 < n <= |list| && CandidateList(list)
    ensures LastRank(list, list[n - 1], n - 1).None?
  {
    assert forall k :: 0 <= k < n - 1 ==> list[k] != list[n - 1];
  }

  lemma WeightFraction(k: nat)
    ensures Weight(k) * (60 + k) as real == 1.0
  {
  }

  lemma SumOfFractions(x: real, a: real, y: real, b: real)
    requires x * a == 1.0 && y * b == 1.0
    ensures (x + y) * (a * b) == a + b
  {
    assert x * (a * b) == (x * a) * b;
    assert y * (a * b) == (y * b) * a;
    assert (x + y) * (a * b) == x * (a * b) + y * (a * b);
  }

  lemma FusedIsFraction(keyword: seq<int>, vector: seq<int>, id: int)
    requires CandidateList(keyword) && CandidateList(vector)
    ensures var k, v := RankIn(keyword, id), RankIn(vector, id);
            Fused(keyword, vector, id) * Denominator(k, v) as real == Numerator(k, v) as real
  {
    hide Weight, LastRank, ListScore;
    var k, v := RankIn(keyword, id), RankIn(vector, id);
    ListScoreIsWeight(keyword, id, |keyword|);
    ListScoreIsWeight(vector, id, |vector|);
    if k.Some? { WeightFraction(k.value); }
    if v.Some? { WeightFraction(v.value); }
    if k.Some? && v.Some? {
      SumOfFractions(Weight(k.value), (60 + k.value) as real, Weight(v.value), (60 + v.value) as real);
    }
  }

  lemma CrossMultiply(x: real, da: real, na: real, y: real, db: real, nb: real)
    requires da > 0.0 && db > 0.0 && x * da == na && y * db == nb
    ensures x * 0.7 > y <==> 7.0 * na * db > 10.0 * nb * da
    ensures x * 0.7 == y <==> 7.0 * na * db == 10.0 * nb * da
  {
    var d, z := da * db, 7.0 * x - 10.0 * y;
    assert d > 0.0;
    assert na * db == x * d && nb * da == y * d;
    assert 7.0 * na * db - 10.0 * nb * da == z * d;
    SignOfProduct(z, d);
  }

  lemma SignOfProduct(z: real, d: real)
    requires d > 0.0
    ensures (z > 0.0 <==> z * d > 0.0) && (z == 0.0 <==> z * d == 0.0)
  {
  }

  // ---- the exact rule ----

  /** The tie break of the final order: the vector list, then the chunk id. */
  predicate TieGoesTo(vector: seq<int>, a: int, b: int) {
    if RankIn(vector, a) == RankIn(vector, b) then a <= b else PlaceLe(RankIn(vector, a), RankIn(vector, b))
  }

  /** Decided on the ranks alone, in whole numbers. */
  predicate TinyWins(keyword: seq<int>, vector: seq<int>, tiny: int, full: int) {
    var tinyScore := 7 * Numerator(RankIn(keyword, tiny), RankIn(vector, tiny))
                     * Denominator(RankIn(keyword, full), RankIn(vector, full));
    var fullScore := 10 * Numerator(RankIn(keyword, full), RankIn(vector, full))
                     * Denominator(RankIn(keyword, tiny), RankIn(vector, tiny));
    tinyScore > fullScore || (tinyScore == fullScore && TieGoesTo(vector, tiny, full))
  }

  lemma TinyFactor(rows: map<int, ChunkFacts>, id: int, seeksTests: bool, seeksNonCore: bool)
    requires OnlyTiny(rows, id, seeksTests, seeksNonCore)
    ensures FactorOf(rows, id, DEFAULT_PRIORS, seeksTests, seeksNonCore) == 0.7
  {
  }

  lemma TinyScore(keyword: seq<int>, vector: seq<int>, tiny: int, full: int)
    requires CandidateList(keyword) && CandidateList(vector)
    ensures var x, y := Fused(keyword, vector, tiny) * 0.7, Fused(keyword, vector, full);
            TinyWins(keyword, vector, tiny, full) <==> x > y || (x == y && TieGoesTo(vector, tiny, full))
  {
    hide Fused, RankIn, Numerator, Denominator, TieGoesTo;
    FusedIsFraction(keyword, vector, tiny);
    FusedIsFraction(keyword, vector, full);
    var na := Numerator(RankIn(keyword, tiny), RankIn(vector, tiny));
    var da := Denominator(RankIn(keyword, tiny), RankIn(vector, tiny));
    var nb := Numerator(RankIn(keyword, full), RankIn(vector, full));
    var db := Denominator(RankIn(keyword, full), RankIn(vector, full));
    CrossMultiply(Fused(keyword, vector, tiny), da as real, na as real, Fused(keyword, vector, full), db as real,
                  nb as real);
    WholeProducts(na, db, nb, da);
  }

  lemma WholeProducts(na: nat, db: nat, nb: nat, da: nat)
    ensures 7.0 * na as real * db as real == (7 * na * db) as real
    ensures 10.0 * nb as real * da as real == (10 * nb * da) as real
  {
  }

  lemma TwoPlaces(all: seq<Scored>, scores: map<int, real>, vectorRank: map<int, nat>, i: nat, j: nat)
    requires Ranking(all, scores, vectorRank) && i < |all| && j < |all| && i != j
    ensures i < j <==> Before(vectorRank, all[i], all[j])
    ensures all[i].1 == scores[all[i].0] && all[j].1 == scores[all[j].0] && all[i].0 != all[j].0
  {
    var le := Order(vectorRank);
    assert all[i] in all && all[j] in all;
    assert i < j ==> le(all[i], all[j]);
    assert j < i ==> le(all[j], all[i]);
    OrderIsTotal(vectorRank);
  }

  /**
   With the default priors a chunk that is only tiny stands before an unpenalised one if and only if its ranks win:
   seven tenths of its fused score are more, or as much and the tie break is its own.
   */
  lemma TinyOutranksIff(keyword: seq<int>, vector: seq<int>, rows: map<int, ChunkFacts>, seeksTests: bool,
                        seeksNonCore: bool, scores: map<int, real>, vectorRank: map<int, nat>, all: seq<Scored>,
                        i: nat, j: nat)
    requires CandidateList(keyword) && CandidateList(vector)
    requires Scores(keyword, vector, rows, DEFAULT_PRIORS, seeksTests, seeksNonCore, scores, vectorRank)
    requires Ranking(all, scores, vectorRank) && i < |all| && j < |all|
    requires OnlyTiny(rows, all[i].0, seeksTests, seeksNonCore) && Unpenalised(rows, all[j].0, seeksTests, seeksNonCore)
    ensures i < j <==> TinyWins(keyword, vector, all[i].0, all[j].0)
  {
    hide Fused, FactorOf, TinyWins, Ranking;
    assert i != j by { NotBoth(rows, all[i].0, seeksTests, seeksNonCore); }
    TinyFactor(rows, all[i].0, seeksTests, seeksNonCore);
    UnpenalisedFactor(rows, all[j].0, seeksTests, seeksNonCore);
    TwoPlaces(all, scores, vectorRank, i, j);
    Ranked(all, scores, vectorRank, i);
    Ranked(all, scores, vectorRank, j);
    TinyScore(keyword, vector, all[i].0, all[j].0);
  }

  lemma Ranked(all: seq<Scored>, scores: map<int, real>, vectorRank: map<int, nat>, i: nat)
    requires Ranking(all, scores, vectorRank) && i < |all|
    ensures all[i].0 in scores && scores[all[i].0] == all[i].1
  {
    assert all[i] in all;
  }

  lemma NotBoth(rows: map<int, ChunkFacts>, id: int, seeksTests: bool, seeksNonCore: bool)
    ensures !(OnlyTiny(rows, id, seeksTests, seeksNonCore) && Unpenalised(rows, id, seeksTests, seeksNonCore))
  {
  }

  // ---- on ranks ----

  predicate InOneListAt(keyword: seq<int>, vector: seq<int>, id: int, k: nat) {
    || (RankIn(keyword, id) == Some(k) && RankIn(vector, id) == None)
    || (RankIn(keyword, id) == None && RankIn(vector, id) == Some(k))
  }

  predicate InBothListsAt(keyword: seq<int>, vector: seq<int>, id: int, k: nat, v: nat) {
    RankIn(keyword, id) == Some(k) && RankIn(vector, id) == Some(v)
  }

  /** Of two chunks found by one list each, the tiny one at rank `k` and the full one at rank `m`. */
  lemma TinyWinsInOneList(keyword: seq<int>, vector: seq<int>, tiny: int, full: int, k: nat, m: nat)
    requires InOneListAt(keyword, vector, tiny, k) && InOneListAt(keyword, vector, full, m)
    ensures TinyWins(keyword, vector, tiny, full) <==>
            7 * (60 + m) > 10 * (60 + k) || (7 * (60 + m) == 10 * (60 + k) && TieGoesTo(vector, tiny, full))
  {
    hide RankIn, TieGoesTo;
  }

  /** From rank 17 on (counted from 0) a tiny chunk of one list never stands before a full one, whatever its rank. */
  lemma TinyLosesFromRank17(keyword: seq<int>, vector: seq<int>, tiny: int, full: int, k: nat, m: nat)
    requires CandidateList(keyword) && CandidateList(vector)
    requires InOneListAt(keyword, vector, tiny, k) && InOneListAt(keyword, vector, full, m) && k >= 17
    ensures !TinyWins(keyword, vector, tiny, full)
  {
    hide LastRank;
    TinyWinsInOneList(keyword, vector, tiny, full, k, m);
  }

  lemma Scaled(a: nat, b: nat, c: nat, d: nat)
    requires a <= b && c <= d
    ensures a * c <= b * d
  {
  }

  /** A tiny chunk of one list never stands before a full chunk of both. */
  lemma TinyLosesToBoth(keyword: seq<int>, vector: seq<int>, tiny: int, full: int, k: nat, m: nat, n: nat)
    requires CandidateList(keyword) && CandidateList(vector)
    requires InOneListAt(keyword, vector, tiny, k) && InBothListsAt(keyword, vector, full, m, n)
    ensures !TinyWins(keyword, vector, tiny, full)
  {
    hide LastRank, TieGoesTo;
    assert m < 50 && n < 50;
    var left, right := 7 * ((60 + m) * (60 + n)), 10 * (120 + m + n) * (60 + k);
    ProductBound(m, n);
    Scaled(10 * (120 + m + n), 10 * (120 + m + n), 60, 60 + k);
    assert 7 * 1 * ((60 + m) * (60 + n)) == left;
    assert left < right;
  }

  /** Both factors are at most 109, so the product is at most 109 / 2 of their sum. */
  lemma ProductBound(m: nat, n: nat)
    requires m < 50 && n < 50
    ensures 2 * ((60 + m) * (60 + n)) <= 109 * (120 + m + n)
  {
    Scaled(60 + m, 60 + m, 60 + n, 109);
    Scaled(60 + m, 109, 60 + n, 60 + n);
  }

  /** An instance: a tiny chunk first in the keyword list stands before a full one last in a vector list of fifty. */
  lemma TinyCanOutrank(keyword: seq<int>, vector: seq<int>, rows: map<int, ChunkFacts>, scores: map<int, real>,
                       vectorRank: map<int, nat>, all: seq<Scored>, i: nat, j: nat)
    requires CandidateList(keyword) && CandidateList(vector) && keyword != [] && |vector| == CANDIDATES
    requires keyword[0] !in vector && vector[49] !in keyword
    requires keyword[0] in rows && rows[keyword[0]] == ChunkFacts(10, false, false, false, false)
    requires vector[49] in rows && rows[vector[49]] == ChunkFacts(200, false, false, false, false)
    requires Scores(keyword, vector, rows, DEFAULT_PRIORS, false, false, scores, vectorRank)
    requires Ranking(all, scores, vectorRank) && i < |all| && j < |all|
    requires all[i].0 == keyword[0] && all[j].0 == vector[49]
    ensures i < j
  {
    hide Ranking, Scores;
    OnlyRank(keyword, 0);
    OnlyRank(vector, 49);
    NoRank(vector, keyword[0]);
    NoRank(keyword, vector[49]);
    TinyWinsInOneList(keyword, vector, keyword[0], vector[49], 0, 49);
    TinyOutranksIff(keyword, vector, rows, false, false, scores, vectorRank, all, i, j);
  }

  lemma OnlyRank(list: seq<int>, k: nat)
    requires CandidateList(list) && k < |list|
    ensures RankIn(list, list[k]) == Some(k)
  {
    assert list[..|list|] == list && list[k] in list;
    assert forall p :: 0 <= p < |list| && p != k ==> list[p] != list[k];
  }

  lemma NoRank(list: seq<int>, id: int)
    requires id !in list
    ensures RankIn(list, id) == None
  {
  }
}
