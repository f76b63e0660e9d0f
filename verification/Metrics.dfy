/** Normalised discounted cumulative gain over the first ten results: within [0, 1], and 1 for the best orders only. */
module Metrics {
  import opened Wrappers
  import opened Sequences
  import opened Sorting

  /** A graded query's names and grades, in any order; a name has one grade. */
  type Grades = seq<(string, nat)>

  ghost predicate OneGradeEach(graded: Grades) { forall i, j :: 0 <= i < j < |graded| ==> graded[i].0 != graded[j].0 }

  /**
   The weight of a rank. The logarithm is left abstract: any positive weights that do not rise will do.
   `1 / log2(rank + 2)` is one such choice.
   */
  ghost predicate Discount(w: nat -> real) {
    && (forall i :: w(i) > 0.0)
    && (forall i: nat, j: nat :: i <= j ==> w(i) >= w(j))
  }

  ghost predicate Strict(w: nat -> real) { forall i: nat, j: nat :: i < j ==> w(i) > w(j) }

  function Grade(graded: Grades, name: string): real {
    match First(graded, (g: (string, nat)) => g.0 == name)
    case Some(g) => g.1 as real
    case None => 0.0
  }

  function Gains(ranked: seq<string>, graded: Grades): seq<real> {
    seq(|ranked|, i requires 0 <= i < |ranked| => Grade(graded, ranked[i]))
  }

  /** The gain at a position; past the end there is nothing to gain. */
  function At(gains: seq<real>, i: nat): real { if i < |gains| then gains[i] else 0.0 }

  /** The discounted sum of the first `n` gains. */
  function Dcg(gains: seq<real>, w: nat -> real, n: nat): real {
    if n == 0 then 0.0 else Dcg(gains, w, n - 1) + At(gains, n - 1) * w(n - 1)
  }

  function Values(graded: Grades): seq<real> { seq(|graded|, i requires 0 <= i < |graded| => graded[i].1 as real) }

  function Descending(): (real, real) -> bool { (a: real, b: real) => a >= b }

  function Ideal(graded: Grades): seq<real> { SortBy(Values(graded), Descending()) }

  function Ndcg(ranked: seq<string>, graded: Grades, w: nat -> real): real {
    var ideal := Dcg(Ideal(graded), w, 10);
    if ideal == 0.0 then 0.0 else Dcg(Gains(ranked, graded), w, 10) / ideal
  }

  // ---- prefix sums ----

  function Sum(gains: seq<real>, n: nat): real { if n == 0 then 0.0 else Sum(gains, n - 1) + At(gains, n - 1) }

  /** Every plain sum of up to `n` gains is at most that of the best order. */
  ghost predicate Dominates(best: seq<real>, gains: seq<real>, n: nat) {
    forall k: nat :: k <= n ==> Sum(gains, k) <= Sum(best, k)
  }

  function Gap(best: seq<real>, gains: seq<real>, n: nat): real { Sum(best, n) - Sum(gains, n) }

  function DcgGap(best: seq<real>, gains: seq<real>, w: nat -> real, n: nat): real {
    Dcg(best, w, n) - Dcg(gains, w, n)
  }

  lemma GapStep(best: seq<real>, gains: seq<real>, w: nat -> real, n: nat)
    ensures DcgGap(best, gains, w, n + 1) ==
            DcgGap(best, gains, w, n) + (Gap(best, gains, n + 1) - Gap(best, gains, n)) * w(n)
  {
    var a, b, c := At(best, n), At(gains, n), w(n);
    assert Gap(best, gains, n + 1) - Gap(best, gains, n) == a - b;
    assert DcgGap(best, gains, w, n + 1) - DcgGap(best, gains, w, n) == a * c - b * c;
    Distribute(a, b, c);
  }

  lemma Distribute(a: real, b: real, c: real)
    ensures a * c - b * c == (a - b) * c
  {
  }

  lemma AbelArithmetic(gap: real, d: real, d1: real, high: real, low: real)
    requires gap >= d * high && d >= 0.0 && high >= low
    ensures gap + (d1 - d) * low >= d1 * low
    ensures high > low && gap + (d1 - d) * low == d1 * low ==> d == 0.0 && gap == d * high
  {
    assert d * high - d * low == d * (high - low);
    assert (d1 - d) * low == d1 * low - d * low;
    assert d * (high - low) >= 0.0;
    assert high > low && d > 0.0 ==> d * (high - low) > 0.0;
  }

  /**
   The discounted sums differ by at least what the plain ones do, at the last weight; equality needs every
   plain sum equal.
   */
  lemma {:induction false} AbelStep(best: seq<real>, gains: seq<real>, w: nat -> real, n: nat)
    requires Discount(w) && Dominates(best, gains, n + 1)
    ensures DcgGap(best, gains, w, n + 1) >= Gap(best, gains, n + 1) * w(n)
    ensures Strict(w) && DcgGap(best, gains, w, n + 1) == Gap(best, gains, n + 1) * w(n) ==>
              forall k: nat :: k <= n ==> Gap(best, gains, k) == 0.0
  {
    GapStep(best, gains, w, n);
    if n == 0 {
      assert DcgGap(best, gains, w, 0) == 0.0 && Gap(best, gains, 0) == 0.0;
    } else {
      AbelStep(best, gains, w, n - 1);
      assert Sum(gains, n) <= Sum(best, n);
      assert Strict(w) ==> w(n - 1) > w(n);
      hide Sum, Dcg;
      AbelArithmetic(DcgGap(best, gains, w, n), Gap(best, gains, n), Gap(best, gains, n + 1), w(n - 1), w(n));
      hide DcgGap, Gap;
    }
  }

  lemma DominatesDcg(best: seq<real>, gains: seq<real>, w: nat -> real, n: nat)
    requires Discount(w) && Dominates(best, gains, n)
    ensures Dcg(gains, w, n) <= Dcg(best, w, n)
    ensures Strict(w) && Dcg(gains, w, n) == Dcg(best, w, n) ==> forall k: nat :: k <= n ==> Gap(best, gains, k) == 0.0
  {
    if n > 0 {
      AbelStep(best, gains, w, n - 1);
      var d, c := Gap(best, gains, n), w(n - 1);
      assert Sum(gains, n) <= Sum(best, n);
      assert d >= 0.0 && c > 0.0;
      assert d * c >= 0.0 && (d * c == 0.0 ==> d == 0.0);
    }
  }

  // ---- the ideal order dominates ----

  function ByGrade(): ((string, nat), (string, nat)) -> bool { (a: (string, nat), b: (string, nat)) => a.1 >= b.1 }

  lemma {:induction false} InsertValues(x: (string, nat), s: Grades)
    ensures Values(Insert(x, s, ByGrade())) == Insert(x.1 as real, Values(s), Descending())
  {
    if s != [] && !ByGrade()(x, s[0]) {
      InsertValues(x, s[1..]);
      assert Values(s)[1..] == Values(s[1..]);
      assert Values([s[0]] + Insert(x, s[1..], ByGrade())) == [s[0].1 as real] + Values(Insert(x, s[1..], ByGrade()));
    } else {
      assert Values([x] + s) == [x.1 as real] + Values(s);
    }
  }

  /** Sorting the grades is sorting the graded names. */
  lemma {:induction false} IdealIsSorted(graded: Grades)
    ensures Ideal(graded) == Values(SortBy(graded, ByGrade()))
  {
    if graded != [] {
      IdealIsSorted(graded[1..]);
      assert Values(graded)[1..] == Values(graded[1..]);
      InsertValues(graded[0], SortBy(graded[1..], ByGrade()));
    }
  }

  function TotalGrade(s: Grades): real { if s == [] then 0.0 else s[0].1 as real + TotalGrade(s[1..]) }

  lemma {:induction false} SumOfValues(s: Grades, k: nat)
    ensures k <= |s| ==> Sum(Values(s), k) == TotalGrade(s[..k])
    ensures k > |s| ==> Sum(Values(s), k) == TotalGrade(s)
  {
    if k > 0 {
      SumOfValues(s, k - 1);
      if k <= |s| {
        assert s[..k] == s[..k - 1] + [s[k - 1]];
        TotalSnoc(s[..k - 1], s[k - 1]);
      }
      if k == |s| + 1 { assert s[..k - 1] == s; }
    }
  }

  lemma {:induction false} TotalSnoc(s: Grades, x: (string, nat))
    ensures TotalGrade(s + [x]) == TotalGrade(s) + x.1 as real
  {
    if s != [] {
      assert (s + [x])[1..] == s[1..] + [x];
      TotalSnoc(s[1..], x);
    } else {
      assert [x][1..] == [];
    }
  }

  lemma {:induction false} TotalWithout(s: Grades, i: nat)
    requires i < |s|
    ensures TotalGrade(s) == s[i].1 as real + TotalGrade(s[..i] + s[i + 1..])
  {
    if i > 0 {
      TotalWithout(s[1..], i - 1);
      assert s[1..][..i - 1] + s[1..][i..] == (s[..i] + s[i + 1..])[1..];
    } else {
      assert s[..0] + s[1..] == s[1..];
    }
  }

  lemma Without(s: Grades, i: nat) returns (r: Grades)
    requires i < |s| && AllDifferent(s)
    ensures r == s[..i] + s[i + 1..] && |r| == |s| - 1 && AllDifferent(r) && forall x :: x in r <==> x in s && x != s[i]
  {
    r := s[..i] + s[i + 1..];
    assert s == s[..i] + [s[i]] + s[i + 1..];
    forall x | x in r ensures x in s && x != s[i] {
      var k :| 0 <= k < |r| && r[k] == x;
      assert r[k] == if k < i then s[k] else s[k + 1];
    }
    forall a, b | 0 <= a < b < |r| ensures r[a] != r[b] {
      assert r[a] == (if a < i then s[a] else s[a + 1]) && r[b] == if b < i then s[b] else s[b + 1];
    }
  }

  lemma {:induction false} TotalNonNegative(s: Grades)
    ensures TotalGrade(s) >= 0.0
  {
    if s != [] { TotalNonNegative(s[1..]); }
  }

  /** No choice of at most `k` graded names totals more than the `k` best. */
  lemma {:induction false} BestChoice(sorted: Grades, some: Grades, k: nat)
    requires Sorted(sorted, ByGrade()) && AllDifferent(some) && |some| <= k
    requires forall x :: x in some ==> x in sorted
    ensures TotalGrade(some) <= TotalGrade(if k <= |sorted| then sorted[..k] else sorted)
    decreases |some|
  {
    var top := if k <= |sorted| then sorted[..k] else sorted;
    if some == [] {
      TotalNonNegative(top);
    } else {
      assert some[0] in sorted;
      var i := if sorted[0] in some then FindIn(some, sorted[0]) else 0;
      var fewer := Without(some, i);
      TotalWithout(some, i);
      forall x | x in fewer ensures x in sorted[1..] {
        assert x in some && x in sorted && sorted == [sorted[0]] + sorted[1..];
      }
      BestChoice(sorted[1..], fewer, k - 1);
      var j :| 0 <= j < |sorted| && sorted[j] == some[i];
      assert j > 0 ==> ByGrade()(sorted[0], sorted[j]);
      assert top[1..] == if k - 1 <= |sorted[1..]| then sorted[1..][..k - 1] else sorted[1..];
    }
  }

  function FindIn(s: Grades, x: (string, nat)): (i: nat)
    requires x in s
    ensures i < |s| && s[i] == x
  {
    if s[0] == x then 0 else assert s == [s[0]] + s[1..]; 1 + FindIn(s[1..], x)
  }

  // ---- the ranking's gains ----

  /** Among the first `n` results no graded name comes twice. */
  ghost predicate NoGradedTwice(ranked: seq<string>, graded: Grades, n: nat) {
    forall i, j :: 0 <= i < j < |ranked| && j < n && ranked[i] == ranked[j] ==> !IsGraded(graded, ranked[i])
  }

  predicate IsGraded(graded: Grades, name: string) { First(graded, (g: (string, nat)) => g.0 == name).Some? }

  /** The graded names among the first `k` results, with what they contribute. */
  lemma {:induction false} Contributors(ranked: seq<string>, graded: Grades, k: nat) returns (some: Grades)
    requires NoGradedTwice(ranked, graded, k)
    ensures |some| <= k && AllDifferent(some) && TotalGrade(some) == Sum(Gains(ranked, graded), k)
    ensures forall x :: x in some ==> x in graded && exists i :: 0 <= i < k && i < |ranked| && ranked[i] == x.0
  {
    if k == 0 {
      some := [];
    } else {
      some := Contributors(ranked, graded, k - 1);
      if k - 1 < |ranked| && IsGraded(graded, ranked[k - 1]) {
        var g := First(graded, (g: (string, nat)) => g.0 == ranked[k - 1]).value;
        assert g !in some;
        TotalSnoc(some, g);
        var more := some + [g];
        forall x | x in more ensures x in graded && exists i :: 0 <= i < k && i < |ranked| && ranked[i] == x.0 {
          assert x in some || x == g;
        }
        some := more;
      }
    }
  }

  lemma IdealDominates(ranked: seq<string>, graded: Grades, k: nat)
    requires NoGradedTwice(ranked, graded, k)
    ensures Sum(Gains(ranked, graded), k) <= Sum(Ideal(graded), k)
  {
    var sorted := SortBy(graded, ByGrade());
    assert Total(ByGrade());
    SortBySorted(graded, ByGrade());
    IdealIsSorted(graded);
    var some := Contributors(ranked, graded, k);
    BestChoice(sorted, some, k);
    SumOfValues(sorted, k);
  }

  // ---- main results ----

  lemma {:induction false} DcgNonNegative(gains: seq<real>, w: nat -> real, n: nat)
    requires Discount(w) && forall g :: g in gains ==> g >= 0.0
    ensures Dcg(gains, w, n) >= 0.0
  {
    if n > 0 {
      DcgNonNegative(gains, w, n - 1);
      assert n - 1 < |gains| ==> gains[n - 1] in gains;
      assert At(gains, n - 1) * w(n - 1) >= 0.0;
    }
  }

  lemma IdealNonNegative(graded: Grades)
    ensures forall g :: g in Ideal(graded) ==> g >= 0.0
  {
  }

  /** nDCG@10 lies in [0, 1] for every ranking whose first ten results name no graded item twice. */
  lemma NdcgInUnitInterval(ranked: seq<string>, graded: Grades, w: nat -> real)
    requires Discount(w) && NoGradedTwice(ranked, graded, 10)
    ensures 0.0 <= Ndcg(ranked, graded, w) <= 1.0
  {
    var best, gains := Ideal(graded), Gains(ranked, graded);
    IdealNonNegative(graded);
    DcgNonNegative(best, w, 10);
    DcgNonNegative(gains, w, 10);
    forall k: nat | k <= 10 ensures Sum(gains, k) <= Sum(best, k) { IdealDominates(ranked, graded, k); }
    DominatesDcg(best, gains, w, 10);
    hide Dcg, Sum, Ideal, Gains;
    if Dcg(best, w, 10) != 0.0 { Quotient(Dcg(gains, w, 10), Dcg(best, w, 10)); }
  }

  lemma Quotient(a: real, b: real)
    requires 0.0 <= a <= b && b > 0.0
    ensures 0.0 <= a / b <= 1.0 && (a / b == 1.0 ==> a == b)
  {
    assert a == (a / b) * b;
  }

  /** With weights that fall strictly, only a ranking with the ideal gains in its first ten places scores 1. */
  lemma PerfectMeansIdeal(ranked: seq<string>, graded: Grades, w: nat -> real, i: nat)
    requires Discount(w) && Strict(w) && NoGradedTwice(ranked, graded, 10) && i < 10
    requires Ndcg(ranked, graded, w) == 1.0
    ensures At(Gains(ranked, graded), i) == At(Ideal(graded), i)
  {
    var best, gains := Ideal(graded), Gains(ranked, graded);
    IdealNonNegative(graded);
    DcgNonNegative(best, w, 10);
    DcgNonNegative(gains, w, 10);
    forall k: nat | k <= 10 ensures Sum(gains, k) <= Sum(best, k) { IdealDominates(ranked, graded, k); }
    DominatesDcg(best, gains, w, 10);
    Quotient(Dcg(gains, w, 10), Dcg(best, w, 10));
    assert Gap(best, gains, i) == 0.0 && Gap(best, gains, i + 1) == 0.0;
  }

  lemma {:induction false} SameGains(a: seq<real>, b: seq<real>, w: nat -> real, n: nat)
    requires forall i: nat :: i < n ==> At(a, i) == At(b, i)
    ensures Dcg(a, w, n) == Dcg(b, w, n)
  {
    if n > 0 { SameGains(a, b, w, n - 1); }
  }

  /** And any ranking with the ideal gains scores 1, unless there is nothing to gain. */
  lemma IdealIsPerfect(ranked: seq<string>, graded: Grades, w: nat -> real)
    requires Discount(w) && (forall i: nat :: i < 10 ==> At(Gains(ranked, graded), i) == At(Ideal(graded), i))
    ensures Ndcg(ranked, graded, w) == if Dcg(Ideal(graded), w, 10) == 0.0 then 0.0 else 1.0
  {
    SameGains(Gains(ranked, graded), Ideal(graded), w, 10);
    hide Dcg, Ideal, Gains;
    Ratio(Dcg(Ideal(graded), w, 10), Dcg(Ideal(graded), w, 10));
  }

  lemma Ratio(a: real, b: real)
    ensures b != 0.0 && a == b ==> a / b == 1.0
    ensures b > 0.0 && a > b ==> a / b > 1.0
  {
    if b != 0.0 { assert a == (a / b) * b; }
  }

  /** The score does not depend on the order in which the grades are listed. */
  lemma ListingOrderIsIrrelevant(ranked: seq<string>, a: Grades, b: Grades, w: nat -> real)
    requires OneGradeEach(a) && OneGradeEach(b) && multiset(a) == multiset(b)
    ensures Ndcg(ranked, a, w) == Ndcg(ranked, b, w)
  {
    SameElements(a, b);
    SameElements(b, a);
    forall i | 0 <= i < |ranked| ensures Grade(a, ranked[i]) == Grade(b, ranked[i]) { SameGrade(a, b, ranked[i]); }
    assert Gains(ranked, a) == Gains(ranked, b);
    ValuesOfSame(a, b);
    SortByElements(Values(a), Descending());
    SortByElements(Values(b), Descending());
    assert Total(Descending());
    SortBySorted(Values(a), Descending());
    SortBySorted(Values(b), Descending());
    SortedUnique(Ideal(a), Ideal(b), Descending());
  }

  lemma SameGrade(a: Grades, b: Grades, name: string)
    requires OneGradeEach(b) && (forall x :: x in a <==> x in b)
    ensures Grade(a, name) == Grade(b, name)
  {
    var p := (g: (string, nat)) => g.0 == name;
    var x, y := First(a, p), First(b, p);
    if x.Some? && y.Some? {
      var i :| 0 <= i < |b| && b[i] == x.value;
      var j :| 0 <= j < |b| && b[j] == y.value;
      assert i == j;
    }
  }

  lemma ValuesAround(s: Grades, i: nat)
    requires i < |s|
    ensures multiset(Values(s)) == multiset(Values(s[..i] + s[i + 1..])) + multiset{s[i].1 as real}
  {
    assert s == s[..i] + [s[i]] + s[i + 1..];
    assert Values(s) == Values(s[..i]) + [s[i].1 as real] + Values(s[i + 1..]);
    assert Values(s[..i] + s[i + 1..]) == Values(s[..i]) + Values(s[i + 1..]);
  }

  lemma {:induction false} ValuesOfSame(a: Grades, b: Grades)
    requires multiset(a) == multiset(b)
    ensures multiset(Values(a)) == multiset(Values(b))
  {
    hide Values;
    SameElements(a, b);
    if a == [] {
      assert a == b;
    } else {
      assert a[0] in multiset(a);
      var j := PlaceOf(b, a[0]);
      var x, y := a[..0] + a[1..], b[..j] + b[j + 1..];
      ElementsWithout(a, 0);
      ElementsWithout(b, j);
      ValuesAround(a, 0);
      ValuesAround(b, j);
      ValuesOfSame(x, y);
    }
  }

  // ---- when a ranking can score above 1 ----

  /** No name comes twice among the first ten results. */
  ghost predicate NoRepeats(ranked: seq<string>) {
    forall i, j :: 0 <= i < j < |ranked| && j < 10 ==> ranked[i] != ranked[j]
  }

  ghost predicate Bounded(ranked: seq<string>, w: nat -> real) {
    forall graded: Grades :: OneGradeEach(graded) ==> Ndcg(ranked, graded, w) <= 1.0
  }

  /** Grade 1 for each name among the first `n` results, once. */
  function OneEach(ranked: seq<string>, n: nat): Grades
    requires n <= |ranked|
  {
    if n == 0 then []
    else
      var before := OneEach(ranked, n - 1);
      if IsGraded(before, ranked[n - 1]) then before else before + [(ranked[n - 1], 1)]
  }

  lemma GradedMember(graded: Grades, name: string)
    requires forall g :: g in graded ==> g.1 == 1
    ensures IsGraded(graded, name) ==> Grade(graded, name) == 1.0
    ensures IsGraded(graded, name) <==> (name, 1) in graded
  {
  }

  /** Exactly the names among the first `n` results are graded, each once, with 1. */
  ghost predicate GradesFirst(graded: Grades, ranked: seq<string>, n: nat)
    requires n <= |ranked|
  {
    && |graded| <= n && OneGradeEach(graded)
    && (forall g :: g in graded ==> g.1 == 1)
    && (forall p :: 0 <= p < n ==> (ranked[p], 1) in graded)
    && (forall g :: g in graded ==> exists p :: 0 <= p < n && ranked[p] == g.0)
  }

  lemma GradesNext(graded: Grades, ranked: seq<string>, n: nat)
    requires n < |ranked| && GradesFirst(graded, ranked, n)
    ensures IsGraded(graded, ranked[n]) ==> GradesFirst(graded, ranked, n + 1)
    ensures !IsGraded(graded, ranked[n]) ==> GradesFirst(graded + [(ranked[n], 1)], ranked, n + 1)
  {
    var name := ranked[n];
    var more := graded + [(name, 1)];
    GradedMember(graded, name);
    hide IsGraded;
    forall k | 0 <= k < |graded| && (name, 1) !in graded ensures graded[k].0 != name {
      assert graded[k] in graded;
    }
    assert forall g :: g in more ==> g in graded || g == (name, 1);
    assert (name, 1) in more && forall g :: g in graded ==> g in more;
  }

  lemma NoGrades(ranked: seq<string>)
    ensures GradesFirst([], ranked, 0)
  {
  }

  lemma {:induction false} OneEachGrades(ranked: seq<string>, n: nat)
    requires n <= |ranked|
    ensures GradesFirst(OneEach(ranked, n), ranked, n)
  {
    hide GradesFirst, IsGraded;
    if n == 0 {
      NoGrades(ranked);
    } else {
      OneEachGrades(ranked, n - 1);
      GradesNext(OneEach(ranked, n - 1), ranked, n - 1);
    }
  }

  lemma OneEachStep(ranked: seq<string>, n: nat)
    requires 0 < n <= |ranked|
    ensures |OneEach(ranked, n)| ==
            |OneEach(ranked, n - 1)| + if (ranked[n - 1], 1) in OneEach(ranked, n - 1) then 0 else 1
  {
    OneEachGrades(ranked, n - 1);
    GradedMember(OneEach(ranked, n - 1), ranked[n - 1]);
  }

  lemma {:induction false} RepeatsAreShorter(ranked: seq<string>, n: nat, i: nat, j: nat)
    requires i < j < n <= |ranked| && ranked[i] == ranked[j]
    ensures 1 <= |OneEach(ranked, n)| < n
  {
    hide OneEach;
    OneEachStep(ranked, n);
    OneEachGrades(ranked, n - 1);
    if j < n - 1 {
      RepeatsAreShorter(ranked, n - 1, i, j);
    } else {
      assert (ranked[i], 1) in OneEach(ranked, n - 1);
    }
  }

  /** The total weight of the first `n` ranks. */
  function WeightSum(w: nat -> real, n: nat): real { if n == 0 then 0.0 else WeightSum(w, n - 1) + w(n - 1) }

  lemma {:induction false} DcgOfOnes(gains: seq<real>, w: nat -> real, n: nat)
    requires forall i: nat :: i < n ==> At(gains, i) == 1.0
    ensures Dcg(gains, w, n) == WeightSum(w, n)
  {
    if n > 0 { DcgOfOnes(gains, w, n - 1); }
  }

  lemma {:induction false} WeightSumGrows(w: nat -> real, a: nat, b: nat)
    requires Discount(w) && a <= b
    ensures WeightSum(w, a) <= WeightSum(w, b) && (a < b ==> WeightSum(w, a) < WeightSum(w, b))
    decreases b
  {
    if a < b { WeightSumGrows(w, a, b - 1); }
  }

  lemma {:induction false} DcgPastEnd(gains: seq<real>, w: nat -> real, k: nat, n: nat)
    requires |gains| <= k <= n
    ensures Dcg(gains, w, n) == Dcg(gains, w, k)
  {
    if k < n { DcgPastEnd(gains, w, k, n - 1); }
  }

  /** Grading every name of the first ten 1, the ideal order collects one weight per name. */
  lemma IdealOfOnes(graded: Grades, w: nat -> real)
    requires |graded| <= 10 && forall g :: g in graded ==> g.1 == 1
    ensures Dcg(Ideal(graded), w, 10) == WeightSum(w, |graded|)
  {
    var ideal := Ideal(graded);
    forall i: nat | i < |graded| ensures At(ideal, i) == 1.0 {
      assert ideal[i] in Values(graded);
      var k :| 0 <= k < |graded| && Values(graded)[k] == ideal[i];
      assert graded[k] in graded;
    }
    DcgOfOnes(ideal, w, |graded|);
    DcgPastEnd(ideal, w, |graded|, 10);
  }

  /** The ranking itself collects one weight per place. */
  lemma GainsOfOnes(ranked: seq<string>, graded: Grades, w: nat -> real, n: nat)
    requires n <= |ranked| && n <= 10 && (n == 10 || n == |ranked|)
    requires (forall g :: g in graded ==> g.1 == 1) && forall p :: 0 <= p < n ==> (ranked[p], 1) in graded
    ensures Dcg(Gains(ranked, graded), w, 10) == WeightSum(w, n)
  {
    var gains := Gains(ranked, graded);
    forall i: nat | i < n ensures At(gains, i) == 1.0 { GradedMember(graded, ranked[i]); }
    DcgOfOnes(gains, w, n);
    if n < 10 { DcgPastEnd(gains, w, n, 10); }
  }

  /** Any repeat among the first ten lets some grading score above 1: every name graded 1. */
  lemma RepeatsExceedOne(ranked: seq<string>, w: nat -> real, i: nat, j: nat) returns (graded: Grades)
    requires Discount(w) && i < j < |ranked| && j < 10 && ranked[i] == ranked[j]
    ensures OneGradeEach(graded) && Ndcg(ranked, graded, w) > 1.0
  {
    hide OneEach, Ideal, Gains, Dcg, WeightSum;
    var n := if |ranked| < 10 then |ranked| else 10;
    graded := OneEach(ranked, n);
    OneEachGrades(ranked, n);
    RepeatsAreShorter(ranked, n, i, j);
    IdealOfOnes(graded, w);
    GainsOfOnes(ranked, graded, w, n);
    WeightSumGrows(w, |graded|, n);
    NoWeight(w);
    WeightSumGrows(w, 0, |graded|);
    Ratio(WeightSum(w, n), WeightSum(w, |graded|));
  }

  lemma NoWeight(w: nat -> real)
    ensures WeightSum(w, 0) == 0.0
  {
  }

  /** A ranking scores at most 1 under every grading if and only if its first ten results repeat no name. */
  lemma BoundedIffNoRepeats(ranked: seq<string>, w: nat -> real)
    requires Discount(w)
    ensures Bounded(ranked, w) <==> NoRepeats(ranked)
  {
    hide Ndcg;
    if NoRepeats(ranked) {
      forall graded: Grades | OneGradeEach(graded) ensures Ndcg(ranked, graded, w) <= 1.0 {
        NdcgInUnitInterval(ranked, graded, w);
      }
    } else {
      var i, j :| 0 <= i < j < |ranked| && j < 10 && ranked[i] == ranked[j];
      var graded := RepeatsExceedOne(ranked, w, i, j);
      assert OneGradeEach(graded) && !(Ndcg(ranked, graded, w) <= 1.0);
    }
  }

  /** The smallest instance: one name, twice. */
  lemma TwiceTheSameName(w: nat -> real)
    requires Discount(w)
    ensures !Bounded(["a", "a"], w)
  {
    BoundedIffNoRepeats(["a", "a"], w);
    assert ["a", "a"][0] == ["a", "a"][1];
  }
}
