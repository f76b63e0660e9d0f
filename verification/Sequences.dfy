/** Order-preserving filters and searches over sequences, shared by the table models. */
module Sequences {
  import opened Wrappers

  /** The elements of `s` that satisfy `p`, in order. */
  function Keep<T(!new)>(s: seq<T>, p: T -> bool): (r: seq<T>)
    ensures |r| <= |s|
    ensures forall x :: x in r <==> x in s && p(x)
  {
    if s == [] then []
    else
      var last := s[|s| - 1];
      assert s == s[..|s| - 1] + [last];
      Keep(s[..|s| - 1], p) + (if p(last) then [last] else [])
  }

  lemma {:induction false} KeepConcat<T(!new)>(a: seq<T>, b: seq<T>, p: T -> bool)
    ensures Keep(a + b, p) == Keep(a, p) + Keep(b, p)
  {
    hide Keep;
    if b == [] {
      assert a + b == a;
      KeepNone(b, p);
    } else {
      var init, last := b[..|b| - 1], b[|b| - 1];
      assert b == init + [last] && a + b == (a + init) + [last];
      KeepConcat(a, init, p);
      KeepLast(a + init, last, p);
      KeepLast(init, last, p);
    }
  }

  /** Filters that agree on the elements of a sequence keep the same subsequence. */
  lemma {:induction false} KeepAgree<T(!new)>(s: seq<T>, p: T -> bool, q: T -> bool)
    requires forall x :: x in s ==> p(x) == q(x)
    ensures Keep(s, p) == Keep(s, q)
  {
    if s != [] {
      assert s == s[..|s| - 1] + [s[|s| - 1]];
      KeepAgree(s[..|s| - 1], p, q);
    }
  }

  lemma KeepLast<T(!new)>(s: seq<T>, x: T, p: T -> bool)
    ensures Keep(s + [x], p) == if p(x) then Keep(s, p) + [x] else Keep(s, p)
  {
    assert (s + [x])[..|s|] == s;
  }

  lemma {:induction false} KeepTwice<T(!new)>(s: seq<T>, p: T -> bool, q: T -> bool, both: T -> bool)
    requires forall x :: x in s ==> both(x) == (p(x) && q(x))
    ensures Keep(Keep(s, p), q) == Keep(s, both)
  {
    if s != [] {
      var init, last := s[..|s| - 1], s[|s| - 1];
      assert s == init + [last];
      KeepTwice(init, p, q, both);
      KeepLast(init, last, p);
      KeepLast(init, last, both);
      KeepLast(Keep(init, p), last, q);
    }
  }

  lemma {:induction false} KeepAll<T(!new)>(s: seq<T>, p: T -> bool)
    requires forall x :: x in s ==> p(x)
    ensures Keep(s, p) == s
  {
    if s != [] {
      assert s == s[..|s| - 1] + [s[|s| - 1]];
      KeepAll(s[..|s| - 1], p);
    }
  }

  lemma KeepNone<T(!new)>(s: seq<T>, p: T -> bool)
    requires forall x :: x in s ==> !p(x)
    ensures Keep(s, p) == []
  {
    if Keep(s, p) != [] {
      assert Keep(s, p)[0] in Keep(s, p);
    }
  }

  /** What a filter keeps stays in the order of the original sequence. */
  lemma {:induction false} KeepOrder<T(!new)>(s: seq<T>, p: T -> bool, before: (T, T) -> bool)
    requires forall i, j :: 0 <= i < j < |s| ==> before(s[i], s[j])
    ensures forall i, j :: 0 <= i < j < |Keep(s, p)| ==> before(Keep(s, p)[i], Keep(s, p)[j])
  {
    if s != [] {
      var init, last := s[..|s| - 1], s[|s| - 1];
      KeepOrder(init, p, before);
      forall x | x in Keep(init, p) ensures before(x, last) {
        var i :| 0 <= i < |init| && init[i] == x;
        assert s[i] == x;
      }
    }
  }

  /** `places` are exactly the positions of the elements that `p` holds of, in order. */
  ghost predicate Picks<T(!new)>(s: seq<T>, p: T -> bool, places: seq<nat>) {
    && (forall i, j :: 0 <= i < j < |places| ==> places[i] < places[j])
    && (forall k: nat :: k in places <==> k < |s| && p(s[k]))
  }

  /** `kept` are the elements at those places. */
  ghost predicate StandAt<T>(s: seq<T>, places: seq<nat>, kept: seq<T>) {
    |kept| == |places| && forall k :: 0 <= k < |places| ==> places[k] < |s| && kept[k] == s[places[k]]
  }

  lemma PicksNext<T(!new)>(init: seq<T>, last: T, p: T -> bool, places: seq<nat>)
    requires Picks(init, p, places)
    ensures Picks(init + [last], p, if p(last) then places + [|init|] else places)
  {
    var all, n := init + [last], |init|;
    forall k | 0 <= k < |places| ensures places[k] < n { assert places[k] in places; }
    assert forall k :: 0 <= k < n ==> all[k] == init[k];
  }

  lemma StandNext<T>(s: seq<T>, last: T, places: seq<nat>, kept: seq<T>)
    requires StandAt(s, places, kept)
    ensures StandAt(s + [last], places, kept) && StandAt(s + [last], places + [|s|], kept + [last])
  {
  }

  /** A filter keeps the elements at exactly the places where its condition holds. */
  lemma {:induction false} KeepPlaces<T(!new)>(s: seq<T>, p: T -> bool) returns (places: seq<nat>)
    ensures Picks(s, p, places) && StandAt(s, places, Keep(s, p))
  {
    hide Picks, StandAt, Keep;
    if s == [] {
      places := [];
      PicksNothing(p);
    } else {
      var init, last := s[..|s| - 1], s[|s| - 1];
      assert s == init + [last];
      var before := KeepPlaces(init, p);
      PicksNext(init, last, p, before);
      StandNext(init, last, before, Keep(init, p));
      KeepLast(init, last, p);
      places := if p(last) then before + [|init|] else before;
    }
  }

  lemma PicksNothing<T(!new)>(p: T -> bool)
    ensures Picks([], p, []) && StandAt([], [], Keep([], p))
  {
  }

  /** The weights of all elements together. */
  function SumOf<T>(s: seq<T>, weight: T -> nat): nat {
    if s == [] then 0 else SumOf(s[..|s| - 1], weight) + weight(s[|s| - 1])
  }

  lemma SumOfLast<T>(s: seq<T>, x: T, weight: T -> nat)
    ensures SumOf(s + [x], weight) == SumOf(s, weight) + weight(x)
  {
    assert (s + [x])[..|s|] == s;
  }

  lemma {:induction false} SumOfConcat<T>(a: seq<T>, b: seq<T>, weight: T -> nat)
    ensures SumOf(a + b, weight) == SumOf(a, weight) + SumOf(b, weight)
  {
    if b == [] {
      assert a + b == a;
    } else {
      assert (a + b)[..|a + b| - 1] == a + b[..|b| - 1];
      SumOfConcat(a, b[..|b| - 1], weight);
    }
  }

  lemma SumOfWithout<T>(s: seq<T>, j: nat, weight: T -> nat)
    requires j < |s|
    ensures SumOf(s, weight) == SumOf(s[..j] + s[j + 1..], weight) + weight(s[j])
  {
    hide SumOf;
    var before, behind := s[..j], s[j + 1..];
    assert s == (before + [s[j]]) + behind;
    SumOfConcat(before + [s[j]], behind, weight);
    SumOfLast(before, s[j], weight);
    SumOfConcat(before, behind, weight);
  }

  lemma ElementsWithout<T>(s: seq<T>, j: nat)
    requires j < |s|
    ensures multiset(s[..j] + s[j + 1..]) == multiset(s) - multiset{s[j]}
  {
    assert s == s[..j] + [s[j]] + s[j + 1..];
  }

  lemma PlaceOf<T>(s: seq<T>, x: T) returns (j: nat)
    requires x in multiset(s)
    ensures j < |s| && s[j] == x
  {
    var i :| 0 <= i < |s| && s[i] == x;
    j := i;
  }

  /** The order of the elements does not matter. */
  lemma {:induction false} SumOfPermuted<T>(a: seq<T>, b: seq<T>, weight: T -> nat)
    requires multiset(a) == multiset(b)
    ensures SumOf(a, weight) == SumOf(b, weight)
  {
    assert |a| == |multiset(a)| == |multiset(b)| == |b|;
    if a != [] {
      var n := |a| - 1;
      assert a[n] in multiset(a);
      var j := PlaceOf(b, a[n]);
      ElementsWithout(a, n);
      ElementsWithout(b, j);
      SumOfWithout(a, n, weight);
      SumOfWithout(b, j, weight);
      SumOfPermuted(a[..n] + a[n + 1..], b[..j] + b[j + 1..], weight);
    }
  }

  /** The first element of `s` that satisfies `p`. */
  function First<T(!new)>(s: seq<T>, p: T -> bool): (r: Option<T>)
    ensures r.Some? ==> r.value in s && p(r.value)
    ensures r.None? <==> forall x :: x in s ==> !p(x)
  {
    if s == [] then None
    else if p(s[0]) then Some(s[0])
    else
      assert s == [s[0]] + s[1..];
      First(s[1..], p)
  }

  lemma {:induction false} FirstIndex<T(!new)>(s: seq<T>, p: T -> bool) returns (i: nat)
    requires First(s, p).Some?
    ensures i < |s| && s[i] == First(s, p).value && p(s[i])
    ensures forall j :: 0 <= j < i ==> !p(s[j])
  {
    if p(s[0]) {
      i := 0;
    } else {
      var k := FirstIndex(s[1..], p);
      i := k + 1;
      assert forall j :: 0 <= j < k ==> s[1..][j] == s[j + 1];
    }
  }
}
