/**
 Qualified names: the last segment the resolver looks up, and the suffix test the store uses to
 select the edges a changed name can affect.
 */
module Names {
  import opened Wrappers
  import opened Text

  /** The largest index below `bound` where `sep` occurs in `s`. */
  function RFindBelow(s: string, sep: string, bound: nat): (r: Option<nat>)
    ensures r.Some? ==> r.value < bound && PartAt(s, sep, r.value)
    ensures forall j: nat :: j < bound && PartAt(s, sep, j) ==> r.Some? && j <= r.value
  {
    if bound == 0 then None
    else if PartAt(s, sep, bound - 1) then Some(bound - 1)
    else RFindBelow(s, sep, bound - 1)
  }

  /** One past the last occurrence of `sep` in `s`, or 0 when there is none. */
  function CutAfter(s: string, sep: string): (cut: nat)
    ensures cut <= |s|
  {
    match RFindBelow(s, sep, |s|)
    case Some(i) => i + |sep|
    case None => 0
  }

  function Max(a: nat, b: nat): nat { if a < b then b else a }

  function Cut(name: string): (cut: nat)
    ensures cut <= |name|
  {
    Max(Max(CutAfter(name, "::"), CutAfter(name, ".")), Max(CutAfter(name, "/"), CutAfter(name, "\\")))
  }

  function LastSegment(name: string): string { name[Cut(name)..] }

  /** The SQL condition: equal, or a suffix set off by one of the four separators. */
  predicate SuffixMatch(dst: string, name: string) {
    || dst == name
    || EndsWith(dst, "." + name)
    || EndsWith(dst, "::" + name)
    || EndsWith(dst, "/" + name)
    || EndsWith(dst, "\\" + name)
  }

  /** A name that no separator splits, and that cannot lengthen a `::` in front of it. */
  predicate Plain(name: string) {
    Cut(name) == 0 && !(|name| > 0 && name[0] == ':')
  }

  lemma CutCovers(s: string, sep: string, i: nat)
    requires |sep| > 0 && PartAt(s, sep, i)
    ensures i + |sep| <= CutAfter(s, sep)
  {
  }

  lemma SuffixSplits(dst: string, sep: string, name: string)
    requires EndsWith(dst, sep + name)
    ensures dst == dst[..|dst| - |name| - |sep|] + sep + name
    ensures PartAt(dst, sep, |dst| - |name| - |sep|)
    ensures dst[|dst| - |name|..] == name
  {
    var k := |dst| - |name| - |sep|;
    assert dst == dst[..k] + dst[k..];
    assert dst[k..][..|sep|] == sep;
    assert dst[k..][|sep|..] == name;
  }

  lemma CutBehind(dst: string, sep: string)
    requires |sep| > 0 && Cut(dst) == CutAfter(dst, sep) > 0
    ensures EndsWith(dst, sep + LastSegment(dst))
  {
    var cut := Cut(dst);
    assert PartAt(dst, sep, cut - |sep|);
    hide Cut, CutAfter;
    assert dst[cut - |sep|..] == dst[cut - |sep|..cut] + dst[cut..];
  }

  /** Every edge whose last segment is `name` is selected by `name`, whatever the name looks like. */
  lemma LastSegmentIsSelected(dst: string)
    ensures SuffixMatch(dst, LastSegment(dst))
  {
    hide CutAfter, EndsWith;
    var cut := Cut(dst);
    if cut == 0 {
      assert dst[0..] == dst;
    } else {
      CutBehind(dst, if cut == CutAfter(dst, "::") then "::" else if cut == CutAfter(dst, ".") then "."
                     else if cut == CutAfter(dst, "/") then "/" else "\\");
    }
  }

  /** A separator that ends past `k` lies in the tail, or is a `::` straddling `k`. */
  lemma CutInTail(dst: string, k: nat, sep: string)
    requires k < |dst| && sep in {"::", ".", "/", "\\"}
    ensures CutAfter(dst, sep) > k ==> CutAfter(dst[k..], sep) > 0 || dst[k] == ':'
  {
    if CutAfter(dst, sep) > k {
      var i := RFindBelow(dst, sep, |dst|).value;
      if i >= k {
        assert dst[k..][i - k..i - k + |sep|] == dst[i..i + |sep|];
        CutCovers(dst[k..], sep, i - k);
      } else {
        assert dst[k] == dst[i..i + |sep|][k - i];
      }
    }
  }

  lemma MatchIsLastSegment(dst: string, name: string)
    requires Plain(name)
    ensures SuffixMatch(dst, name) <==> LastSegment(dst) == name
  {
    LastSegmentIsSelected(dst);
    if SuffixMatch(dst, name) && dst != name {
      var sep :| sep in {"::", ".", "/", "\\"} && EndsWith(dst, sep + name);
      SuffixSplits(dst, sep, name);
      SuffixIsLastSegment(dst, sep, name);
    }
  }

  lemma SuffixIsLastSegment(dst: string, sep: string, name: string)
    requires Plain(name) && sep in {"::", ".", "/", "\\"}
    requires |dst| >= |name| + |sep| && PartAt(dst, sep, |dst| - |name| - |sep|) && dst[|dst| - |name|..] == name
    ensures LastSegment(dst) == name
  {
    hide CutAfter, PartAt;
    var k := |dst| - |name|;
    CutCovers(dst, sep, k - |sep|);
    if k < |dst| {
      assert dst[k] == name[0];
      CutInTail(dst, k, "::");
      CutInTail(dst, k, ".");
      CutInTail(dst, k, "/");
      CutInTail(dst, k, "\\");
    }
  }

  /** Outside the plain names the two tests do part ways. */
  lemma SplitNameMismatch(name: string) returns (dst: string)
    requires !Plain(name)
    ensures SuffixMatch(dst, name) && LastSegment(dst) != name
  {
    if Cut(name) > 0 {
      dst := name;
    } else {
      dst := "::" + name;
      assert dst[0..] == dst;
      assert EndsWith(dst, "::" + name);
      assert dst[1..3] == "::";
      CutCovers(dst, "::", 1);
    }
  }

  /** The suffix test and the last segment agree on every edge exactly for the plain names. */
  lemma SuffixMatchExactForPlain(name: string)
    ensures (forall dst :: SuffixMatch(dst, name) <==> LastSegment(dst) == name) <==> Plain(name)
  {
    if Plain(name) {
      forall dst ensures SuffixMatch(dst, name) <==> LastSegment(dst) == name {
        MatchIsLastSegment(dst, name);
      }
    } else {
      var dst := SplitNameMismatch(name);
      assert SuffixMatch(dst, name) && LastSegment(dst) != name;
    }
  }

  /** A separator ends just before `k`. */
  predicate SeparatorEnds(s: string, k: nat)
    requires k <= |s|
  {
    (k >= 1 && s[k - 1] in {'.', '/', '\\'}) || (k >= 2 && s[k - 2] == ':' && s[k - 1] == ':')
  }

  predicate EndsAt(s: string, sep: string, k: nat) { |sep| <= k && PartAt(s, sep, k - |sep|) }

  lemma OneLetter(s: string, sep: string, k: nat)
    requires k <= |s| && |sep| == 1
    ensures EndsAt(s, sep, k) <==> k >= 1 && s[k - 1] == sep[0]
  {
    if k >= 1 { assert s[k - 1..k] == [s[k - 1]]; }
  }

  lemma TwoColons(s: string, k: nat)
    requires k <= |s|
    ensures EndsAt(s, "::", k) <==> k >= 2 && s[k - 2] == ':' && s[k - 1] == ':'
  {
    if k >= 2 { assert s[k - 2..k] == [s[k - 2], s[k - 1]]; }
  }

  lemma SeparatorPart(s: string, k: nat)
    requires k <= |s|
    ensures SeparatorEnds(s, k) <==>
            EndsAt(s, "::", k) || EndsAt(s, ".", k) || EndsAt(s, "/", k) || EndsAt(s, "\\", k)
  {
    hide EndsAt;
    TwoColons(s, k);
    OneLetter(s, ".", k);
    OneLetter(s, "/", k);
    OneLetter(s, "\\", k);
  }

  /** The last segment begins where the last separator ends, or is the whole name. */
  lemma LastSegmentMeans(name: string, k: nat)
    requires k <= |name|
    ensures LastSegment(name) == name[k..] <==>
            (k == 0 || SeparatorEnds(name, k)) && forall j :: k < j <= |name| ==> !SeparatorEnds(name, j)
  {
    CutIsLast(name);
    assert LastSegment(name) == name[k..] <==> k == Cut(name);
  }

  lemma CutEnds(s: string, sep: string)
    requires |sep| > 0
    ensures CutAfter(s, sep) == 0 || EndsAt(s, sep, CutAfter(s, sep))
    ensures forall k :: CutAfter(s, sep) < k <= |s| ==> !EndsAt(s, sep, k)
  {
    forall k | CutAfter(s, sep) < k <= |s| ensures !EndsAt(s, sep, k) {
      if EndsAt(s, sep, k) { CutCovers(s, sep, k - |sep|); }
    }
  }

  lemma CutIsLast(name: string)
    ensures Cut(name) == 0 || SeparatorEnds(name, Cut(name))
    ensures forall j :: Cut(name) < j <= |name| ==> !SeparatorEnds(name, j)
  {
    hide CutAfter, EndsAt, SeparatorEnds;
    CutEnds(name, "::");
    CutEnds(name, ".");
    CutEnds(name, "/");
    CutEnds(name, "\\");
    SeparatorPart(name, Cut(name));
    forall j | Cut(name) < j <= |name| ensures !SeparatorEnds(name, j) { SeparatorPart(name, j); }
  }

  lemma EndsBehind(dst: string, sep: string, name: string)
    ensures EndsWith(dst, sep + name) <==> EndsWith(dst, name) && EndsAt(dst, sep, |dst| - |name|)
  {
    if |sep| + |name| <= |dst| {
      var k := |dst| - |name|;
      assert dst[k - |sep|..] == dst[k - |sep|..k] + dst[k..];
    }
  }

  /** Selected is what ends in the name, with nothing or a separator in front of it. */
  lemma SuffixMatchMeans(dst: string, name: string)
    ensures SuffixMatch(dst, name) <==>
            EndsWith(dst, name) && (|dst| == |name| || SeparatorEnds(dst, |dst| - |name|))
  {
    EndsBehind(dst, "::", name);
    EndsBehind(dst, ".", name);
    EndsBehind(dst, "/", name);
    EndsBehind(dst, "\\", name);
    WholeName(dst, name);
    hide EndsAt, SeparatorEnds;
    if EndsWith(dst, name) { SeparatorPart(dst, |dst| - |name|); }
    hide EndsWith;
  }

  lemma WholeName(dst: string, name: string)
    ensures dst == name <==> EndsWith(dst, name) && |dst| == |name|
    ensures EndsWith(dst, name) ==> |name| <= |dst|
  {
    assert dst[0..] == dst;
  }

  lemma CutMeansSeparator(name: string, sep: string)
    requires |sep| > 0
    ensures CutAfter(name, sep) > 0 ==> sep[0] in name
  {
    if CutAfter(name, sep) > 0 {
      var i := RFindBelow(name, sep, |name|).value;
      assert name[i] == name[i..i + |sep|][0];
    }
  }

  lemma FreeOfSeparators(name: string)
    requires '.' !in name && '/' !in name && '\\' !in name && ':' !in name
    ensures Plain(name)
  {
    CutMeansSeparator(name, "::");
    CutMeansSeparator(name, ".");
    CutMeansSeparator(name, "/");
    CutMeansSeparator(name, "\\");
  }
}
