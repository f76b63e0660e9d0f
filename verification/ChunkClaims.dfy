/** Which lines a symbol takes from above it, line by line, and who owns a covered line in the end. */
module ChunkClaims {
  import opened Wrappers
  import opened Schema
  import opened Text
  import opened ChunkOwners
  import opened ChunkDocs

  // ---- what the lines look like ----

  /** Behind its indentation of `n` characters the line starts with `mark`. */
  predicate MarkedAt(line: string, mark: string, n: nat) { n <= |line| && Blank(line[..n]) && PartAt(line, mark, n) }

  ghost predicate Marked(line: string, mark: string) { exists n: nat :: MarkedAt(line, mark, n) }

  lemma {:induction false} TrimmedStart(line: string) returns (n: nat)
    ensures n <= |line| && Blank(line[..n]) && TrimStart(line) == line[n..]
    ensures n < |line| ==> !IsSpace(line[n])
  {
    hide IsSpace;
    if line != "" && IsSpace(line[0]) {
      var k := TrimmedStart(line[1..]);
      n := k + 1;
      forall i | 0 <= i < n ensures IsSpace(line[..n][i]) {
        if i > 0 { assert line[1..][..k][i - 1] == line[i]; }
      }
    } else {
      n := 0;
      assert line[0..] == line;
    }
  }

  /** Trimming leaves the mark in front exactly when only indentation stands before it. */
  lemma MarkedIs(line: string, mark: string)
    requires mark != "" && !IsSpace(mark[0])
    ensures mark <= TrimStart(line) <==> Marked(line, mark)
  {
    var n := TrimmedStart(line);
    hide TrimStart, IsSpace, Blank;
    if mark <= line[n..] {
      assert line[n..n + |mark|] == line[n..][..|mark|];
      assert MarkedAt(line, mark, n);
    }
    if m: nat :| MarkedAt(line, mark, m) {
      SameIndent(line, mark, n, m);
      assert line[n..n + |mark|] == line[n..][..|mark|];
    }
  }

  lemma SameIndent(line: string, mark: string, n: nat, m: nat)
    requires mark != "" && !IsSpace(mark[0]) && MarkedAt(line, mark, m)
    requires n <= |line| && Blank(line[..n]) && (n < |line| ==> !IsSpace(line[n]))
    ensures n == m
  {
    assert line[m] == line[m..m + |mark|][0];
    forall k | 0 <= k < n ensures IsSpace(line[k]) { assert line[..n][k] == line[k]; }
    forall k | 0 <= k < m ensures IsSpace(line[k]) { assert line[..m][k] == line[k]; }
  }

  /** Comments, attributes and decorators: what a line starts with behind its indentation. */
  ghost predicate AnnotationText(line: string) {
    Marked(line, "#") || Marked(line, "//") || Marked(line, "/*") || Marked(line, "*") || Marked(line, "@")
    || Marked(line, "--")
  }

  lemma AnnotationMeans(line: string)
    ensures IsAnnotationLine(line) <==> AnnotationText(line)
  {
    hide TrimStart, Marked;
    MarkedIs(line, "#");
    MarkedIs(line, "//");
    MarkedIs(line, "/*");
    MarkedIs(line, "*");
    MarkedIs(line, "@");
    MarkedIs(line, "--");
  }

  /** The line closes a block comment: only white space stands behind its end mark. */
  ghost predicate ClosesBlock(line: string) { exists n: nat :: ClosesAt(line, n) }

  predicate ClosesAt(line: string, n: nat) { PartAt(line, "*/", n) && Blank(line[n + 2..]) }

  lemma {:induction false} TrimmedEnd(line: string) returns (n: nat)
    ensures n <= |line| && Blank(line[n..]) && TrimEnd(line) == line[..n]
    ensures n > 0 ==> !IsSpace(line[n - 1])
  {
    hide IsSpace;
    var m := |line| - 1;
    if line != "" && IsSpace(line[m]) {
      n := TrimmedEnd(line[..m]);
      forall i | 0 <= i < |line| - n ensures IsSpace(line[n..][i]) {
        if n + i < m { assert line[..m][n..][i] == line[n + i]; }
      }
    } else {
      n := |line|;
    }
  }

  lemma ClosingMeans(line: string)
    ensures EndsWith(TrimEnd(line), "*/") <==> ClosesBlock(line)
  {
    var n := TrimmedEnd(line);
    assert !IsSpace('/') && !IsSpace('*');
    hide TrimEnd, IsSpace;
    if EndsWith(line[..n], "*/") {
      assert line[n - 2..n] == line[..n][n - 2..];
      assert ClosesAt(line, n - 2);
    }
    if m: nat :| ClosesAt(line, m) {
      assert line[m..m + 2][1] == '/';
      forall k | n <= k < |line| ensures IsSpace(line[k]) { assert line[n..][k - n] == line[k]; }
      forall k | m + 2 <= k < |line| ensures IsSpace(line[k]) { assert line[m + 2..][k - m - 2] == line[k]; }
      assert n == m + 2;
      assert line[..n][m..] == line[m..m + 2];
    }
  }

  predicate SameLetter(c: char, low: char) { c == low || ('A' <= c <= 'Z' && c - 'A' + 'a' == low) }

  predicate MentionsAt(line: string, word: string, i: nat) {
    i + |word| <= |line| && forall k :: 0 <= k < |word| ==> SameLetter(line[i + k], word[k])
  }

  /** The line contains the word, in ASCII capitals or not. */
  ghost predicate Mentions(line: string, word: string) { exists i: nat :: MentionsAt(line, word, i) }

  lemma MentionMeans(line: string, word: string)
    requires forall k :: 0 <= k < |word| ==> !('A' <= word[k] <= 'Z')
    ensures Contains(LowerAscii(line), word) <==> Mentions(line, word)
  {
    var low := LowerAscii(line);
    forall i: nat ensures PartAt(low, word, i) <==> MentionsAt(line, word, i) {
      if i + |word| <= |line| {
        var part := low[i..i + |word|];
        assert forall k :: 0 <= k < |word| ==> part[k] == low[i + k];
        assert MentionsAt(line, word, i) ==> part == word;
      }
    }
  }

  ghost predicate LegalText(line: string) {
    Mentions(line, "copyright") || Mentions(line, "@license") || Mentions(line, "licensed under")
  }

  lemma LegalMeans(line: string)
    ensures IsLegal(line) <==> LegalText(line)
  {
    hide LowerAscii, Contains, Mentions;
    MentionMeans(line, "copyright");
    MentionMeans(line, "@license");
    MentionMeans(line, "licensed under");
  }

  ghost predicate DocHead(line: string) { Marked(line, "/**") || Marked(line, "///") }

  /** Where it begins: at the nearest opening of its block, or at the top of the run of `///` lines. */
  ghost predicate TopOfDoc(lines: seq<string>, first: nat, last: nat)
    requires first <= last < |lines|
  {
    if ClosesBlock(lines[last]) then
      Marked(lines[first], "/*") && forall k :: first < k <= last ==> !Marked(lines[k], "/*")
    else
      && (forall k :: first <= k < last ==> Marked(lines[k], "///"))
      && (first == 0 || !Marked(lines[first - 1], "///"))
  }

  /**
   The doc comment from `first` to the line above the blank one: from where it begins; a doc by its first line,
   and no license.
   */
  ghost predicate DocBlock(lines: seq<string>, blank: nat, first: nat)
    requires blank <= |lines|
  {
    && first < blank && AnnotationText(lines[blank - 1]) && DocHead(lines[first])
    && (forall k :: first <= k < blank ==> !LegalText(lines[k]))
    && TopOfDoc(lines, first, blank - 1)
  }

  lemma OpeningIs(lines: seq<string>, at: nat, first: nat)
    requires at < |lines|
    ensures BlockOpening(lines, at) == Some(first) <==>
            first <= at && OpensBlock(lines[first]) && forall k :: first < k <= at ==> !OpensBlock(lines[k])
  {
  }

  lemma RunIs(lines: seq<string>, at: nat, first: nat)
    requires first <= at < |lines|
    ensures SlashRun(lines, at) == first <==>
            (forall k :: first <= k < at ==> SlashDoc(lines[k])) && (first == 0 || !SlashDoc(lines[first - 1]))
  {
    var r := SlashRun(lines, at);
    assert r < first ==> SlashDoc(lines[first - 1]);
    assert first < r ==> r > 0;
  }

  lemma DocMeans(lines: seq<string>, blank: nat, first: nat)
    requires blank < |lines|
    ensures DocStart(lines, blank) == Some(first) <==> DocBlock(lines, blank, first)
  {
    hide TrimStart, SlashDoc, DocHead, DocFirst, TopOfDoc, AnyLegal, IsAnnotationLine, AnnotationText, LegalText;
    if blank > 0 {
      AnnotationMeans(lines[blank - 1]);
      DocFirstMeans(lines, blank - 1, first);
      if first < blank {
        HeadMeans(lines[first]);
        AnyLegalMeans(lines, first, blank - 1);
      }
    }
  }

  lemma HeadMeans(line: string)
    ensures "/**" <= TrimStart(line) || SlashDoc(line) <==> DocHead(line)
  {
    hide TrimStart, Marked;
    MarkedIs(line, "/**");
    MarkedIs(line, "///");
  }

  lemma AnyLegalMeans(lines: seq<string>, first: nat, last: nat)
    requires last < |lines|
    ensures AnyLegal(lines, first, last) <==> exists k :: first <= k <= last && LegalText(lines[k])
  {
    hide IsLegal, LegalText;
    forall k | first <= k <= last ensures IsLegal(lines[k]) <==> LegalText(lines[k]) { LegalMeans(lines[k]); }
  }

  lemma DocFirstMeans(lines: seq<string>, last: nat, first: nat)
    requires last < |lines|
    ensures DocFirst(lines, last) == Some(first) <==> first <= last && TopOfDoc(lines, first, last)
  {
    hide TrimStart, TrimEnd, EndsWith, Marked, ClosesBlock, OpensBlock, SlashDoc, BlockOpening, SlashRun;
    ClosingMeans(lines[last]);
    forall k | 0 <= k < |lines|
      ensures OpensBlock(lines[k]) <==> Marked(lines[k], "/*")
      ensures SlashDoc(lines[k]) <==> Marked(lines[k], "///")
    {
      OpensMeans(lines[k]);
    }
    if EndsWith(TrimEnd(lines[last]), "*/") {
      OpeningIs(lines, last, first);
    } else if first <= last {
      RunIs(lines, last, first);
    }
  }

  lemma OpensMeans(line: string)
    ensures (OpensBlock(line) <==> Marked(line, "/*")) && (SlashDoc(line) <==> Marked(line, "///"))
  {
    hide TrimStart, Marked;
    MarkedIs(line, "/*");
    MarkedIs(line, "///");
  }

  // ---- what an extension takes ----

  ghost predicate InDecorator(lines: seq<string>, first: nat, l: nat, close: nat) {
    first <= l <= close < |lines| && DecoratorFrom(lines, close, close) == Some(first)
  }

  ghost predicate InDoc(lines: seq<string>, start: nat, first: nat, l: nat) {
    2 <= start <= |lines| + 1 && first <= l <= start - 2 && Blank(lines[start - 2]) && DocBlock(lines, start - 2, first)
  }

  /** Why a line may be taken: it is an annotation, inside a decorator, or in the doc one blank line up. */
  ghost predicate TakenFor(lines: seq<string>, start: nat, l: nat)
    requires l < |lines|
  {
    || AnnotationText(lines[l])
    || (exists first: nat, close: nat :: InDecorator(lines, first, l, close))
    || (exists first: nat :: InDoc(lines, start, first, l))
  }

  /** Nothing else is taken. */
  lemma {:induction false} ClaimsHaveReasons(symbols: seq<NewSymbol>, lines: seq<string>, owner: Owners, i: nat,
                                             start: nat, s: nat, l: nat)
    requires ParentsPrecede(symbols) && i < |symbols| && s <= start
    requires ExtendFrom(symbols, lines, owner, i, start, s) - 1 <= l < s - 1
    ensures l < |lines| && TakenFor(lines, start, l)
    decreases s
  {
    hide Claimable, AllClaimable, AnnotationText, DocBlock, DocStart, DecoratorFrom, IsAnnotationLine, Blank;
    var prev := s - 2;
    var first := Step(lines, prev, s == start);
    if l < first.value {
      ClaimsHaveReasons(symbols, lines, owner, i, start, first.value + 1, l);
    } else {
      AnnotationMeans(lines[prev]);
      DocMeans(lines, prev, first.value);
      assert Blank(lines[prev]) ==> InDoc(lines, start, first.value, l);
      assert !Blank(lines[prev]) && !IsAnnotationLine(lines[prev]) ==> InDecorator(lines, first.value, l, prev);
    }
  }

  /** The line just above the extended start is none the symbol could still take as an annotation. */
  lemma {:induction false} ClaimIsMaximal(symbols: seq<NewSymbol>, lines: seq<string>, owner: Owners, i: nat,
                                          start: nat, s: nat)
    requires ParentsPrecede(symbols) && i < |symbols| && |owner| == |lines|
    ensures var r := ExtendFrom(symbols, lines, owner, i, start, s);
            2 <= r <= |lines| + 1 && Claimable(symbols, owner, i, r - 2) ==> !AnnotationText(lines[r - 2])
    decreases s
  {
    hide Claimable, AnnotationText, DocStart, DecoratorFrom, IsAnnotationLine, Blank;
    if 2 <= s <= |lines| + 1 && Claimable(symbols, owner, i, s - 2) {
      var prev := s - 2;
      AnnotationMeans(lines[prev]);
      AnnotationNotBlank(lines[prev]);
      var first := Step(lines, prev, s == start);
      if first.Some? && AllClaimable(symbols, owner, i, first.value, prev) {
        ClaimIsMaximal(symbols, lines, owner, i, start, first.value + 1);
      }
    }
  }

  lemma AnnotationNotBlank(line: string)
    ensures AnnotationText(line) ==> !Blank(line)
  {
    if AnnotationText(line) {
      var mark := if Marked(line, "#") then "#" else if Marked(line, "//") then "//"
                  else if Marked(line, "/*") then "/*" else if Marked(line, "*") then "*"
                  else if Marked(line, "@") then "@" else "--";
      var n: nat :| MarkedAt(line, mark, n);
      assert line[n] == line[n..n + |mark|][0] && !IsSpace(line[n]);
    }
  }

  /** An annotation directly above the symbol that is free, or an ancestor's, becomes its own when its turn comes. */
  lemma AnnotationAboveIsTaken(symbols: seq<NewSymbol>, lines: seq<string>, i: nat, l: nat)
    requires ValidSymbols(symbols) && 1 <= i < |symbols| && l < |lines| && l + 2 == symbols[i].startLine
    requires AnnotationText(lines[l]) && Claimable(symbols, OwnersAfter(symbols, lines, i), i, l)
    ensures OwnersAfter(symbols, lines, i + 1)[l] == Some(i)
  {
    hide Claimable, AnnotationText, DocStart, DecoratorFrom, IsAnnotationLine, Blank;
    AnnotationMeans(lines[l]);
    AnnotationNotBlank(lines[l]);
    assert Step(lines, l, true) == Some(l);
    assert AllClaimable(symbols, OwnersAfter(symbols, lines, i), i, l, l);
  }

  // ---- who owns a line in the end ----

  /** `o` is `m` or lies inside it. */
  predicate Within(symbols: seq<NewSymbol>, m: nat, o: nat)
    requires ParentsPrecede(symbols) && o < |symbols|
  {
    o == m || Ancestor(symbols, m, o)
  }

  lemma {:induction false} WithinTransitive(symbols: seq<NewSymbol>, a: nat, b: nat, c: nat)
    requires ParentsPrecede(symbols) && b < |symbols| && c < |symbols|
    requires Within(symbols, a, b) && Ancestor(symbols, b, c)
    ensures Ancestor(symbols, a, c)
    decreases c
  {
    var p := symbols[c].parent.value;
    if p != b { WithinTransitive(symbols, a, b, p); }
  }

  /** A line that has an owner keeps it, or passes to a symbol inside that owner. */
  lemma {:induction false} OwnersMoveInward(symbols: seq<NewSymbol>, lines: seq<string>, k: nat, n: nat, l: nat)
    requires ValidSymbols(symbols) && k <= n <= |symbols| && l < |lines|
    requires OwnersAfter(symbols, lines, k)[l].Some? && OwnersAfter(symbols, lines, k)[l].value < |symbols|
    ensures var m := OwnersAfter(symbols, lines, k)[l].value;
            && OwnersAfter(symbols, lines, n)[l].Some? && OwnersAfter(symbols, lines, n)[l].value < |symbols|
            && Within(symbols, m, OwnersAfter(symbols, lines, n)[l].value)
    decreases n - k
  {
    hide OwnersAfter, ExtStart, Ancestor;
    if k < n && n >= 2 {
      OwnersMoveInward(symbols, lines, k, n - 1, l);
      OneMoreOwner(symbols, lines, n, l);
      var i, start := n - 1, symbols[n - 1].startLine;
      if ExtStart(symbols, lines, i) - 1 <= l < start - 1 {
        ClaimedWasAllowed(symbols, lines, i, l);
        var o := OwnersAfter(symbols, lines, i)[l].value;
        if o != i { WithinTransitive(symbols, OwnersAfter(symbols, lines, k)[l].value, o, i); }
      }
    } else if k < n {
      FirstOwners(symbols, lines, k, n);
    }
  }

  lemma FirstOwners(symbols: seq<NewSymbol>, lines: seq<string>, k: nat, n: nat)
    requires ValidSymbols(symbols) && k <= n <= 1 && n <= |symbols|
    ensures OwnersAfter(symbols, lines, k) == OwnersAfter(symbols, lines, n)
  {
  }

  lemma ClaimedWasAllowed(symbols: seq<NewSymbol>, lines: seq<string>, i: nat, l: nat)
    requires ValidSymbols(symbols) && 1 <= i < |symbols| && l < |lines|
    requires ExtStart(symbols, lines, i) - 1 <= l < symbols[i].startLine - 1
    ensures Claimable(symbols, OwnersAfter(symbols, lines, i), i, l)
  {
    hide OwnersAfter, ExtendFrom, Claimable;
    var start := symbols[i].startLine;
    ClaimsAreAllowed(symbols, lines, OwnersAfter(symbols, lines, i), i, start, start, l);
  }

  /** `m` covers the line, and no symbol that does has a shorter range. */
  ghost predicate Narrowest(symbols: seq<NewSymbol>, l: nat, m: nat)
    requires m < |symbols|
  {
    && 1 <= m && symbols[m].startLine <= l + 1 <= symbols[m].endLine
    && forall j :: 1 <= j < |symbols| && symbols[j].startLine <= l + 1 <= symbols[j].endLine ==>
         symbols[m].endLine - symbols[m].startLine <= symbols[j].endLine - symbols[j].startLine
  }

  /** A line that some symbol covers ends up with the narrowest of them, or with a symbol inside it. */
  lemma CoveredLineOwner(symbols: seq<NewSymbol>, lines: seq<string>, l: nat, i: nat) returns (m: nat)
    requires ValidSymbols(symbols) && l < |lines|
    requires 1 <= i < |symbols| && symbols[i].startLine <= l + 1 <= symbols[i].endLine
    ensures m < |symbols| && Narrowest(symbols, l, m)
    ensures FinalOwners(symbols, lines)[l].Some? && FinalOwners(symbols, lines)[l].value < |symbols|
    ensures Within(symbols, m, FinalOwners(symbols, lines)[l].value)
  {
    assert Covers(symbols[i], l);
    m := Innermost(symbols, l, |symbols|).value;
    assert OwnersAfter(symbols, lines, 1)[l] == Some(m);
    NarrowestIs(symbols, l);
    hide OwnersAfter, Innermost, Ancestor;
    OwnersMoveInward(symbols, lines, 1, |symbols|, l);
  }

  lemma NarrowestIs(symbols: seq<NewSymbol>, l: nat)
    requires ValidSymbols(symbols)
    ensures var r := Innermost(symbols, l, |symbols|); r.Some? ==> Narrowest(symbols, l, r.value)
  {
    var r := Innermost(symbols, l, |symbols|);
    if r.Some? {
      forall j | 1 <= j < |symbols| && symbols[j].startLine <= l + 1 <= symbols[j].endLine
        ensures symbols[r.value].endLine - symbols[r.value].startLine <= symbols[j].endLine - symbols[j].startLine
      {
        assert Covers(symbols[j], l);
      }
    }
  }

  /** The annotation above a symbol ends up its own, or a descendant's that reaches across it. */
  lemma AnnotationAboveIsOwned(symbols: seq<NewSymbol>, lines: seq<string>, i: nat, l: nat)
    requires ValidSymbols(symbols) && 1 <= i < |symbols| && l < |lines| && l + 2 == symbols[i].startLine
    requires AnnotationText(lines[l]) && Claimable(symbols, OwnersAfter(symbols, lines, i), i, l)
    ensures FinalOwners(symbols, lines)[l].Some? && FinalOwners(symbols, lines)[l].value < |symbols|
    ensures Within(symbols, i, FinalOwners(symbols, lines)[l].value)
  {
    hide OwnersAfter, Ancestor, AnnotationText, Claimable;
    AnnotationAboveIsTaken(symbols, lines, i, l);
    OwnersMoveInward(symbols, lines, i + 1, |symbols|, l);
  }
}
