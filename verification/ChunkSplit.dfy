/** Keeping chunks within budget: truncation with a marker, and splitting an oversized leaf without losing text. */
module ChunkSplit {
  import opened Wrappers
  import opened Schema
  import opened Text

  const MAX_TOKENS := 512
  const MAX_CHARS := 2048
  const MARKER := "\U{2026} (truncated)\n"

  // ---- truncation ----

  /** Unchanged when it fits; otherwise whole leading lines, or the head of a single long one, and the marker. */
  ghost predicate CapsTo(content: string, r: string) {
    if EstimateTokens(content) <= MAX_TOKENS then r == content
    else exists k :: 0 <= k <= |Lines(content)| && CutAt(Lines(content), k, r)
  }

  ghost predicate CutAt(ls: seq<string>, k: nat, r: string)
    requires k <= |ls|
  {
    && (k < |ls| ==> !LineFits(ls, k))
    && (forall j :: 0 <= j < k ==> LineFits(ls, j))
    && r == (if k == 0 && |ls| > 0 then Head(ls[0]) + "\n" else Unlines(ls[..k])) + MARKER
  }

  function Head(line: string): string { if |line| <= MAX_CHARS then line else line[..MAX_CHARS] }

  lemma CutIsSmall(ls: seq<string>, k: nat, r: string)
    requires k <= |ls| && CutAt(ls, k, r)
    ensures EstimateTokens(r) <= MAX_TOKENS + 3
  {
    if k > 0 {
      assert LineFits(ls, k - 1);
      assert ls[..k] == ls[..k - 1] + [ls[k - 1]];
      UnlinesSnoc(ls[..k - 1], ls[k - 1]);
    }
  }

  predicate LineFits(ls: seq<string>, k: nat)
    requires k < |ls|
  {
    EstimateTokens(Unlines(ls[..k])) + EstimateTokens(ls[k]) <= MAX_TOKENS - 4
  }

  lemma NonemptyPrefix(ls: seq<string>, k: nat)
    requires k <= |ls|
    ensures Unlines(ls[..k]) == "" <==> k == 0
  {
  }

  method CapContent(content: string) returns (r: string)
    ensures CapsTo(content, r)
    ensures EstimateTokens(r) <= MAX_TOKENS + 3
  {
    hide Lines, Unlines, Head;
    if EstimateTokens(content) <= MAX_TOKENS { return content; }
    var ls := Lines(content);
    var out := "";
    var k := 0;
    NonemptyPrefix(ls, 0);
    while k < |ls| && EstimateTokens(out) + EstimateTokens(ls[k]) <= MAX_TOKENS - 4
      invariant k <= |ls| && out == Unlines(ls[..k])
      invariant forall j :: 0 <= j < k ==> LineFits(ls, j)
    {
      assert ls[..k + 1] == ls[..k] + [ls[k]];
      UnlinesSnoc(ls[..k], ls[k]);
      assert LineFits(ls, k);
      out := out + ls[k] + "\n";
      k := k + 1;
    }
    NonemptyPrefix(ls, k);
    if k < |ls| && out == "" {
      out := Head(ls[k]) + "\n";
    }
    r := out + MARKER;
    assert CutAt(ls, k, r);
    CutIsSmall(ls, k, r);
  }

  // ---- splitting ----

  function Body(lines: seq<string>, from: nat, to: nat): string
    requires from <= to <= |lines|
  {
    Unlines(lines[from..to])
  }

  predicate Overflows(lines: seq<string>, from: nat, at: nat)
    requires from <= at < |lines|
  {
    EstimateTokens(Body(lines, from, at)) + EstimateTokens(lines[at]) > MAX_TOKENS
  }

  /** The buffer of a piece that starts at `from` is flushed with text before line `at`. */
  predicate CutHere(lines: seq<string>, from: nat, at: nat)
    requires from <= at < |lines|
  {
    Overflows(lines, from, at) && !Blank(Body(lines, from, at))
  }

  /** A piece: the lines between two cuts, whole, behind the signature when it is not the first flush. */
  ghost predicate PieceOf(lines: seq<string>, sym: nat, sig: Option<string>, from: nat, to: nat, end: nat,
                          piece: NewChunk, prefixed: bool)
    requires from <= to <= end <= |lines|
  {
    && piece.symbol == Some(sym) && !piece.isTest
    && piece.content == (if prefixed && sig.Some? then sig.value + "\n" else "") + Body(lines, from, to)
    && from < piece.startLine <= piece.endLine == to
    && (forall l :: from <= l < piece.startLine - 1 ==> Blank(lines[l]))
    && !Blank(Body(lines, from, to))
    && (forall at :: from < at < to ==> !CutHere(lines, from, at))
    && (to < end ==> CutHere(lines, from, to))
  }

  /** The pieces lie end to end from the symbol's first line, each after the first one prefixed. */
  ghost predicate EndToEnd(lines: seq<string>, sym: nat, sig: Option<string>, start: nat, end: nat,
                           pieces: seq<NewChunk>, cuts: seq<nat>, prefixed: seq<bool>)
    requires start <= end <= |lines|
  {
    && |cuts| == |pieces| + 1 && |prefixed| == |pieces| && cuts[0] == start && cuts[|pieces|] <= end
    && (forall i :: 0 <= i < |pieces| ==> NthPiece(lines, sym, sig, end, pieces, cuts, prefixed, i))
    && (forall i :: 0 < i < |pieces| ==> prefixed[i])
  }

  ghost predicate NthPiece(lines: seq<string>, sym: nat, sig: Option<string>, end: nat, pieces: seq<NewChunk>,
                           cuts: seq<nat>, prefixed: seq<bool>, i: nat)
    requires end <= |lines| && |cuts| == |pieces| + 1 && |prefixed| == |pieces| && i < |pieces|
  {
    && cuts[i] < cuts[i + 1] <= end
    && PieceOf(lines, sym, sig, cuts[i], cuts[i + 1], end, pieces[i], prefixed[i])
  }

  /** The whole symbol is split; only blank lines may be left over. */
  ghost predicate SplitsInto(lines: seq<string>, sym: nat, sig: Option<string>, start: nat, end: nat,
                             pieces: seq<NewChunk>, cuts: seq<nat>, prefixed: seq<bool>)
    requires start <= end <= |lines|
  {
    && EndToEnd(lines, sym, sig, start, end, pieces, cuts, prefixed)
    && (forall l :: cuts[|pieces|] <= l < end ==> Blank(lines[l]))
  }

  ghost predicate Splits(lines: seq<string>, sym: nat, sig: Option<string>, start: nat, end: nat, pieces: seq<NewChunk>)
    requires start <= end <= |lines|
  {
    exists cuts, prefixed :: SplitsInto(lines, sym, sig, start, end, pieces, cuts, prefixed)
  }

  lemma BodyGrows(lines: seq<string>, from: nat, at: nat)
    requires from <= at < |lines|
    ensures Body(lines, from, at + 1) == Body(lines, from, at) + lines[at] + "\n"
    ensures Body(lines, from, at) == "" <==> from == at
    ensures Blank(Body(lines, from, at + 1)) <==> Blank(Body(lines, from, at)) && Blank(lines[at])
  {
    assert lines[from..at + 1] == lines[from..at] + [lines[at]];
    UnlinesSnoc(lines[from..at], lines[at]);
    BlankConcat(Body(lines, from, at), lines[at] + "\n");
    BlankConcat(lines[at], "\n");
    assert Body(lines, from, at + 1) == Body(lines, from, at) + (lines[at] + "\n");
  }

  lemma BlankBody(lines: seq<string>, from: nat, to: nat, l: nat)
    requires from <= l < to <= |lines| && Blank(Body(lines, from, to))
    ensures Blank(lines[l])
  {
    UnlinesBlank(lines[from..to]);
    assert lines[l] == lines[from..to][l - from];
  }

  /** What the loop knows before line `at`: finished pieces up to the last cut, and the buffer since. */
  ghost predicate SplitSoFar(lines: seq<string>, sym: nat, sig: Option<string>, start: nat, end: nat,
                             pieces: seq<NewChunk>, cuts: seq<nat>, prefixed: seq<bool>, at: nat, pieceStart: nat,
                             first: bool)
    requires start <= at <= end <= |lines|
  {
    && EndToEnd(lines, sym, sig, start, end, pieces, cuts, prefixed) && |cuts| == |pieces| + 1 && cuts[|pieces|] <= at
    && (|pieces| > 0 ==> !first)
    && cuts[|pieces|] < pieceStart && (pieceStart <= at || at == cuts[|pieces|])
    && (forall l :: cuts[|pieces|] <= l < pieceStart - 1 ==> l < |lines| && Blank(lines[l]))
    && (forall a :: cuts[|pieces|] < a < at ==> !CutHere(lines, cuts[|pieces|], a))
  }

  /** One more piece goes at the end. */
  lemma EndToEndSnoc(lines: seq<string>, sym: nat, sig: Option<string>, start: nat, end: nat, pieces: seq<NewChunk>,
                     cuts: seq<nat>, prefixed: seq<bool>, piece: NewChunk, at: nat, flag: bool)
    requires start <= end <= |lines| && EndToEnd(lines, sym, sig, start, end, pieces, cuts, prefixed)
    requires cuts[|pieces|] < at <= end && PieceOf(lines, sym, sig, cuts[|pieces|], at, end, piece, flag)
    requires |pieces| > 0 ==> flag
    ensures EndToEnd(lines, sym, sig, start, end, pieces + [piece], cuts + [at], prefixed + [flag])
  {
    hide PieceOf;
    var n := |pieces|;
    var allCuts, all, flags := cuts + [at], pieces + [piece], prefixed + [flag];
    forall i | 0 <= i < n + 1 ensures NthPiece(lines, sym, sig, end, all, allCuts, flags, i) {
      if i < n {
        assert NthPiece(lines, sym, sig, end, pieces, cuts, prefixed, i);
        assert allCuts[i] == cuts[i] && allCuts[i + 1] == cuts[i + 1] && all[i] == pieces[i] && flags[i] == prefixed[i];
      }
    }
  }

  /** One flush of a buffer with text: the piece is cut off. */
  lemma FlushStep(lines: seq<string>, sym: nat, sig: Option<string>, start: nat, end: nat, pieces: seq<NewChunk>,
                  cuts: seq<nat>, prefixed: seq<bool>, at: nat, pieceStart: nat, first: bool, piece: NewChunk)
    requires start <= at <= end <= |lines|
    requires SplitSoFar(lines, sym, sig, start, end, pieces, cuts, prefixed, at, pieceStart, first)
    requires !Blank(Body(lines, cuts[|pieces|], at))
    requires at < end ==> Overflows(lines, cuts[|pieces|], at)
    requires piece == NewChunk(Some(sym), pieceStart, at,
                               (if !first && sig.Some? then sig.value + "\n" else "")
                               + Body(lines, cuts[|pieces|], at), false)
    ensures SplitSoFar(lines, sym, sig, start, end, pieces + [piece], cuts + [at], prefixed + [!first], at, at + 1,
                       false)
  {
    var from := cuts[|pieces|];
    hide Unlines, Blank, EndToEnd;
    assert from < at by { NonblankBody(lines, from, at); }
    assert PieceOf(lines, sym, sig, from, at, end, piece, !first);
    EndToEndSnoc(lines, sym, sig, start, end, pieces, cuts, prefixed, piece, at, !first);
  }

  lemma EmptyBody(lines: seq<string>, at: nat)
    requires at <= |lines|
    ensures Body(lines, at, at) == "" && Blank(Body(lines, at, at))
  {
    assert lines[at..at] == [];
  }

  lemma NonblankBody(lines: seq<string>, from: nat, to: nat)
    requires from <= to <= |lines| && !Blank(Body(lines, from, to))
    ensures from < to
  {
  }

  /** A line that joins the buffer instead of being cut before. */
  lemma GrowStep(lines: seq<string>, sym: nat, sig: Option<string>, start: nat, end: nat, pieces: seq<NewChunk>,
                 cuts: seq<nat>, prefixed: seq<bool>, at: nat, pieceStart: nat, first: bool)
    requires start <= at < end <= |lines|
    requires SplitSoFar(lines, sym, sig, start, end, pieces, cuts, prefixed, at, pieceStart, first)
    requires cuts[|pieces|] < at ==> !CutHere(lines, cuts[|pieces|], at)
    requires pieceStart <= at + 1
    ensures SplitSoFar(lines, sym, sig, start, end, pieces, cuts, prefixed, at + 1, pieceStart, first)
  {
    hide Unlines, Blank, CutHere, EndToEnd;
  }

  /** A flush that found only blanks: the text stays, but the range moves on. */
  lemma SkipStep(lines: seq<string>, sym: nat, sig: Option<string>, start: nat, end: nat, pieces: seq<NewChunk>,
                 cuts: seq<nat>, prefixed: seq<bool>, at: nat, pieceStart: nat, first: bool)
    requires start <= at < end <= |lines|
    requires SplitSoFar(lines, sym, sig, start, end, pieces, cuts, prefixed, at, pieceStart, first)
    requires cuts[|pieces|] < at && Blank(Body(lines, cuts[|pieces|], at))
    ensures SplitSoFar(lines, sym, sig, start, end, pieces, cuts, prefixed, at + 1, at + 1, false)
    ensures forall l :: cuts[|pieces|] <= l < at ==> Blank(lines[l])
  {
    hide Unlines, Blank, EndToEnd;
    var from := cuts[|pieces|];
    forall l | from <= l < at ensures Blank(lines[l]) { BlankBody(lines, from, at, l); }
    assert !CutHere(lines, from, at);
    forall a | from < a < at + 1 ensures !CutHere(lines, from, a) {}
  }

  method SplitOversized(lines: seq<string>, sym: nat, sig: Option<string>, startLine: nat, endLine: nat)
    returns (pieces: seq<NewChunk>)
    requires startLine >= 1
    ensures var end := if endLine < |lines| then endLine else |lines|;
            if startLine - 1 <= end then Splits(lines, sym, sig, startLine - 1, end, pieces) else pieces == []
  {
    hide Unlines, Blank, EndToEnd, SplitSoFar;
    var end := if endLine < |lines| then endLine else |lines|;
    ghost var start := startLine - 1;
    pieces := [];
    ghost var cuts: seq<nat>, prefixed: seq<bool> := [start], [];
    if startLine - 1 > end { return; }
    var pieceStart, buf, first := startLine, "", true;
    assert SplitSoFar(lines, sym, sig, start, end, pieces, cuts, prefixed, start, pieceStart, first) by {
      SplitStarts(lines, sym, sig, start, end);
    }
    EmptyBody(lines, start);
    for at := startLine - 1 to end
      invariant SplitSoFar(lines, sym, sig, start, end, pieces, cuts, prefixed, at, pieceStart, first)
      invariant |cuts| == |pieces| + 1 && cuts[|pieces|] <= at && buf == Body(lines, cuts[|pieces|], at)
      invariant pieceStart <= at + 1
    {
      BodyGrows(lines, cuts[|pieces|], at);
      if EstimateTokens(buf) + EstimateTokens(lines[at]) > MAX_TOKENS && buf != "" {
        if Blank(buf) {
          SkipStep(lines, sym, sig, start, end, pieces, cuts, prefixed, at, pieceStart, first);
        } else {
          var piece := NewChunk(Some(sym), pieceStart, at,
                                (if !first && sig.Some? then sig.value + "\n" else "") + buf, false);
          FlushStep(lines, sym, sig, start, end, pieces, cuts, prefixed, at, pieceStart, first, piece);
          pieces, cuts, prefixed := pieces + [piece], cuts + [at], prefixed + [!first];
          buf := "";
          EmptyBody(lines, at);
          BodyGrows(lines, at, at);
          GrowStep(lines, sym, sig, start, end, pieces, cuts, prefixed, at, at + 1, false);
        }
        first, pieceStart := false, at + 1;
      } else {
        GrowStep(lines, sym, sig, start, end, pieces, cuts, prefixed, at, pieceStart, first);
      }
      buf := buf + lines[at] + "\n";
    }
    if !Blank(buf) {
      var piece := NewChunk(Some(sym), pieceStart, end,
                            (if !first && sig.Some? then sig.value + "\n" else "") + buf, false);
      FlushStep(lines, sym, sig, start, end, pieces, cuts, prefixed, end, pieceStart, first, piece);
      pieces, cuts, prefixed := pieces + [piece], cuts + [end], prefixed + [!first];
      first, pieceStart := false, end + 1;
      EmptyBody(lines, end);
    }
    SplitEnds(lines, sym, sig, start, end, pieces, cuts, prefixed, first, pieceStart);
  }

  lemma SplitStarts(lines: seq<string>, sym: nat, sig: Option<string>, start: nat, end: nat)
    requires start <= end <= |lines|
    ensures SplitSoFar(lines, sym, sig, start, end, [], [start], [], start, start + 1, true)
  {
  }

  lemma SplitEnds(lines: seq<string>, sym: nat, sig: Option<string>, start: nat, end: nat, pieces: seq<NewChunk>,
                  cuts: seq<nat>, prefixed: seq<bool>, first: bool, pieceStart: nat)
    requires start <= end <= |lines| && |cuts| == |pieces| + 1
    requires SplitSoFar(lines, sym, sig, start, end, pieces, cuts, prefixed, end, pieceStart, first)
    requires cuts[|pieces|] <= end && Blank(Body(lines, cuts[|pieces|], end))
    ensures SplitsInto(lines, sym, sig, start, end, pieces, cuts, prefixed)
  {
    hide Unlines, Blank, EndToEnd;
    forall l | cuts[|pieces|] <= l < end ensures Blank(lines[l]) { BlankBody(lines, cuts[|pieces|], end, l); }
  }

  // ---- what splitting keeps ----

  function SigPrefix(sig: Option<string>, prefixed: bool): string {
    if prefixed && sig.Some? then sig.value + "\n" else ""
  }

  /** The piece contents in order, signature prefixes removed. */
  function Stitched(pieces: seq<NewChunk>, sig: Option<string>, prefixed: seq<bool>, n: nat): string
    requires n <= |pieces| == |prefixed|
  {
    if n == 0 then ""
    else
      var c := pieces[n - 1].content;
      var skip := |SigPrefix(sig, prefixed[n - 1])|;
      Stitched(pieces, sig, prefixed, n - 1) + (if skip <= |c| then c[skip..] else "")
  }

  lemma {:induction false} StitchedIsBody(lines: seq<string>, sym: nat, sig: Option<string>, start: nat, end: nat,
                                          pieces: seq<NewChunk>, cuts: seq<nat>, prefixed: seq<bool>, n: nat)
    requires start <= end <= |lines| && SplitsInto(lines, sym, sig, start, end, pieces, cuts, prefixed) && n <= |pieces|
    ensures start <= cuts[n] <= end && Stitched(pieces, sig, prefixed, n) == Body(lines, start, cuts[n])
  {
    hide Unlines, Blank;
    if n == 0 {
      EmptyBody(lines, start);
    } else {
      StitchedIsBody(lines, sym, sig, start, end, pieces, cuts, prefixed, n - 1);
      var from, to := cuts[n - 1], cuts[n];
      assert NthPiece(lines, sym, sig, end, pieces, cuts, prefixed, n - 1);
      BodyConcat(lines, start, from, to);
    }
  }

  lemma BodyConcat(lines: seq<string>, a: nat, b: nat, c: nat)
    requires a <= b <= c <= |lines|
    ensures Body(lines, a, c) == Body(lines, a, b) + Body(lines, b, c)
  {
    assert lines[a..c] == lines[a..b] + lines[b..c];
    UnlinesConcat(lines[a..b], lines[b..c]);
  }

  /** Splitting conserves text: stitched together, the pieces are the symbol's lines less an all-blank tail. */
  lemma SplitConserves(lines: seq<string>, sym: nat, sig: Option<string>, start: nat, end: nat, pieces: seq<NewChunk>)
    returns (prefixed: seq<bool>, tail: string)
    requires start <= end <= |lines| && Splits(lines, sym, sig, start, end, pieces)
    ensures |prefixed| == |pieces| && forall i :: 0 < i < |pieces| ==> prefixed[i]
    ensures forall i :: 0 <= i < |pieces| ==> SigPrefix(sig, prefixed[i]) <= pieces[i].content
    ensures Stitched(pieces, sig, prefixed, |pieces|) + tail == Unlines(lines[start..end]) && Blank(tail)
  {
    hide Unlines, Blank, CutHere;
    var cuts, flags :| SplitsInto(lines, sym, sig, start, end, pieces, cuts, flags);
    prefixed := flags;
    StitchedIsBody(lines, sym, sig, start, end, pieces, cuts, flags, |pieces|);
    forall i | 0 <= i < |pieces| ensures SigPrefix(sig, flags[i]) <= pieces[i].content {
      assert NthPiece(lines, sym, sig, end, pieces, cuts, flags, i);
    }
    var last := cuts[|pieces|];
    tail := Body(lines, last, end);
    BodyConcat(lines, start, last, end);
    assert Blank(tail) by {
      UnlinesBlank(lines[last..end]);
      forall s | s in lines[last..end] ensures Blank(s) {
        var i :| 0 <= i < end - last && lines[last..end][i] == s;
        assert lines[last + i] == s;
      }
    }
  }

  lemma CutsInOrder(lines: seq<string>, sym: nat, sig: Option<string>, start: nat, end: nat,
                    pieces: seq<NewChunk>, cuts: seq<nat>, prefixed: seq<bool>, i: nat, j: nat)
    requires start <= end <= |lines| && SplitsInto(lines, sym, sig, start, end, pieces, cuts, prefixed)
    requires i < j < |pieces|
    ensures start < pieces[i].startLine <= pieces[i].endLine < pieces[j].startLine <= pieces[j].endLine <= end
    decreases j - i
  {
    hide Unlines, Blank, CutHere;
    StitchedIsBody(lines, sym, sig, start, end, pieces, cuts, prefixed, i);
    assert NthPiece(lines, sym, sig, end, pieces, cuts, prefixed, i);
    assert NthPiece(lines, sym, sig, end, pieces, cuts, prefixed, j);
    if i + 1 < j {
      CutsInOrder(lines, sym, sig, start, end, pieces, cuts, prefixed, i + 1, j);
      assert NthPiece(lines, sym, sig, end, pieces, cuts, prefixed, i + 1);
    }
  }

  /** The ranges of the pieces increase without overlap. */
  lemma PiecesInOrder(lines: seq<string>, sym: nat, sig: Option<string>, start: nat, end: nat, pieces: seq<NewChunk>,
                      i: nat, j: nat)
    requires start <= end <= |lines| && Splits(lines, sym, sig, start, end, pieces) && i < j < |pieces|
    ensures start < pieces[i].startLine <= pieces[i].endLine < pieces[j].startLine <= pieces[j].endLine <= end
  {
    hide SplitsInto;
    var cuts, prefixed :| SplitsInto(lines, sym, sig, start, end, pieces, cuts, prefixed);
    CutsInOrder(lines, sym, sig, start, end, pieces, cuts, prefixed, i, j);
  }

  lemma {:induction false} CutAround(cuts: seq<nat>, n: nat, l: nat) returns (i: nat)
    requires |cuts| == n + 1 && cuts[0] <= l < cuts[n]
    ensures i < n && cuts[i] <= l < cuts[i + 1]
    decreases n
  {
    if cuts[n - 1] <= l { i := n - 1; } else { i := CutAround(cuts[..n], n - 1, l); }
  }

  lemma HasLineBehind(prefix: string, body: string, line: string)
    requires HasLine(body, line) && (prefix == "" || prefix[|prefix| - 1] == '\n')
    ensures HasLine(prefix + body, line)
  {
    var a, b :| body == a + line + "\n" + b && (a == "" || a[|a| - 1] == '\n');
    assert prefix + body == (prefix + a) + line + "\n" + b;
  }

  lemma PieceBelongs(lines: seq<string>, sym: nat, sig: Option<string>, start: nat, end: nat, pieces: seq<NewChunk>,
                     c: NewChunk)
    requires start <= end <= |lines| && Splits(lines, sym, sig, start, end, pieces) && c in pieces
    ensures c.symbol == Some(sym)
  {
    hide Unlines, Blank, CutHere;
    var cuts, prefixed :| SplitsInto(lines, sym, sig, start, end, pieces, cuts, prefixed);
    var i :| 0 <= i < |pieces| && pieces[i] == c;
    assert NthPiece(lines, sym, sig, end, pieces, cuts, prefixed, i);
  }

  /** Every line with text stands whole in the piece whose range contains it. */
  lemma SplitKeepsLine(lines: seq<string>, sym: nat, sig: Option<string>, start: nat, end: nat, pieces: seq<NewChunk>,
                       l: nat)
    returns (i: nat)
    requires start <= l < end <= |lines| && Splits(lines, sym, sig, start, end, pieces)
    requires !Blank(lines[l])
    ensures i < |pieces| && pieces[i].symbol == Some(sym) && HasLine(pieces[i].content, lines[l])
    ensures pieces[i].startLine <= l + 1 <= pieces[i].endLine
  {
    hide Unlines, Blank, CutHere, HasLine;
    var cuts, prefixed :| SplitsInto(lines, sym, sig, start, end, pieces, cuts, prefixed);
    i := CutAround(cuts, |pieces|, l);
    assert NthPiece(lines, sym, sig, end, pieces, cuts, prefixed, i);
    var body := lines[cuts[i]..cuts[i + 1]];
    assert body[l - cuts[i]] == lines[l];
    UnlinesHasLine(body, l - cuts[i]);
    HasLineBehind(SigPrefix(sig, prefixed[i]), Unlines(body), lines[l]);
  }
}
