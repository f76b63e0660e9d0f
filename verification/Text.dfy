/** The string operations the chunker uses: blankness, trimming, line splitting and joining. */
module Text {
  import opened Wrappers

  /** Unicode White_Space, which `trim` removes. */
  predicate IsSpace(c: char) {
    var n := c as int;
    || 0x9 <= n <= 0xD || n == 0x20 || n == 0x85 || n == 0xA0 || n == 0x1680
    || 0x2000 <= n <= 0x200A || n == 0x2028 || n == 0x2029 || n == 0x202F || n == 0x205F || n == 0x3000
  }

  /** `s.trim().is_empty()`. */
  predicate Blank(s: string) { forall i :: 0 <= i < |s| ==> IsSpace(s[i]) }

  function TrimStart(s: string): string {
    if s != "" && IsSpace(s[0]) then TrimStart(s[1..]) else s
  }

  function TrimEnd(s: string): string {
    if s != "" && IsSpace(s[|s| - 1]) then TrimEnd(s[..|s| - 1]) else s
  }

  predicate EndsWith(s: string, suffix: string) {
    |suffix| <= |s| && s[|s| - |suffix|..] == suffix
  }

  predicate PartAt(s: string, part: string, i: nat) { i + |part| <= |s| && s[i..i + |part|] == part }

  predicate Contains(s: string, part: string) { exists i: nat :: i <= |s| && PartAt(s, part, i) }

  function LowerAscii(s: string): string {
    seq(|s|, i requires 0 <= i < |s| => if 'A' <= s[i] <= 'Z' then s[i] - 'A' + 'a' else s[i])
  }

  // ---- lines ----

  function IndexOf(s: string, c: char): (r: nat)
    ensures r <= |s| && (r < |s| ==> s[r] == c) && forall i :: 0 <= i < r ==> s[i] != c
  {
    if s == "" || s[0] == c then 0 else 1 + IndexOf(s[1..], c)
  }

  function StripCr(s: string): string {
    if s != "" && s[|s| - 1] == '\r' then s[..|s| - 1] else s
  }

  predicate OneLine(s: string) { '\n' !in s }

  /** `str::lines`: pieces between newlines, a carriage return before the newline dropped, no empty last piece. */
  function Lines(s: string): (r: seq<string>)
    ensures forall l :: l in r ==> OneLine(l)
    decreases |s|
  {
    if s == "" then []
    else
      var i := IndexOf(s, '\n');
      if i == |s| then [s] else [StripCr(s[..i])] + Lines(s[i + 1..])
  }

  // ---- what the lines of a text are ----

  function Newlines(s: string): nat { if s == "" then 0 else (if s[0] == '\n' then 1 else 0) + Newlines(s[1..]) }

  /** Line `l`, counted from 0, lies at `from` up to `to`: a newline or an end on either side, none within. */
  ghost predicate StandsAt(s: string, l: nat, from: nat, to: nat) {
    && from <= to <= |s| && from < |s|
    && (from == 0 || s[from - 1] == '\n') && (to == |s| || s[to] == '\n')
    && '\n' !in s[from..to] && Newlines(s[..from]) == l
  }

  /** The text of the line there: a carriage return goes with the newline behind it. */
  ghost function LineText(s: string, from: nat, to: nat): string
    requires from <= to <= |s|
  {
    if from < to < |s| && s[to - 1] == '\r' then s[from..to - 1] else s[from..to]
  }

  lemma {:induction false} NewlinesConcat(a: string, b: string)
    ensures Newlines(a + b) == Newlines(a) + Newlines(b)
  {
    if a == "" {
      assert a + b == b;
    } else {
      assert (a + b)[1..] == a[1..] + b;
      NewlinesConcat(a[1..], b);
    }
  }

  lemma {:induction false} NoNewlines(s: string)
    ensures Newlines(s) == 0 <==> '\n' !in s
  {
    if s != "" {
      NoNewlines(s[1..]);
      assert s == [s[0]] + s[1..];
    }
  }

  lemma NewlinesBehind(s: string, i: nat, from: nat)
    requires i < from <= |s| && s[i] == '\n' && '\n' !in s[..i]
    ensures Newlines(s[..from]) == 1 + Newlines(s[i + 1..][..from - i - 1])
  {
    assert s[..from] == s[..i] + ['\n'] + s[i + 1..][..from - i - 1];
    NewlinesConcat(s[..i] + ['\n'], s[i + 1..][..from - i - 1]);
    NewlinesConcat(s[..i], ['\n']);
    NoNewlines(s[..i]);
  }

  lemma SameStretch(s: string, k: nat, from: nat, to: nat)
    requires k <= from <= to <= |s|
    ensures s[from..to] == s[k..][from - k..to - k]
  {
  }

  /** Behind the first line stand the lines of the rest, one number lower. */
  lemma NextLine(s: string, i: nat, l: nat, from: nat, to: nat)
    requires i < |s| && s[i] == '\n' && '\n' !in s[..i]
    requires i < from <= to <= |s|
    ensures StandsAt(s, l + 1, from, to) <==> StandsAt(s[i + 1..], l, from - i - 1, to - i - 1)
    ensures LineText(s, from, to) == LineText(s[i + 1..], from - i - 1, to - i - 1)
  {
    NewlinesBehind(s, i, from);
    SameStretch(s, i + 1, from, to);
    hide Newlines;
    NextText(s, i, from, to);
  }

  lemma NextText(s: string, i: nat, from: nat, to: nat)
    requires i < from <= to <= |s|
    ensures LineText(s, from, to) == LineText(s[i + 1..], from - i - 1, to - i - 1)
  {
    SameStretch(s, i + 1, from, to);
    if from < to { SameStretch(s, i + 1, from, to - 1); }
  }

  lemma FirstText(s: string, i: nat)
    requires i <= |s|
    ensures LineText(s, 0, i) == if i == |s| then s else StripCr(s[..i])
  {
    assert s[0..i] == s[..i];
    assert i > 0 ==> s[0..i - 1] == s[..i][..i - 1];
  }

  /** The first line, and the lines of the rest behind it. */
  lemma FirstLine(s: string, i: nat)
    requires s != "" && i == IndexOf(s, '\n')
    ensures StandsAt(s, 0, 0, i)
    ensures Lines(s) == [LineText(s, 0, i)] + if i == |s| then [] else Lines(s[i + 1..])
  {
    FirstText(s, i);
    FirstStands(s, i);
    hide IndexOf, StripCr, LineText, StandsAt;
  }

  lemma FirstStands(s: string, i: nat)
    requires s != "" && i == IndexOf(s, '\n')
    ensures StandsAt(s, 0, 0, i)
  {
    assert Newlines("") == 0;
    hide Newlines, IndexOf;
    assert s[..0] == "";
    assert forall k :: 0 <= k < i ==> s[0..i][k] == s[k];
  }

  lemma FirstLineEnds(s: string, i: nat, to: nat)
    requires i == IndexOf(s, '\n') && to <= |s| && (to == |s| || s[to] == '\n') && '\n' !in s[..to]
    ensures to == i
  {
    assert forall k :: 0 <= k < to ==> s[..to][k] != '\n';
  }

  /** Every line that stands in the text is listed under its number. */
  lemma {:induction false} LinesHave(s: string, l: nat, from: nat, to: nat)
    requires StandsAt(s, l, from, to)
    ensures l < |Lines(s)| && Lines(s)[l] == LineText(s, from, to)
    decreases |s|
  {
    hide Newlines, Lines, LineText, IndexOf;
    var i := IndexOf(s, '\n');
    FirstLine(s, i);
    NoNewlines(s[..from]);
    if from == 0 {
      assert s[0..to] == s[..to];
      FirstLineEnds(s, i, to);
    } else {
      assert s[..from][from - 1] == '\n';
      NextLine(s, i, l - 1, from, to);
      LinesHave(s[i + 1..], l - 1, from - i - 1, to - i - 1);
    }
  }

  lemma NoLines()
    ensures Lines("") == []
  {
  }

  /** Every listed line stands in the text. */
  lemma {:induction false} LinesStand(s: string, l: nat) returns (from: nat, to: nat)
    requires l < |Lines(s)|
    ensures StandsAt(s, l, from, to) && Lines(s)[l] == LineText(s, from, to)
    decreases |s|
  {
    hide Newlines, Lines, LineText, StandsAt, IndexOf;
    NoLines();
    var i := IndexOf(s, '\n');
    FirstLine(s, i);
    if l == 0 {
      from, to := 0, i;
    } else {
      var a, b := LinesStand(s[i + 1..], l - 1);
      StandsWithin(s[i + 1..], l - 1, a, b);
      from, to := a + i + 1, b + i + 1;
      NextLine(s, i, l - 1, from, to);
    }
  }

  lemma StandsWithin(s: string, l: nat, from: nat, to: nat)
    requires StandsAt(s, l, from, to)
    ensures from <= to <= |s|
  {
  }

  /** Taking apart what was put together: whole lines, and perhaps a last one without its newline. */
  lemma {:induction false} LinesOfUnlines(ls: seq<string>, last: string)
    requires OneLine(last) && forall l :: l in ls ==> OneLine(l) && !EndsWith(l, "\r")
    ensures Lines(Unlines(ls) + last) == ls + if last == "" then [] else [last]
  {
    if ls == [] {
      assert Unlines(ls) + last == last;
      if last != "" { FirstLineEnds(last, IndexOf(last, '\n'), |last|); }
    } else {
      var rest := Unlines(ls[1..]) + last;
      assert ls == [ls[0]] + ls[1..];
      UnlinesConcat([ls[0]], ls[1..]);
      assert Unlines([ls[0]]) == ls[0] + "\n" by { assert [ls[0]][..0] == []; }
      assert Unlines(ls) + last == ls[0] + "\n" + rest;
      LinesOfUnlines(ls[1..], last);
      NewlineCuts(ls[0], "\n", rest);
    }
  }

  /** A line ends at its newline; a carriage return just before it goes too. */
  lemma NewlineCuts(line: string, end: string, rest: string)
    requires OneLine(line) && (end == "\r\n" || (end == "\n" && !EndsWith(line, "\r")))
    ensures Lines(line + end + rest) == [line] + Lines(rest)
  {
    hide Lines, IndexOf, StripCr;
    var s := line + end + rest;
    var to := |line| + |end| - 1;
    NewlineStands(line, end, rest);
    FirstLineEnds(s, IndexOf(s, '\n'), to);
    FirstLine(s, to);
    FirstText(s, to);
    Stripped(line, end);
  }

  lemma NewlineStands(line: string, end: string, rest: string)
    requires OneLine(line) && (end == "\r\n" || end == "\n")
    ensures var s, to := line + end + rest, |line| + |end| - 1;
            s[..to] == line + end[..|end| - 1] && s[to] == '\n' && s[to + 1..] == rest && '\n' !in s[..to]
  {
    assert (line + end)[..|line| + |end| - 1] == line + end[..|end| - 1];
  }

  lemma Stripped(line: string, end: string)
    requires end == "\r\n" || (end == "\n" && !EndsWith(line, "\r"))
    ensures StripCr(line + end[..|end| - 1]) == line
  {
    assert end == "\n" && line != "" ==> line[|line| - 1..] == [line[|line| - 1]];
    assert end == "\r\n" ==> (line + "\r")[..|line|] == line;
  }

  /** Each line followed by a newline. */
  function Unlines(lines: seq<string>): string {
    if lines == [] then "" else Unlines(lines[..|lines| - 1]) + lines[|lines| - 1] + "\n"
  }

  function Join(lines: seq<string>): string {
    if lines == [] then ""
    else if |lines| == 1 then lines[0]
    else Join(lines[..|lines| - 1]) + "\n" + lines[|lines| - 1]
  }

  lemma {:induction false} JoinNewline(lines: seq<string>)
    requires lines != []
    ensures Join(lines) + "\n" == Unlines(lines)
  {
    if |lines| > 1 {
      JoinNewline(lines[..|lines| - 1]);
    } else {
      assert lines[..0] == [];
    }
  }

  /** Lines `from + 1` to `to` of a file, as the chunker slices them. */
  function Slice(lines: seq<string>, start: nat, end: nat): string {
    var s := (if start >= 1 then start else 1) - 1;
    var e := if end <= |lines| then end else |lines|;
    if s >= e then "" else Join(lines[s..e]) + "\n"
  }

  lemma SliceIsUnlines(lines: seq<string>, start: nat, end: nat)
    requires 1 <= start
    ensures var e := if end <= |lines| then end else |lines|;
            Slice(lines, start, end) == if start - 1 >= e then "" else Unlines(lines[start - 1..e])
  {
    var e := if end <= |lines| then end else |lines|;
    if start - 1 < e { JoinNewline(lines[start - 1..e]); }
  }

  lemma UnlinesSnoc(lines: seq<string>, l: string)
    ensures Unlines(lines + [l]) == Unlines(lines) + l + "\n"
  {
    assert (lines + [l])[..|lines|] == lines;
  }

  lemma {:induction false} UnlinesConcat(a: seq<string>, b: seq<string>)
    ensures Unlines(a + b) == Unlines(a) + Unlines(b)
  {
    if b == [] {
      assert a + b == a;
    } else {
      assert (a + b)[..|a + b| - 1] == a + b[..|b| - 1];
      UnlinesConcat(a, b[..|b| - 1]);
    }
  }

  /** `line` stands in `content` as a whole line. */
  ghost predicate HasLine(content: string, line: string) {
    exists a, b :: content == a + line + "\n" + b && (a == "" || a[|a| - 1] == '\n')
  }

  lemma UnlinesEnds(lines: seq<string>)
    ensures Unlines(lines) == "" || Unlines(lines)[|Unlines(lines)| - 1] == '\n'
  {
  }

  lemma UnlinesHasLine(lines: seq<string>, i: nat)
    requires i < |lines|
    ensures HasLine(Unlines(lines), lines[i])
  {
    hide Unlines, HasLine;
    var upto, after := lines[..i] + [lines[i]], lines[i + 1..];
    assert lines == upto + after;
    UnlinesConcat(upto, after);
    UnlinesSnoc(lines[..i], lines[i]);
    UnlinesEnds(lines[..i]);
    LineStands(Unlines(lines[..i]), lines[i], Unlines(after));
  }

  lemma LineStands(a: string, line: string, b: string)
    requires a == "" || a[|a| - 1] == '\n'
    ensures HasLine(a + line + "\n" + b, line)
  {
  }

  lemma {:induction false} UnlinesBlank(lines: seq<string>)
    ensures Blank(Unlines(lines)) <==> forall l :: l in lines ==> Blank(l)
  {
    if lines != [] {
      var init, last := lines[..|lines| - 1], lines[|lines| - 1];
      UnlinesBlank(init);
      assert lines == init + [last];
      BlankConcat(Unlines(init), last + "\n");
      BlankConcat(last, "\n");
      assert Unlines(lines) == Unlines(init) + (last + "\n");
    }
  }

  lemma BlankConcat(a: string, b: string)
    ensures Blank(a + b) <==> Blank(a) && Blank(b)
  {
    if Blank(a + b) {
      forall i | 0 <= i < |a| ensures IsSpace(a[i]) { assert (a + b)[i] == a[i]; }
      forall i | 0 <= i < |b| ensures IsSpace(b[i]) { assert (a + b)[|a| + i] == b[i]; }
    }
  }
}
