/** The module preamble: runs of text no symbol covers, merged across blank lines while they fit one chunk. */
module ChunkPreamble {
  import opened Wrappers
  import opened Schema
  import opened Text
  import opened ChunkSplit
  import opened ChunkPacking

  /** Lines `from` up to, but without, `to`. */
  type Span = (nat, nat)

  /** A line with text that no symbol covers. */
  predicate Loose(lines: seq<string>, covered: seq<bool>, l: nat)
    requires |lines| == |covered|
  {
    l < |lines| && !covered[l] && !Blank(lines[l])
  }

  predicate AllLoose(lines: seq<string>, covered: seq<bool>, from: nat, to: nat)
    requires |lines| == |covered|
  {
    forall l :: from <= l < to ==> Loose(lines, covered, l)
  }

  function SpanTokens(lines: seq<string>, from: nat, to: nat): nat { EstimateTokens(Slice(lines, from + 1, to)) }

  predicate NoneCovered(covered: seq<bool>, from: nat, to: nat) {
    forall l :: from <= l < to ==> l < |covered| && !covered[l]
  }

  // ---- what the runs are ----

  /** A run begins and ends with text, holds no covered line, and fits the budget unless it is one unbroken stretch. */
  ghost predicate GoodRun(lines: seq<string>, covered: seq<bool>, r: Span)
    requires |lines| == |covered|
  {
    && r.0 < r.1 <= |lines| && Loose(lines, covered, r.0) && Loose(lines, covered, r.1 - 1)
    && NoneCovered(covered, r.0, r.1) && (r.1 == |lines| || !Loose(lines, covered, r.1))
    && (AllLoose(lines, covered, r.0, r.1) || SpanTokens(lines, r.0, r.1) <= MAX_TOKENS)
  }

  /** `s` comes after `r`, and its first unbroken stretch, which ends at `e`, could not be merged into `r`. */
  ghost predicate Refused(lines: seq<string>, covered: seq<bool>, r: Span, s: Span, e: nat)
    requires |lines| == |covered|
  {
    && s.0 < e <= s.1 && AllLoose(lines, covered, s.0, e) && (e == |lines| || !Loose(lines, covered, e))
    && (!NoneCovered(covered, r.1, s.0) || SpanTokens(lines, r.0, e) > MAX_TOKENS)
  }

  ghost predicate Apart(lines: seq<string>, covered: seq<bool>, r: Span, s: Span)
    requires |lines| == |covered|
  {
    r.1 < s.0 && exists e :: Refused(lines, covered, r, s, e)
  }

  predicate InRun(runs: seq<Span>, k: nat, l: nat) { k < |runs| && runs[k].0 <= l < runs[k].1 }

  /** The runs of the lines before `n`: good, in order, as few as the rules allow, and holding every loose line. */
  ghost predicate RunsUpTo(lines: seq<string>, covered: seq<bool>, runs: seq<Span>, n: nat)
    requires |lines| == |covered|
  {
    && (forall k :: 0 <= k < |runs| ==> GoodRun(lines, covered, runs[k]))
    && (forall j, k :: 0 <= j < |runs| && k == j + 1 && k < |runs| ==> Apart(lines, covered, runs[j], runs[k]))
    && (forall l :: 0 <= l < n && Loose(lines, covered, l) ==> exists k: nat :: InRun(runs, k, l))
    && (runs != [] ==> runs[|runs| - 1].1 < n)
  }

  /** Runs are disjoint and in order. */
  lemma {:induction false} RunsInOrder(lines: seq<string>, covered: seq<bool>, runs: seq<Span>, n: nat, j: nat, k: nat)
    requires |lines| == |covered| && RunsUpTo(lines, covered, runs, n) && j < k < |runs|
    ensures runs[j].0 < runs[j].1 < runs[k].0 < runs[k].1
    decreases k - j
  {
    hide Loose, AllLoose, NoneCovered;
    assert GoodRun(lines, covered, runs[j]) && GoodRun(lines, covered, runs[k]);
    var i := k - 1;
    assert Apart(lines, covered, runs[i], runs[k]);
    if j < i { RunsInOrder(lines, covered, runs, n, j, i); }
  }

  /** No loose line is in two runs. */
  lemma InOneRun(lines: seq<string>, covered: seq<bool>, runs: seq<Span>, n: nat, j: nat, k: nat, l: nat)
    requires |lines| == |covered| && RunsUpTo(lines, covered, runs, n) && InRun(runs, j, l) && InRun(runs, k, l)
    ensures j == k
  {
    if j < k {
      RunsInOrder(lines, covered, runs, n, j, k);
    } else if k < j {
      RunsInOrder(lines, covered, runs, n, k, j);
    }
  }

  // ---- computing the runs ----

  /** The line belongs to no run: it is blank or covered. */
  lemma PassOver(lines: seq<string>, covered: seq<bool>, runs: seq<Span>, n: nat)
    requires |lines| == |covered| && RunsUpTo(lines, covered, runs, n) && !Loose(lines, covered, n)
    ensures RunsUpTo(lines, covered, runs, n + 1)
  {
    hide GoodRun, Apart, InRun, Loose;
  }

  lemma StillIn(runs: seq<Span>, more: seq<Span>, k: nat, l: nat)
    requires InRun(runs, k, l) && |runs| <= |more|
    requires forall j :: 0 <= j < |runs| ==> more[j].0 <= runs[j].0 && runs[j].1 <= more[j].1
    ensures InRun(more, k, l)
  {
  }

  lemma StretchIsGood(lines: seq<string>, covered: seq<bool>, rs: nat, i: nat)
    requires |lines| == |covered| && rs < i <= |lines| && AllLoose(lines, covered, rs, i) && !Loose(lines, covered, i)
    ensures GoodRun(lines, covered, (rs, i))
  {
    hide Blank, SpanTokens;
    assert Loose(lines, covered, rs) && Loose(lines, covered, i - 1);
    forall l | rs <= l < i ensures !covered[l] { assert Loose(lines, covered, l); }
  }

  lemma MergedIsGood(lines: seq<string>, covered: seq<bool>, r: Span, rs: nat, i: nat)
    requires |lines| == |covered| && rs < i <= |lines| && AllLoose(lines, covered, rs, i) && !Loose(lines, covered, i)
    requires GoodRun(lines, covered, r) && r.1 < rs && NoneCovered(covered, r.1, rs)
    requires SpanTokens(lines, r.0, i) <= MAX_TOKENS
    ensures GoodRun(lines, covered, (r.0, i))
  {
    hide Blank, SpanTokens;
    assert Loose(lines, covered, i - 1);
    forall l | r.0 <= l < i ensures !covered[l] { assert l >= rs ==> Loose(lines, covered, l); }
  }

  lemma RefusedIsApart(lines: seq<string>, covered: seq<bool>, r: Span, rs: nat, i: nat)
    requires |lines| == |covered| && rs < i <= |lines| && AllLoose(lines, covered, rs, i) && !Loose(lines, covered, i)
    requires r.1 < rs && (!NoneCovered(covered, r.1, rs) || SpanTokens(lines, r.0, i) > MAX_TOKENS)
    ensures Apart(lines, covered, r, (rs, i))
  {
    hide Loose, AllLoose, NoneCovered, SpanTokens;
    assert Refused(lines, covered, r, (rs, i), i);
  }

  lemma MergedIsApart(lines: seq<string>, covered: seq<bool>, q: Span, r: Span, i: nat)
    requires |lines| == |covered| && Apart(lines, covered, q, r) && r.1 < i
    ensures Apart(lines, covered, q, (r.0, i))
  {
    hide Loose, AllLoose, NoneCovered, SpanTokens;
    var e :| Refused(lines, covered, q, r, e);
    assert Refused(lines, covered, q, (r.0, i), e);
  }

  /** Widening the last run, or adding one, keeps every earlier loose line where it was. */
  lemma StillHeld(lines: seq<string>, covered: seq<bool>, runs: seq<Span>, all: seq<Span>, rs: nat, i: nat)
    requires |lines| == |covered| && RunsUpTo(lines, covered, runs, rs) && |runs| <= |all| && all != []
    requires forall j :: 0 <= j < |runs| ==> all[j].0 <= runs[j].0 && runs[j].1 <= all[j].1
    requires all[|all| - 1].0 <= rs && all[|all| - 1].1 == i && !Loose(lines, covered, i)
    ensures forall l :: 0 <= l < i + 1 && Loose(lines, covered, l) ==> exists k: nat :: InRun(all, k, l)
  {
    hide GoodRun, Apart, Loose;
    forall l | 0 <= l < i + 1 && Loose(lines, covered, l) ensures exists k: nat :: InRun(all, k, l) {
      if l < rs {
        var k: nat :| InRun(runs, k, l);
        StillIn(runs, all, k, l);
      } else {
        assert InRun(all, |all| - 1, l);
      }
    }
  }

  /** A finished stretch becomes a run of its own. */
  lemma PushRun(lines: seq<string>, covered: seq<bool>, runs: seq<Span>, rs: nat, i: nat)
    requires |lines| == |covered| && RunsUpTo(lines, covered, runs, rs)
    requires rs < i <= |lines| && AllLoose(lines, covered, rs, i) && !Loose(lines, covered, i)
    requires runs != [] ==>
               var r := runs[|runs| - 1];
               !NoneCovered(covered, r.1, rs) || SpanTokens(lines, r.0, i) > MAX_TOKENS
    ensures RunsUpTo(lines, covered, runs + [(rs, i)], i + 1)
  {
    hide GoodRun, Apart, Loose, AllLoose, NoneCovered, SpanTokens;
    var s, all := (rs, i), runs + [(rs, i)];
    StretchIsGood(lines, covered, rs, i);
    if runs != [] { RefusedIsApart(lines, covered, runs[|runs| - 1], rs, i); }
    StillHeld(lines, covered, runs, all, rs, i);
    hide InRun;
    forall j, k | 0 <= j < |all| && k == j + 1 && k < |all| ensures Apart(lines, covered, all[j], all[k]) {
      if k < |runs| { assert all[j] == runs[j] && all[k] == runs[k]; }
    }
  }

  /** A finished stretch is merged into the run before it. */
  lemma MergeRun(lines: seq<string>, covered: seq<bool>, runs: seq<Span>, rs: nat, i: nat)
    requires |lines| == |covered| && RunsUpTo(lines, covered, runs, rs) && runs != []
    requires rs < i <= |lines| && AllLoose(lines, covered, rs, i) && !Loose(lines, covered, i)
    requires var r := runs[|runs| - 1];
             NoneCovered(covered, r.1, rs) && SpanTokens(lines, r.0, i) <= MAX_TOKENS
    ensures RunsUpTo(lines, covered, runs[|runs| - 1 := (runs[|runs| - 1].0, i)], i + 1)
  {
    hide GoodRun, Apart, Loose, AllLoose, NoneCovered, SpanTokens;
    var last := |runs| - 1;
    var all := runs[last := (runs[last].0, i)];
    RunIsNotEmpty(lines, covered, runs[last]);
    MergedIsGood(lines, covered, runs[last], rs, i);
    StillHeld(lines, covered, runs, all, rs, i);
    MergedStaysApart(lines, covered, runs, i);
  }

  lemma RunIsNotEmpty(lines: seq<string>, covered: seq<bool>, r: Span)
    requires |lines| == |covered| && GoodRun(lines, covered, r)
    ensures r.0 < r.1
  {
  }

  lemma MergedStaysApart(lines: seq<string>, covered: seq<bool>, runs: seq<Span>, i: nat)
    requires |lines| == |covered| && runs != [] && runs[|runs| - 1].1 < i
    requires forall j, k :: 0 <= j < |runs| && k == j + 1 && k < |runs| ==> Apart(lines, covered, runs[j], runs[k])
    ensures var all := runs[|runs| - 1 := (runs[|runs| - 1].0, i)];
            forall j, k :: 0 <= j < |all| && k == j + 1 && k < |all| ==> Apart(lines, covered, all[j], all[k])
  {
    hide Apart;
    var last := |runs| - 1;
    var all := runs[last := (runs[last].0, i)];
    forall j, k | 0 <= j < |all| && k == j + 1 && k < |all| ensures Apart(lines, covered, all[j], all[k]) {
      assert Apart(lines, covered, runs[j], runs[k]);
      if k == last { MergedIsApart(lines, covered, runs[j], runs[last], i); }
    }
  }

  method Runs(lines: seq<string>, covered: seq<bool>) returns (runs: seq<Span>)
    requires |lines| == |covered|
    ensures RunsUpTo(lines, covered, runs, |lines| + 1)
  {
    hide RunsUpTo, Blank, Slice;
    runs := [];
    var runStart: Option<nat> := None;
    NoRuns(lines, covered);
    for i := 0 to |lines| + 1
      invariant runStart.Some? ==> runStart.value < i <= |lines| && AllLoose(lines, covered, runStart.value, i)
      invariant RunsUpTo(lines, covered, runs, if runStart.Some? then runStart.value else i)
    {
      if i < |lines| && !covered[i] && !Blank(lines[i]) {
        if runStart.None? { runStart := Some(i); }
      } else {
        if runStart.Some? {
          var rs := runStart.value;
          runStart := None;
          RunsEndBefore(lines, covered, runs, rs);
          if runs != []
             && NoneCovered(covered, runs[|runs| - 1].1, rs)
             && SpanTokens(lines, runs[|runs| - 1].0, i) <= MAX_TOKENS {
            MergeRun(lines, covered, runs, rs, i);
            runs := runs[|runs| - 1 := (runs[|runs| - 1].0, i)];
          } else {
            PushRun(lines, covered, runs, rs, i);
            runs := runs + [(rs, i)];
          }
        } else {
          PassOver(lines, covered, runs, i);
        }
      }
    }
  }

  lemma NoRuns(lines: seq<string>, covered: seq<bool>)
    requires |lines| == |covered|
    ensures RunsUpTo(lines, covered, [], 0)
  {
  }

  lemma RunsEndBefore(lines: seq<string>, covered: seq<bool>, runs: seq<Span>, n: nat)
    requires |lines| == |covered| && RunsUpTo(lines, covered, runs, n)
    ensures runs != [] ==> runs[|runs| - 1].1 < n
  {
  }

  // ---- the preamble chunks ----

  /** A run becomes one chunk of the module, unless it is punctuation only. */
  ghost predicate RunChunk(alnum: char -> bool, lines: seq<string>, r: Span, slot: Option<NewChunk>) {
    var text := Slice(lines, r.0 + 1, r.1);
    && (slot.Some? <==> Searchable(alnum, text))
    && (slot.Some? ==>
          var c := slot.value;
          && c.symbol == Some(0) && !c.isTest && c.startLine == r.0 + 1 && c.endLine == r.1
          && CapsTo(text, c.content) && EstimateTokens(c.content) <= MAX_TOKENS + 3)
  }

  /** One slot per run, and the chunks are those of the slots. */
  ghost predicate ChunksFrom(alnum: char -> bool, lines: seq<string>, runs: seq<Span>, slots: seq<Option<NewChunk>>,
                             chunks: seq<NewChunk>)
  {
    && |slots| == |runs| && chunks == Present(slots)
    && forall k :: 0 <= k < |runs| ==> RunChunk(alnum, lines, runs[k], slots[k])
  }

  ghost predicate ChunksOfRuns(alnum: char -> bool, lines: seq<string>, runs: seq<Span>, chunks: seq<NewChunk>) {
    exists slots :: ChunksFrom(alnum, lines, runs, slots, chunks)
  }

  method PreambleChunks(alnum: char -> bool, lines: seq<string>, runs: seq<Span>)
    returns (chunks: seq<NewChunk>)
    ensures ChunksOfRuns(alnum, lines, runs, chunks)
  {
    hide Searchable, CapsTo, Slice;
    chunks := [];
    ghost var slots: seq<Option<NewChunk>> := [];
    for k := 0 to |runs|
      invariant |slots| == k && chunks == Present(slots)
      invariant forall j :: 0 <= j < k ==> RunChunk(alnum, lines, runs[j], slots[j])
    {
      var r := runs[k];
      var text := Slice(lines, r.0 + 1, r.1);
      var slot: Option<NewChunk> := None;
      if Searchable(alnum, text) {
        var content := CapContent(text);
        slot := Some(NewChunk(Some(0), r.0 + 1, r.1, content, false));
        chunks := chunks + [slot.value];
      }
      PresentSnoc(slots, slot);
      slots := slots + [slot];
    }
    assert ChunksFrom(alnum, lines, runs, slots, chunks);
  }

  lemma LineInSlice(lines: seq<string>, from: nat, to: nat, l: nat)
    requires from <= l < to <= |lines|
    ensures HasLine(Slice(lines, from + 1, to), lines[l])
  {
    hide Slice, Unlines, HasLine;
    SliceIsUnlines(lines, from + 1, to);
    UnlinesHasLine(lines[from..to], l - from);
    assert lines[from..to][l - from] == lines[l];
  }

  lemma SearchableWithin(alnum: char -> bool, content: string, line: string)
    requires HasLine(content, line) && Searchable(alnum, line)
    ensures Searchable(alnum, content)
  {
    var a, b :| content == a + line + "\n" + b && (a == "" || a[|a| - 1] == '\n');
    var c :| c in line && alnum(c);
    var i :| 0 <= i < |line| && line[i] == c;
    assert content[|a| + i] == c;
  }

  /**
   Every uncovered line with text to search for stands whole in the chunk of its run, except in an unbroken
   stretch over the budget, which is cut.
   */
  lemma PreambleKeepsLine(alnum: char -> bool, lines: seq<string>, covered: seq<bool>, runs: seq<Span>,
                          chunks: seq<NewChunk>, l: nat) returns (k: nat, c: NewChunk)
    requires |lines| == |covered| && Alphanumeric(alnum) && RunsUpTo(lines, covered, runs, |lines| + 1)
    requires ChunksOfRuns(alnum, lines, runs, chunks)
    requires l < |lines| && !covered[l] && Searchable(alnum, lines[l])
    ensures InRun(runs, k, l) && c in chunks && c.startLine <= l + 1 <= c.endLine
    ensures c.symbol == Some(0) && c.startLine == runs[k].0 + 1 && c.endLine == runs[k].1
    ensures SpanTokens(lines, runs[k].0, runs[k].1) <= MAX_TOKENS ==> HasLine(c.content, lines[l])
    ensures SpanTokens(lines, runs[k].0, runs[k].1) > MAX_TOKENS ==> AllLoose(lines, covered, runs[k].0, runs[k].1)
  {
    hide Searchable, HasLine, Slice, Lines, Blank, GoodRun, CapsTo;
    SearchableIsNotBlank(alnum, lines[l]);
    assert Loose(lines, covered, l);
    k :| InRun(runs, k, l);
    var slots: seq<Option<NewChunk>> :| ChunksFrom(alnum, lines, runs, slots, chunks);
    assert RunChunk(alnum, lines, runs[k], slots[k]);
    RunKeepsLine(alnum, lines, covered, runs[k], slots[k], l);
    PresentHas(slots, k);
    c := slots[k].value;
  }

  lemma RunKeepsLine(alnum: char -> bool, lines: seq<string>, covered: seq<bool>, r: Span, slot: Option<NewChunk>,
                     l: nat)
    requires |lines| == |covered| && GoodRun(lines, covered, r) && RunChunk(alnum, lines, r, slot)
    requires r.0 <= l < r.1 && Searchable(alnum, lines[l])
    ensures slot.Some? && slot.value.startLine <= l + 1 <= slot.value.endLine
    ensures SpanTokens(lines, r.0, r.1) <= MAX_TOKENS ==> HasLine(slot.value.content, lines[l])
    ensures SpanTokens(lines, r.0, r.1) > MAX_TOKENS ==> AllLoose(lines, covered, r.0, r.1)
  {
    hide Searchable, HasLine, Slice, Lines, Loose, NoneCovered;
    LineInSlice(lines, r.0, r.1, l);
    SearchableWithin(alnum, Slice(lines, r.0 + 1, r.1), lines[l]);
  }

  /** No preamble chunk exceeds the cap and its marker. */
  lemma PreambleChunksAreSmall(alnum: char -> bool, lines: seq<string>, runs: seq<Span>, chunks: seq<NewChunk>,
                               c: NewChunk)
    requires ChunksOfRuns(alnum, lines, runs, chunks) && c in chunks
    ensures c.symbol == Some(0) && EstimateTokens(c.content) <= MAX_TOKENS + 3
  {
    hide Searchable, CapsTo, Slice;
    var slots: seq<Option<NewChunk>> :| ChunksFrom(alnum, lines, runs, slots, chunks);
    var k := PresentFrom(slots, c);
    assert RunChunk(alnum, lines, runs[k], slots[k]);
  }
}
