/** Cutting a file into chunks, and the guarantee that no symbol's text is lost on the way. */
module Chunker {
  import opened Wrappers
  import opened Schema
  import opened Text
  import opened ChunkOwners
  import opened ChunkDocs
  import opened ChunkSplit
  import opened ChunkContainer
  import opened ChunkPacking
  import opened ChunkPreamble

  /** Kinds whose body becomes chunk text; every other kind is outlined. */
  predicate IsLeaf(kind: SymbolKind) { kind in {Function, SymbolKind.Method, Const, Type} }

  /** Kinds that are outlined. */
  predicate IsContainer(kind: SymbolKind) { kind in {Class, Struct, Enum, Trait, Interface, SymbolKind.Module} }

  lemma KindsSplit(kind: SymbolKind)
    ensures IsLeaf(kind) <==> !IsContainer(kind)
  {
  }

  function LastLine(lines: seq<string>, s: NewSymbol): nat { if s.endLine < |lines| then s.endLine else |lines| }

  function OutlineOf(symbols: seq<NewSymbol>, lines: seq<string>, i: nat): seq<OutlineLine>
    requires ValidSymbols(symbols) && 1 <= i < |symbols|
  {
    var ext, end := ExtStart(symbols, lines, i), LastLine(lines, symbols[i]);
    if ext <= end then OutlineTo(symbols, lines, FinalOwners(symbols, lines), i, ext, end + 1) else []
  }

  // ---- the chunks of one symbol ----

  ghost predicate LeafChunks(lines: seq<string>, i: nat, s: NewSymbol, ext: nat, part: seq<NewChunk>)
    requires 1 <= ext
  {
    var content := Slice(lines, ext, s.endLine);
    if EstimateTokens(content) <= MAX_TOKENS then part == [NewChunk(Some(i), ext, s.endLine, content, false)]
    else ext - 1 <= LastLine(lines, s) && Splits(lines, i, s.sig, ext - 1, LastLine(lines, s), part)
  }

  ghost predicate SymbolChunks(alnum: char -> bool, symbols: seq<NewSymbol>, lines: seq<string>, i: nat,
                               part: seq<NewChunk>)
    requires ValidSymbols(symbols) && 1 <= i < |symbols|
  {
    var s, ext := symbols[i], ExtStart(symbols, lines, i);
    if IsLeaf(s.kind) then LeafChunks(lines, i, s, ext, part)
    else ContainerChunks(alnum, i, s, ext, OutlineOf(symbols, lines, i), part)
  }

  lemma SliceNotEmpty(lines: seq<string>, ext: nat, end: nat)
    requires 1 <= ext && EstimateTokens(Slice(lines, ext, end)) > MAX_TOKENS
    ensures ext - 1 <= if end < |lines| then end else |lines|
  {
  }

  method PushLeaf(lines: seq<string>, i: nat, s: NewSymbol, ext: nat) returns (part: seq<NewChunk>)
    requires 1 <= ext
    ensures LeafChunks(lines, i, s, ext, part)
  {
    hide Slice, Splits;
    var content := Slice(lines, ext, s.endLine);
    if EstimateTokens(content) <= MAX_TOKENS {
      part := [NewChunk(Some(i), ext, s.endLine, content, false)];
    } else {
      SliceNotEmpty(lines, ext, s.endLine);
      part := SplitOversized(lines, i, s.sig, ext, s.endLine);
    }
  }

  method PushSymbol(alnum: char -> bool, symbols: seq<NewSymbol>, lines: seq<string>, owner: Owners, i: nat, ext: nat)
    returns (part: seq<NewChunk>)
    requires ValidSymbols(symbols) && 1 <= i < |symbols|
    requires owner == FinalOwners(symbols, lines) && ext == ExtStart(symbols, lines, i)
    ensures SymbolChunks(alnum, symbols, lines, i, part)
  {
    hide LeafChunks, ContainerChunks, FinalOwners, ExtStart, OutlineTo;
    if IsLeaf(symbols[i].kind) {
      part := PushLeaf(lines, i, symbols[i], ext);
    } else {
      var outline := Outline(symbols, lines, owner, i, ext);
      part := PushContainer(alnum, i, symbols[i], ext, outline);
      assert outline == OutlineOf(symbols, lines, i);
    }
  }

  // ---- no line is lost ----

  /** The chunk belongs to symbol `o`, shows the line whole, and its range contains the line. */
  ghost predicate Keeps(c: NewChunk, o: nat, l: nat, line: string) {
    c.symbol == Some(o) && c.startLine <= l + 1 <= c.endLine && HasLine(c.content, line)
  }

  ghost predicate KeptBy(chunks: seq<NewChunk>, o: nat, l: nat, line: string) {
    exists c :: c in chunks && Keeps(c, o, l, line)
  }

  /**
   A line of symbol `o` that a search should find: it holds a letter or digit, and in a container is neither
   overlong nor its signature's.
   */
  ghost predicate MustKeep(alnum: char -> bool, symbols: seq<NewSymbol>, lines: seq<string>, o: nat, l: nat)
    requires ValidSymbols(symbols)
  {
    && 1 <= o < |symbols| && l < |lines| && FinalOwners(symbols, lines)[l] == Some(o) && Searchable(alnum, lines[l])
    && (IsContainer(symbols[o].kind) ==>
          |lines[l]| < MAX_CHARS && !(symbols[o].sig.Some? && l + 1 == symbols[o].startLine))
  }

  /** The signature of a container, when a search should find it and it fits a chunk. */
  ghost predicate SigToKeep(alnum: char -> bool, symbols: seq<NewSymbol>, lines: seq<string>, o: nat) {
    && 1 <= o < |symbols| && IsContainer(symbols[o].kind) && symbols[o].sig.Some? && symbols[o].startLine <= |lines|
    && Searchable(alnum, symbols[o].sig.value) && |symbols[o].sig.value| < MAX_CHARS
  }

  /** The text that symbol `o` must show for line `l`: the line, or a container's signature on its start line. */
  ghost predicate MustShow(alnum: char -> bool, symbols: seq<NewSymbol>, lines: seq<string>, o: nat, l: nat,
                           text: string)
    requires ValidSymbols(symbols)
  {
    || (MustKeep(alnum, symbols, lines, o, l) && text == lines[l])
    || (SigToKeep(alnum, symbols, lines, o) && l + 1 == symbols[o].startLine && Some(text) == symbols[o].sig)
  }

  lemma LeafKeepsLine(lines: seq<string>, i: nat, s: NewSymbol, ext: nat, part: seq<NewChunk>, l: nat)
    requires 1 <= ext <= l + 1 <= s.endLine && l < |lines| && !Blank(lines[l]) && LeafChunks(lines, i, s, ext, part)
    ensures KeptBy(part, i, l, lines[l])
  {
    hide HasLine, Splits, Blank, Slice;
    if EstimateTokens(Slice(lines, ext, s.endLine)) <= MAX_TOKENS {
      SliceClamped(lines, ext, s.endLine);
      LineInSlice(lines, ext - 1, LastLine(lines, s), l);
      assert Keeps(part[0], i, l, lines[l]);
    } else {
      var p := SplitKeepsLine(lines, i, s.sig, ext - 1, LastLine(lines, s), part, l);
      assert Keeps(part[p], i, l, lines[l]);
    }
  }

  lemma SliceClamped(lines: seq<string>, start: nat, end: nat)
    requires 1 <= start
    ensures Slice(lines, start, end) == Slice(lines, start, if end < |lines| then end else |lines|)
  {
  }

  lemma WiderOrder(outline: seq<OutlineLine>, ext: nat, ln: nat, wider: nat)
    requires InLineOrder(outline, ext, ln) && ln <= wider
    ensures InLineOrder(outline, ext, wider)
  {
  }

  lemma ContainerKeeps(alnum: char -> bool, symbols: seq<NewSymbol>, lines: seq<string>, o: nat, part: seq<NewChunk>,
                       l: nat)
    requires ValidSymbols(symbols) && Alphanumeric(alnum)
    requires MustKeep(alnum, symbols, lines, o, l) && !IsLeaf(symbols[o].kind)
    requires SymbolChunks(alnum, symbols, lines, o, part) && ExtStart(symbols, lines, o) <= l + 1 <= symbols[o].endLine
    ensures KeptBy(part, o, l, lines[l])
  {
    hide IsLeaf, IsContainer, ContainerChunks, FinalOwners, ExtStart, OutlineTo, InLineOrder, Searchable, Blank,
         HasLine;
    KindsSplit(symbols[o].kind);
    var s, ext, end := symbols[o], ExtStart(symbols, lines, o), LastLine(lines, symbols[o]);
    var outline := OutlineOf(symbols, lines, o);
    SearchableIsNotBlank(alnum, lines[l]);
    OutlineOrdered(symbols, lines, FinalOwners(symbols, lines), o, ext, end + 1);
    WiderOrder(outline, ext, end + 1, s.endLine + 1);
    OutlineHasOwned(symbols, lines, FinalOwners(symbols, lines), o, ext, end + 1, l);
    var e :| 0 <= e < |outline| && outline[e] == OutlineLine(l + 1, lines[l], false);
    var c := ContainerKeepsLine(alnum, o, s, ext, outline, part, e);
    assert Keeps(c, o, l, lines[l]);
  }

  lemma ContainerKeepsSig(alnum: char -> bool, symbols: seq<NewSymbol>, lines: seq<string>, o: nat, part: seq<NewChunk>)
    requires ValidSymbols(symbols) && Alphanumeric(alnum) && SigToKeep(alnum, symbols, lines, o)
    requires SymbolChunks(alnum, symbols, lines, o, part)
    ensures KeptBy(part, o, symbols[o].startLine - 1, symbols[o].sig.value)
  {
    hide IsLeaf, IsContainer, ContainerChunks, FinalOwners, ExtStart, OutlineTo, InLineOrder, Searchable, Blank,
         HasLine;
    KindsSplit(symbols[o].kind);
    var s, ext, end := symbols[o], ExtStart(symbols, lines, o), LastLine(lines, symbols[o]);
    var outline := OutlineOf(symbols, lines, o);
    OutlineOrdered(symbols, lines, FinalOwners(symbols, lines), o, ext, end + 1);
    WiderOrder(outline, ext, end + 1, s.endLine + 1);
    OutlineHasSignature(symbols, lines, FinalOwners(symbols, lines), o, ext, end + 1);
    var e :| 0 <= e < |outline| && outline[e] == OutlineLine(s.startLine, s.sig.value, false);
    var c := ContainerKeepsLine(alnum, o, s, ext, outline, part, e);
    assert Keeps(c, o, s.startLine - 1, s.sig.value);
  }

  /** Whatever a symbol must show, its chunks show. */
  lemma SymbolShows(alnum: char -> bool, symbols: seq<NewSymbol>, lines: seq<string>, o: nat, part: seq<NewChunk>,
                    l: nat, text: string)
    requires ValidSymbols(symbols) && Alphanumeric(alnum) && MustShow(alnum, symbols, lines, o, l, text)
    requires SymbolChunks(alnum, symbols, lines, o, part)
    ensures KeptBy(part, o, l, text)
  {
    hide FinalOwners, Searchable, SigToKeep, SymbolChunks, KeptBy;
    if MustKeep(alnum, symbols, lines, o, l) && text == lines[l] {
      SymbolKeepsLine(alnum, symbols, lines, o, part, l);
    } else {
      ContainerKeepsSig(alnum, symbols, lines, o, part);
    }
  }

  /** Every line that must be kept is kept by its owner's chunks. */
  lemma SymbolKeepsLine(alnum: char -> bool, symbols: seq<NewSymbol>, lines: seq<string>, o: nat, part: seq<NewChunk>,
                        l: nat)
    requires ValidSymbols(symbols) && Alphanumeric(alnum) && MustKeep(alnum, symbols, lines, o, l)
    requires SymbolChunks(alnum, symbols, lines, o, part)
    ensures KeptBy(part, o, l, lines[l])
  {
    hide LeafChunks, ContainerChunks, OutlineOf, Searchable, Blank, KeptBy;
    OwnedLinesInRange(symbols, lines, |symbols|, l);
    hide ExtStart;
    SearchableIsNotBlank(alnum, lines[l]);
    if IsLeaf(symbols[o].kind) {
      LeafKeepsLine(lines, o, symbols[o], ExtStart(symbols, lines, o), part, l);
    } else {
      ContainerKeeps(alnum, symbols, lines, o, part, l);
    }
  }

  // ---- the whole file ----

  /** The module or a container never gets a chunk over the cap and its marker. */
  ghost predicate Bounded(symbols: seq<NewSymbol>, c: NewChunk) {
    && c.symbol.Some? && (c.symbol.value == 0 || c.symbol.value < |symbols|)
    && (c.symbol.value == 0 || IsContainer(symbols[c.symbol.value].kind) ==>
          EstimateTokens(c.content) <= 515)
  }

  lemma SymbolChunksBounded(alnum: char -> bool, symbols: seq<NewSymbol>, lines: seq<string>, i: nat,
                            part: seq<NewChunk>, c: NewChunk)
    requires ValidSymbols(symbols) && 1 <= i < |symbols| && SymbolChunks(alnum, symbols, lines, i, part) && c in part
    ensures Bounded(symbols, c) && c.symbol == Some(i)
  {
    hide ContainerChunks, Splits, OutlineOf, ExtStart, Slice, Blank;
    KindsSplit(symbols[i].kind);
    var s, ext := symbols[i], ExtStart(symbols, lines, i);
    if IsLeaf(s.kind) {
      if EstimateTokens(Slice(lines, ext, s.endLine)) > MAX_TOKENS {
        PieceBelongs(lines, i, s.sig, ext - 1, LastLine(lines, s), part, c);
      }
    } else {
      var outline := OutlineOf(symbols, lines, i);
      ContainerChunksAreSmall(alnum, i, s, ext, outline, part, c);
    }
  }

  /** Everything promised of the symbols below `k`. */
  ghost predicate DoneTo(alnum: char -> bool, symbols: seq<NewSymbol>, lines: seq<string>, k: nat,
                         chunks: seq<NewChunk>)
    requires ValidSymbols(symbols)
  {
    && (forall c :: c in chunks ==> Bounded(symbols, c))
    && (forall o: nat, l: nat, text: string :: o < k && MustShow(alnum, symbols, lines, o, l, text) ==>
          KeptBy(chunks, o, l, text))
  }

  lemma DoneStep(alnum: char -> bool, symbols: seq<NewSymbol>, lines: seq<string>, k: nat, chunks: seq<NewChunk>,
                 part: seq<NewChunk>)
    requires ValidSymbols(symbols) && Alphanumeric(alnum)
    requires 1 <= k < |symbols| && DoneTo(alnum, symbols, lines, k, chunks)
    requires SymbolChunks(alnum, symbols, lines, k, part)
    ensures DoneTo(alnum, symbols, lines, k + 1, chunks + part)
  {
    hide SymbolChunks, Bounded, MustShow, Keeps;
    forall c | c in part ensures Bounded(symbols, c) { SymbolChunksBounded(alnum, symbols, lines, k, part, c); }
    forall o: nat, l: nat, text: string | o < k + 1 && MustShow(alnum, symbols, lines, o, l, text)
      ensures KeptBy(chunks + part, o, l, text)
    {
      if o < k {
        var c :| c in chunks && Keeps(c, o, l, text);
        assert c in chunks + part;
      } else {
        SymbolShows(alnum, symbols, lines, k, part, l, text);
        var c :| c in part && Keeps(c, o, l, text);
        assert c in chunks + part;
      }
    }
  }

  lemma DoneStart(alnum: char -> bool, symbols: seq<NewSymbol>, lines: seq<string>, chunks: seq<NewChunk>)
    requires ValidSymbols(symbols)
    requires forall c :: c in chunks ==> c.symbol == Some(0) && EstimateTokens(c.content) <= MAX_TOKENS + 3
    ensures DoneTo(alnum, symbols, lines, 1, chunks)
  {
  }

  function Covered(symbols: seq<NewSymbol>, lines: seq<string>): (r: seq<bool>)
    requires ValidSymbols(symbols)
    ensures |r| == |lines|
  {
    seq(|lines|, l requires 0 <= l < |lines| => FinalOwners(symbols, lines)[l].Some?)
  }

  /** The preamble's runs and the chunks they became. */
  ghost predicate PreambleFrom(alnum: char -> bool, symbols: seq<NewSymbol>, lines: seq<string>, runs: seq<Span>,
                               chunks: seq<NewChunk>)
    requires ValidSymbols(symbols)
  {
    RunsUpTo(lines, Covered(symbols, lines), runs, |lines| + 1) && ChunksOfRuns(alnum, lines, runs, chunks)
  }

  ghost predicate IsPreamble(alnum: char -> bool, symbols: seq<NewSymbol>, lines: seq<string>, chunks: seq<NewChunk>)
    requires ValidSymbols(symbols)
  {
    exists runs :: PreambleFrom(alnum, symbols, lines, runs, chunks)
  }

  /** The chunks of each symbol in turn. */
  ghost predicate PartsOf(alnum: char -> bool, symbols: seq<NewSymbol>, lines: seq<string>, k: nat,
                          parts: seq<seq<NewChunk>>)
    requires ValidSymbols(symbols)
  {
    && |parts| == k
    && forall i :: 1 <= i < k && i < |symbols| ==> SymbolChunks(alnum, symbols, lines, i, parts[i])
  }

  function Flat(parts: seq<seq<NewChunk>>): seq<NewChunk> {
    if parts == [] then [] else Flat(parts[..|parts| - 1]) + parts[|parts| - 1]
  }

  lemma FlatSnoc(parts: seq<seq<NewChunk>>, part: seq<NewChunk>)
    ensures Flat(parts + [part]) == Flat(parts) + part
  {
    assert (parts + [part])[..|parts|] == parts;
  }

  /** The preamble first, then the chunks of each symbol from the second on. */
  ghost predicate ChunkedInto(alnum: char -> bool, symbols: seq<NewSymbol>, lines: seq<string>, preamble: seq<NewChunk>,
                              parts: seq<seq<NewChunk>>, chunks: seq<NewChunk>)
    requires ValidSymbols(symbols)
  {
    && IsPreamble(alnum, symbols, lines, preamble) && PartsOf(alnum, symbols, lines, |parts|, parts)
    && |parts| == (if symbols == [] then 1 else |symbols|) && chunks == preamble + Flat(parts)
  }

  ghost predicate IsChunking(alnum: char -> bool, symbols: seq<NewSymbol>, lines: seq<string>, chunks: seq<NewChunk>)
    requires ValidSymbols(symbols)
  {
    exists preamble, parts :: ChunkedInto(alnum, symbols, lines, preamble, parts, chunks)
  }

  method Preamble(alnum: char -> bool, ghost symbols: seq<NewSymbol>, lines: seq<string>, covered: seq<bool>)
    returns (chunks: seq<NewChunk>)
    requires ValidSymbols(symbols) && covered == Covered(symbols, lines)
    ensures IsPreamble(alnum, symbols, lines, chunks) && DoneTo(alnum, symbols, lines, 1, chunks)
  {
    hide RunsUpTo, ChunksOfRuns, FinalOwners, DoneTo, Covered;
    var runs := Runs(lines, covered);
    chunks := PreambleChunks(alnum, lines, runs);
    assert PreambleFrom(alnum, symbols, lines, runs, chunks);
    forall c | c in chunks ensures c.symbol == Some(0) && EstimateTokens(c.content) <= MAX_TOKENS + 3 {
      PreambleChunksAreSmall(alnum, lines, runs, chunks, c);
    }
    DoneStart(alnum, symbols, lines, chunks);
  }

  /** Ownership of every line, with its bitmap. */
  method Ownership(symbols: seq<NewSymbol>, lines: seq<string>)
    returns (covered: seq<bool>, owner: Owners, exts: seq<nat>)
    requires ValidSymbols(symbols)
    ensures owner == FinalOwners(symbols, lines) && covered == Covered(symbols, lines)
    ensures |exts| == |symbols| && forall i :: 1 <= i < |symbols| ==> exts[i] == ExtStart(symbols, lines, i)
  {
    hide FinalOwners, ExtStart, Painted;
    var bitmap := new bool[|lines|](_ => false);
    var owners := new Option<nat>[|lines|](_ => None);
    Paint(symbols, bitmap, owners);
    exts := ClaimDocs(symbols, lines, bitmap, owners);
    covered, owner := bitmap[..], owners[..];
  }

  lemma DoneMeans(alnum: char -> bool, symbols: seq<NewSymbol>, lines: seq<string>, k: nat, chunks: seq<NewChunk>)
    requires ValidSymbols(symbols) && |symbols| <= k && DoneTo(alnum, symbols, lines, k, chunks)
    ensures forall c :: c in chunks ==> Bounded(symbols, c)
    ensures forall o: nat, l: nat, text: string :: MustShow(alnum, symbols, lines, o, l, text) ==>
              KeptBy(chunks, o, l, text)
  {
  }

  /** A line of no symbol: in the range of a module chunk, and whole in it unless that is a stretch over the budget. */
  ghost predicate ModuleKeeps(chunks: seq<NewChunk>, lines: seq<string>, l: nat, line: string) {
    exists c :: c in chunks && c.symbol == Some(0) && 1 <= c.startLine <= l + 1 <= c.endLine <= |lines|
                && (HasLine(c.content, line) || SpanTokens(lines, c.startLine - 1, c.endLine) > MAX_TOKENS)
  }

  lemma UnownedLineKept(alnum: char -> bool, symbols: seq<NewSymbol>, lines: seq<string>, preamble: seq<NewChunk>,
                        chunks: seq<NewChunk>, l: nat)
    requires ValidSymbols(symbols) && Alphanumeric(alnum) && IsPreamble(alnum, symbols, lines, preamble)
    requires preamble <= chunks && l < |lines| && FinalOwners(symbols, lines)[l].None? && Searchable(alnum, lines[l])
    ensures ModuleKeeps(chunks, lines, l, lines[l])
  {
    hide RunsUpTo, ChunksOfRuns, FinalOwners, Searchable, HasLine, SpanTokens;
    var runs :| PreambleFrom(alnum, symbols, lines, runs, preamble);
    var covered := Covered(symbols, lines);
    var k, c := PreambleKeepsLine(alnum, lines, covered, runs, preamble, l);
    RunInFile(lines, covered, runs, k);
    assert c in chunks;
  }

  lemma RunInFile(lines: seq<string>, covered: seq<bool>, runs: seq<Span>, k: nat)
    requires |lines| == |covered| && RunsUpTo(lines, covered, runs, |lines| + 1) && k < |runs|
    ensures runs[k].0 < runs[k].1 <= |lines|
  {
  }

  /**
   What becomes of line `l` of the source, which reads `line`: as its final owner's when it has one and the line
   must be kept, as the module's when it has none and can be searched for.
   */
  ghost predicate SourceLineKept(alnum: char -> bool, symbols: seq<NewSymbol>, source: string, chunks: seq<NewChunk>,
                                 l: nat, line: string)
    requires ValidSymbols(symbols)
  {
    var lines := Lines(source);
    && l < |lines| && lines[l] == line
    && (forall o: nat :: MustKeep(alnum, symbols, lines, o, l) ==> KeptBy(chunks, o, l, line))
    && (FinalOwners(symbols, lines)[l].None? && Searchable(alnum, line) ==> ModuleKeeps(chunks, lines, l, line))
  }

  lemma SourceKept(alnum: char -> bool, symbols: seq<NewSymbol>, source: string, preamble: seq<NewChunk>,
                   chunks: seq<NewChunk>)
    requires ValidSymbols(symbols) && Alphanumeric(alnum)
    requires IsPreamble(alnum, symbols, Lines(source), preamble) && preamble <= chunks
    requires forall o: nat, l: nat, text: string :: MustShow(alnum, symbols, Lines(source), o, l, text) ==>
               KeptBy(chunks, o, l, text)
    ensures forall l: nat, from: nat, to: nat :: from <= to <= |source| && StandsAt(source, l, from, to) ==>
              SourceLineKept(alnum, symbols, source, chunks, l, LineText(source, from, to))
  {
    hide IsPreamble, StandsAt, LineText, Lines, FinalOwners, Searchable, KeptBy, ModuleKeeps, MustKeep, SigToKeep;
    var lines := Lines(source);
    forall l: nat, from: nat, to: nat | from <= to <= |source| && StandsAt(source, l, from, to)
      ensures SourceLineKept(alnum, symbols, source, chunks, l, LineText(source, from, to))
    {
      LinesHave(source, l, from, to);
      forall o: nat | MustKeep(alnum, symbols, lines, o, l) ensures KeptBy(chunks, o, l, lines[l]) {
        assert MustShow(alnum, symbols, lines, o, l, lines[l]);
      }
      if FinalOwners(symbols, lines)[l].None? && Searchable(alnum, lines[l]) {
        UnownedLineKept(alnum, symbols, lines, preamble, chunks, l);
      }
    }
  }

  /**
   Cuts a file into chunks. Every line of a symbol that must be kept stands whole in a chunk of the symbol that
   finally owns it, in that chunk's range, and the module and containers stay within their budget.
   */
  method BuildChunks(alnum: char -> bool, symbols: seq<NewSymbol>, source: string)
    returns (chunks: seq<NewChunk>)
    requires ValidSymbols(symbols) && Alphanumeric(alnum)
    ensures IsChunking(alnum, symbols, Lines(source), chunks)
    ensures forall c :: c in chunks ==> Bounded(symbols, c)
    ensures forall o: nat, l: nat, text: string :: MustShow(alnum, symbols, Lines(source), o, l, text) ==>
              KeptBy(chunks, o, l, text)
    ensures forall l: nat, from: nat, to: nat :: from <= to <= |source| && StandsAt(source, l, from, to) ==>
              SourceLineKept(alnum, symbols, source, chunks, l, LineText(source, from, to))
  {
    hide IsPreamble, SymbolChunks, DoneTo, FinalOwners, ExtStart, Bounded, MustShow, KeptBy, Lines, Covered;
    hide StandsAt, LineText, SourceLineKept;
    var lines := Lines(source);
    var covered, owner, exts := Ownership(symbols, lines);
    chunks := Preamble(alnum, symbols, lines, covered);
    ghost var preamble, parts: seq<seq<NewChunk>> := chunks, [[]];
    assert Flat(parts) == [] by { assert parts[..0] == []; }
    if symbols == [] {
      DoneMeans(alnum, symbols, lines, 1, chunks);
      SourceKept(alnum, symbols, source, preamble, chunks);
      assert ChunkedInto(alnum, symbols, lines, preamble, parts, chunks);
      return;
    }
    for i := 1 to |symbols|
      invariant PartsOf(alnum, symbols, lines, i, parts)
      invariant chunks == preamble + Flat(parts)
      invariant DoneTo(alnum, symbols, lines, i, chunks)
    {
      var part := PushSymbol(alnum, symbols, lines, owner, i, exts[i]);
      DoneStep(alnum, symbols, lines, i, chunks, part);
      FlatSnoc(parts, part);
      assert chunks + part == preamble + (Flat(parts) + part);
      chunks, parts := chunks + part, parts + [part];
    }
    DoneMeans(alnum, symbols, lines, |symbols|, chunks);
    SourceKept(alnum, symbols, source, preamble, chunks);
    assert ChunkedInto(alnum, symbols, lines, preamble, parts, chunks);
  }
}
