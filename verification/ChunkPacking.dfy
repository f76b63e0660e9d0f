/**
 Packing a container's outline into chunks: one when it fits, otherwise pieces of which only the first lists
 children.
 */
module ChunkPacking {
  import opened Wrappers
  import opened Sequences
  import opened Schema
  import opened Text
  import opened ChunkSplit
  import opened ChunkContainer

  /** `char::is_alphanumeric`; all that matters of it is that it holds of no white space. */
  ghost predicate Alphanumeric(alnum: char -> bool) { forall c :: alnum(c) ==> !IsSpace(c) }

  predicate Searchable(alnum: char -> bool, text: string) { exists c :: c in text && alnum(c) }

  lemma SearchableIsNotBlank(alnum: char -> bool, text: string)
    requires Alphanumeric(alnum) && Searchable(alnum, text)
    ensures !Blank(text)
  {
    var c :| c in text && alnum(c);
    var i :| 0 <= i < |text| && text[i] == c;
    assert !IsSpace(text[i]);
  }

  // ---- what a piece holds ----

  predicate AnySearchable(alnum: char -> bool, entries: seq<OutlineLine>) {
    exists e :: e in entries && Searchable(alnum, e.text)
  }

  function IsOwn(): OutlineLine -> bool { (e: OutlineLine) => !e.childSig }

  /** The entries a piece keeps: past the first piece no child signatures. */
  function Kept(entries: seq<OutlineLine>, first: bool): seq<OutlineLine> {
    if first then entries else Keep(entries, IsOwn())
  }

  /** A later piece repeats the container's signature, unless its first line is too long to share with it. */
  function Heading(sig: string, first: bool, kept: seq<OutlineLine>): string {
    if !first && kept != [] && |sig| + 1 + |kept[0].text| + 1 <= MAX_CHARS then sig + "\n" else ""
  }

  function RawPiece(sig: string, first: bool, kept: seq<OutlineLine>): string {
    Heading(sig, first, kept) + Unlines(Texts(kept))
  }

  /**
   The piece over outline entries `from` up to `to`; it becomes a chunk when it is the first or can be searched
   for.
   */
  ghost predicate PieceFor(alnum: char -> bool, sym: nat, sig: string, outline: seq<OutlineLine>, first: bool,
                           from: nat, to: nat, slot: Option<NewChunk>)
    requires from <= to <= |outline|
  {
    var kept := Kept(outline[from..to], first);
    && (slot.Some? <==> kept != [] && (first || AnySearchable(alnum, kept)))
    && (slot.Some? ==> ChunkOf(sym, sig, first, kept, slot.value))
    && (|RawPiece(sig, first, kept)| <= MAX_CHARS || |kept| == 1)
    && (to < |outline| ==> kept != [] && |RawPiece(sig, first, kept)| + |outline[to].text| + 1 > MAX_CHARS)
  }

  ghost predicate ChunkOf(sym: nat, sig: string, first: bool, kept: seq<OutlineLine>, c: NewChunk) {
    && kept != [] && c.symbol == Some(sym) && !c.isTest
    && c.startLine == kept[0].line && c.endLine == kept[|kept| - 1].line
    && CapsTo(RawPiece(sig, first, kept), c.content) && EstimateTokens(c.content) <= MAX_TOKENS + 3
  }

  /** The pieces made so far lie end to end over the outline. */
  ghost predicate Packed(alnum: char -> bool, sym: nat, sig: string, outline: seq<OutlineLine>, cuts: seq<nat>,
                         slots: seq<Option<NewChunk>>)
  {
    && |cuts| == |slots| + 1 && cuts[0] == 0 && cuts[|slots|] <= |outline|
    && (forall i :: 0 <= i < |slots| ==> PieceAt(alnum, sym, sig, outline, cuts, slots, i))
  }

  /** The `i`-th piece lies between its two cuts; only the first one counts as first. */
  ghost predicate PieceAt(alnum: char -> bool, sym: nat, sig: string, outline: seq<OutlineLine>, cuts: seq<nat>,
                          slots: seq<Option<NewChunk>>, i: nat)
    requires i < |slots| && i + 1 < |cuts|
  {
    cuts[i] <= cuts[i + 1] <= |outline| && PieceFor(alnum, sym, sig, outline, i == 0, cuts[i], cuts[i + 1], slots[i])
  }

  /** The whole outline is packed, and the chunks are those of its pieces. */
  ghost predicate PackedBy(alnum: char -> bool, sym: nat, sig: string, outline: seq<OutlineLine>, cuts: seq<nat>,
                           slots: seq<Option<NewChunk>>, chunks: seq<NewChunk>)
  {
    && Packed(alnum, sym, sig, outline, cuts, slots) && |cuts| == |slots| + 1 && cuts[|slots|] == |outline|
    && chunks == Present(slots)
  }

  ghost predicate PackedInto(alnum: char -> bool, sym: nat, sig: string, outline: seq<OutlineLine>,
                             chunks: seq<NewChunk>)
  {
    exists cuts, slots :: PackedBy(alnum, sym, sig, outline, cuts, slots, chunks)
  }

  function Present(slots: seq<Option<NewChunk>>): seq<NewChunk> {
    if slots == [] then []
    else Present(slots[..|slots| - 1]) + (if slots[|slots| - 1].Some? then [slots[|slots| - 1].value] else [])
  }

  lemma {:induction false} PresentHas(slots: seq<Option<NewChunk>>, i: nat)
    requires i < |slots| && slots[i].Some?
    ensures slots[i].value in Present(slots)
  {
    if i < |slots| - 1 { PresentHas(slots[..|slots| - 1], i); }
  }

  lemma {:induction false} PresentFrom(slots: seq<Option<NewChunk>>, c: NewChunk) returns (i: nat)
    requires c in Present(slots)
    ensures i < |slots| && slots[i] == Some(c)
  {
    if c in Present(slots[..|slots| - 1]) {
      i := PresentFrom(slots[..|slots| - 1], c);
    } else {
      i := |slots| - 1;
    }
  }

  // ---- the loop ----

  /** The open piece: entries `from` up to `k`, with its text, range and whether it can be searched for. */
  ghost predicate Open(alnum: char -> bool, sig: string, outline: seq<OutlineLine>, from: nat, k: nat, first: bool,
                       piece: string, range: (nat, nat), searchable: bool)
  {
    from <= k <= |outline| && Holds(alnum, sig, Kept(outline[from..k], first), first, piece, range, searchable)
  }

  ghost predicate Holds(alnum: char -> bool, sig: string, kept: seq<OutlineLine>, first: bool, piece: string,
                        range: (nat, nat), searchable: bool)
  {
    && piece == RawPiece(sig, first, kept) && (piece == "" <==> kept == [])
    && (searchable <==> AnySearchable(alnum, kept))
    && (kept != [] ==> range == (kept[0].line, kept[|kept| - 1].line))
    && (|piece| <= MAX_CHARS || |kept| == 1)
  }

  lemma OpenEmpty(alnum: char -> bool, sig: string, outline: seq<OutlineLine>, at: nat, first: bool, range: (nat, nat))
    requires at <= |outline|
    ensures Open(alnum, sig, outline, at, at, first, "", range, false)
  {
    assert outline[at..at] == [];
    assert Kept([], first) == [];
  }

  lemma KeptSnoc(entries: seq<OutlineLine>, e: OutlineLine, first: bool)
    ensures Kept(entries + [e], first) ==
            if first || !e.childSig then Kept(entries, first) + [e] else Kept(entries, first)
  {
    KeepLast(entries, e, IsOwn());
  }

  /** A child's signature is passed over after the first piece. */
  lemma OpenSkip(alnum: char -> bool, sig: string, outline: seq<OutlineLine>, from: nat, k: nat, first: bool,
                 piece: string, range: (nat, nat), searchable: bool)
    requires Open(alnum, sig, outline, from, k, first, piece, range, searchable)
    requires k < |outline| && outline[k].childSig && !first
    ensures Open(alnum, sig, outline, from, k + 1, first, piece, range, searchable)
  {
    hide Holds, Kept;
    assert outline[from..k + 1] == outline[from..k] + [outline[k]];
    KeptSnoc(outline[from..k], outline[k], first);
  }

  lemma HeadingSnoc(sig: string, first: bool, kept: seq<OutlineLine>, e: OutlineLine)
    ensures Heading(sig, first, kept + [e]) ==
            if kept == [] then Heading(sig, first, [e]) else Heading(sig, first, kept)
  {
    assert kept != [] ==> (kept + [e])[0] == kept[0];
    assert kept == [] ==> kept + [e] == [e];
  }

  lemma RawPieceSnoc(sig: string, first: bool, kept: seq<OutlineLine>, e: OutlineLine)
    ensures RawPiece(sig, first, kept + [e]) ==
            (if kept == [] then Heading(sig, first, [e]) else RawPiece(sig, first, kept)) + e.text + "\n"
  {
    hide Heading, Unlines;
    HeadingSnoc(sig, first, kept, e);
    var texts := Texts(kept);
    assert Texts(kept + [e]) == texts + [e.text];
    UnlinesSnoc(texts, e.text);
    Regroup(Heading(sig, first, kept + [e]), Unlines(texts), e.text);
    assert kept == [] ==> Unlines(texts) == "" by { NoLines(); }
  }

  lemma NoLines()
    ensures Unlines([]) == ""
  {
  }

  lemma Regroup(h: string, u: string, t: string)
    ensures h + (u + t + "\n") == h + u + t + "\n"
    ensures u == "" ==> h + u == h
  {
  }

  lemma AnySearchableSnoc(alnum: char -> bool, kept: seq<OutlineLine>, e: OutlineLine)
    ensures AnySearchable(alnum, kept + [e]) <==> AnySearchable(alnum, kept) || Searchable(alnum, e.text)
  {
    assert e in kept + [e];
    assert forall x :: x in kept ==> x in kept + [e];
  }

  /** The piece after one more entry. */
  function Grown(sig: string, first: bool, piece: string, e: OutlineLine): string {
    (if piece == "" then Heading(sig, first, [e]) else piece) + e.text + "\n"
  }

  lemma HoldsMore(alnum: char -> bool, sig: string, kept: seq<OutlineLine>, first: bool, piece: string,
                  range: (nat, nat), searchable: bool, e: OutlineLine)
    requires Holds(alnum, sig, kept, first, piece, range, searchable)
    requires piece == "" || |piece| + |e.text| + 1 <= MAX_CHARS
    ensures Holds(alnum, sig, kept + [e], first, Grown(sig, first, piece, e),
                  (if piece == "" then e.line else range.0, e.line), searchable || Searchable(alnum, e.text))
  {
    RawPieceSnoc(sig, first, kept, e);
    AnySearchableSnoc(alnum, kept, e);
    HeadingFits(sig, first, e);
    hide RawPiece, AnySearchable, Searchable, Heading;
    assert kept != [] ==> (kept + [e])[0] == kept[0];
    assert (kept + [e])[|kept|] == e;
  }

  lemma OpenAdd(alnum: char -> bool, sig: string, outline: seq<OutlineLine>, from: nat, k: nat, first: bool,
                piece: string, range: (nat, nat), searchable: bool)
    requires Open(alnum, sig, outline, from, k, first, piece, range, searchable)
    requires k < |outline| && (first || !outline[k].childSig)
    requires piece == "" || |piece| + |outline[k].text| + 1 <= MAX_CHARS
    ensures var e := outline[k];
            Open(alnum, sig, outline, from, k + 1, first, Grown(sig, first, piece, e),
                 (if piece == "" then e.line else range.0, e.line), searchable || Searchable(alnum, e.text))
  {
    hide Holds, Kept, Grown, Searchable;
    assert outline[from..k + 1] == outline[from..k] + [outline[k]];
    KeptSnoc(outline[from..k], outline[k], first);
    HoldsMore(alnum, sig, Kept(outline[from..k], first), first, piece, range, searchable, outline[k]);
  }

  /** With the signature in front the line still fits; without it the line may stand too long, but alone. */
  lemma HeadingFits(sig: string, first: bool, e: OutlineLine)
    ensures Heading(sig, first, [e]) != "" ==> |Heading(sig, first, [e])| + |e.text| + 1 <= MAX_CHARS
  {
  }

  lemma CloseFits(alnum: char -> bool, sym: nat, sig: string, outline: seq<OutlineLine>, from: nat, k: nat, first: bool,
                  piece: string, range: (nat, nat), searchable: bool, slot: Option<NewChunk>)
    requires Open(alnum, sig, outline, from, k, first, piece, range, searchable)
    requires k < |outline| ==> piece != "" && |piece| + |outline[k].text| + 1 > MAX_CHARS
    requires slot.Some? <==> piece != "" && (first || searchable)
    requires slot.Some? ==> IsClosed(sym, piece, range, slot.value)
    ensures PieceFor(alnum, sym, sig, outline, first, from, k, slot)
  {
    hide Kept, RawPiece, AnySearchable, CapsTo;
  }

  ghost predicate IsClosed(sym: nat, piece: string, range: (nat, nat), c: NewChunk) {
    && c.symbol == Some(sym) && !c.isTest && c.startLine == range.0 && c.endLine == range.1
    && CapsTo(piece, c.content) && EstimateTokens(c.content) <= MAX_TOKENS + 3
  }

  lemma PackedSnoc(alnum: char -> bool, sym: nat, sig: string, outline: seq<OutlineLine>, cuts: seq<nat>,
                   slots: seq<Option<NewChunk>>, to: nat, slot: Option<NewChunk>)
    requires Packed(alnum, sym, sig, outline, cuts, slots) && cuts[|slots|] <= to <= |outline|
    requires PieceFor(alnum, sym, sig, outline, slots == [], cuts[|slots|], to, slot)
    ensures Packed(alnum, sym, sig, outline, cuts + [to], slots + [slot])
  {
    hide PieceFor;
    var n := |slots|;
    var allCuts, all := cuts + [to], slots + [slot];
    forall i | 0 <= i < n + 1 ensures PieceAt(alnum, sym, sig, outline, allCuts, all, i) {
      if i < n {
        assert PieceAt(alnum, sym, sig, outline, cuts, slots, i);
        assert allCuts[i] == cuts[i] && allCuts[i + 1] == cuts[i + 1] && all[i] == slots[i];
      } else {
        assert all[n] == slot && allCuts[n] == cuts[n] && allCuts[n + 1] == to;
      }
    }
  }

  lemma PresentSnoc(slots: seq<Option<NewChunk>>, slot: Option<NewChunk>)
    ensures Present(slots + [slot]) == Present(slots) + if slot.Some? then [slot.value] else []
  {
    assert (slots + [slot])[..|slots|] == slots;
  }

  method ClosePiece(sym: nat, piece: string, range: (nat, nat), wanted: bool) returns (slot: Option<NewChunk>)
    ensures slot.Some? <==> wanted
    ensures slot.Some? ==> IsClosed(sym, piece, range, slot.value)
  {
    hide CapsTo;
    if !wanted { return None; }
    var content := CapContent(piece);
    return Some(NewChunk(Some(sym), range.0, range.1, content, false));
  }

  /** The pieces of an outline too long for one chunk. */
  method PackPieces(alnum: char -> bool, sym: nat, sig: string, ext: nat, outline: seq<OutlineLine>)
    returns (chunks: seq<NewChunk>)
    ensures PackedInto(alnum, sym, sig, outline, chunks)
  {
    hide Open, Packed, PieceFor, IsClosed, Present, Heading, Searchable;
    chunks := [];
    ghost var cuts: seq<nat>, slots: seq<Option<NewChunk>> := [0], [];
    var first, piece, pieceChars, range, searchable := true, "", 0, (ext, ext), false;
    NothingPacked(alnum, sym, sig, outline);
    OpenEmpty(alnum, sig, outline, 0, first, range);
    for k := 0 to |outline|
      invariant |cuts| == |slots| + 1 && Packed(alnum, sym, sig, outline, cuts, slots) && chunks == Present(slots)
      invariant first <==> slots == []
      invariant pieceChars == |piece|
      invariant Open(alnum, sig, outline, cuts[|slots|], k, first, piece, range, searchable)
    {
      var entry := outline[k];
      var chars := |entry.text| + 1;
      if pieceChars + chars > MAX_CHARS && piece != "" {
        OpenInRange(alnum, sig, outline, cuts[|slots|], k, first, piece, range, searchable);
        var slot := ClosePiece(sym, piece, range, first || searchable);
        CloseFits(alnum, sym, sig, outline, cuts[|slots|], k, first, piece, range, searchable, slot);
        PackedSnoc(alnum, sym, sig, outline, cuts, slots, k, slot);
        PresentSnoc(slots, slot);
        if slot.Some? { chunks := chunks + [slot.value]; }
        cuts, slots := cuts + [k], slots + [slot];
        piece, pieceChars, searchable, first := "", 0, false, false;
        OpenEmpty(alnum, sig, outline, k, first, range);
      }
      if entry.childSig && !first {
        OpenSkip(alnum, sig, outline, cuts[|slots|], k, first, piece, range, searchable);
        continue;
      }
      OpenAdd(alnum, sig, outline, cuts[|slots|], k, first, piece, range, searchable);
      HeadingMeaning(sig, first, entry);
      if piece == "" {
        range := (entry.line, range.1);
        if !first && |sig| + 1 + chars <= MAX_CHARS {
          piece, pieceChars := sig + "\n", |sig| + 1;
        }
      }
      piece, pieceChars := piece + entry.text + "\n", pieceChars + chars;
      range := (range.0, entry.line);
      searchable := searchable || Searchable(alnum, entry.text);
    }
    OpenInRange(alnum, sig, outline, cuts[|slots|], |outline|, first, piece, range, searchable);
    var slot := ClosePiece(sym, piece, range, piece != "" && (first || searchable));
    CloseFits(alnum, sym, sig, outline, cuts[|slots|], |outline|, first, piece, range, searchable, slot);
    PackedSnoc(alnum, sym, sig, outline, cuts, slots, |outline|, slot);
    PresentSnoc(slots, slot);
    if slot.Some? { chunks := chunks + [slot.value]; }
    cuts, slots := cuts + [|outline|], slots + [slot];
    assert PackedBy(alnum, sym, sig, outline, cuts, slots, chunks);
  }

  lemma HeadingMeaning(sig: string, first: bool, e: OutlineLine)
    ensures Heading(sig, first, [e]) == if !first && |sig| + 1 + (|e.text| + 1) <= MAX_CHARS then sig + "\n" else ""
  {
  }

  lemma OpenInRange(alnum: char -> bool, sig: string, outline: seq<OutlineLine>, from: nat, k: nat, first: bool,
                    piece: string, range: (nat, nat), searchable: bool)
    requires Open(alnum, sig, outline, from, k, first, piece, range, searchable)
    ensures from <= k <= |outline|
  {
  }

  lemma NothingPacked(alnum: char -> bool, sym: nat, sig: string, outline: seq<OutlineLine>)
    ensures Packed(alnum, sym, sig, outline, [0], []) && Present([]) == []
  {
  }

  // ---- all chunks of a container ----

  function Chars(outline: seq<OutlineLine>): nat {
    if outline == [] then 0 else Chars(outline[..|outline| - 1]) + |outline[|outline| - 1].text| + 1
  }

  lemma {:induction false} CharsOfUnlines(outline: seq<OutlineLine>)
    ensures Chars(outline) == |Unlines(Texts(outline))|
  {
    if outline != [] {
      CharsOfUnlines(outline[..|outline| - 1]);
      assert Texts(outline)[..|outline| - 1] == Texts(outline[..|outline| - 1]);
    }
  }

  /** One chunk when the outline fits, nothing when that is blank, pieces otherwise. */
  ghost predicate ContainerChunks(alnum: char -> bool, sym: nat, s: NewSymbol, ext: nat, outline: seq<OutlineLine>,
                                  chunks: seq<NewChunk>)
  {
    var content := Unlines(Texts(outline));
    if |content| <= MAX_CHARS then
      chunks == if Blank(content) then [] else [NewChunk(Some(sym), ext, s.endLine, content, false)]
    else PackedInto(alnum, sym, SigOrEmpty(s), outline, chunks)
  }

  function SigOrEmpty(s: NewSymbol): string { if s.sig.Some? then s.sig.value else "" }

  method PushContainer(alnum: char -> bool, sym: nat, s: NewSymbol, ext: nat, outline: seq<OutlineLine>)
    returns (chunks: seq<NewChunk>)
    ensures ContainerChunks(alnum, sym, s, ext, outline, chunks)
  {
    hide Blank, PackedInto, Unlines, Chars;
    CharsOfUnlines(outline);
    if Chars(outline) <= MAX_CHARS {
      var content := Unlines(Texts(outline));
      chunks := [];
      if !Blank(content) { chunks := [NewChunk(Some(sym), ext, s.endLine, content, false)]; }
      return;
    }
    chunks := PackPieces(alnum, sym, SigOrEmpty(s), ext, outline);
  }

  // ---- what packing keeps ----

  /** No container chunk is larger than the cap and its marker, and all belong to the container. */
  lemma ContainerChunksAreSmall(alnum: char -> bool, sym: nat, s: NewSymbol, ext: nat, outline: seq<OutlineLine>,
                                chunks: seq<NewChunk>, c: NewChunk)
    requires ContainerChunks(alnum, sym, s, ext, outline, chunks) && c in chunks
    ensures c.symbol == Some(sym) && EstimateTokens(c.content) <= MAX_TOKENS + 3
  {
    hide Unlines, Blank, CapsTo, RawPiece, AnySearchable;
    if |Unlines(Texts(outline))| > MAX_CHARS {
      var cuts, slots :| PackedBy(alnum, sym, SigOrEmpty(s), outline, cuts, slots, chunks);
      var i := PresentFrom(slots, c);
      assert PieceAt(alnum, sym, SigOrEmpty(s), outline, cuts, slots, i);
    }
  }

  lemma KeptHas(outline: seq<OutlineLine>, from: nat, to: nat, first: bool, e: nat) returns (i: nat)
    requires from <= e < to <= |outline| && (first || !outline[e].childSig)
    ensures i < |Kept(outline[from..to], first)| && Kept(outline[from..to], first)[i] == outline[e]
  {
    assert outline[from..to][e - from] == outline[e];
    var kept := Kept(outline[from..to], first);
    assert outline[e] in kept;
    i :| 0 <= i < |kept| && kept[i] == outline[e];
  }

  /** The entries that are no child's signature, in order. */
  ghost predicate WithoutChildren(entries: seq<OutlineLine>, kept: seq<OutlineLine>) {
    exists places :: Picks(entries, IsOwn(), places) && StandAt(entries, places, kept)
  }

  lemma LaterEntries(entries: seq<OutlineLine>)
    ensures WithoutChildren(entries, Kept(entries, false))
  {
    hide Keep, Picks, StandAt;
    var places := KeepPlaces(entries, IsOwn());
  }

  /**
   A piece that becomes a chunk: all entries of its stretch when it is the first, none of the children's later. A
   later one that starts with a line of at most 2046 characters less the signature's opens with the signature.
   */
  lemma PieceMeans(alnum: char -> bool, sym: nat, sig: string, outline: seq<OutlineLine>, first: bool, from: nat,
                   to: nat, c: NewChunk) returns (entries: seq<OutlineLine>)
    requires from <= to <= |outline| && PieceFor(alnum, sym, sig, outline, first, from, to, Some(c))
    ensures if first then entries == outline[from..to] else WithoutChildren(outline[from..to], entries)
    ensures entries != [] && c.startLine == entries[0].line && c.endLine == entries[|entries| - 1].line
    ensures var head := if !first && |sig| + |entries[0].text| <= 2046 then sig + "\n" else "";
            |head + Unlines(Texts(entries))| <= 2048 ==> c.content == head + Unlines(Texts(entries))
  {
    entries := Kept(outline[from..to], first);
    if !first { LaterEntries(outline[from..to]); }
    hide Unlines, Keep, WithoutChildren;
  }

  lemma KeptInOrder(outline: seq<OutlineLine>, from: nat, to: nat, first: bool, i: nat)
    requires from <= to <= |outline| && i < |Kept(outline[from..to], first)|
    requires forall a, b :: 0 <= a < b < |outline| ==> outline[a].line <= outline[b].line
    ensures var kept := Kept(outline[from..to], first);
            kept[0].line <= kept[i].line <= kept[|kept| - 1].line
  {
    var part, before := outline[from..to], (a: OutlineLine, b: OutlineLine) => a.line <= b.line;
    forall a, b | 0 <= a < b < |part| ensures before(part[a], part[b]) {
      assert part[a] == outline[from + a] && part[b] == outline[from + b];
    }
    KeepOrder(part, IsOwn(), before);
    var kept := Kept(part, first);
    assert 0 < i ==> before(kept[0], kept[i]);
    assert i < |kept| - 1 ==> before(kept[i], kept[|kept| - 1]);
  }

  lemma FittingEntry(sig: string, first: bool, kept: seq<OutlineLine>, i: nat, content: string)
    requires i < |kept| && |kept[i].text| < MAX_CHARS
    requires |RawPiece(sig, first, kept)| <= MAX_CHARS || |kept| == 1
    requires CapsTo(RawPiece(sig, first, kept), content)
    ensures HasLine(content, kept[i].text)
  {
    hide Unlines, HasLine;
    var body := Unlines(Texts(kept));
    if |kept| == 1 {
      assert Texts(kept) == [kept[0].text];
      UnlinesOne(kept[0].text);
    }
    assert content == RawPiece(sig, first, kept);
    UnlinesHasLine(Texts(kept), i);
    HasLineBehind(Heading(sig, first, kept), body, kept[i].text);
  }

  lemma UnlinesOne(l: string)
    ensures Unlines([l]) == l + "\n"
  {
    assert [l][..0] == [];
  }

  /**
   Packing loses no line: an entry of the container's own with text to search for that fits a chunk stands in
   one whole.
   */
  lemma ContainerKeepsLine(alnum: char -> bool, sym: nat, s: NewSymbol, ext: nat, outline: seq<OutlineLine>,
                           chunks: seq<NewChunk>, e: nat) returns (c: NewChunk)
    requires ContainerChunks(alnum, sym, s, ext, outline, chunks) && Alphanumeric(alnum)
    requires InLineOrder(outline, ext, s.endLine + 1)
    requires e < |outline| && !outline[e].childSig
    requires Searchable(alnum, outline[e].text) && |outline[e].text| < MAX_CHARS
    ensures c in chunks && c.symbol == Some(sym) && HasLine(c.content, outline[e].text)
    ensures c.startLine <= outline[e].line <= c.endLine
  {
    hide HasLine, Unlines, Blank, PieceFor, Searchable;
    assert outline[e] in outline;
    if |Unlines(Texts(outline))| <= MAX_CHARS {
      SearchableIsNotBlank(alnum, outline[e].text);
      UnlinesBlank(Texts(outline));
      assert Texts(outline)[e] in Texts(outline);
      UnlinesHasLine(Texts(outline), e);
      c := chunks[0];
    } else {
      var sig := SigOrEmpty(s);
      var cuts, slots :| PackedBy(alnum, sym, sig, outline, cuts, slots, chunks);
      var p := CutAround(cuts, |slots|, e);
      var q := p + 1;
      assert PieceAt(alnum, sym, sig, outline, cuts, slots, p);
      c := PieceKeepsLine(alnum, sym, sig, outline, p == 0, cuts[p], cuts[q], slots[p], e);
      PresentHas(slots, p);
    }
  }

  lemma PieceKeepsLine(alnum: char -> bool, sym: nat, sig: string, outline: seq<OutlineLine>, first: bool,
                       from: nat, to: nat, slot: Option<NewChunk>, e: nat) returns (c: NewChunk)
    requires from <= e < to <= |outline| && PieceFor(alnum, sym, sig, outline, first, from, to, slot)
    requires forall a, b :: 0 <= a < b < |outline| ==> outline[a].line <= outline[b].line
    requires !outline[e].childSig && Searchable(alnum, outline[e].text) && |outline[e].text| < MAX_CHARS
    ensures slot == Some(c) && c.symbol == Some(sym) && HasLine(c.content, outline[e].text)
    ensures c.startLine <= outline[e].line <= c.endLine
  {
    hide HasLine, Unlines, Blank, CapsTo, RawPiece, Searchable;
    var i := KeptHas(outline, from, to, first, e);
    var kept := Kept(outline[from..to], first);
    KeptInOrder(outline, from, to, first, i);
    hide Kept;
    assert kept[i] in kept;
    c := slot.value;
    FittingEntry(sig, first, kept, i, c.content);
  }
}
