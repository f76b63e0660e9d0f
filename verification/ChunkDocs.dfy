/** Claiming upward: the comments, docs and decorators a symbol takes from the lines above it. */
module ChunkDocs {
  import opened Wrappers
  import opened Sequences
  import opened Schema
  import opened Text
  import opened ChunkOwners

  predicate IsAnnotationLine(line: string) {
    var t := TrimStart(line);
    "#" <= t || "//" <= t || "/*" <= t || "*" <= t || "@" <= t || "--" <= t
  }

  // ---- a doc comment one blank line up ----

  predicate OpensBlock(line: string) { "/*" <= TrimStart(line) }

  predicate SlashDoc(line: string) { "///" <= TrimStart(line) }

  predicate IsLegal(line: string) {
    var low := LowerAscii(line);
    Contains(low, "copyright") || Contains(low, "@license") || Contains(low, "licensed under")
  }

  /** The nearest line at or above `at` that opens a block comment. */
  function BlockOpening(lines: seq<string>, at: nat): (r: Option<nat>)
    requires at < |lines|
    ensures r.Some? ==>
              r.value <= at && OpensBlock(lines[r.value]) && forall k :: r.value < k <= at ==> !OpensBlock(lines[k])
    ensures r.None? ==> forall k :: 0 <= k <= at ==> !OpensBlock(lines[k])
  {
    if OpensBlock(lines[at]) then Some(at) else if at == 0 then None else BlockOpening(lines, at - 1)
  }

  /** The top of the run of `///` lines directly above `at`. */
  function SlashRun(lines: seq<string>, at: nat): (r: nat)
    requires at < |lines|
    ensures r <= at && (forall k :: r <= k < at ==> SlashDoc(lines[k])) && (r == 0 || !SlashDoc(lines[r - 1]))
  {
    if at > 0 && SlashDoc(lines[at - 1]) then SlashRun(lines, at - 1) else at
  }

  function DocFirst(lines: seq<string>, last: nat): (r: Option<nat>)
    requires last < |lines|
    ensures r.Some? ==> r.value <= last
  {
    if EndsWith(TrimEnd(lines[last]), "*/") then BlockOpening(lines, last) else Some(SlashRun(lines, last))
  }

  predicate AnyLegal(lines: seq<string>, first: nat, last: nat)
    requires last < |lines|
  {
    exists k :: first <= k <= last && IsLegal(lines[k])
  }

  /** The doc comment that ends just above the blank line `blank`, unless it is a plain comment or a license. */
  function DocStart(lines: seq<string>, blank: nat): (r: Option<nat>)
    requires blank < |lines|
    ensures r.Some? ==> r.value < blank
  {
    if blank == 0 || !IsAnnotationLine(lines[blank - 1]) then None
    else
      var first := DocFirst(lines, blank - 1);
      if first.Some? && ("/**" <= TrimStart(lines[first.value]) || SlashDoc(lines[first.value]))
         && !AnyLegal(lines, first.value, blank - 1)
      then first else None
  }

  method DocBlockStart(lines: seq<string>, blank: nat) returns (r: Option<nat>)
    requires blank < |lines|
    ensures r == DocStart(lines, blank)
  {
    hide IsAnnotationLine, OpensBlock, IsLegal, TrimEnd, TrimStart, EndsWith;
    if blank == 0 || !IsAnnotationLine(lines[blank - 1]) { return None; }
    var last := blank - 1;
    var first: nat := last;
    if EndsWith(TrimEnd(lines[last]), "*/") {
      while !OpensBlock(lines[first])
        invariant first <= last && BlockOpening(lines, last) == BlockOpening(lines, first)
        decreases first
      {
        if first == 0 { return None; }
        first := first - 1;
      }
    } else {
      while first > 0 && SlashDoc(lines[first - 1])
        invariant first <= last && SlashRun(lines, last) == SlashRun(lines, first)
      {
        first := first - 1;
      }
    }
    var isDoc := "/**" <= TrimStart(lines[first]) || "///" <= TrimStart(lines[first]);
    var isLegal := false;
    for k := first to last + 1
      invariant isLegal <==> exists j :: first <= j < k && IsLegal(lines[j])
    {
      isLegal := isLegal || IsLegal(lines[k]);
    }
    return if isDoc && !isLegal then Some(first) else None;
  }

  // ---- a decorator over several lines ----

  function Bracket(c: char): int {
    if c in {')', ']', '}'} then 1 else if c in {'(', '[', '{'} then -1 else 0
  }

  /** Closing brackets less opening ones. */
  function Net(line: string): int {
    if line == "" then 0 else Net(line[..|line| - 1]) + Bracket(line[|line| - 1])
  }

  /** One up for every closing bracket of the line, one down for every opening one. */
  lemma {:induction false} NetMeans(line: string)
    ensures Net(line) == |Keep(line, (c: char) => c == ')' || c == ']' || c == '}')|
                         - |Keep(line, (c: char) => c == '(' || c == '[' || c == '{')|
  {
    if line != "" { NetMeans(line[..|line| - 1]); }
  }

  function Balance(lines: seq<string>, i: nat, close: nat): int
    requires i <= close + 1 && close < |lines|
    decreases close + 1 - i
  {
    if i == close + 1 then 0 else Net(lines[i]) + Balance(lines, i + 1, close)
  }

  predicate OpensAnnotation(line: string) { "@" <= TrimStart(line) || "#[" <= TrimStart(line) }

  /** The first line upward from `i` at which the brackets closed on `close` balance, if a decorator opens there. */
  function DecoratorFrom(lines: seq<string>, i: nat, close: nat): (r: Option<nat>)
    requires i <= close < |lines|
    ensures r.Some? ==> r.value <= i && r.value < close
  {
    if Balance(lines, i, close) <= 0 then
      (if i < close && Balance(lines, i, close) == 0 && OpensAnnotation(lines[i]) then Some(i) else None)
    else if i == 0 then None
    else DecoratorFrom(lines, i - 1, close)
  }

  lemma {:induction false} DecoratorMeaning(lines: seq<string>, i: nat, close: nat, first: nat)
    requires i <= close < |lines| && first <= i
    ensures DecoratorFrom(lines, i, close) == Some(first) <==>
            first < close && Balance(lines, first, close) == 0 && OpensAnnotation(lines[first])
            && forall k :: first < k <= i ==> Balance(lines, k, close) > 0
  {
    if Balance(lines, i, close) > 0 {
      if first < i { DecoratorMeaning(lines, i - 1, close, first); }
    } else {
      assert first < i ==> exists k :: first < k <= i && Balance(lines, k, close) <= 0;
    }
  }

  method DecoratorStart(lines: seq<string>, close: nat) returns (r: Option<nat>)
    requires close < |lines|
    ensures r == DecoratorFrom(lines, close, close)
  {
    var depth := 0;
    for i := close + 1 downto 0
      invariant depth == Balance(lines, i, close)
      invariant i <= close ==> depth > 0
      invariant DecoratorFrom(lines, close, close) ==
                (if i > close then DecoratorFrom(lines, close, close)
                 else if i == 0 then None else DecoratorFrom(lines, i - 1, close))
    {
      var line := lines[i];
      ghost var before := depth;
      for j := 0 to |line|
        invariant depth == before + Net(line[..j])
      {
        assert line[..j + 1][..j] == line[..j];
        depth := depth + Bracket(line[j]);
      }
      assert line[..|line|] == line;
      if depth <= 0 {
        return if i < close && depth == 0 && OpensAnnotation(line) then Some(i) else None;
      }
    }
    return None;
  }

  // ---- extending a symbol upward ----

  /** A line the symbol may take: free, its own, or an ancestor's. */
  predicate Claimable(symbols: seq<NewSymbol>, owner: Owners, i: nat, line: nat)
    requires ParentsPrecede(symbols) && i < |symbols| && line < |owner|
  {
    owner[line].None? || owner[line].value == i || Ancestor(symbols, owner[line].value, i)
  }

  predicate AllClaimable(symbols: seq<NewSymbol>, owner: Owners, i: nat, from: nat, to: nat)
    requires ParentsPrecede(symbols) && i < |symbols| && to <= |owner|
  {
    forall l :: from <= l < to ==> Claimable(symbols, owner, i, l)
  }

  function Step(lines: seq<string>, prev: nat, atStart: bool): (r: Option<nat>)
    requires prev < |lines|
    ensures r.Some? ==> r.value <= prev
  {
    if Blank(lines[prev]) then (if atStart then DocStart(lines, prev) else None)
    else if IsAnnotationLine(lines[prev]) then Some(prev)
    else DecoratorFrom(lines, prev, prev)
  }

  /** Where the symbol starts once it has taken what belongs to it above line `s`. */
  function ExtendFrom(symbols: seq<NewSymbol>, lines: seq<string>, owner: Owners, i: nat, start: nat, s: nat): (r: nat)
    requires ParentsPrecede(symbols) && i < |symbols|
    ensures r <= s && (s >= 1 ==> r >= 1)
    decreases s
  {
    if s <= 1 then s
    else
      var prev := s - 2;
      if prev >= |owner| || prev >= |lines| || !Claimable(symbols, owner, i, prev) then s
      else
        var first := Step(lines, prev, s == start);
        if first.Some? && AllClaimable(symbols, owner, i, first.value, prev)
        then ExtendFrom(symbols, lines, owner, i, start, first.value + 1) else s
  }

  /** Upward claims only ever take lines that are unowned, self-owned or ancestor-owned. */
  lemma {:induction false} ClaimsAreAllowed(symbols: seq<NewSymbol>, lines: seq<string>, owner: Owners, i: nat,
                                            start: nat, s: nat, l: nat)
    requires ParentsPrecede(symbols) && i < |symbols|
    requires ExtendFrom(symbols, lines, owner, i, start, s) - 1 <= l < s - 1
    ensures l < |owner| && Claimable(symbols, owner, i, l)
    decreases s
  {
    var prev := s - 2;
    var first := Step(lines, prev, s == start);
    if l < first.value { ClaimsAreAllowed(symbols, lines, owner, i, start, first.value + 1, l); }
  }

  method CanClaim(symbols: seq<NewSymbol>, owner: array<Option<nat>>, i: nat, line: nat) returns (r: bool)
    requires ParentsPrecede(symbols) && i < |symbols| && line < owner.Length
    ensures r <==> Claimable(symbols, owner[..], i, line)
  {
    if owner[line].None? { return true; }
    if owner[line].value == i { return true; }
    r := IsAncestor(symbols, owner[line].value, i);
  }

  /** One step upward from `s`; None when the line above does not belong to the symbol. */
  method StepUp(lines: seq<string>, prev: nat, atStart: bool) returns (first: Option<nat>)
    requires prev < |lines|
    ensures first == Step(lines, prev, atStart)
  {
    hide DocStart, DecoratorFrom, IsAnnotationLine, Blank;
    first := None;
    if Blank(lines[prev]) {
      if atStart { first := DocBlockStart(lines, prev); }
    } else if IsAnnotationLine(lines[prev]) {
      first := Some(prev);
    } else {
      first := DecoratorStart(lines, prev);
    }
  }

  method CanClaimAll(symbols: seq<NewSymbol>, owner: array<Option<nat>>, i: nat, from: nat, to: nat) returns (all: bool)
    requires ParentsPrecede(symbols) && i < |symbols| && from <= to <= owner.Length
    ensures all <==> AllClaimable(symbols, owner[..], i, from, to)
  {
    hide Claimable;
    all := true;
    for l := from to to
      invariant all <==> AllClaimable(symbols, owner[..], i, from, l)
    {
      var ok := CanClaim(symbols, owner, i, l);
      all := all && ok;
    }
  }

  method ExtendStart(symbols: seq<NewSymbol>, lines: seq<string>, owner: array<Option<nat>>, i: nat,
                     start: nat) returns (s: nat)
    requires ParentsPrecede(symbols) && i < |symbols|
    ensures s == ExtendFrom(symbols, lines, owner[..], i, start, start)
  {
    hide Step, Claimable, AllClaimable;
    s := start;
    while s > 1
      invariant ExtendFrom(symbols, lines, owner[..], i, start, start) ==
                ExtendFrom(symbols, lines, owner[..], i, start, s)
      decreases s
    {
      var prev := s - 2;
      if prev >= owner.Length || prev >= |lines| { return; }
      var free := CanClaim(symbols, owner, i, prev);
      if !free { return; }
      var first := StepUp(lines, prev, s == start);
      if first.None? { return; }
      var all := CanClaimAll(symbols, owner, i, first.value, prev);
      if !all { return; }
      s := first.value + 1;
    }
  }

  // ---- all symbols in turn ----

  /** Ownership after the symbols below `k` have claimed their docs. */
  function OwnersAfter(symbols: seq<NewSymbol>, lines: seq<string>, k: nat): (r: Owners)
    requires ValidSymbols(symbols) && k <= |symbols|
    ensures |r| == |lines|
  {
    if k <= 1 then Painted(symbols, |lines|)
    else
      var before := OwnersAfter(symbols, lines, k - 1);
      var start := symbols[k - 1].startLine;
      Claimed(before, ExtendFrom(symbols, lines, before, k - 1, start, start) - 1, start - 1, k - 1)
  }

  /** The first line of symbol `i` with everything it claimed. */
  function ExtStart(symbols: seq<NewSymbol>, lines: seq<string>, i: nat): (r: nat)
    requires ValidSymbols(symbols) && 1 <= i < |symbols|
    ensures 1 <= r <= symbols[i].startLine
  {
    ExtendFrom(symbols, lines, OwnersAfter(symbols, lines, i), i, symbols[i].startLine, symbols[i].startLine)
  }

  function FinalOwners(symbols: seq<NewSymbol>, lines: seq<string>): (r: Owners)
    requires ValidSymbols(symbols)
    ensures |r| == |lines|
  {
    OwnersAfter(symbols, lines, |symbols|)
  }

  /** A line's owner always has the line between its extended start and its end. */
  lemma {:induction false} OwnedLinesInRange(symbols: seq<NewSymbol>, lines: seq<string>, k: nat, l: nat)
    requires ValidSymbols(symbols) && k <= |symbols| && l < |lines|
    requires OwnersAfter(symbols, lines, k)[l].Some?
    ensures var o := OwnersAfter(symbols, lines, k)[l].value;
            1 <= o < |symbols| && ExtStart(symbols, lines, o) <= l + 1 <= symbols[o].endLine
  {
    hide OwnersAfter, ExtStart, ValidSymbols;
    if k <= 1 {
      PaintedLineInRange(symbols, lines, k, l);
    } else {
      OneMoreOwner(symbols, lines, k, l);
      if !(ExtStart(symbols, lines, k - 1) - 1 <= l < symbols[k - 1].startLine - 1) {
        OwnedLinesInRange(symbols, lines, k - 1, l);
      }
    }
  }

  lemma OneMoreOwner(symbols: seq<NewSymbol>, lines: seq<string>, k: nat, l: nat)
    requires ValidSymbols(symbols) && 2 <= k <= |symbols| && l < |lines|
    ensures OwnersAfter(symbols, lines, k)[l] ==
            if ExtStart(symbols, lines, k - 1) - 1 <= l < symbols[k - 1].startLine - 1 then Some(k - 1)
            else OwnersAfter(symbols, lines, k - 1)[l]
    ensures symbols[k - 1].startLine <= symbols[k - 1].endLine
  {
    hide ExtendFrom;
  }

  lemma PaintedLineInRange(symbols: seq<NewSymbol>, lines: seq<string>, k: nat, l: nat)
    requires ValidSymbols(symbols) && k <= 1 && k <= |symbols| && l < |lines|
    requires OwnersAfter(symbols, lines, k)[l].Some?
    ensures var o := OwnersAfter(symbols, lines, k)[l].value;
            1 <= o < |symbols| && ExtStart(symbols, lines, o) <= l + 1 <= symbols[o].endLine
  {
    hide ExtendFrom;
    var o := Innermost(symbols, l, |symbols|).value;
    assert ExtStart(symbols, lines, o) <= symbols[o].startLine;
  }

  method ClaimDocs(symbols: seq<NewSymbol>, lines: seq<string>, covered: array<bool>, owner: array<Option<nat>>)
    returns (exts: seq<nat>)
    requires ValidSymbols(symbols) && InStep(covered, owner) && owner.Length == |lines|
    requires owner[..] == Painted(symbols, |lines|)
    modifies covered, owner
    ensures InStep(covered, owner) && owner[..] == FinalOwners(symbols, lines)
    ensures |exts| == |symbols| && forall i :: 1 <= i < |symbols| ==> exts[i] == ExtStart(symbols, lines, i)
  {
    hide ExtendFrom, Painted;
    if symbols == [] { return []; }
    exts := [0];
    for i := 1 to |symbols|
      invariant InStep(covered, owner) && owner[..] == OwnersAfter(symbols, lines, i)
      invariant |exts| == i && forall k :: 1 <= k < i ==> exts[k] == ExtStart(symbols, lines, k)
    {
      var start := symbols[i].startLine;
      var ext := ExtendStart(symbols, lines, owner, i, start);
      exts := exts + [ext];
      var from := if ext - 1 < covered.Length then ext - 1 else covered.Length;
      var to := if start - 1 < covered.Length then start - 1 else covered.Length;
      ghost var before := owner[..];
      Claim(covered, owner, from, to, i);
      assert owner[..] == Claimed(before, ext - 1, start - 1, i);
    }
  }
}
