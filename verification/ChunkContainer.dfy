/**
 A container's outline: its own lines in order with each child reduced to a signature, and the outline packed
 into chunks.
 */
module ChunkContainer {
  import opened Wrappers
  import opened Sequences
  import opened Schema
  import opened Text
  import opened ChunkOwners
  import opened ChunkSplit

  /** One line of an outline; `childSig` marks a child's signature. */
  datatype OutlineLine = OutlineLine(line: nat, text: string, childSig: bool)

  // ---- the outline ----

  function Children(symbols: seq<NewSymbol>, i: nat): seq<NewSymbol> {
    Keep(symbols, (c: NewSymbol) => c.parent == Some(i))
  }

  /** How many leading children start at or before the line. */
  function Ready(children: seq<NewSymbol>, line: nat, k: nat): (r: nat)
    requires k <= |children|
    ensures k <= r <= |children|
    ensures forall j :: k <= j < r ==> children[j].startLine <= line
    ensures r < |children| ==> children[r].startLine > line
    decreases |children| - k
  {
    if k < |children| && children[k].startLine <= line then Ready(children, line, k + 1) else k
  }

  /** What the container itself shows on a line: its signature, or a line it owns that is not blank. */
  function OwnEntry(symbols: seq<NewSymbol>, lines: seq<string>, owner: Owners, i: nat, ln: nat): seq<OutlineLine>
    requires i < |symbols| && 1 <= ln <= |lines| == |owner|
  {
    if symbols[i].sig.Some? && ln == symbols[i].startLine then [OutlineLine(ln, symbols[i].sig.value, false)]
    else if owner[ln - 1] == Some(i) && !Blank(lines[ln - 1]) then [OutlineLine(ln, lines[ln - 1], false)]
    else []
  }

  /** The signatures of the children `from` up to `to`, indented, placed on line `ln`. */
  function ChildEntries(children: seq<NewSymbol>, from: nat, to: nat, ln: nat): (r: seq<OutlineLine>)
    requires from <= to <= |children|
    ensures forall e :: e in r ==> e.childSig && e.line == ln
  {
    if from == to then []
    else
      var c := children[to - 1];
      ChildEntries(children, from, to - 1, ln)
      + (if c.sig.Some? then [OutlineLine(ln, "    " + c.sig.value, true)] else [])
  }

  /** All entries of one line: the container's own, then the children that became ready. */
  function LineEntries(symbols: seq<NewSymbol>, lines: seq<string>, owner: Owners, i: nat, from: nat,
                       ln: nat): (r: seq<OutlineLine>)
    requires i < |symbols| && 1 <= ln <= |lines| == |owner| && from <= |Children(symbols, i)|
    ensures forall e :: e in r ==> e.line == ln
  {
    OwnEntry(symbols, lines, owner, i, ln)
    + ChildEntries(Children(symbols, i), from, Ready(Children(symbols, i), ln, from), ln)
  }

  /** The outline of lines `ext` up to, but without, `ln`. */
  function OutlineTo(symbols: seq<NewSymbol>, lines: seq<string>, owner: Owners, i: nat, ext: nat,
                     ln: nat): seq<OutlineLine>
    requires i < |symbols| && 1 <= ext <= ln && ln - 1 <= |lines| == |owner|
    decreases ln
  {
    if ln == ext then []
    else
      OutlineTo(symbols, lines, owner, i, ext, ln - 1)
      + LineEntries(symbols, lines, owner, i, Shown(Children(symbols, i), ext, ln - 1), ln - 1)
  }

  /** How many children are listed before line `ln`. */
  function Shown(children: seq<NewSymbol>, ext: nat, ln: nat): (k: nat)
    requires 1 <= ext <= ln
    ensures k <= |children|
    decreases ln
  {
    if ln == ext then 0 else Ready(children, ln - 1, Shown(children, ext, ln - 1))
  }

  method AddChildren(children: seq<NewSymbol>, ln: nat, from: nat, entries: seq<OutlineLine>)
    returns (out: seq<OutlineLine>, k: nat)
    requires from <= |children|
    ensures k == Ready(children, ln, from) && out == entries + ChildEntries(children, from, k, ln)
  {
    k, out := from, entries;
    while k < |children| && children[k].startLine <= ln
      invariant from <= k <= |children|
      invariant Ready(children, ln, k) == Ready(children, ln, from)
      invariant out == entries + ChildEntries(children, from, k, ln)
      decreases |children| - k
    {
      if children[k].sig.Some? { out := out + [OutlineLine(ln, "    " + children[k].sig.value, true)]; }
      k := k + 1;
    }
  }

  method AddOwn(symbols: seq<NewSymbol>, lines: seq<string>, owner: Owners, i: nat, ln: nat, entries: seq<OutlineLine>)
    returns (out: seq<OutlineLine>)
    requires i < |symbols| && 1 <= ln <= |lines| == |owner|
    ensures out == entries + OwnEntry(symbols, lines, owner, i, ln)
  {
    hide Blank;
    out := entries;
    var text, sig := lines[ln - 1], symbols[i].sig;
    if sig.Some? && ln == symbols[i].startLine {
      out := out + [OutlineLine(ln, sig.value, false)];
    } else if owner[ln - 1] == Some(i) && !Blank(text) {
      out := out + [OutlineLine(ln, text, false)];
    }
  }

  lemma OutlineStep(symbols: seq<NewSymbol>, lines: seq<string>, owner: Owners, i: nat, ext: nat, ln: nat)
    requires i < |symbols| && 1 <= ext <= ln <= |lines| == |owner|
    ensures var children := Children(symbols, i);
            var from := Shown(children, ext, ln);
            && OutlineTo(symbols, lines, owner, i, ext, ln + 1) ==
               OutlineTo(symbols, lines, owner, i, ext, ln) + OwnEntry(symbols, lines, owner, i, ln)
               + ChildEntries(children, from, Ready(children, ln, from), ln)
            && Shown(children, ext, ln + 1) == Ready(children, ln, from)
  {
    hide Children, OwnEntry, ChildEntries, Ready;
  }

  method Outline(symbols: seq<NewSymbol>, lines: seq<string>, owner: Owners, i: nat, ext: nat)
    returns (out: seq<OutlineLine>)
    requires i < |symbols| && 1 <= ext && |lines| == |owner|
    ensures var end := if symbols[i].endLine < |lines| then symbols[i].endLine else |lines|;
            out == if ext <= end then OutlineTo(symbols, lines, owner, i, ext, end + 1) else []
  {
    hide Children, OutlineTo, Shown, OwnEntry, Ready, ChildEntries;
    var end := if symbols[i].endLine < |lines| then symbols[i].endLine else |lines|;
    var children := Children(symbols, i);
    var k := 0;
    out := [];
    if ext > end { return; }
    OutlineStart(symbols, lines, owner, i, ext);
    for ln := ext to end + 1
      invariant k == Shown(children, ext, ln)
      invariant out == OutlineTo(symbols, lines, owner, i, ext, ln)
    {
      OutlineStep(symbols, lines, owner, i, ext, ln);
      out := AddOwn(symbols, lines, owner, i, ln, out);
      out, k := AddChildren(children, ln, k, out);
    }
  }

  lemma OutlineStart(symbols: seq<NewSymbol>, lines: seq<string>, owner: Owners, i: nat, ext: nat)
    requires i < |symbols| && 1 <= ext <= |lines| == |owner|
    ensures OutlineTo(symbols, lines, owner, i, ext, ext) == [] && Shown(Children(symbols, i), ext, ext) == 0
  {
  }

  /** Entries stand in line order, and every entry's line lies in the outlined range. */
  lemma {:induction false} OutlineOrdered(symbols: seq<NewSymbol>, lines: seq<string>, owner: Owners, i: nat, ext: nat,
                                          ln: nat)
    requires i < |symbols| && 1 <= ext <= ln && ln - 1 <= |lines| == |owner|
    ensures InLineOrder(OutlineTo(symbols, lines, owner, i, ext, ln), ext, ln)
    decreases ln
  {
    hide LineEntries, Children, InLineOrder;
    if ln == ext {
      assert InLineOrder([], ext, ln) by { EmptyInOrder(ext, ln); }
    } else {
      OutlineOrdered(symbols, lines, owner, i, ext, ln - 1);
      AppendInOrder(OutlineTo(symbols, lines, owner, i, ext, ln - 1),
                    LineEntries(symbols, lines, owner, i, Shown(Children(symbols, i), ext, ln - 1), ln - 1), ext, ln);
    }
  }

  lemma EmptyInOrder(ext: nat, ln: nat)
    ensures InLineOrder([], ext, ln)
  {
  }

  lemma AppendInOrder(before: seq<OutlineLine>, rest: seq<OutlineLine>, ext: nat, ln: nat)
    requires ext < ln && InLineOrder(before, ext, ln - 1) && forall e :: e in rest ==> e.line == ln - 1
    ensures InLineOrder(before + rest, ext, ln)
  {
    var out := before + rest;
    forall a, b | 0 <= a < b < |out| ensures out[a].line <= out[b].line {
      assert b < |before| || out[b] in rest;
      assert a < |before| || out[a] in rest;
      assert a < |before| ==> before[a] in before;
    }
  }

  ghost predicate InLineOrder(out: seq<OutlineLine>, ext: nat, ln: nat) {
    && (forall e :: e in out ==> ext <= e.line < ln)
    && (forall a, b :: 0 <= a < b < |out| ==> out[a].line <= out[b].line)
  }

  /** Every line the container owns and that is not blank or its signature's is an entry of the outline. */
  lemma {:induction false} OutlineHasOwned(symbols: seq<NewSymbol>, lines: seq<string>, owner: Owners, i: nat,
                                           ext: nat, ln: nat, l: nat)
    requires i < |symbols| && 1 <= ext <= ln && ln - 1 <= |lines| == |owner|
    requires ext <= l + 1 < ln && owner[l] == Some(i) && !Blank(lines[l])
    requires !(symbols[i].sig.Some? && l + 1 == symbols[i].startLine)
    ensures OutlineLine(l + 1, lines[l], false) in OutlineTo(symbols, lines, owner, i, ext, ln)
    decreases ln
  {
    hide LineEntries, Blank, Children, Shown;
    if l + 2 < ln {
      OutlineHasOwned(symbols, lines, owner, i, ext, ln - 1, l);
    } else {
      LineHasOwned(symbols, lines, owner, i, Shown(Children(symbols, i), ext, ln - 1), l);
    }
  }

  /** The container's signature stands as an entry on its start line, in place of the source line. */
  lemma {:induction false} OutlineHasSignature(symbols: seq<NewSymbol>, lines: seq<string>, owner: Owners, i: nat,
                                               ext: nat, ln: nat)
    requires i < |symbols| && 1 <= ext <= ln && ln - 1 <= |lines| == |owner|
    requires symbols[i].sig.Some? && ext <= symbols[i].startLine < ln
    ensures OutlineLine(symbols[i].startLine, symbols[i].sig.value, false) in
            OutlineTo(symbols, lines, owner, i, ext, ln)
    decreases ln
  {
    hide LineEntries, Blank, Children, Shown;
    if symbols[i].startLine + 1 < ln {
      OutlineHasSignature(symbols, lines, owner, i, ext, ln - 1);
    } else {
      LineHasSignature(symbols, lines, owner, i, Shown(Children(symbols, i), ext, ln - 1));
    }
  }

  lemma LineHasSignature(symbols: seq<NewSymbol>, lines: seq<string>, owner: Owners, i: nat, from: nat)
    requires i < |symbols| && symbols[i].sig.Some? && 1 <= symbols[i].startLine <= |lines| == |owner|
    requires from <= |Children(symbols, i)|
    ensures OutlineLine(symbols[i].startLine, symbols[i].sig.value, false) in
            LineEntries(symbols, lines, owner, i, from, symbols[i].startLine)
  {
    hide Blank, Children, Ready, ChildEntries;
    var own := OwnEntry(symbols, lines, owner, i, symbols[i].startLine);
    assert own[0] in own;
  }

  /** What an entry that is no child's shows: the signature on the start line, or a line the container owns. */
  ghost predicate ShowsOwn(symbols: seq<NewSymbol>, lines: seq<string>, owner: Owners, i: nat, e: OutlineLine)
    requires i < |symbols| && |lines| == |owner|
  {
    if symbols[i].sig == Some(e.text) && e.line == symbols[i].startLine then true
    else
      && 1 <= e.line <= |lines| && e.text == lines[e.line - 1] && owner[e.line - 1] == Some(i) && !Blank(e.text)
      && !(symbols[i].sig.Some? && e.line == symbols[i].startLine)
  }

  /** The outline shows nothing else of its own. */
  lemma {:induction false} OutlineOnlyOwn(symbols: seq<NewSymbol>, lines: seq<string>, owner: Owners, i: nat, ext: nat,
                                          ln: nat, e: OutlineLine)
    requires i < |symbols| && 1 <= ext <= ln && ln - 1 <= |lines| == |owner|
    requires e in OutlineTo(symbols, lines, owner, i, ext, ln) && !e.childSig
    ensures ShowsOwn(symbols, lines, owner, i, e)
    decreases ln
  {
    hide LineEntries, Blank, Children, Shown, ShowsOwn;
    if ln > ext {
      if e in OutlineTo(symbols, lines, owner, i, ext, ln - 1) {
        OutlineOnlyOwn(symbols, lines, owner, i, ext, ln - 1, e);
      } else {
        LineOnlyOwn(symbols, lines, owner, i, Shown(Children(symbols, i), ext, ln - 1), ln - 1, e);
      }
    }
  }

  lemma LineOnlyOwn(symbols: seq<NewSymbol>, lines: seq<string>, owner: Owners, i: nat, from: nat, ln: nat,
                    e: OutlineLine)
    requires i < |symbols| && 1 <= ln <= |lines| == |owner| && from <= |Children(symbols, i)|
    requires e in LineEntries(symbols, lines, owner, i, from, ln) && !e.childSig
    ensures ShowsOwn(symbols, lines, owner, i, e)
  {
    hide Blank, Children, Ready, ChildEntries;
  }

  lemma LineHasOwned(symbols: seq<NewSymbol>, lines: seq<string>, owner: Owners, i: nat, from: nat, l: nat)
    requires i < |symbols| && l < |lines| == |owner| && owner[l] == Some(i) && !Blank(lines[l])
    requires from <= |Children(symbols, i)| && !(symbols[i].sig.Some? && l + 1 == symbols[i].startLine)
    ensures OutlineLine(l + 1, lines[l], false) in LineEntries(symbols, lines, owner, i, from, l + 1)
  {
    hide Blank, Children, Ready, ChildEntries;
    var own := OwnEntry(symbols, lines, owner, i, l + 1);
    assert own == [OutlineLine(l + 1, lines[l], false)];
    assert own[0] in own;
  }

  lemma {:induction false} ShownIsReady(children: seq<NewSymbol>, ext: nat, ln: nat)
    requires 1 <= ext <= ln
    ensures Shown(children, ext, ln) == if ln == ext then 0 else Ready(children, ln - 1, 0)
    decreases ln
  {
    if ln > ext {
      ShownIsReady(children, ext, ln - 1);
      ReadyFrom(children, ln - 1, 0, Shown(children, ext, ln - 1));
    }
  }

  /** The signatures listed, in order, are those of the leading children that start by the last line outlined. */
  lemma {:induction false} ChildrenListedOnce(symbols: seq<NewSymbol>, lines: seq<string>, owner: Owners, i: nat,
                                              ext: nat, ln: nat)
    requires i < |symbols| && 1 <= ext <= ln && ln - 1 <= |lines| == |owner|
    ensures var children := Children(symbols, i);
            Texts(Keep(OutlineTo(symbols, lines, owner, i, ext, ln), IsChildSig())) ==
            Signatures(children[..Shown(children, ext, ln)])
    decreases ln
  {
    var children := Children(symbols, i);
    hide LineEntries, Ready, Keep, Children, Signatures, Texts;
    if ln == ext {
      NoneListed(children);
    } else {
      ChildrenListedOnce(symbols, lines, owner, i, ext, ln - 1);
      var before := OutlineTo(symbols, lines, owner, i, ext, ln - 1);
      var from := Shown(children, ext, ln - 1);
      var line := LineEntries(symbols, lines, owner, i, from, ln - 1);
      KeepConcat(before, line, IsChildSig());
      LineSignatures(symbols, lines, owner, i, from, ln - 1);
      TextsConcat(Keep(before, IsChildSig()), Keep(line, IsChildSig()));
      SignaturesUpTo(children, from, Ready(children, ln - 1, from));
    }
  }

  function IsChildSig(): OutlineLine -> bool { (e: OutlineLine) => e.childSig }

  lemma TextsConcat(a: seq<OutlineLine>, b: seq<OutlineLine>)
    ensures Texts(a + b) == Texts(a) + Texts(b)
  {
  }

  lemma SignaturesUpTo(children: seq<NewSymbol>, from: nat, to: nat)
    requires from <= to <= |children|
    ensures Signatures(children[..to]) == Signatures(children[..from]) + Signatures(children[from..to])
  {
    SignaturesConcat(children[..from], children[from..to]);
    assert children[..from] + children[from..to] == children[..to];
  }

  lemma NoneListed(children: seq<NewSymbol>)
    ensures Texts(Keep([], IsChildSig())) == Signatures(children[..0])
  {
  }

  lemma LineSignatures(symbols: seq<NewSymbol>, lines: seq<string>, owner: Owners, i: nat, from: nat, ln: nat)
    requires i < |symbols| && 1 <= ln <= |lines| == |owner| && from <= |Children(symbols, i)|
    ensures var children := Children(symbols, i);
            Texts(Keep(LineEntries(symbols, lines, owner, i, from, ln), IsChildSig()))
            == Signatures(children[from..Ready(children, ln, from)])
  {
    var children, p := Children(symbols, i), IsChildSig();
    hide Children, Keep, Blank, Ready;
    var own, to := OwnEntry(symbols, lines, owner, i, ln), Ready(children, ln, from);
    var listed := ChildEntries(children, from, to, ln);
    KeepConcat(own, listed, p);
    KeepNone(own, p);
    KeepAll(listed, p);
    EntriesAreSignatures(children, from, to, ln);
  }

  lemma {:induction false} ReadyFrom(children: seq<NewSymbol>, line: nat, k: nat, from: nat)
    requires k <= from <= |children| && forall j :: k <= j < from ==> children[j].startLine <= line
    ensures Ready(children, line, k) == Ready(children, line, from)
    decreases from - k
  {
    if k < from { ReadyFrom(children, line, k + 1, from); }
  }

  function Texts(entries: seq<OutlineLine>): (r: seq<string>)
    ensures |r| == |entries|
  {
    seq(|entries|, i requires 0 <= i < |entries| => entries[i].text)
  }

  /** The indented signatures of those children that have one. */
  function Signatures(children: seq<NewSymbol>): seq<string> {
    if children == [] then []
    else
      var c := children[|children| - 1];
      Signatures(children[..|children| - 1]) + (if c.sig.Some? then ["    " + c.sig.value] else [])
  }

  lemma {:induction false} SignaturesConcat(a: seq<NewSymbol>, b: seq<NewSymbol>)
    ensures Signatures(a + b) == Signatures(a) + Signatures(b)
  {
    if b == [] {
      assert a + b == a;
    } else {
      assert (a + b)[..|a + b| - 1] == a + b[..|b| - 1];
      SignaturesConcat(a, b[..|b| - 1]);
    }
  }

  lemma {:induction false} EntriesAreSignatures(children: seq<NewSymbol>, from: nat, to: nat, ln: nat)
    requires from <= to <= |children|
    ensures Texts(ChildEntries(children, from, to, ln)) == Signatures(children[from..to])
  {
    if from < to {
      EntriesAreSignatures(children, from, to - 1, ln);
      assert children[from..to][..to - 1 - from] == children[from..to - 1];
      var init := ChildEntries(children, from, to - 1, ln);
      var c := children[to - 1];
      assert Texts(ChildEntries(children, from, to, ln)) ==
             Texts(init) + (if c.sig.Some? then ["    " + c.sig.value] else []);
    }
  }
}
