/** The update check: its cache file, printed and read back without a JSON parser, and the comparison of versions. */
module ReleaseCache {
  import opened Wrappers
  import opened Decimal
  import opened Text

  /** When the last check ran, and what it found. */
  datatype Cached = Cached(checkedAt: nat, latest: Option<string>)

  const CHECKED_KEY := "\"checked_at\""
  const LATEST_KEY := "\"latest\""

  // ---- printing ----

  function RenderCache(c: Cached): string {
    "{\"checked_at\": " + Print(c.checkedAt) + ", \"latest\": "
    + (if c.latest.Some? then "\"" + c.latest.value + "\"}\n" else "null}\n")
  }

  // ---- reading ----

  /** Where `part` first stands at or after `i`. */
  function FirstAt(text: string, part: string, i: nat): (r: Option<nat>)
    requires i <= |text|
    ensures r.Some? ==>
              && i <= r.value <= |text| && PartAt(text, part, r.value)
              && forall k :: i <= k < r.value ==> !PartAt(text, part, k)
    ensures r.None? ==> forall k :: i <= k <= |text| ==> !PartAt(text, part, k)
    decreases |text| - i
  {
    if PartAt(text, part, i) then Some(i) else if i == |text| then None else FirstAt(text, part, i + 1)
  }

  /** The text up to the first of the given characters. */
  function UpTo(text: string, stops: set<char>): string {
    if text == "" || text[0] in stops then "" else [text[0]] + UpTo(text[1..], stops)
  }

  function TrimQuotes(s: string): string
    decreases |s|
  {
    if s != "" && s[0] == '"' then TrimQuotes(s[1..])
    else if s != "" && s[|s| - 1] == '"' then TrimQuotes(s[..|s| - 1])
    else s
  }

  /** What stands behind the colon: a quoted string, or a bare token. */
  function ValueAfter(after: string): Option<string> {
    var a := TrimStart(after);
    if a == "" || a[0] != ':' then None
    else
      var v := TrimStart(a[1..]);
      if v != "" && v[0] == '"' then Some(UpTo(v[1..], {'"'}))
      else Some(TrimQuotes(TrimEnd(TrimStart(UpTo(v, {',', '}', '\n'})))))
  }

  function Field(text: string, key: string): Option<string> {
    var at := FirstAt(text, key, 0);
    if at.None? then None else ValueAfter(text[at.value + |key|..])
  }

  function ParseCache(text: string): Option<Cached> {
    var checked, latest := Field(text, CHECKED_KEY), Field(text, LATEST_KEY);
    if checked.None? || ParseU64(checked.value).None? then None
    else
      Some(Cached(ParseU64(checked.value).value,
                  if latest.Some? && latest.value != "null" && latest.value != "" then latest else None))
  }

  // ---- the round trip ----

  lemma {:induction false} UpToStop(body: string, stop: char, rest: string, stops: set<char>)
    requires stop in stops && forall c :: c in body ==> c !in stops
    ensures UpTo(body + [stop] + rest, stops) == body
  {
    var text := body + [stop] + rest;
    if body != "" {
      assert text[0] == body[0] && body[0] in body;
      assert text[1..] == body[1..] + [stop] + rest;
      UpToStop(body[1..], stop, rest, stops);
    }
  }

  lemma {:induction false} UpToIsClean(text: string, stops: set<char>)
    ensures forall c :: c in UpTo(text, stops) ==> c !in stops
  {
    if text != "" && text[0] !in stops { UpToIsClean(text[1..], stops); }
  }

  lemma DigitsAreClean(n: nat)
    ensures forall c :: c in Print(n) ==> c !in {',', '}', '\n'} && c != '"' && !IsSpace(c)
    ensures Print(n) != ""
  {
    forall c | c in Print(n) ensures IsDigit(c) {
      var i :| 0 <= i < |Print(n)| && Print(n)[i] == c;
    }
  }

  lemma CleanToken(s: string)
    requires s != "" && forall c :: c in s ==> c != '"' && !IsSpace(c)
    ensures TrimQuotes(TrimEnd(TrimStart(s))) == s
  {
    assert s[0] in s && s[|s| - 1] in s;
  }

  /** A bare token after the colon. */
  lemma BareValue(token: string, stop: char, rest: string)
    requires token != "" && stop in {',', '}', '\n'}
    requires forall c :: c in token ==> c !in {',', '}', '\n'} && c != '"' && !IsSpace(c)
    ensures ValueAfter(": " + token + [stop] + rest) == Some(token)
  {
    var v := token + [stop] + rest;
    var after := ": " + token + [stop] + rest;
    assert after[1..] == " " + v && (" " + v)[1..] == v;
    assert v[0] == token[0] && token[0] in token;
    assert TrimStart(v) == v && TrimStart(" " + v) == v;
    UpToStop(token, stop, rest, {',', '}', '\n'});
    CleanToken(token);
  }

  /** A quoted value after the colon. */
  lemma QuotedValue(body: string, rest: string)
    ensures ValueAfter(": \"" + body + "\"" + rest) == Some(UpTo(body + "\"" + rest, {'"'}))
  {
    var after := ": \"" + body + "\"" + rest;
    var v := "\"" + body + "\"" + rest;
    assert after[1..] == " " + v && (" " + v)[1..] == v;
    assert TrimStart(v) == v && TrimStart(" " + v) == v;
    assert v[1..] == body + "\"" + rest;
  }

  lemma {:induction false} TrimGap(gap: string, s: string)
    requires Blank(gap) && s != "" && !IsSpace(s[0])
    ensures TrimStart(gap + s) == s
  {
    if gap == "" {
      assert gap + s == s;
    } else {
      assert (gap + s)[1..] == gap[1..] + s;
      TrimGap(gap[1..], s);
    }
  }

  lemma GappedValue(gap: string, gap2: string, body: string, rest: string)
    requires Blank(gap) && Blank(gap2) && '"' !in body
    ensures ValueAfter(gap + (":" + (gap2 + ("\"" + (body + ['"'] + rest))))) == Some(body)
  {
    hide TrimStart, UpTo;
    var quoted := "\"" + (body + ['"'] + rest);
    var after := ":" + (gap2 + quoted);
    TrimGap(gap, after);
    TrimGap(gap2, quoted);
    assert after[1..] == gap2 + quoted && quoted[1..] == body + ['"'] + rest;
    UpToStop(body, '"', rest, {'"'});
  }

  /** In any text: the first occurrence of the key, a colon, and what stands between quotation marks behind it. */
  lemma QuotedField(text: string, key: string, at: nat, gap: string, gap2: string, body: string, rest: string)
    requires at <= |text| && PartAt(text, key, at) && forall k :: 0 <= k < at ==> !PartAt(text, key, k)
    requires text[at + |key|..] == gap + (":" + (gap2 + ("\"" + (body + ['"'] + rest))))
    requires Blank(gap) && Blank(gap2) && '"' !in body
    ensures Field(text, key) == Some(body)
  {
    GappedValue(gap, gap2, body, rest);
    hide ValueAfter, PartAt, TrimStart;
    assert FirstAt(text, key, 0) == Some(at);
  }

  /** Without the key there is no field, nor where something else than a colon follows its first occurrence. */
  lemma NoField(text: string, key: string, at: nat, gap: string, rest: string)
    requires at <= |text| && forall k :: 0 <= k < at ==> !PartAt(text, key, k)
    requires at == |text| || (PartAt(text, key, at) && text[at + |key|..] == gap + rest)
    requires Blank(gap) && rest != "" && !IsSpace(rest[0]) && rest[0] != ':'
    ensures key != "" ==> Field(text, key).None?
  {
    TrimGap(gap, rest);
    hide TrimStart;
  }

  function Tail(c: Cached): string {
    if c.latest.Some? then ": \"" + c.latest.value + "\"" + "}\n" else ": null" + "}" + "\n"
  }

  lemma FieldBehind(text: string, before: string, key: string, after: string)
    requires text == before + key + after && forall k :: 0 <= k < |before| ==> !PartAt(text, key, k)
    ensures Field(text, key) == ValueAfter(after)
  {
    hide ValueAfter;
    assert text[|before|..|before| + |key|] == key && text[|before| + |key|..] == after;
    assert PartAt(text, key, |before|);
    hide PartAt;
    assert FirstAt(text, key, 0) == Some(|before|);
  }

  lemma Rendered(c: Cached)
    ensures RenderCache(c) == "{" + CHECKED_KEY + ": " + Print(c.checkedAt) + ", " + LATEST_KEY + Tail(c)
  {
    hide Print;
    var key, value := ", " + LATEST_KEY, if c.latest.Some? then "\"" + c.latest.value + "\"}\n" else "null}\n";
    Opening();
    KeyAndColon();
    TailIsValue(c, value);
    Joined("{" + CHECKED_KEY + ": " + Print(c.checkedAt), key, ": ", value);
    Joined("{" + CHECKED_KEY + ": " + Print(c.checkedAt), ", ", LATEST_KEY, Tail(c));
  }

  lemma Opening()
    ensures "{\"checked_at\": " == "{" + CHECKED_KEY + ": "
  {
  }

  lemma KeyAndColon()
    ensures ", \"latest\": " == ", " + LATEST_KEY + ": "
  {
  }

  lemma TailIsValue(c: Cached, value: string)
    requires value == if c.latest.Some? then "\"" + c.latest.value + "\"}\n" else "null}\n"
    ensures Tail(c) == ": " + value
  {
  }

  lemma Joined(a: string, b: string, c: string, d: string)
    ensures a + (b + c) + d == a + b + (c + d) && a + b + c + d == a + b + (c + d)
  {
  }

  lemma CheckedStands(c: Cached)
    ensures Field(RenderCache(c), CHECKED_KEY) ==
            ValueAfter(": " + Print(c.checkedAt) + [','] + (" " + LATEST_KEY + Tail(c)))
  {
    hide Print, ValueAfter, Field, RenderCache, Tail;
    Rendered(c);
    var text, after := RenderCache(c), ": " + Print(c.checkedAt) + [','] + (" " + LATEST_KEY + Tail(c));
    assert text == "{" + CHECKED_KEY + after;
    assert text[0..|CHECKED_KEY|][0] == '{' && !PartAt(text, CHECKED_KEY, 0);
    FieldBehind(text, "{", CHECKED_KEY, after);
  }

  /** The two keys stand where the printer put them and nowhere before. */
  lemma LatestStands(c: Cached)
    ensures Field(RenderCache(c), LATEST_KEY) == ValueAfter(Tail(c))
  {
    hide Print, ValueAfter, Field, PartAt, RenderCache, Tail;
    Rendered(c);
    var digits, text := Print(c.checkedAt), RenderCache(c);
    var head := "{" + CHECKED_KEY + ": " + digits + ", ";
    DigitsAreClean(c.checkedAt);
    forall k | 0 <= k < |head| ensures !PartAt(text, LATEST_KEY, k) { NoEarlierKey(text, head, digits, k); }
    FieldBehind(text, head, LATEST_KEY, Tail(c));
  }

  lemma HeadQuotes(head: string, digits: string, k: nat)
    requires head == "{" + CHECKED_KEY + ": " + digits + ", " && k < |head|
    requires digits != "" && forall c :: c in digits ==> c != '"'
    ensures head[k] == '"' ==> k + 1 < |head| && head[k + 1] != 'l'
  {
    if 15 <= k < 15 + |digits| { assert head[k] == digits[k - 15] && digits[k - 15] in digits; }
  }

  lemma KeyStarts(text: string, k: nat)
    ensures PartAt(text, LATEST_KEY, k) ==> k + 1 < |text| && text[k] == '"' && text[k + 1] == 'l'
  {
    if PartAt(text, LATEST_KEY, k) {
      assert text[k..k + 8][0] == text[k] && text[k..k + 8][1] == text[k + 1];
    }
  }

  lemma NoEarlierKey(text: string, head: string, digits: string, k: nat)
    requires head == "{" + CHECKED_KEY + ": " + digits + ", " && head <= text && k < |head|
    requires digits != "" && forall c :: c in digits ==> c != '"'
    ensures !PartAt(text, LATEST_KEY, k)
  {
    HeadQuotes(head, digits, k);
    assert text[k] == head[k] && (k + 1 < |head| ==> text[k + 1] == head[k + 1]);
    KeyStarts(text, k);
  }

  /** A version the cache can hold: no quotation mark, not empty, and not the word `null`. */
  predicate Cacheable(version: string) { '"' !in version && version != "" && version != "null" }

  /**
   The cache reads back exactly what was printed, for every timestamp, when and only when the version is
   cacheable.
   */
  lemma CacheRoundTrip(c: Cached)
    requires c.checkedAt < U64_LIMIT
    ensures ParseCache(RenderCache(c)) == Some(c) <==> (c.latest.Some? ==> Cacheable(c.latest.value))
  {
    CheckedStands(c);
    LatestStands(c);
    DigitsAreClean(c.checkedAt);
    BareValue(Print(c.checkedAt), ',', " " + LATEST_KEY + Tail(c));
    ParsePrinted(c.checkedAt);
    LatestReadBack(c);
    hide Print, Field, ParseU64, ValueAfter, Tail, RenderCache;
  }

  lemma LatestReadBack(c: Cached)
    ensures ValueAfter(Tail(c)).Some?
    ensures c.latest.None? ==> ValueAfter(Tail(c)) == Some("null")
    ensures c.latest.Some? ==> (ValueAfter(Tail(c)) == c.latest <==> '"' !in c.latest.value)
  {
    if c.latest.Some? {
      var v := c.latest.value;
      QuotedValue(v, "}\n");
      assert v + ['"'] + "}\n" == v + "\"" + "}\n";
      UpToIsClean(v + "\"" + "}\n", {'"'});
      if '"' !in v { UpToStop(v, '"', "}\n", {'"'}); }
      hide UpTo, ValueAfter;
    } else {
      BareValue("null", '}', "\n");
      assert ": " + "null" + ['}'] + "\n" == Tail(c);
    }
  }

  // ---- versions ----

  function Split(s: string, sep: char): (r: seq<string>)
    ensures r != []
    decreases |s|
  {
    var i := IndexOf(s, sep);
    if i == |s| then [s] else [s[..i]] + Split(s[i + 1..], sep)
  }

  function WithoutV(s: string): string { if s != "" && s[0] == 'v' then WithoutV(s[1..]) else s }

  function ParseAll(pieces: seq<string>): Option<seq<nat>> {
    if pieces == [] then Some([])
    else
      var head, rest := ParseU64(pieces[0]), ParseAll(pieces[1..]);
      if head.None? || rest.None? then None else Some([head.value] + rest.value)
  }

  /** The components of a dotted numeric version; None when a piece is not a number. */
  function Parts(v: string): Option<seq<nat>> { ParseAll(Split(WithoutV(v), '.')) }

  /** A missing component counts as zero. */
  function At(parts: seq<nat>, i: nat): nat { if i < |parts| then parts[i] else 0 }

  /** The first component that differs is larger in `a`. */
  ghost predicate NewerAt(a: seq<nat>, b: seq<nat>, i: nat) {
    At(a, i) > At(b, i) && forall j: nat :: j < i ==> At(a, j) == At(b, j)
  }

  ghost predicate Newer(a: seq<nat>, b: seq<nat>) { exists i: nat :: NewerAt(a, b, i) }

  method IsNewer(latest: string, current: string) returns (r: Option<bool>)
    ensures r.None? <==> Parts(latest).None? || Parts(current).None?
    ensures r.Some? ==> (r.value <==> Newer(Parts(latest).value, Parts(current).value))
  {
    hide Parts;
    var lp, cp := Parts(latest), Parts(current);
    if lp.None? || cp.None? { return None; }
    var l, c := lp.value, cp.value;
    var n := if |l| >= |c| then |l| else |c|;
    for i := 0 to n
      invariant forall j: nat :: j < i ==> At(l, j) == At(c, j)
    {
      var a, b := At(l, i), At(c, i);
      if a != b {
        Decides(l, c, i);
        return Some(a > b);
      }
    }
    return Some(false);
  }

  lemma Decides(a: seq<nat>, b: seq<nat>, i: nat)
    requires At(a, i) != At(b, i) && forall j: nat :: j < i ==> At(a, j) == At(b, j)
    ensures Newer(a, b) <==> At(a, i) > At(b, i)
  {
    if At(a, i) > At(b, i) {
      assert NewerAt(a, b, i);
    } else {
      forall k: nat ensures !NewerAt(a, b, k) {}
    }
  }

  /** Two versions are the same when they agree up to trailing zeros. */
  ghost predicate SameVersion(a: seq<nat>, b: seq<nat>) { forall i: nat :: At(a, i) == At(b, i) }

  /** `Newer` is a strict order on versions, in which missing components are zero. */
  lemma NewerIsStrictOrder(a: seq<nat>, b: seq<nat>, c: seq<nat>)
    ensures !Newer(a, a)
    ensures Newer(a, b) ==> !Newer(b, a)
    ensures Newer(a, b) && Newer(b, c) ==> Newer(a, c)
    ensures Newer(a, b) || Newer(b, a) || SameVersion(a, b)
    ensures SameVersion(a, b) ==> (Newer(a, c) <==> Newer(b, c)) && (Newer(c, a) <==> Newer(c, b))
    ensures SameVersion(a, a + [0])
  {
    if Newer(a, b) {
      var i: nat :| NewerAt(a, b, i);
      Decides(b, a, i);
    }
    if Newer(a, b) && Newer(b, c) { Transitive(a, b, c); }
    Comparable(a, b);
    if SameVersion(a, b) {
      Replace(a, b, c);
      Replace(b, a, c);
    }
  }

  lemma Transitive(a: seq<nat>, b: seq<nat>, c: seq<nat>)
    requires Newer(a, b) && Newer(b, c)
    ensures Newer(a, c)
  {
    var i: nat :| NewerAt(a, b, i);
    var j: nat :| NewerAt(b, c, j);
    assert NewerAt(a, c, if i <= j then i else j);
  }

  lemma Replace(a: seq<nat>, b: seq<nat>, c: seq<nat>)
    requires SameVersion(a, b)
    ensures (Newer(a, c) ==> Newer(b, c)) && (Newer(c, a) ==> Newer(c, b))
  {
    if i: nat :| NewerAt(a, c, i) { assert NewerAt(b, c, i); }
    if i: nat :| NewerAt(c, a, i) { assert NewerAt(c, b, i); }
  }

  lemma Comparable(a: seq<nat>, b: seq<nat>)
    ensures Newer(a, b) || Newer(b, a) || SameVersion(a, b)
  {
    var n := |a| + |b|;
    for i := 0 to n
      invariant forall j: nat :: j < i ==> At(a, j) == At(b, j)
    {
      if At(a, i) != At(b, i) {
        Decides(a, b, i);
        Decides(b, a, i);
        return;
      }
    }
  }

  // ---- what a version says ----

  lemma IndexOfFirst(body: string, sep: char, rest: string)
    requires sep !in body
    ensures IndexOf(body + [sep] + rest, sep) == |body|
  {
    var text := body + [sep] + rest;
    assert text[|body|] == sep;
    forall k | 0 <= k < |body| ensures text[k] != sep { assert text[k] == body[k] && body[k] in body; }
  }

  lemma SplitOnce(head: string, sep: char, rest: string)
    requires sep !in head
    ensures Split(head + [sep] + rest, sep) == [head] + Split(rest, sep) && Split(head, sep) == [head]
  {
    var text := head + [sep] + rest;
    IndexOfFirst(head, sep, rest);
    assert text[..|head|] == head && text[|head| + 1..] == rest;
    assert IndexOf(head, sep) == |head| by { assert forall k :: 0 <= k < |head| ==> head[k] in head; }
  }

  /** The pieces with a dot between neighbours. */
  function Dots(pieces: seq<string>): string
    requires pieces != []
  {
    if |pieces| == 1 then pieces[0] else pieces[0] + "." + Dots(pieces[1..])
  }

  /** All leading v's, then the pieces. */
  ghost predicate Spells(v: string, vs: nat, pieces: seq<string>) {
    && vs <= |v| && (forall i :: 0 <= i < vs ==> v[i] == 'v') && (vs < |v| ==> v[vs] != 'v')
    && pieces != [] && (forall p :: p in pieces ==> '.' !in p) && v[vs..] == Dots(pieces)
  }

  lemma {:induction false} SplitDots(pieces: seq<string>)
    requires pieces != [] && forall p :: p in pieces ==> '.' !in p
    ensures Split(Dots(pieces), '.') == pieces
  {
    if |pieces| == 1 {
      SplitOnce(pieces[0], '.', "");
    } else {
      assert pieces[0] in pieces && forall p :: p in pieces[1..] ==> p in pieces;
      SplitDots(pieces[1..]);
      SplitOnce(pieces[0], '.', Dots(pieces[1..]));
      assert pieces == [pieces[0]] + pieces[1..];
    }
  }

  lemma {:induction false} DotsOfSplit(s: string)
    ensures Dots(Split(s, '.')) == s && forall p :: p in Split(s, '.') ==> '.' !in p
    decreases |s|
  {
    var i := IndexOf(s, '.');
    if i < |s| {
      DotsOfSplit(s[i + 1..]);
      assert Split(s, '.')[1..] == Split(s[i + 1..], '.');
      assert s == s[..i] + "." + s[i + 1..];
    }
  }

  lemma {:induction false} LeadingVs(v: string, vs: nat)
    requires vs <= |v| && (forall i :: 0 <= i < vs ==> v[i] == 'v') && (vs < |v| ==> v[vs] != 'v')
    ensures WithoutV(v) == v[vs..]
  {
    if vs > 0 { LeadingVs(v[1..], vs - 1); }
  }

  lemma {:induction false} CountVs(v: string) returns (vs: nat)
    ensures vs <= |v| && (forall i :: 0 <= i < vs ==> v[i] == 'v') && (vs < |v| ==> v[vs] != 'v')
  {
    vs := 0;
    if v != "" && v[0] == 'v' {
      var rest := CountVs(v[1..]);
      vs := rest + 1;
      assert forall i :: 0 < i <= |v[1..]| ==> v[i] == v[1..][i - 1];
    }
  }

  /** Every text spells one version. */
  lemma AnyTextSpells(v: string) returns (vs: nat, pieces: seq<string>)
    ensures Spells(v, vs, pieces)
  {
    vs := CountVs(v);
    pieces := Split(v[vs..], '.');
    DotsOfSplit(v[vs..]);
  }

  lemma {:induction false} ParseEach(pieces: seq<string>)
    ensures ParseAll(pieces).Some? <==> forall i :: 0 <= i < |pieces| ==> ParseU64(pieces[i]).Some?
    ensures ParseAll(pieces).Some? ==>
              && |ParseAll(pieces).value| == |pieces|
              && forall i :: 0 <= i < |pieces| ==> ParseU64(pieces[i]) == Some(ParseAll(pieces).value[i])
  {
    hide ParseU64;
    if pieces != [] {
      ParseEach(pieces[1..]);
      assert forall i :: 1 <= i < |pieces| ==> pieces[i] == pieces[1..][i - 1];
      assert forall i :: 0 <= i < |pieces[1..]| ==> pieces[1..][i] == pieces[i + 1];
    }
  }

  /** A version has components when every piece is a number, and they are those numbers. */
  lemma PartsMean(v: string, vs: nat, pieces: seq<string>)
    requires Spells(v, vs, pieces)
    ensures Parts(v).Some? <==> forall i :: 0 <= i < |pieces| ==> ParseU64(pieces[i]).Some?
    ensures Parts(v).Some? ==>
              && |Parts(v).value| == |pieces|
              && forall i :: 0 <= i < |pieces| ==> ParseU64(pieces[i]) == Some(Parts(v).value[i])
  {
    hide ParseU64;
    LeadingVs(v, vs);
    SplitDots(pieces);
    ParseEach(pieces);
  }

  // ---- printed versions ----

  function Printed(parts: seq<nat>): seq<string> { seq(|parts|, i requires 0 <= i < |parts| => Print(parts[i])) }

  function Dotted(parts: seq<nat>): string
    requires parts != []
  {
    Dots(Printed(parts))
  }

  lemma NoDots(n: nat)
    ensures '.' !in Print(n)
  {
    forall c | c in Print(n) ensures IsDigit(c) {
      var i :| 0 <= i < |Print(n)| && Print(n)[i] == c;
    }
  }

  lemma DottedSpells(parts: seq<nat>)
    requires parts != []
    ensures Spells(Dotted(parts), 0, Printed(parts)) && Spells("v" + Dotted(parts), 1, Printed(parts))
  {
    var text, pieces := Dotted(parts), Printed(parts);
    assert pieces[0] == Print(parts[0]) && IsDigit(pieces[0][0]) && text[0] == pieces[0][0];
    hide Print, Dots;
    forall p | p in pieces ensures '.' !in p {
      var i :| 0 <= i < |pieces| && pieces[i] == p;
      NoDots(parts[i]);
    }
    assert text[0..] == text && ("v" + text)[1..] == text;
  }

  lemma PrintedAreRead(v: string, vs: nat, parts: seq<nat>)
    requires parts != [] && Spells(v, vs, Printed(parts)) && forall p :: p in parts ==> p < U64_LIMIT
    ensures Parts(v) == Some(parts)
  {
    var pieces := Printed(parts);
    hide Print, ParseU64, Parts, Spells;
    forall i | 0 <= i < |pieces| ensures ParseU64(pieces[i]) == Some(parts[i]) {
      assert parts[i] in parts && pieces[i] == Print(parts[i]);
      ParsePrinted(parts[i]);
    }
    hide Printed;
    PartsMean(v, vs, pieces);
    assert Parts(v).Some?;
    var read := Parts(v).value;
    forall i | 0 <= i < |parts| ensures read[i] == parts[i] { assert ParseU64(pieces[i]) == Some(read[i]); }
    assert read == parts;
  }

  /** A printed version reads back as its components, with or without a leading v. */
  lemma VersionRoundTrip(parts: seq<nat>)
    requires parts != [] && forall p :: p in parts ==> p < U64_LIMIT
    ensures Parts(Dotted(parts)) == Some(parts) && Parts("v" + Dotted(parts)) == Some(parts)
  {
    hide Parts, Dotted, Spells;
    DottedSpells(parts);
    PrintedAreRead(Dotted(parts), 0, parts);
    PrintedAreRead("v" + Dotted(parts), 1, parts);
  }
}
