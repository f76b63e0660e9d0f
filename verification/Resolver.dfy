/** The three-tier chooser that turns the name on an edge into a symbol. */
module Resolver {
  import opened Wrappers
  import opened Sequences
  import opened Schema
  import Names

  const AMBIGUOUS_CANDIDATE_LIMIT := 5

  /** What the chooser reads of an edge. */
  datatype Call = Call(srcFile: nat, dstName: string, dstArity: Option<nat>)
  datatype Choice = Choice(dstId: Option<nat>, confidence: Confidence)

  const Unresolved := Choice(None, NameOnly)

  function Named(symbols: seq<SymbolRow>, name: string): seq<SymbolRow> {
    Keep(symbols, (s: SymbolRow) => s.name == name)
  }

  /** Candidates in query order: the caller's file first, then by id. */
  function CallerFirst(named: seq<SymbolRow>, srcFile: nat): seq<SymbolRow> {
    InFile(named, srcFile) + OutsideFile(named, srcFile)
  }

  function Candidates(symbols: seq<SymbolRow>, call: Call): seq<SymbolRow> {
    CallerFirst(Named(symbols, Names.LastSegment(call.dstName)), call.srcFile)
  }

  function ByQualname(cands: seq<SymbolRow>, call: Call): Option<SymbolRow> {
    First(cands, (c: SymbolRow) => c.qualname == call.dstName)
  }

  function ByArity(cands: seq<SymbolRow>, call: Call): Option<SymbolRow> {
    if call.dstArity.None? then None
    else
      var matching := Keep(cands, (c: SymbolRow) => c.arity == call.dstArity);
      match First(matching, (c: SymbolRow) => c.fileId == call.srcFile)
      case Some(c) => Some(c)
      case None => if 0 < |matching| <= AMBIGUOUS_CANDIDATE_LIMIT then Some(matching[0]) else None
  }

  function ByName(cands: seq<SymbolRow>, call: Call): Option<SymbolRow> {
    match First(cands, (c: SymbolRow) => c.fileId == call.srcFile)
    case Some(c) => Some(c)
    case None => if |cands| == 1 then Some(cands[0]) else None
  }

  function Pick(cands: seq<SymbolRow>, call: Call): Choice {
    match ByQualname(cands, call)
    case Some(c) => Choice(Some(c.id), Exact)
    case None =>
      match ByArity(cands, call)
      case Some(c) => Choice(Some(c.id), NameArity)
      case None =>
        match ByName(cands, call)
        case Some(c) => Choice(Some(c.id), NameOnly)
        case None => Unresolved
  }

  /** What a full resolve would write on an edge. */
  function Choose(symbols: seq<SymbolRow>, call: Call): Choice {
    Pick(Candidates(symbols, call), call)
  }

  // ---- what the choice means ----

  /** Which symbols a tier considers. */
  predicate Fits(s: SymbolRow, call: Call, tier: Confidence) {
    && s.name == Names.LastSegment(call.dstName)
    && (tier == Exact ==> s.qualname == call.dstName)
    && (tier == NameArity ==> call.dstArity.Some? && s.arity == call.dstArity)
  }

  function Crowd(symbols: seq<SymbolRow>, call: Call, tier: Confidence): nat {
    |Keep(symbols, (s: SymbolRow) => Fits(s, call, tier))|
  }

  /** The caller's own file wins, then the older symbol. */
  predicate Precedes(a: SymbolRow, b: SymbolRow, srcFile: nat) {
    if a.fileId == srcFile then b.fileId == srcFile ==> a.id < b.id
    else b.fileId != srcFile && a.id < b.id
  }

  /** A tier answers with its first symbol, unless that is a guess out of a crowd in other files. */
  ghost predicate Offers(symbols: seq<SymbolRow>, call: Call, tier: Confidence, s: SymbolRow) {
    && s in symbols && Fits(s, call, tier)
    && (forall x :: x in symbols && Fits(x, call, tier) && x != s ==> Precedes(s, x, call.srcFile))
    && (s.fileId != call.srcFile ==>
          && (tier == NameArity ==> Crowd(symbols, call, NameArity) <= 5)
          && (tier == NameOnly ==> Crowd(symbols, call, NameOnly) == 1))
  }

  ghost predicate Silent(symbols: seq<SymbolRow>, call: Call, tier: Confidence) {
    forall s :: s in symbols ==> !Offers(symbols, call, tier, s)
  }

  lemma CandidatesAreNamed(symbols: seq<SymbolRow>, call: Call)
    ensures forall s :: s in Candidates(symbols, call) <==> s in symbols && s.name == Names.LastSegment(call.dstName)
  {
  }

  lemma CandidateOrder(symbols: seq<SymbolRow>, call: Call)
    requires SymbolIdsAscend(symbols)
    ensures var cands := Candidates(symbols, call);
            forall i, j :: 0 <= i < j < |cands| ==> Precedes(cands[i], cands[j], call.srcFile)
  {
    var older := (a: SymbolRow, b: SymbolRow) => a.id < b.id;
    var named := Named(symbols, Names.LastSegment(call.dstName));
    KeepOrder(symbols, (s: SymbolRow) => s.name == Names.LastSegment(call.dstName), older);
    KeepOrder(named, (s: SymbolRow) => s.fileId == call.srcFile, older);
    KeepOrder(named, (s: SymbolRow) => s.fileId != call.srcFile, older);
    var own, others := InFile(named, call.srcFile), OutsideFile(named, call.srcFile);
    forall i | 0 <= i < |own| ensures own[i].fileId == call.srcFile { assert own[i] in own; }
    forall i | 0 <= i < |others| ensures others[i].fileId != call.srcFile { assert others[i] in others; }
  }

  lemma {:induction false} CallerFirstSize(named: seq<SymbolRow>, srcFile: nat, p: SymbolRow -> bool)
    ensures |Keep(InFile(named, srcFile), p)| + |Keep(OutsideFile(named, srcFile), p)| == |Keep(named, p)|
  {
    if named != [] {
      var init, last := named[..|named| - 1], named[|named| - 1];
      assert named == init + [last];
      CallerFirstSize(init, srcFile, p);
      KeepLast(init, last, p);
      KeepLast(init, last, (s: SymbolRow) => s.fileId == srcFile);
      KeepLast(init, last, (s: SymbolRow) => s.fileId != srcFile);
      if last.fileId == srcFile {
        KeepLast(InFile(init, srcFile), last, p);
      } else {
        KeepLast(OutsideFile(init, srcFile), last, p);
      }
    }
  }

  /** Counting among the candidates is counting in the whole table. */
  lemma CrowdAmongCandidates(symbols: seq<SymbolRow>, call: Call, tier: Confidence)
    ensures |Keep(Candidates(symbols, call), (s: SymbolRow) => Fits(s, call, tier))| == Crowd(symbols, call, tier)
  {
    var last := Names.LastSegment(call.dstName);
    var fits := (s: SymbolRow) => Fits(s, call, tier);
    var named := Named(symbols, last);
    CallerFirstSize(named, call.srcFile, fits);
    KeepConcat(InFile(named, call.srcFile), OutsideFile(named, call.srcFile), fits);
    KeepTwice(symbols, (s: SymbolRow) => s.name == last, fits, fits);
  }

  /** The first candidate to satisfy a test precedes every other that does. */
  lemma FirstPrecedes(symbols: seq<SymbolRow>, call: Call, p: SymbolRow -> bool)
    requires SymbolIdsAscend(symbols)
    ensures var r := First(Candidates(symbols, call), p);
            r.Some? ==> forall x :: x in Candidates(symbols, call) && p(x) && x != r.value ==>
              Precedes(r.value, x, call.srcFile)
  {
    CandidateOrder(symbols, call);
    if First(Candidates(symbols, call), p).Some? {
      var i := FirstIndex(Candidates(symbols, call), p);
    }
  }

  lemma QualnameTier(symbols: seq<SymbolRow>, call: Call)
    requires SymbolIdsAscend(symbols)
    ensures match ByQualname(Candidates(symbols, call), call)
            case Some(c) => Offers(symbols, call, Exact, c)
            case None => Silent(symbols, call, Exact)
  {
    CandidatesAreNamed(symbols, call);
    FirstPrecedes(symbols, call, (c: SymbolRow) => c.qualname == call.dstName);
  }

  lemma NameTier(symbols: seq<SymbolRow>, call: Call)
    requires SymbolIdsAscend(symbols)
    ensures match ByName(Candidates(symbols, call), call)
            case Some(c) => Offers(symbols, call, NameOnly, c)
            case None => Silent(symbols, call, NameOnly)
  {
    hide Keep, Candidates, Crowd, First;
    var cands := Candidates(symbols, call);
    CandidatesAreNamed(symbols, call);
    CrowdAmongCandidates(symbols, call, NameOnly);
    KeepAll(cands, (s: SymbolRow) => Fits(s, call, NameOnly));
    FirstPrecedes(symbols, call, (c: SymbolRow) => c.fileId == call.srcFile);
  }

  lemma ArityMatches(symbols: seq<SymbolRow>, call: Call, matching: seq<SymbolRow>)
    requires SymbolIdsAscend(symbols) && call.dstArity.Some?
    requires matching == Keep(Candidates(symbols, call), (c: SymbolRow) => c.arity == call.dstArity)
    ensures forall s :: s in matching <==> s in symbols && Fits(s, call, NameArity)
    ensures |matching| == Crowd(symbols, call, NameArity)
    ensures forall i, j :: 0 <= i < j < |matching| ==> Precedes(matching[i], matching[j], call.srcFile)
  {
    var cands := Candidates(symbols, call);
    CandidatesAreNamed(symbols, call);
    CandidateOrder(symbols, call);
    KeepOrder(cands, (c: SymbolRow) => c.arity == call.dstArity,
              (a: SymbolRow, b: SymbolRow) => Precedes(a, b, call.srcFile));
    CrowdAmongCandidates(symbols, call, NameArity);
    KeepAgree(cands, (c: SymbolRow) => c.arity == call.dstArity, (s: SymbolRow) => Fits(s, call, NameArity));
  }

  lemma ArityTier(symbols: seq<SymbolRow>, call: Call)
    requires SymbolIdsAscend(symbols)
    ensures match ByArity(Candidates(symbols, call), call)
            case Some(c) => Offers(symbols, call, NameArity, c)
            case None => Silent(symbols, call, NameArity)
  {
    hide Keep, First, Candidates, Crowd;
    if call.dstArity.Some? {
      var matching := Keep(Candidates(symbols, call), (c: SymbolRow) => c.arity == call.dstArity);
      ArityMatches(symbols, call, matching);
      if First(matching, (c: SymbolRow) => c.fileId == call.srcFile).Some? {
        var i := FirstIndex(matching, (c: SymbolRow) => c.fileId == call.srcFile);
      }
      if matching != [] {
        assert matching[0] in matching;
        assert forall x :: x in matching && x != matching[0] ==> Precedes(matching[0], x, call.srcFile);
      }
    }
  }

  lemma OnlyOffer(symbols: seq<SymbolRow>, call: Call, tier: Confidence, s: SymbolRow)
    requires Offers(symbols, call, tier, s)
    ensures forall t :: Offers(symbols, call, tier, t) ==> t == s
    ensures !Silent(symbols, call, tier)
  {
  }

  /** The chooser takes the offer of the strongest tier that makes one, and is silent when none does. */
  lemma ChooseIsStrongestOffer(symbols: seq<SymbolRow>, call: Call)
    requires SymbolIdsAscend(symbols)
    ensures forall s :: Offers(symbols, call, Exact, s) ==> Choose(symbols, call) == Choice(Some(s.id), Exact)
    ensures Silent(symbols, call, Exact) ==>
              forall s :: Offers(symbols, call, NameArity, s) ==> Choose(symbols, call) == Choice(Some(s.id), NameArity)
    ensures Silent(symbols, call, Exact) && Silent(symbols, call, NameArity) ==>
              forall s :: Offers(symbols, call, NameOnly, s) ==> Choose(symbols, call) == Choice(Some(s.id), NameOnly)
    ensures Choose(symbols, call).dstId.None? <==> forall tier :: Silent(symbols, call, tier)
    ensures Choose(symbols, call).dstId.None? ==> Choose(symbols, call) == Unresolved
  {
    QualnameTier(symbols, call);
    ArityTier(symbols, call);
    NameTier(symbols, call);
    var cands := Candidates(symbols, call);
    var a, b, c := ByQualname(cands, call), ByArity(cands, call), ByName(cands, call);
    if a.Some? { OnlyOffer(symbols, call, Exact, a.value); }
    if b.Some? { OnlyOffer(symbols, call, NameArity, b.value); }
    if c.Some? { OnlyOffer(symbols, call, NameOnly, c.value); }
  }

  /** An unresolved name that some symbol bears is borne by at least two, none in the caller's file. */
  lemma UnresolvedIsAmbiguous(symbols: seq<SymbolRow>, call: Call, s: SymbolRow)
    requires SymbolIdsAscend(symbols)
    requires s in symbols && Names.Plain(s.name) && Names.SuffixMatch(call.dstName, s.name)
    requires Choose(symbols, call).dstId.None?
    ensures Crowd(symbols, call, NameOnly) >= 2
    ensures forall x :: x in symbols && x.name == s.name ==> x.fileId != call.srcFile
  {
    Names.MatchIsLastSegment(call.dstName, s.name);
    CandidatesAreNamed(symbols, call);
    var cands := Candidates(symbols, call);
    CrowdAmongCandidates(symbols, call, NameOnly);
    KeepAll(cands, (x: SymbolRow) => Fits(x, call, NameOnly));
    NothingByName(cands, call);
  }

  lemma NothingByName(cands: seq<SymbolRow>, call: Call)
    requires Pick(cands, call).dstId.None?
    ensures |cands| != 1 && forall c :: c in cands ==> c.fileId != call.srcFile
  {
  }
}
