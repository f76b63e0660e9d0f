/** Bringing one file's rows in line with disk: the step the watcher and the reconciler repeat. */
module Update {
  import opened Wrappers
  import opened Schema
  import opened Incremental
  import opened Vectors
  import opened Stores
  import opened Embedding
  import opened Effects
  import Decimal

  datatype Outcome = Reindexed(namesResolved: nat) | Removed | SkippedUnchanged | SkippedUnsupported | Failed

  function FailedCount(meta: map<string, string>): nat {
    if "last_index_failed" !in meta then 0
    else match Decimal.ParseU64(meta["last_index_failed"]) case Some(n) => n case None => 0
  }

  method RemoveAndReresolve(store: Store, path: string)
    requires store.Valid()
    modifies store
    ensures store.Valid() && store.meta == old(store.meta)
    ensures store.G() == ResolveNames(DeleteFile(old(store.G()), path), NamesIn(old(store.G()), path))
    ensures store.V() == DropPath(old(store.G()), old(store.V()), path, store.vecAvailable)
  {
    hide Schema.Valid, ChunksValid, DeleteFile, NamesIn, ResolveNames, SymbolNames, DropPath;
    var oldNames := SymbolNames(Graph(store.files, store.symbols, store.edges), path);
    assert NameSet(oldNames) == NamesIn(store.G(), path);
    var existed := store.RemoveFile(path);
    var total := store.ResolveEdgesForNames(oldNames);
  }

  /** What the outcome of an update says about the event. */
  ghost predicate Reported(g: Graph, ev: Event, r: Result<Outcome, Error>) {
    match ev.content
    case Missing => r == Ok(Removed)
    case Unsupported => r == Ok(SkippedUnsupported)
    case Unreadable => r == Ok(Failed)
    case Source(_, hash, parsed) =>
      if FileHash(g, ev.path) == Some(hash) then r == Ok(SkippedUnchanged)
      else if parsed.None? then r == Ok(Failed)
      else if !WellFormed(parsed.value) then r == Err(BadIndex)
      else r.Ok? ==> r.value.Reindexed?
  }

  /** The chunk and vector tables after an update, before anything is embedded. */
  function StepShelf(g: Graph, v: Shelf, ev: Event, vecAvailable: bool, blake3: string -> nat): Shelf {
    if Replaces(g, ev) then ReplaceShelf(g, v, ev.path, ev.content.parsed.value.chunks, vecAvailable, blake3)
    else if Removes(g, ev) then DropPath(g, v, ev.path, vecAvailable)
    else v
  }

  /** Updates write no other meta keys than the two counters. */
  ghost predicate OnlyCountersMove(before: map<string, string>, after: map<string, string>) {
    after - {"index_generation", "last_index_failed"} == before - {"index_generation", "last_index_failed"}
  }

  lemma BumpMovesCounter(meta: map<string, string>)
    ensures OnlyCountersMove(meta, BumpedMeta(meta))
  {
    hide GenerationIn, Decimal.Print;
  }

  lemma FailureCounts(meta: map<string, string>)
    ensures var after := meta["last_index_failed" := Decimal.Print(FailedCount(meta) + 1)];
            && OnlyCountersMove(meta, after)
            && (FailedCount(meta) + 1 < Decimal.U64_LIMIT ==> FailedCount(after) == FailedCount(meta) + 1)
  {
    Decimal.ParsePrinted(FailedCount(meta) + 1);
  }

  method IncrementLastIndexFailed(store: Store)
    modifies store`meta
    ensures store.meta == old(store.meta)["last_index_failed" := Decimal.Print(FailedCount(old(store.meta)) + 1)]
    ensures OnlyCountersMove(old(store.meta), store.meta)
    ensures FailedCount(old(store.meta)) + 1 < Decimal.U64_LIMIT ==>
              FailedCount(store.meta) == FailedCount(old(store.meta)) + 1
  {
    hide FailedCount, OnlyCountersMove, Decimal.Print;
    FailureCounts(store.meta);
    store.SetMeta("last_index_failed", Decimal.Print(FailedCount(store.meta) + 1));
  }

  /** `n` adds up, over the names touched, the edges each name's pass resolved. */
  ghost predicate ResolvedCount(g: Graph, ev: Event, n: nat) {
    exists names :: CountedOver(g, ev, names, n)
  }

  ghost predicate CountedOver(g: Graph, ev: Event, names: seq<string>, n: nat) {
    && (forall i, j :: 0 <= i < j < |names| ==> names[i] != names[j]) && NameSet(names) == Touched(g, ev)
    && n == TotalHits(Rewritten(g, ev).symbols, Rewritten(g, ev).edges, names)
  }

  lemma ReplaceStep(g: Graph, ev: Event, names: seq<string>)
    requires Replaces(g, ev)
    requires forall n :: n in names <==> n in NamesIn(g, ev.path) + BatchNames(ev.content.parsed.value)
    ensures Step(g, ev) ==
            ResolveNames(InsertFile(DeleteFile(g, ev.path), ev.path, ev.content.lang, ev.content.hash,
                                    ev.content.parsed.value),
                         NameSet(names))
    ensures NameSet(names) == Touched(g, ev)
    ensures Rewritten(g, ev) == InsertFile(DeleteFile(g, ev.path), ev.path, ev.content.lang, ev.content.hash,
                                           ev.content.parsed.value)
  {
    hide ResolveNames, InsertFile, DeleteFile, NamesIn;
    assert NameSet(names) == Touched(g, ev);
  }

  /** The tables between the writing of a file and the resolve pass over the names it touched. */
  ghost predicate PassedFrom(mid: Graph, after: Graph, names: seq<string>) {
    && after.files == mid.files && after.symbols == mid.symbols
    && PassedOverNames(mid.symbols, mid.edges, after.edges, names)
  }

  lemma StepPasses(g: Graph, ev: Event, names: seq<string>)
    requires Schema.Valid(g) && NameSet(names) == Touched(g, ev) && (Replaces(g, ev) || Removes(g, ev))
    ensures PassedFrom(Rewritten(g, ev), Step(g, ev), names)
  {
    hide ResolveEdge, Retargeted;
    if Replaces(g, ev) { DeleteIsValid(g, ev.path); }
    RewrittenIsValid(g, ev);
    NamesRetarget(Rewritten(g, ev), names);
  }

  lemma RewrittenIsValid(g: Graph, ev: Event)
    requires Schema.Valid(g)
    ensures Schema.Valid(Rewritten(g, ev))
  {
    hide Schema.Valid, DeleteFile, InsertFile, FileHash, WellFormed;
    DeleteIsValid(g, ev.path);
    if Replaces(g, ev) {
      InsertIsValid(DeleteFile(g, ev.path), ev.path, ev.content.lang, ev.content.hash, ev.content.parsed.value);
    }
  }

  /** A replacing update writes the file as it was parsed, then resolves its old and new names; nothing else moves. */
  lemma ReplacingStep(g: Graph, v: Shelf, ev: Event, vecAvailable: bool, blake3: string -> nat, names: seq<string>)
    requires Schema.Valid(g) && ChunkIdsAscend(v.chunks) && Replaces(g, ev)
    requires forall n :: n in names <==> NamedThere(g, ev.path, ev.content.parsed.value, n)
    ensures exists mid ::
              && FileReplaced(g, v, mid, StepShelf(g, v, ev, vecAvailable, blake3), ev.path, ev.content.lang,
                              ev.content.hash, ev.content.parsed.value, vecAvailable, blake3)
              && PassedFrom(mid, Step(g, ev), names)
  {
    var idx := ev.content.parsed.value;
    forall n ensures n in NameSet(names) <==> n in Touched(g, ev) { NamesAre(g, ev.path, idx, n); }
    hide Schema.Valid, InsertFile, DeleteFile, ReplaceShelf, FileReplaced, PassedFrom, NamedThere, NamesIn, FileHash,
         Step;
    ReplacementEffect(g, v, ev.path, ev.content.lang, ev.content.hash, idx, vecAvailable, blake3);
    ReplaceStepShelf(g, v, ev, vecAvailable, blake3);
    assert NameSet(names) == Touched(g, ev);
    StepPasses(g, ev, names);
  }

  /** A removing update takes exactly the file's rows away, then resolves its old names. */
  lemma RemovingStep(g: Graph, v: Shelf, ev: Event, vecAvailable: bool, blake3: string -> nat, names: seq<string>)
    requires Schema.Valid(g) && ChunkIdsAscend(v.chunks) && Removes(g, ev)
    requires forall n :: n in names <==> NamedThere(g, ev.path, FileIndex([], [], []), n)
    ensures ChunksGone(g.files, v, StepShelf(g, v, ev, vecAvailable, blake3), ev.path, vecAvailable)
    ensures exists mid :: FileGone(g, mid, ev.path) && PassedFrom(mid, Step(g, ev), names)
  {
    forall n ensures n in NameSet(names) <==> n in Touched(g, ev) { NamesAre(g, ev.path, FileIndex([], [], []), n); }
    hide Schema.Valid, DeleteFile, DropPath, FileGone, ChunksGone, PassedFrom, NamedThere, NamesIn, FileHash, Step;
    DeletionEffect(g, ev.path);
    DropEffect(g, v, ev.path, vecAvailable);
    assert NameSet(names) == Touched(g, ev);
    StepPasses(g, ev, names);
  }

  lemma ReplaceStepShelf(g: Graph, v: Shelf, ev: Event, vecAvailable: bool, blake3: string -> nat)
    requires Replaces(g, ev)
    ensures StepShelf(g, v, ev, vecAvailable, blake3) ==
            ReplaceShelf(g, v, ev.path, ev.content.parsed.value.chunks, vecAvailable, blake3)
  {
    hide ReplaceShelf;
  }

  lemma NothingFlagged(chunks: seq<ChunkRow>)
    ensures FlaggedFrom(chunks, chunks)
  {
    FlagNothing(chunks);
  }

  /** There is no embedder, or one that answers. */
  ghost predicate Willing(embedder: Option<Embedder>) { embedder.Some? ==> Answers(embedder.value) }

  /** With an embedder and a vector table to fill, no chunk is left without a vector. */
  ghost predicate Drained(v: Shelf, embedder: Option<Embedder>, vecAvailable: bool) {
    embedder.Some? && vecAvailable ==> Backlog(v, true) == 0
  }

  /** The vector that an embedder gives a text on its own. */
  function Alone(embed: Embedder): string -> Vector {
    (t: string) => var r := embed([t]); if r.Ok? && r.value != [] then r.value[0] else []
  }

  /**
   Embeds when there is an embedder; only flags and vectors move. Success leaves no backlog, an embedder that
   answers succeeds, and a deterministic one gives every chunk that lacked a vector the vector of its own content.
   */
  method EmbedIfPossible(store: Store, embedder: Option<Embedder>) returns (r: Result<(), Error>)
    requires store.Valid()
    modifies store`chunks, store`vecTable, store`vecTableCached
    ensures store.Valid()
    ensures Willing(embedder) ==> r.Ok?
    ensures r.Ok? ==> Drained(store.V(), embedder, store.vecAvailable)
    ensures embedder.Some? && store.vecAvailable && Deterministic(embedder.value, Alone(embedder.value))
            && Injective(store.blake3) ==>
              Progress(old(store.V()), store.vecTable, MissingIds(old(store.chunks)), Alone(embedder.value))
    ensures FlaggedFrom(old(store.chunks), store.chunks)
    ensures embedder.None? ==> store.V() == old(store.V())
    ensures store.vecAvailable && FlagsMatch(old(store.V())) ==> FlagsMatch(store.V())
  {
    hide FlaggedFrom, FlagsMatch, Progress, Deterministic, Injective, MissingRows, Hashes, MissingIds, Backlog,
         Answers, Alone;
    NothingFlagged(store.chunks);
    if embedder.None? { return Ok(()); }
    var done, _, _ := EmbedPending(store, embedder.value, Alone(embedder.value));
    r := if done.Ok? then Ok(()) else Err(done.error);
  }

  method ReplaceAndReresolve(store: Store, embedder: Option<Embedder>, ev: Event) returns (r: Result<Outcome, Error>)
    requires store.Valid() && ev.content.Source? && ev.content.parsed.Some?
    requires FileHash(store.G(), ev.path) != Some(ev.content.hash)
    modifies store
    ensures store.Valid() && store.G() == Step(old(store.G()), ev)
    ensures !WellFormed(ev.content.parsed.value) ==>
              r == Err(BadIndex) && store.V() == old(store.V()) && store.meta == old(store.meta)
    ensures WellFormed(ev.content.parsed.value) ==>
              && (if r.Ok? then r.value.Reindexed? else !Willing(embedder))
              && store.meta == (if r.Err? then old(store.meta) else BumpedMeta(old(store.meta)))
    ensures OnlyCountersMove(old(store.meta), store.meta)
    ensures r.Ok? && old(GenerationIn(store.meta)) + 1 < Decimal.U64_LIMIT ==>
              GenerationIn(store.meta) == old(GenerationIn(store.meta)) + 1
    ensures var v := StepShelf(old(store.G()), old(store.V()), ev, store.vecAvailable, store.blake3);
            FlaggedFrom(v.chunks, store.chunks) && (embedder.None? ==> store.V() == v)
    ensures r.Ok? ==> Drained(store.V(), embedder, store.vecAvailable)
    ensures r.Ok? ==> r.value.Reindexed? && ResolvedCount(old(store.G()), ev, r.value.namesResolved)
    ensures store.vecAvailable && FlagsMatch(old(store.V())) ==> FlagsMatch(store.V())
  {
    hide Willing, Drained, Deterministic, Injective, Progress, Alone, MissingIds, Touched, Rewritten;
    hide ChunkSymbolsHeld, FileReplaced, PassedOverNames, NamedThere, Decimal.Print, FileHash;
    hide Schema.Valid, ChunksValid, ResolveNames, DeleteFile, InsertFile, NamesIn, FlagsMatch, ReplaceShelf,
         GenerationIn, FlaggedFrom, Step, StepShelf, TotalHits, OnlyCountersMove, BatchNames;
    ghost var g, v := store.G(), store.V();
    BumpCounts(store.meta);
    BumpMovesCounter(store.meta);
    SameMeta(store.meta);
    var parsed := ev.content.parsed.value;
    var replaced := store.ReplaceFile(ev.path, ev.content.lang, ev.content.hash, parsed);
    NothingFlagged(store.chunks);
    if replaced.Err? {
      IdleStep(g, v, ev, store.vecAvailable, store.blake3);
      return Err(replaced.error);
    }
    ReplaceShelfMatches(g, v, ev.path, parsed.chunks, store.blake3);
    ReplaceStep(g, ev, replaced.value.1);
    ReplaceStepShelf(g, v, ev, store.vecAvailable, store.blake3);
    var resolved := store.ResolveEdgesForNames(replaced.value.1);
    assert CountedOver(g, ev, replaced.value.1, resolved);
    ghost var shelf := store.V();
    var embedded := EmbedIfPossible(store, embedder);
    if embedded.Err? { return Err(embedded.error); }
    store.BumpGeneration();
    return Ok(Reindexed(resolved));
  }

  lemma IdleStep(g: Graph, v: Shelf, ev: Event, vecAvailable: bool, blake3: string -> nat)
    requires !Replaces(g, ev) && !Removes(g, ev)
    ensures Step(g, ev) == g && StepShelf(g, v, ev, vecAvailable, blake3) == v
  {
  }

  /** Removing a file, indexed or not, is the step of a vanished path. */
  lemma RemoveStep(g: Graph, v: Shelf, ev: Event, vecAvailable: bool, blake3: string -> nat)
    requires ev.content.Missing? || (ev.content.Unsupported? && FileHash(g, ev.path).Some?)
    ensures Step(g, ev) == ResolveNames(DeleteFile(g, ev.path), NamesIn(g, ev.path))
    ensures StepShelf(g, v, ev, vecAvailable, blake3) == DropPath(g, v, ev.path, vecAvailable)
  {
    hide ResolveEdge;
  }

  /** One update is one step of the graph, whatever becomes of the embeddings. */
  method UpdateFile(store: Store, embedder: Option<Embedder>, ev: Event) returns (r: Result<Outcome, Error>)
    requires store.Valid()
    modifies store
    ensures store.Valid() && store.G() == Step(old(store.G()), ev)
    ensures Reported(old(store.G()), ev, r)
    ensures r.Err? && WellFormedSource(ev) ==> !Willing(embedder)
    ensures r.Ok? && r.value.Reindexed? ==> ResolvedCount(old(store.G()), ev, r.value.namesResolved)
    ensures r.Ok? && r.value.Reindexed? ==> Drained(store.V(), embedder, store.vecAvailable)
    ensures var v := StepShelf(old(store.G()), old(store.V()), ev, store.vecAvailable, store.blake3);
            FlaggedFrom(v.chunks, store.chunks) && (embedder.None? ==> store.V() == v)
    ensures store.vecAvailable && FlagsMatch(old(store.V())) ==> FlagsMatch(store.V())
    ensures OnlyCountersMove(old(store.meta), store.meta) && MetaSays(old(store.meta), store.meta, r)
    ensures r.Ok? && r.value.Reindexed? && old(GenerationIn(store.meta)) + 1 < Decimal.U64_LIMIT ==>
              GenerationIn(store.meta) == old(GenerationIn(store.meta)) + 1
    ensures r.Ok? && r.value.Failed? && FailedCount(old(store.meta)) + 1 < Decimal.U64_LIMIT ==>
              FailedCount(store.meta) == FailedCount(old(store.meta)) + 1
  {
    hide Willing, Drained, ResolvedCount, ChunkSymbolsHeld, Decimal.Print, FileByPath, WellFormed;
    hide Schema.Valid, ChunksValid, ResolveNames, DeleteFile, NamesIn, FlagsMatch, DropPath, ReplaceShelf, FlaggedFrom,
         Step, StepShelf, GenerationIn, FailedCount, OnlyCountersMove, BumpedMeta;
    ghost var g, v := store.G(), store.V();
    NothingFlagged(StepShelf(g, v, ev, store.vecAvailable, store.blake3).chunks);
    assert OnlyCountersMove(store.meta, store.meta) by { SameMeta(store.meta); }
    match ev.content
    case Missing =>
      RemoveAndReresolve(store, ev.path);
      DropPathMatches(g, v, ev.path);
      RemoveStep(g, v, ev, store.vecAvailable, store.blake3);
      return Ok(Removed);
    case Unsupported =>
      if FileHash(Graph(store.files, store.symbols, store.edges), ev.path).Some? {
        RemoveAndReresolve(store, ev.path);
        DropPathMatches(g, v, ev.path);
        RemoveStep(g, v, ev, store.vecAvailable, store.blake3);
      } else {
        IdleStep(g, v, ev, store.vecAvailable, store.blake3);
      }
      return Ok(SkippedUnsupported);
    case Unreadable =>
      IdleStep(g, v, ev, store.vecAvailable, store.blake3);
      IncrementLastIndexFailed(store);
      return Ok(Failed);
    case Source(lang, hash, parsed) =>
      if FileHash(Graph(store.files, store.symbols, store.edges), ev.path) == Some(hash) {
        IdleStep(g, v, ev, store.vecAvailable, store.blake3);
        return Ok(SkippedUnchanged);
      }
      if parsed.None? {
        IdleStep(g, v, ev, store.vecAvailable, store.blake3);
        IncrementLastIndexFailed(store);
        return Ok(Failed);
      }
      r := ReplaceAndReresolve(store, embedder, ev);
  }

  /** Meta moves only with a replaced file, by its generation, and with a failed one, by the failure count. */
  ghost predicate MetaSays(before: map<string, string>, after: map<string, string>, r: Result<Outcome, Error>) {
    if r.Ok? && r.value.Reindexed? then after == BumpedMeta(before)
    else if r.Ok? && r.value.Failed? then
      after == before["last_index_failed" := Decimal.Print(FailedCount(before) + 1)]
    else after == before
  }

  lemma SameMeta(meta: map<string, string>)
    ensures OnlyCountersMove(meta, meta)
  {
  }

  predicate WellFormedSource(ev: Event) {
    ev.content.Source? && ev.content.parsed.Some? ==> WellFormed(ev.content.parsed.value)
  }

  lemma DropPathMatches(g: Graph, v: Shelf, path: string)
    ensures FlagsMatch(v) ==> FlagsMatch(DropPath(g, v, path, true))
  {
    hide FlagsMatch;
    var f := FileByPath(g.files, path);
    if FlagsMatch(v) && f.Some? { DropFileMatches(v, f.value.id); }
  }

  lemma ReplaceShelfMatches(g: Graph, v: Shelf, path: string, chunks: seq<NewChunk>, blake3: string -> nat)
    ensures FlagsMatch(v) ==> FlagsMatch(ReplaceShelf(g, v, path, chunks, true, blake3))
  {
    hide FlagsMatch;
    DropPathMatches(g, v, path);
    var left := DeleteFile(g, path);
    if FlagsMatch(v) {
      AddChunksMatches(DropPath(g, v, path, true), chunks, NextFileId(left.files), NextSymbolId(left.symbols), blake3);
    }
  }

  /** Removing a file that is not indexed changes nothing. */
  lemma NothingToRemove(g: Graph, path: string)
    ensures FileHash(g, path).None? ==> ResolveNames(DeleteFile(g, path), NamesIn(g, path)) == g
    ensures FileHash(g, path).None? ==> forall v, vec :: DropPath(g, v, path, vec) == v
  {
    hide ResolveEdge;
  }
}
