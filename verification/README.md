# Vexus: a verified model

Vexus keeps a code index (files, symbols, call edges, chunks and their vectors) in step with a changing repository,
and updates it one file at a time. Most of what it promises is that a cheap form agrees with an expensive one: an
incremental update with a full resolve, a node-deduplicated query with all call paths, shared vectors with one
embedding per chunk, a cached answer with the database. This project models those parts in Dafny and proves what they
promise, over every input, every run and every interleaving.

`dafny verify dfyconfig.toml` checks everything.

## How it is organised

| files | what they model |
|---|---|
| `Wrappers`, `Sequences`, `Sorting`, `Decimal`, `Text` | shared vocabulary: options, filters, stable sorting, decimal text, lines |
| `Names`, `Schema`, `Resolver` | qualified names, the index tables with their cascades, the three-tier chooser |
| `Incremental`, `IncrementalResults` | one update as a step on the tables; what any run leaves compared with resolving everything again |
| `Vectors`, `Effects`, `Store`, `VectorRuns` | chunk rows, vectors and flags; what each change does to the tables row by row; the mutable `Store` class; every run of its operations |
| `Embedding`, `Update`, `Reconcile`, `FullIndex` | draining the backlog, one file update, the reconcile pass, a full index |
| `Coherence` | one writer and many reader processes, their caches and the generation counter, as interleaved steps |
| `Recursion`, `CallGraph`, `CallAnswers` | recursive queries with UNION, caller and callee walks, the answers built on them |
| `ChunkOwners`, `ChunkDocs`, `ChunkClaims`, `ChunkSplit`, `ChunkContainer`, `ChunkPacking`, `ChunkPreamble`, `Chunker` | the chunker, pass by pass, and the guarantee for all passes together |
| `Calendar`, `Bundle`, `Metrics`, `Debounce`, `ReleaseCache` | timestamps, bundle packing, nDCG, the debouncer, the update cache |
| `Fusion`, `TinyFragments` | rank fusion with its penalties; exactly when the softest of them gives way to rank |

Tables are sequences of rows with ascending ids; a new row gets the id after the largest one in use, so the id of a
deleted last row comes back, as it does in SQLite. Methods that change the store are proved against functions on those
tables, the run theorems are about the functions, and `Effects` says of the functions, in terms of the rows before and
after alone, what they do. Hashes are numbers, assumed free of collisions only where a
contract says so (`Injective`). Disk is a map from paths to what a read of the path yields. Scores, discounts and
distances are real numbers. `char::is_alphanumeric` is a parameter of which only "no white space" is assumed.

## Where the code and its comments differ

The model follows the code.

- After an update, the replaced file's own calls to names that the file neither defined nor defines stay unresolved
  until such a name is touched (`crates/vexus-core/src/store.rs:587-590`, `crates/vexus-watch/src/update.rs:122-123`). So
  an update is not a full resolve. `ReplaceMeetsFullResolve` gives the exact condition, `UpdateCanMissFullResolve` an
  instance, and `EdgesAfterRun` what holds after any run.
- `reconcile` says that a newly ignored file is removed; one that is still on disk is found unchanged and kept
  (`crates/vexus-watch/src/reconcile.rs:127-137`). `IgnoredFileIsKept` is that case; `PassSyncs` and `ReconcileAll`
  state the rule: every listed or indexed path ends with the row its disk content calls for.
- A full index keeps the rows of a listed file that became unsupported, an update removes them
  (`crates/vexus-watch/src/pipeline.rs:175-178`, `crates/vexus-watch/src/update.rs:88-96`). `UnsupportedKeepsItsRow` states both.
- A flush that finds only blank lines does not clear the buffer, but does move the range
  (`crates/vexus-index/src/chunk.rs:424-427`, `442-446`). `SplitsInto` allows for it, and `SplitConserves` and
  `SplitKeepsLine` hold all the same.
- `put_embeddings` can create the vector table without announcing it (`crates/vexus-core/src/store.rs:291-293`).
  `UnbumpedTableMissed` shows a reader that misses it for any number of locks; `NoReaderStaysStale` is about tables that
  `set_model` creates, and `BumpThenLockCures` about all.
- Without the vector extension, deleting a file leaves its vectors in the table. `DropWithoutExtension` says exactly when
  flags and vectors still agree after that.
- nDCG divides by the ideal gain, so 1 should be the most; but hits are not deduplicated by name before they are graded
  (`crates/vexus-eval/src/corpus.rs:350`), and a repeated name gains twice. `BoundedIffNoRepeats` is the exact condition: a
  ranking scores at most 1 under every grading if and only if its first ten results repeat no name.

## Main results

1. Incremental resolution: `Incremental.EdgesAfterRun` and its readings in `IncrementalResults`; `FullIndex.IndexRepo`
   establishes the fully resolved graph from which they start, `Update.ReplacingStep` says what one step does to the rows.
2. Chunking: `Chunker.BuildChunks`, with `Text.LinesHave` and `Text.LinesStand` for the lines it starts from, and
   `ChunkSplit.SplitConserves`, `ChunkDocs.ClaimsAreAllowed`, `ChunkClaims.CoveredLineOwner`, `ChunkPreamble.Runs` and
   `ChunkPacking.ContainerKeepsLine` for its passes.
3. Call walks: `CallGraph.ReachIsPathEnumeration`, `CallGraph.ReachIsBounded`, `CallAnswers.EachPairOnce`,
   `CallAnswers.AnswerRows`.
4. Tables and vectors: `Stores.Store.ReplaceFile`, `Embedding.EmbedPending`, `VectorRuns.FlagsMatchInRun`,
   `VectorRuns.OwnVectorsInRun`.
5. Caches: `Coherence.StaleMeansBehind`, `Coherence.NoReaderStaysStale`.
6. Passes over a repository: `Reconcile.ReconcileAll`, `Reconcile.SecondPassIsIdle`, `FullIndex.IndexRepo`.
7. Algorithms: `Calendar.CivilNext` and `Calendar.TimestampRoundTrip`, `Bundle.Pack` and `Bundle.OmittedDoNotFit`,
   `Metrics.NdcgInUnitInterval` and `Metrics.BoundedIffNoRepeats`, `Fusion.PenaltyOutweighsRank` and
   `TinyFragments.TinyOutranksIff`, `Debounce.RunMatches`, `ReleaseCache.CacheRoundTrip`.

## Model

| member | source | states |
|---|---|---|
| `Names.RFindBelow` | crates/vexus-core/src/resolve.rs:19-30 | The index found is an occurrence of the separator, and no occurrence below the bound is later. |
| `Names.LastSegmentIsSelected` | crates/vexus-core/src/resolve.rs:19-48 | The suffix test always selects an edge by its own last segment, whatever the name looks like. |
| `Names.MatchIsLastSegment` | crates/vexus-core/src/resolve.rs:19-48 | For a name no separator splits, the suffix test holds exactly when the last segment is the name. |
| `Names.SuffixMatchExactForPlain` | crates/vexus-core/src/resolve.rs:19-48 | Suffix test and last segment agree on all edges if and only if the name is plain: nothing to cut, no leading colon. |
| `Names.SplitNameMismatch` | crates/vexus-core/src/resolve.rs:19-48 | For every name that is not plain, an edge on which the two tests differ. |
| `Names.FreeOfSeparators` | crates/vexus-core/src/resolve.rs:19-48 | Names free of `.`, `/`, `\` and `:` are plain. |
| `Names.LastSegmentMeans` | crates/vexus-core/src/resolve.rs:19-30 | The last segment begins where the last of the four separators ends, or is the whole name. |
| `Names.SuffixMatchMeans` | crates/vexus-core/src/resolve.rs:32-48 | The suffix test selects exactly what ends in the name with nothing or a separator in front of it. |
| `Resolver.CandidateOrder` | crates/vexus-core/src/resolve.rs:101-113 | Candidates come with the caller's file first, then by id. |
| `Resolver.CrowdAmongCandidates` | crates/vexus-core/src/resolve.rs:101-113 | Counting matches among the ordered candidates is counting them in the whole symbol table. |
| `Resolver.QualnameTier` | crates/vexus-core/src/resolve.rs:126-129 | The first tier answers with the one symbol that the declarative rule for qualified names offers, or stays silent when it offers none. |
| `Resolver.ArityTier` | crates/vexus-core/src/resolve.rs:130-147 | The second tier answers with the one symbol of that name and arity the rule offers (own file first, else out of at most five), or stays silent. |
| `Resolver.NameTier` | crates/vexus-core/src/resolve.rs:148-163 | The third tier answers with a symbol of the caller's file, else with a name unique in the repository, or stays silent. |
| `Resolver.ChooseIsStrongestOffer` | crates/vexus-core/src/resolve.rs:126-163 | The chooser takes the offer of the strongest tier that makes one, with that tier's confidence, and is unresolved exactly when no tier offers. |
| `Resolver.UnresolvedIsAmbiguous` | crates/vexus-core/src/resolve.rs:126-163 | An unresolved name that a plain-named symbol bears is borne by at least two symbols, none in the caller's file. |
| `Incremental.CascadeRows` | crates/vexus-core/src/schema.sql:29-37 | After the cascade every edge has its source, no target dangles, and each row is a row from before, perhaps without its target. |
| `Incremental.DeleteIsValid` | crates/vexus-core/src/store.rs:631-650 | Deleting a file keeps every key and reference of the tables intact and leaves no row under the path. |
| `Incremental.InsertIsValid` | crates/vexus-core/src/store.rs:555-592 | Inserting a well-formed batch behind the rows in use keeps every key and reference intact. |
| `Incremental.ResolvedTarget` | crates/vexus-core/src/resolve.rs:165-170 | A target written by the resolver is a live symbol whose name is the edge's last segment. |
| `Incremental.StepIsValid` | crates/vexus-watch/src/update.rs:77-131 | One update keeps every key and reference of the tables intact. |
| `Incremental.RunIsValid` | crates/vexus-watch/src/update.rs:77-131 | So does any run of updates. |
| `Incremental.SameNamedSameChoice` | crates/vexus-core/src/resolve.rs:99-163 | The choice for an edge depends only on the symbols that bear its last segment. |
| `Incremental.NamedAfterStep` | crates/vexus-core/src/store.rs:617-628 | Names outside the touched set keep their symbols, row for row. |
| `Incremental.TargetKept` | crates/vexus-core/src/schema.sql:35 | The cascade cuts only targets whose name is in the touched set. |
| `Incremental.StepTracked` | crates/vexus-watch/src/update.rs:77-131 | One update keeps every edge as its file's history says: its full-resolve row, or unresolved since the file was replaced. |
| `Incremental.EdgesAfterRun` | crates/vexus-watch/src/update.rs:65-131 | After any run from a fully resolved graph, each edge is exactly its full-resolve row, unless its file was replaced and no name touched since matches it: then it is unresolved. |
| `IncrementalResults.UnreplacedFilesResolved` | crates/vexus-watch/src/update.rs:77-131 | Edges of files the run did not replace always equal the full resolve. |
| `IncrementalResults.ResolvedEdgesAreRight` | crates/vexus-core/src/resolve.rs:74-180 | Any edge with a target has exactly the target a full resolve would give it now; none dangles. |
| `IncrementalResults.StaleEdgesAreWaiting` | crates/vexus-core/src/store.rs:587-592 | An edge that misses its full-resolve answer is unresolved, its file was replaced, and its last segment has not been touched since. |
| `IncrementalResults.UncoveredCall` | crates/vexus-core/src/store.rs:587-592 | A new call matched by no touched name is already right exactly when the other files offer it no target. |
| `IncrementalResults.ReplaceMeetsFullResolve` | crates/vexus-watch/src/update.rs:122-123 | One replacement of a fully resolved graph meets the full resolve if and only if every call of the file is matched by a touched name or has no target in the other files. |
| `IncrementalResults.UpdateCanMissFullResolve` | crates/vexus-watch/src/update.rs:122-123 | A concrete graph and update after which the graph is not fully resolved. |
| `Vectors.Upsert` | crates/vexus-core/src/store.rs:296-305 | Writing vector rows gives vectors to exactly the old ids and the written ones. |
| `Vectors.WipeMatches` | crates/vexus-core/src/store.rs:226-236 | A model change leaves no flag and no vector, with the extension or without. |
| `Vectors.DropFileMatches` | crates/vexus-core/src/store.rs:638-647 | Deleting a file's chunks and vectors keeps "flagged embedded" equal to "has a vector". |
| `Vectors.AddChunksMatches` | crates/vexus-core/src/store.rs:593-614 | New chunks take ids that no vector row uses, so none inherits an old vector. |
| `Vectors.PutMatches` | crates/vexus-core/src/store.rs:287-309 | Writing vectors keeps flags and vectors equal if and only if every written id is a live chunk. |
| `Effects.DeletionEffect` | crates/vexus-core/src/store.rs:631-650 | After a deletion exactly the rows of the file at the path are gone; every other file, symbol and edge row is there unchanged, in id order, except that an edge into a deleted symbol lost its target. |
| `Effects.DropEffect` | crates/vexus-core/src/store.rs:638-647 | Exactly that file's chunks are gone, the others unchanged and in order with their vectors; their vectors go with them exactly when the extension is there. |
| `Effects.InsertionEffect` | crates/vexus-core/src/store.rs:555-592 | Behind the rows in use stand the file row and, for each symbol and edge of the batch, a row with its fields, indices turned into row ids. |
| `Effects.ChunksEffect` | crates/vexus-core/src/store.rs:593-614 | So for chunks: lines, content, hash, token count, test flag and symbol row of each, unflagged; no vector moves. |
| `Effects.ReplacementEffect` | crates/vexus-core/src/store.rs:520-629 | A replacement is such a deletion followed by such an insertion. |
| `Effects.HeldAfterDropping` | crates/vexus-core/src/schema.sql:42-60 | A chunk's symbol is always one of its own file, so a deletion leaves no chunk whose symbol went. |
| `Effects.HeldAfterAdding` | crates/vexus-core/src/store.rs:593-614 | Inserting a batch keeps that. |
| `Effects.ResolvingRetargets` | crates/vexus-core/src/resolve.rs:165-176 | Resolving changes target and confidence of an edge, to the chooser's answer for its calling symbol, and no other column. |
| `Effects.PutEffect` | crates/vexus-core/src/store.rs:287-309 | Writing vectors flags exactly the written chunks and gives each written id its last vector. |
| `Stores.SymbolNames` | crates/vexus-core/src/store.rs:513-518 | Exactly the names the file defines, each once. |
| `Stores.InsertSymbols` | crates/vexus-core/src/store.rs:563-578 | Appends one row per symbol with the symbol's own fields and its parent's row id, or fails exactly when a parent does not precede its child. |
| `Stores.InsertEdges` | crates/vexus-core/src/store.rs:579-592 | Appends the batch's edges unresolved, or fails exactly when a source index is outside the batch. |
| `Stores.InsertChunks` | crates/vexus-core/src/store.rs:593-614 | Appends the batch's chunks unflagged with their content hashes, or fails exactly when a symbol index is outside the batch. |
| `Stores.ReplacedChunksValid` | crates/vexus-core/src/schema.sql:42-60 | After the deletion every remaining chunk still has its file and its content's hash. |
| `Stores.AddedChunksValid` | crates/vexus-core/src/store.rs:593-614 | After the insertion every chunk has a file and its content's hash, under ascending ids. |
| `Stores.HitsUnchanged` | crates/vexus-core/src/resolve.rs:55-66 | Passes already made do not change how many edges a later pass resolves. |
| `Stores.ResolveOneMore` | crates/vexus-core/src/resolve.rs:55-66 | One pass per name adds up to one pass over the edges that any of the names matches. |
| `Stores.OtherKeys` | crates/vexus-core/src/store.rs:463-468 | Writing or deleting another meta key leaves the generation alone. |
| `Stores.Store.constructor` | crates/vexus-core/src/store.rs:69-99 | A database of this schema version is taken over as it stands; a missing, unreadable or outdated one makes way for empty tables with the version recorded; either way nothing is cached. |
| `Stores.Store.SetMeta` | crates/vexus-core/src/store.rs:437-444 | One key is written, no other changes. |
| `Stores.Store.DeleteMeta` | crates/vexus-core/src/store.rs:452-456 | One key is removed, no other changes. |
| `Stores.Store.BumpGeneration` | crates/vexus-core/src/store.rs:475-478 | The generation read afterwards is one more than before, for as long as it fits 64 bits; an absent or unreadable counter counts as 0. |
| `Stores.Store.VecTableExists` | crates/vexus-core/src/store.rs:164-176 | The writer's cached answer is always the truth, and is filled by the call. |
| `Stores.Store.EnsureVecTable` | crates/vexus-core/src/store.rs:189-201 | Creates the table only when the extension is there and the table is not; nothing else changes. |
| `Stores.Store.SetModel` | crates/vexus-core/src/store.rs:216-254 | Wipes exactly when model or dimension differ from the recorded ones: then every chunk row stays, unflagged, and no vector does; otherwise only ensures the table; afterwards both are recorded, no other key moves, and the generation moves exactly when it wiped or the table appeared. |
| `Stores.Store.PutEmbeddings` | crates/vexus-core/src/store.rs:287-309 | Exactly the written chunks gain a flag and no other column moves; each written id has its last vector, every other the one it had; the table is created when missing; without the extension nothing changes. |
| `Stores.Store.ReplaceFile` | crates/vexus-core/src/store.rs:520-629 | Exactly the old file's rows go, with their cascades and vectors; all others stay as they were, in order, with their vectors; behind them stand the file row and one row per symbol, edge and chunk of the batch, field by field; the touched names are the old and new ones, each once; a malformed batch changes nothing. |
| `Stores.Store.RemoveFile` | crates/vexus-core/src/store.rs:631-650 | Exactly the file's rows go, with their cascades and vectors; every other row stays as it was, in order, with its vector, but for targets that went; the result says whether the path was indexed. |
| `Stores.Store.ResolveSelected` | crates/vexus-core/src/resolve.rs:74-180 | Exactly the selected edges are rewritten with the chooser's answer for their calling symbol, in target and confidence only; the result counts the rewritten edges that have a target. |
| `Stores.Store.ResolveAllEdges` | crates/vexus-core/src/resolve.rs:51-53 | Every edge is rewritten with the chooser's answer, in target and confidence only. |
| `Stores.Store.ResolveEdgesForNames` | crates/vexus-core/src/resolve.rs:55-66 | Exactly the edges that some name matches are rewritten, in target and confidence only; the result sums the passes. |
| `VectorRuns.ApplyMatches` | crates/vexus-core/src/store.rs:216-309 | One store operation keeps flags and vectors equal if and only if it writes vectors for live chunks only. |
| `VectorRuns.FlagsMatchInRun` | crates/vexus-core/src/store.rs:216-650 | Over any run of set_model, put_embeddings, replace_file and remove_file with live ids, "flagged embedded" is "has a vector". |
| `VectorRuns.OwnVectorsInRun` | crates/vexus-core/src/store.rs:216-650 | Over any such run every flagged chunk carries the vector of its own content, whatever ids were reused. |
| `VectorRuns.DrainedShelfOwnsAll` | crates/vexus-watch/src/pipeline.rs:252-321 | Draining the backlog leaves every chunk flagged, with the vector of its own content. |
| `VectorRuns.DropWithoutExtension` | crates/vexus-core/src/store.rs:638-645 | Without the extension a deletion keeps flags and vectors equal if and only if the file had no flagged chunk. |
| `Embedding.BacklogSorted` | crates/vexus-core/src/store.rs:266-271 | In hash order the backlog holds each chunk without a vector exactly once. |
| `Embedding.ChunksMissingEmbedding` | crates/vexus-core/src/store.rs:258-280 | A page of the backlog: in hash order, distinct, as long as the limit allows, nothing with a smaller hash left behind; empty without the extension. |
| `Embedding.GroupRuns` | crates/vexus-watch/src/pipeline.rs:283 | Every group has one hash and is not empty. |
| `Embedding.GroupsPartition` | crates/vexus-watch/src/pipeline.rs:283 | The groups laid end to end are the page. |
| `Embedding.GroupPerHash` | crates/vexus-watch/src/pipeline.rs:283 | A page in hash order makes exactly one group per distinct hash. |
| `Embedding.ReadyRows` | crates/vexus-watch/src/pipeline.rs:298-304 | The rows written are for exactly the chunks of the page, each with the vector of its group. |
| `Embedding.ShareVectors` | crates/vexus-watch/src/pipeline.rs:298-304 | The zip loop gives each chunk its group's vector. |
| `Embedding.PageShrinksBacklog` | crates/vexus-watch/src/pipeline.rs:308-317 | Writing a page shrinks the backlog by exactly its length. |
| `Embedding.EmbedPage` | crates/vexus-watch/src/pipeline.rs:281-304 | One text is sent per distinct content of the page; an embedder that answers never makes it fail; with a deterministic one every row carries its own content's vector. |
| `Embedding.TallySent` | crates/vexus-watch/src/pipeline.rs:281-285 | A batch resends at most one content that an earlier batch sent. |
| `Embedding.EmbedPending` | crates/vexus-watch/src/pipeline.rs:252-321 | Terminates, never bails for lack of progress, and succeeds whenever the embedder answers; success means an empty backlog and its size reported; a deterministic embedder gives each chunk its own vector and touches no other; texts sent are at most distinct contents plus batches minus one. |
| `Update.IncrementLastIndexFailed` | crates/vexus-watch/src/update.rs:53-59 | The failure count goes up by one, nothing else in meta changes. |
| `Update.RemoveAndReresolve` | crates/vexus-watch/src/update.rs:65-70 | The file goes and exactly the edges matching its old names are resolved again. |
| `Update.ReplaceAndReresolve` | crates/vexus-watch/src/update.rs:122-128 | Replace, re-resolve the touched names, embed, announce: the graph takes one step even when embedding fails; success leaves no backlog; a malformed file changes nothing. |
| `Update.EmbedIfPossible` | crates/vexus-watch/src/update.rs:124-126 | Only flags and vectors move, and only with an embedder; one that answers succeeds and leaves no backlog; a deterministic one gives each chunk the vector of its own content. |
| `Update.UpdateFile` | crates/vexus-watch/src/update.rs:77-131 | For every class of file: the graph takes exactly the modelled step, the outcome says which and how many edges were resolved; meta moves only by the failure count of a failed file or the generation of a replaced one; flags stay equal to vectors; it fails only on a malformed parse or an embedder that does not answer. |
| `Update.ReplacingStep` | crates/vexus-watch/src/update.rs:122-131 | A replacing update writes the file's parse as read, every other row left alone, and then re-resolves exactly the edges that its old or new names match. |
| `Update.RemovingStep` | crates/vexus-watch/src/update.rs:65-70 | A removing update takes exactly the file's rows away, and then re-resolves exactly the edges that its old names match. |
| `Update.NothingToRemove` | crates/vexus-watch/src/update.rs:84-87 | Removing a file that is not indexed changes nothing. |
| `Reconcile.StepSyncs` | crates/vexus-watch/src/update.rs:77-131 | One update without failures gives its path the row its disk content calls for and leaves every other row's hash alone. |
| `Reconcile.PassSyncs` | crates/vexus-watch/src/reconcile.rs:120-168 | After a pass without failures exactly the supported paths among those visited have a row, with the current hash. |
| `Reconcile.IdlePass` | crates/vexus-watch/src/reconcile.rs:146-157 | A pass over paths already in sync is the identity on the graph and reports nothing updated. |
| `Reconcile.PathsMembers` | crates/vexus-watch/src/reconcile.rs:125-137 | The paths visited are the listing and every indexed path. |
| `Reconcile.SecondPassIsIdle` | crates/vexus-watch/src/reconcile.rs:72-174 | On a still disk without failures a second pass changes no row and reports nothing updated. |
| `Reconcile.SetFreshness` | crates/vexus-watch/src/freshness.rs:80-87 | The state is written, and stamped with the time only when it changes. |
| `Reconcile.IgnoredFileIsKept` | crates/vexus-watch/src/reconcile.rs:127-137 | An indexed file that the listing no longer has, but that is still on disk, keeps its row, current, after a pass without failures. |
| `Reconcile.ReportCounts` | crates/vexus-watch/src/reconcile.rs:146-157 | Each counter of the report is the number of visits of its kind: replaced, vanished, unchanged. |
| `Reconcile.ReconcileInner` | crates/vexus-watch/src/reconcile.rs:120-174 | On success the graph has taken one step per path and the report counts the outcomes; an error means a rough path, or at a replacement an embedder that does not answer. |
| `Reconcile.ReconcileAll` | crates/vexus-watch/src/reconcile.rs:72-118 | Every exit clears the progress and bulk keys and leaves Fresh or Degraded; without failures and with an embedder that answers, or none, it succeeds, and exactly the supported paths have their current row; in sync, nothing changes. |
| `FullIndex.IndexFile` | crates/vexus-watch/src/pipeline.rs:169-203 | A listed file is replaced by its parse, rows and chunks alike, exactly when it is readable, parses and its hash moved; otherwise all tables stay; the report counts which. |
| `FullIndex.IndexListing` | crates/vexus-watch/src/pipeline.rs:165-203 | All tables end as one replacement per listed file leaves them, `seen` is the listed paths still on disk, and each counter is the number of listed files with that fate when their turn came. |
| `FullIndex.IndexStepEffect` | crates/vexus-watch/src/pipeline.rs:169-203 | A listed file that is replaced is written as it was parsed; no other row moves but for cut targets. |
| `FullIndex.RemoveUnseen` | crates/vexus-watch/src/pipeline.rs:205-212 | All tables end as the deletion of exactly the unseen paths leaves them, and the count is that of those paths. |
| `FullIndex.IndexSyncs` | crates/vexus-watch/src/pipeline.rs:165-212 | A full index keeps the tables valid and leaves exactly the seen paths with a row: current when they could be read and parsed, as before otherwise. |
| `FullIndex.IndexRepo` | crates/vexus-watch/src/pipeline.rs:165-233 | The tables are those of the listing with unseen files deleted and every edge fully resolved; exactly the seen paths have a row; the generation moves exactly when a row was replaced or removed; each counter is the number of listed files with that fate, or of unseen paths; the failure count is recorded. |
| `FullIndex.UnsupportedKeepsItsRow` | crates/vexus-watch/src/pipeline.rs:175-178 | A listed file that became unsupported keeps its row in a full index and loses it in an update. |
| `Coherence.Session.LockStoreFresh` | crates/vexus-mcp/src/state.rs:104-116 | The cache is cleared and the generation remembered exactly when the generation read differs; a failed read changes nothing; a store that is not ready is refused. |
| `Coherence.Session.VecTableExists` | crates/vexus-core/src/store.rs:164-176 | A reader asks the database only when nothing is cached, and keeps the answer. |
| `Coherence.NextCoherent` | crates/vexus-core/src/store.rs:216-254 | Every step of writer or reader keeps: no reader is ahead, and a stale one is behind or the change is not announced yet. |
| `Coherence.StaleMeansBehind` | crates/vexus-mcp/src/state.rs:104-116 | In every reachable state a stale cached answer means the change is unannounced or the reader's generation is behind. |
| `Coherence.LockFreshCures` | crates/vexus-mcp/src/state.rs:109-114 | A successful lock leaves a reader stale exactly when it was stale and saw no newer generation. |
| `Coherence.FreshStaysFresh` | crates/vexus-core/src/store.rs:164-176 | A reader with the truth keeps it until the table changes. |
| `Coherence.NoReaderStaysStale` | crates/vexus-core/src/store.rs:216-254 | With tables from set_model, once the writer is idle the first lock gives any reader the truth, and it keeps it until the table changes. |
| `Coherence.BumpThenLockCures` | crates/vexus-core/src/store.rs:475-478 | However the table changed, one bump and one lock after it are enough. |
| `Coherence.UnbumpedTableMissed` | crates/vexus-core/src/store.rs:291-293 | A reachable state in which put_embeddings created the table and a reader misses it after any number of locks. |
| `Recursion.Closure` | crates/vexus-core/src/query.rs:429-442 | A recursive UNION over a finite universe ends, inside the universe, with the seeds. |
| `Recursion.ClosureIsClosed` | crates/vexus-core/src/query.rs:429-442 | Its result is closed under the recursive part. |
| `Recursion.ClosureIsLeast` | crates/vexus-core/src/query.rs:429-442 | Its result is the least closed one: every inductive property of the seeds holds of it. |
| `CallGraph.WalkLonger` | crates/vexus-core/src/query.rs:438-441 | A call path one hop longer is a resolved call into the start of a path. |
| `CallGraph.ReachIsPathEnumeration` | crates/vexus-core/src/query.rs:429-442 | A (symbol, depth) pair is reached if and only if some call path of that length leads from the symbol to the target, resolved but for its last hop. |
| `CallGraph.ReachIsBounded` | crates/vexus-core/src/query.rs:396-404 | Cycles or not, at most one row per calling symbol and depth. |
| `CallAnswers.PickIsBest` | crates/vexus-core/src/query.rs:448-462 | The edge picked for a row explains it, is resolved whenever a resolved one does, and has the smallest id among those. |
| `CallAnswers.PickNeverMissing` | crates/vexus-core/src/query.rs:448-462 | Every reached pair has an edge to pick, so the join drops none. |
| `CallAnswers.OrderIsUnique` | crates/vexus-core/src/query.rs:463 | The answer's order does not depend on how the engine lists the recursive result. |
| `CallAnswers.EachPairOnce` | crates/vexus-core/src/query.rs:419-486 | Without the cap the answer lists a (symbol, depth) pair exactly once, and exactly when some call path witnesses it. |
| `CallAnswers.AnswerRows` | crates/vexus-core/src/query.rs:448-485 | Every row holds the symbol's own row, the path of its file, and name and confidence of the call shown for it: one that puts it at its depth, resolved when any such call is, and the oldest of those; a confidence exactly when resolved. |
| `CallAnswers.AnswerSorted` | crates/vexus-core/src/query.rs:463 | Rows stand by depth, then known callers before name matches, then by symbol id. |
| `CallAnswers.CapKeepsFirst` | crates/vexus-core/src/query.rs:464 | The capped answer is the first rows of the whole one, as many as there is room for. |
| `CallAnswers.KeptGuessKeepsKnown` | crates/vexus-core/src/query.rs:463-464 | Under the cap a kept name match implies that every resolved caller at its depth or nearer was kept before it. |
| `CallAnswers.PathLonger` | crates/vexus-core/src/query.rs:246-249 | A path of resolved calls one hop longer is a path and a resolved call out of its end. |
| `CallAnswers.CalleesArePaths` | crates/vexus-core/src/query.rs:239-258 | A call is listed at depth d if and only if d - 1 resolved calls lead from the start to its caller. |
| `ChunkOwners.IsAncestor` | crates/vexus-index/src/chunk.rs:18-27 | The parent walk answers exactly whether the symbol is a strict ancestor. |
| `ChunkOwners.Innermost` | crates/vexus-index/src/chunk.rs:162-165 | The owner covers the line and no covering symbol is smaller, the later one among equals. |
| `ChunkOwners.Claim` | crates/vexus-index/src/chunk.rs:176-181 | Exactly the lines of the range change owner, and the covered bitmap stays in step. |
| `ChunkOwners.BySizeOrder` | crates/vexus-index/src/chunk.rs:168-172 | All symbols but the module, from the largest range down, equals in symbol order. |
| `ChunkOwners.LastPaintedIsInnermost` | crates/vexus-index/src/chunk.rs:173-183 | Painting from the largest range down leaves the innermost covering symbol on each line. |
| `ChunkOwners.Paint` | crates/vexus-index/src/chunk.rs:166-183 | The arrays end with the innermost owner of every line. |
| `ChunkDocs.BlockOpening` | crates/vexus-index/src/chunk.rs:39-42 | The nearest line at or above that opens a block comment, if any. |
| `ChunkDocs.SlashRun` | crates/vexus-index/src/chunk.rs:43-47 | The top of the unbroken run of `///` lines. |
| `ChunkDocs.DocBlockStart` | crates/vexus-index/src/chunk.rs:33-55 | The loops find the doc comment the declarative rule names: a doc above the blank line, and not a license. |
| `ChunkDocs.NetMeans` | crates/vexus-index/src/chunk.rs:61-71 | The bracket balance of a line is its closing brackets less its opening ones. |
| `ChunkDocs.DecoratorMeaning` | crates/vexus-index/src/chunk.rs:57-78 | A decorator starts at a line exactly when the brackets balance there for the first time upward, above the closing line, and the line opens an annotation. |
| `ChunkDocs.DecoratorStart` | crates/vexus-index/src/chunk.rs:61-78 | The bracket-counting loop finds that line. |
| `ChunkDocs.ClaimsAreAllowed` | crates/vexus-index/src/chunk.rs:85-120 | Upward claims only ever take lines that are unowned, self-owned or an ancestor's. |
| `ChunkDocs.ExtendStart` | crates/vexus-index/src/chunk.rs:85-120 | The upward walk stops where the declarative extension does. |
| `ChunkDocs.OwnedLinesInRange` | crates/vexus-index/src/chunk.rs:188-200 | A line's final owner always has the line between its extended start and its end. |
| `ChunkDocs.ClaimDocs` | crates/vexus-index/src/chunk.rs:188-200 | Symbols claim in order, each seeing the claims before it; the arrays end with the final owners. |
| `ChunkClaims.AnnotationMeans` | crates/vexus-index/src/chunk.rs:6-15 | An annotation line starts, behind white space, with `#`, `//`, `/*`, `*`, `@` or `--`, and no other line is one. |
| `ChunkClaims.DocMeans` | crates/vexus-index/src/chunk.rs:29-55 | The doc above a blank line, by what its lines look like: a block from its nearest opening, or a whole run of `///` lines, headed as a doc and mentioning no license in capitals or small letters. |
| `ChunkClaims.ClaimsHaveReasons` | crates/vexus-index/src/chunk.rs:80-120 | A symbol takes only annotations, lines of a decorator, and lines of that doc. |
| `ChunkClaims.ClaimIsMaximal` | crates/vexus-index/src/chunk.rs:80-120 | The line just above what it took is no annotation it could still take. |
| `ChunkClaims.AnnotationAboveIsOwned` | crates/vexus-index/src/chunk.rs:185-200 | An annotation directly above a symbol that is free or an ancestor's ends up its own, or that of a symbol inside it. |
| `ChunkClaims.CoveredLineOwner` | crates/vexus-index/src/chunk.rs:159-200 | A line that symbols cover ends up with the narrowest of them, or with a symbol inside that one. |
| `ChunkSplit.CapContent` | crates/vexus-index/src/chunk.rs:122-145 | Unchanged when within budget, otherwise the longest run of whole leading lines that fits, or the head of one long line, and the marker; never above 515 tokens. |
| `ChunkSplit.SplitOversized` | crates/vexus-index/src/chunk.rs:412-451 | The pieces lie end to end, each cut exactly where the budget overflows behind text, later ones behind the signature; only blanks may be left over. |
| `ChunkSplit.SplitConserves` | crates/vexus-index/src/chunk.rs:412-451 | The piece bodies, signatures removed, joined in order are the symbol's lines less at most an all-blank tail. |
| `ChunkSplit.PiecesInOrder` | crates/vexus-index/src/chunk.rs:424-450 | The ranges of the pieces increase without overlap, inside the symbol. |
| `ChunkSplit.SplitKeepsLine` | crates/vexus-index/src/chunk.rs:412-451 | Every line with text stands whole in a piece whose range contains it. |
| `ChunkContainer.Ready` | crates/vexus-index/src/chunk.rs:324-326 | The children listed by a line are the longest leading run that starts by it. |
| `ChunkContainer.AddChildren` | crates/vexus-index/src/chunk.rs:324-326 | The peeking loop takes exactly that run and lists its signatures. |
| `ChunkContainer.Outline` | crates/vexus-index/src/chunk.rs:287-329 | The loop produces the outline: line by line the container's own entry, then the children that became ready. |
| `ChunkContainer.OutlineOrdered` | crates/vexus-index/src/chunk.rs:308-327 | Entries stand in line order within the extended range. |
| `ChunkContainer.OutlineHasOwned` | crates/vexus-index/src/chunk.rs:317-323 | Every owned line that is not blank or the signature's is an entry. |
| `ChunkContainer.OutlineHasSignature` | crates/vexus-index/src/chunk.rs:308-316 | The container's signature is an entry on its start line. |
| `ChunkContainer.OutlineOnlyOwn` | crates/vexus-index/src/chunk.rs:308-323 | An entry that is no child's is that signature, or a line the container owns. |
| `ChunkContainer.ChildrenListedOnce` | crates/vexus-index/src/chunk.rs:296-306 | The child signatures listed are, in order and once each, those of the leading children that start by the last line. |
| `ChunkPacking.PackPieces` | crates/vexus-index/src/chunk.rs:359-409 | The pieces lie end to end over the outline, are as full as the budget allows, list children only in the first, and become chunks exactly when first or searchable. |
| `ChunkPacking.PieceMeans` | crates/vexus-index/src/chunk.rs:359-409 | A piece's chunk is its entries, all of them in the first piece, those of no child later, behind the signature when that shares the budget with the first line; it spans from its first entry to its last. |
| `ChunkPacking.PushContainer` | crates/vexus-index/src/chunk.rs:334-410 | One chunk when the outline fits, none when that is blank, the packed pieces otherwise. |
| `ChunkPacking.ContainerChunksAreSmall` | crates/vexus-index/src/chunk.rs:334-410 | No chunk of a container exceeds 515 estimated tokens. |
| `ChunkPacking.ContainerKeepsLine` | crates/vexus-index/src/chunk.rs:334-410 | An own entry with a letter or digit and at most 2047 characters stands whole in a chunk whose range contains its line. |
| `ChunkPreamble.RunsInOrder` | crates/vexus-index/src/chunk.rs:204-222 | Runs are disjoint and in order. |
| `ChunkPreamble.InOneRun` | crates/vexus-index/src/chunk.rs:204-222 | No line is in two runs. |
| `ChunkPreamble.Runs` | crates/vexus-index/src/chunk.rs:204-222 | Runs hold every uncovered line with text and no covered line; a merged run fits 512 tokens; two neighbours stay apart only for a covered line or the budget. |
| `ChunkPreamble.PreambleChunks` | crates/vexus-index/src/chunk.rs:223-237 | Each run becomes one capped chunk of the module, unless it holds no letter or digit. |
| `ChunkPreamble.PreambleKeepsLine` | crates/vexus-index/src/chunk.rs:204-237 | Every uncovered line with a letter or digit is in the range of a chunk, and stands in it whole unless its run is one unbroken stretch over the budget. |
| `ChunkPreamble.PreambleChunksAreSmall` | crates/vexus-index/src/chunk.rs:223-237 | No preamble chunk exceeds 515 estimated tokens. |
| `Chunker.PushLeaf` | crates/vexus-index/src/chunk.rs:242-263 | A leaf is one chunk from its extended start when that fits 512 tokens, otherwise split. |
| `Chunker.PushSymbol` | crates/vexus-index/src/chunk.rs:240-273 | Leaves and containers get their own kind of chunks, from the final owners and the extended start. |
| `Chunker.SymbolKeepsLine` | crates/vexus-index/src/chunk.rs:239-273 | Every line that must be kept stands whole in a chunk of its final owner. |
| `Chunker.SymbolShows` | crates/vexus-index/src/chunk.rs:239-410 | So for what a container shows in place of its start line: its signature. |
| `Chunker.UnownedLineKept` | crates/vexus-index/src/chunk.rs:204-237 | A searchable line of no symbol is in the range of a module chunk, and whole in it unless its stretch is over the budget. |
| `Chunker.SymbolChunksBounded` | crates/vexus-index/src/chunk.rs:334-410 | A symbol's chunks belong to it, and a container's stay within 515 tokens. |
| `Chunker.Ownership` | crates/vexus-index/src/chunk.rs:162-200 | Painting, then claiming, gives the final owners, the bitmap and the extended starts. |
| `Chunker.BuildChunks` | crates/vexus-index/src/chunk.rs:147-275 | Chunking loses no text to search for: every line of the source, as its newlines cut it, that a symbol finally owns (in a container at most 2047 characters) stands whole in a chunk of that owner, in its range; a container's signature stands for its start line; a line of no symbol is in the range of a module chunk, whole unless its stretch is over the budget; module and container chunks are bounded. |
| `Calendar.EraParts` | crates/vexus-mcp/src/state.rs:250-252 | Every day of a 400-year era is a century, a four-year cycle, a year and a day of that year. |
| `Calendar.DayOfYearBound` | crates/vexus-mcp/src/state.rs:253-255 | The approximate division finds the right year of the era, and the day of year left over is within that year. |
| `Calendar.MarchMonth` | crates/vexus-mcp/src/state.rs:256-258 | The month formula finds the month that contains the day, with its true length. |
| `Calendar.CivilIsValid` | crates/vexus-mcp/src/state.rs:250-259 | Every day number gives a valid Gregorian date (RFC 3339 section 5.7, leap rule of appendix C). |
| `Calendar.CivilNext` | crates/vexus-mcp/src/state.rs:250-259 | Day 0 is 1 January 1970, and consecutive days have consecutive dates. |
| `Calendar.CivilRoundTrip` | crates/vexus-mcp/src/state.rs:250-259 | Counting the days up to the date by years and months gives back the day number. |
| `Calendar.CivilOnto` | crates/vexus-mcp/src/state.rs:250-259 | Every valid date from 1970 on is the date of its own day. |
| `Calendar.FourDigitYears` | crates/vexus-mcp/src/state.rs:261 | The year has at most four digits exactly below 253402300800 seconds. |
| `Calendar.TimestampFields` | crates/vexus-mcp/src/state.rs:261 | Up to the year 9999 the text fits the grammar of RFC 3339 section 5.6 with each field in its place, and after it does not. |
| `Calendar.TimestampRoundTrip` | crates/vexus-mcp/src/state.rs:245-262 | Reading the timestamp gives back its seconds, for every second before the year 10000 and none after. |
| `Bundle.Dedupe` | crates/vexus-mcp/src/bundle.rs:34-62 | In input order, every item that is no chunk and the first of the best-scored items of each chunk. |
| `Bundle.OnePerChunk` | crates/vexus-mcp/src/bundle.rs:34-62 | Every chunk keeps exactly one item, none of its items scores higher, and of equals it is the first. |
| `Bundle.OrderOf` | crates/vexus-mcp/src/bundle.rs:64-74 | Items are offered by score, ties in input order. |
| `Bundle.Fill` | crates/vexus-mcp/src/bundle.rs:80-88 | An item is chosen exactly when it fits in what the chosen items before it left of the budget. |
| `Bundle.GreedyIsMaximal` | crates/vexus-mcp/src/bundle.rs:76-88 | The chosen items stay within the budget at every point, and nothing left out fits in what remains. |
| `Bundle.PathScores` | crates/vexus-mcp/src/bundle.rs:105-109 | The map holds exactly the best score of each file that has an item. |
| `Bundle.GroupedByFile` | crates/vexus-mcp/src/bundle.rs:110-116 | Items of one file stand together in line order, neighbours included; a file with a better item stands first, and of two equal ones the one whose path comes first. |
| `Bundle.PathLeMeans` | crates/vexus-mcp/src/bundle.rs:110-116 | Paths compare as a proper prefix, or at the first place where they differ. |
| `Bundle.PickedSplit` | crates/vexus-mcp/src/bundle.rs:100-104 | Chosen and left-out items together are the deduplicated items. |
| `Bundle.SelectionCost` | crates/vexus-mcp/src/bundle.rs:76-104 | The selection, in whatever order, costs what the filling loop counted. |
| `Bundle.SpentIsCost` | crates/vexus-mcp/src/bundle.rs:83 | Cost is a quarter of each content's length and 20 for every item. |
| `Bundle.Pack` | crates/vexus-mcp/src/bundle.rs:29-136 | Selected and omitted together are the representatives; a quarter of each selected content's length plus 20 adds up to the budget at most, or there is one item, none outscores it and none fits; no omitted item fits in the rest; selected items are stably sorted by file; each omitted one is named, with its score and lines, the best first. |
| `Bundle.FallbackIsBest` | crates/vexus-mcp/src/bundle.rs:90-98 | The total is within budget, unless no item fits at all and the one kept is an item that none outscores. |
| `Bundle.OmittedDoNotFit` | crates/vexus-mcp/src/bundle.rs:76-98 | No omitted item fits in what the selection leaves of the budget. |
| `Metrics.AbelStep` | crates/vexus-eval/src/metrics.rs:109-115 | If every prefix sum is dominated, the discounted sums differ by at least the plain difference at the last weight, with equality only when all prefix sums agree. |
| `Metrics.IdealIsSorted` | crates/vexus-eval/src/metrics.rs:134-135 | Sorting the grades is sorting the graded names. |
| `Metrics.BestChoice` | crates/vexus-eval/src/metrics.rs:134-136 | No choice of k graded names totals more than the k best. |
| `Metrics.IdealDominates` | crates/vexus-eval/src/metrics.rs:128-136 | Every prefix of a ranking without graded repeats gains at most what the ideal order's prefix does. |
| `Metrics.NdcgInUnitInterval` | crates/vexus-eval/src/metrics.rs:128-142 | nDCG@10 lies in [0, 1] for every ranking whose first ten results repeat no graded name, any grades, any positive weights that do not rise. |
| `Metrics.PerfectMeansIdeal` | crates/vexus-eval/src/metrics.rs:128-142 | With strictly falling weights, a score of 1 means the ideal gain at each of the ten places. |
| `Metrics.IdealIsPerfect` | crates/vexus-eval/src/metrics.rs:128-142 | The ideal gains score 1, or 0 when there is nothing to gain. |
| `Metrics.ListingOrderIsIrrelevant` | crates/vexus-eval/src/metrics.rs:134-135 | The score does not depend on the order in which the grade map is iterated. |
| `Metrics.RepeatsExceedOne` | crates/vexus-eval/src/metrics.rs:128-142 | Any name repeated among the first ten results lets a grading score above 1: grade 1 for each of those names. |
| `Metrics.BoundedIffNoRepeats` | crates/vexus-eval/src/metrics.rs:128-142 | For any positive weights that do not rise, a ranking scores at most 1 under every grading if and only if its first ten results repeat no name. |
| `Metrics.TwiceTheSameName` | crates/vexus-eval/src/corpus.rs:350 | The smallest instance: one name, listed twice, exceeds 1 under some grading. |
| `Fusion.AddList` | crates/vexus-core/src/search.rs:253-255 | Each listed chunk's score grows by the reciprocal-rank weight of its places; no other score moves. |
| `Fusion.RankMap` | crates/vexus-core/src/search.rs:273-276 | The vector rank of a chunk is its last place in the list. |
| `Fusion.Penalise` | crates/vexus-core/src/search.rs:344-355 | One chunk's score is multiplied by the product of the penalties it earns. |
| `Fusion.PreambleMultiplies` | crates/vexus-core/src/search.rs:344-355 | Being a module chunk multiplies the factor by the preamble penalty, whatever else counts. |
| `Fusion.NonCoreMultiplies` | crates/vexus-core/src/search.rs:344-355 | Lying outside the core multiplies it by the non-core penalty, unless suspended. |
| `Fusion.TestMultiplies` | crates/vexus-core/src/search.rs:344-355 | Being a test, by path or by flag, multiplies it by the test penalty once, unless suspended. |
| `Fusion.ApplyPriors` | crates/vexus-core/src/search.rs:315-359 | Every score is multiplied by its chunk's factor; chunks that are gone, suspended penalties and disabled priors change nothing. |
| `Fusion.RankingIsUnique` | crates/vexus-core/src/search.rs:284-292 | The final order does not depend on the order in which the map is iterated. |
| `Fusion.Collect` | crates/vexus-core/src/search.rs:245-277 | The scores are the fused scores of the keyword list and of the neighbours that take part: those within the floor, all when there is no floor, all when none is within it and no keyword hit covers the query; their places follow the neighbours' order without gaps. |
| `Fusion.ListIsParticipants` | crates/vexus-core/src/search.rs:261-271 | The vector list is exactly the participating neighbours, in their order. |
| `Fusion.ParticipantIds` | crates/vexus-core/src/search.rs:261-271 | An id is in it if and only if some neighbour with that id takes part. |
| `Fusion.SearchHybridScored` | crates/vexus-core/src/search.rs:237-301 | Exactly the keyword hits and the participating neighbours are ranked: by score, ties by place in the vector list, then by id; the result is the top of that ranking; the outcome is weak exactly when no keyword hit covers the query, nothing is near, and there are hits. |
| `Fusion.FusedBounds` | crates/vexus-core/src/search.rs:153-154 | A chunk in n lists of at most fifty scores between n/109 and n/60. |
| `Fusion.BothBeatsOne` | crates/vexus-core/src/search.rs:237-277 | Before the priors a chunk in both lists beats any chunk in only one. |
| `Fusion.PenaltyOutweighsRank` | crates/vexus-core/src/priors.rs:67-77 | With the default priors a test, preamble or non-core chunk whose penalty applies is never ranked before an unpenalised chunk found by as many lists. |
| `TinyFragments.FusedIsFraction` | crates/vexus-core/src/search.rs:244-260 | A chunk's fused score is a fraction of whole numbers that depend only on its two ranks. |
| `TinyFragments.TinyOutranksIff` | crates/vexus-core/src/priors.rs:67-77 | With the default priors a chunk that is only tiny stands before an unpenalised one in the final ranking if and only if seven tenths of its rank fraction are more, or equal with the tie break its own. |
| `TinyFragments.TinyWinsInOneList` | crates/vexus-core/src/priors.rs:67-77 | For chunks of one list each, at ranks k (tiny) and m (full), that is 7 (60 + m) > 10 (60 + k), or equality with the tie break. |
| `TinyFragments.TinyLosesFromRank17` | crates/vexus-core/src/priors.rs:9-14 | A tiny chunk of one list at rank 17 or below never stands before a full one, whatever the other's rank. |
| `TinyFragments.TinyLosesToBoth` | crates/vexus-core/src/priors.rs:9-14 | A tiny chunk of one list never stands before a full chunk of both. |
| `TinyFragments.TinyCanOutrank` | crates/vexus-core/src/priors.rs:67-77 | An instance with both chunks in the database: tiny and first in one list, full and last in the other, ranked in that order. |
| `Debounce.Debouncer.constructor` | crates/vexus-watch/src/debounce.rs:42-48 | A new debouncer has nothing pending. |
| `Debounce.Debouncer.Push` | crates/vexus-watch/src/debounce.rs:53-58 | A new path joins the end of the queue, a pending one keeps its place; either way its timer is set. |
| `Debounce.Debouncer.DrainReady` | crates/vexus-watch/src/debounce.rs:65-85 | Exactly the paths whose last event is the window or longer ago come out, in queue order, and the rest stay in theirs; the timer of a queued path is never missing. |
| `Debounce.RunMatches` | crates/vexus-watch/src/debounce.rs:53-85 | Over any history the queue is the duplicate-free list of pending paths in order of arrival, and each timer the time of the path's last event. |
| `Debounce.DrainEmitsQuietPaths` | crates/vexus-watch/src/debounce.rs:65-85 | After any history a drain emits exactly the pending paths quiet for the window, in order of arrival. |
| `Debounce.NothingIsLost` | crates/vexus-watch/src/debounce.rs:53-85 | After its push a path is pending until a drain emits it. |
| `Debounce.EmissionNeedsPush` | crates/vexus-watch/src/debounce.rs:53-85 | Between two emissions of a path there is a push of it. |
| `ReleaseCache.FirstAt` | crates/vexus-mcp/src/update.rs:75-76 | The first occurrence of the key, if it occurs. |
| `ReleaseCache.BareValue` | crates/vexus-mcp/src/update.rs:80-88 | A bare token after the colon is read back as it stands. |
| `ReleaseCache.QuotedField` | crates/vexus-mcp/src/update.rs:74-79 | In any text, a key with a colon and a quoted string behind its first occurrence has that string as its value. |
| `ReleaseCache.NoField` | crates/vexus-mcp/src/update.rs:74-77 | Without the key, or with something else than a colon behind its first occurrence, there is no value. |
| `ReleaseCache.LatestStands` | crates/vexus-mcp/src/update.rs:92-100 | In printed text the key `latest` is found where the printer put it, and nowhere before. |
| `ReleaseCache.CacheRoundTrip` | crates/vexus-mcp/src/update.rs:65-100 | For every timestamp the cache reads back as printed if and only if the version has no quotation mark, is not empty and is not `null`. |
| `ReleaseCache.IsNewer` | crates/vexus-mcp/src/update.rs:109-127 | None exactly when a side is not numeric; otherwise whether the first differing component is larger, missing ones counting as zero. |
| `ReleaseCache.AnyTextSpells` | crates/vexus-mcp/src/update.rs:110-115 | Every text is some leading v's and some pieces without dots, joined by dots. |
| `ReleaseCache.PartsMean` | crates/vexus-mcp/src/update.rs:110-115 | It has components exactly when every piece is a number, and then they are those numbers. |
| `ReleaseCache.NewerIsStrictOrder` | crates/vexus-mcp/src/update.rs:117-126 | Irreflexive, asymmetric, transitive; two versions neither of which is newer agree up to trailing zeros, and compare alike with all others. |
| `ReleaseCache.VersionRoundTrip` | crates/vexus-mcp/src/update.rs:110-115 | A printed version reads back as its components, with or without a leading v. |
| `Decimal.ParsePrinted` | crates/vexus-core/src/store.rs:463-478 | A printed number reads back as itself while it fits 64 bits, and not at all beyond; a plus sign in front changes nothing. |
| `Text.SliceIsUnlines` | crates/vexus-index/src/chunk.rs:149-158 | A slice of the file is its lines, each with a newline, clamped to the file. |
| `Text.LinesHave` | crates/vexus-index/src/chunk.rs:148 | Every stretch between newlines or ends, but for an empty last one, is the line of its number, less a carriage return before the newline. |
| `Text.LinesStand` | crates/vexus-index/src/chunk.rs:148 | And every line is such a stretch. |
| `Text.LinesOfUnlines` | crates/vexus-index/src/chunk.rs:148 | Whole lines, and perhaps a last one without its newline, are the lines of their text. |
| `Text.NewlineCuts` | crates/vexus-index/src/chunk.rs:148 | A line ends at its newline, with or without a carriage return before it. |

## Left out

- SQLite, FTS5 and sqlite-vec: tables are sequences and maps, keyword and nearest-neighbour results are given ranked lists, transactions are atomic; vector dimensions are not checked.
- Parsing and language queries: the symbol table is an input with real line ranges and parents before children.
- The embedding model, tokenizer and hashing: an embedder is a function from texts to vectors that may fail, a hash is a number.
- File system, git listing, file classification and parser panics: what a read of a path yields is an input.
- Machine integers: counts, line numbers, token sums and bundle budgets are unbounded; only the counters kept as text in meta have their 64-bit limit.
- Floating point: rounding and NaN; ties and sums are those of the reals.
- The logarithm in nDCG: any positive weights that do not rise.
- Metadata writes that fail: `finalize` swallows them and falls back to Degraded; here they succeed.
- The clock: freshness stamps take the time as a parameter; `effective_freshness` and its escalation are not modelled.
- File locks, threads and startup retries: each database statement is one atomic step.
- The watcher loop, the MCP server and its tools, the command line, hooks and rendering: plumbing around the parts modelled.
- `resolve_symbol`, `imports_of` and suggestions: single queries without a second form to agree with.
- `identifier_parts`, `covers_terms`, the stopword lists and the path rules of the priors: their answers are inputs of the fusion.
- `hydrate_hits`: drops chunks deleted since ranking and fills in columns.
- `edge_counts`, `recall_at_k`, `reciprocal_rank` and the accumulators of the evaluation: easy members.
- The order of callee rows and their limit: `CalleeRows` is the set of rows before both.
- Progress messages of `embed_pending`, and the announcement rule for them.
- Fusion.PenaltyOutweighsRank: is about the default priors and lists of at most fifty; priors set through the environment can undo it.
- Calendar.TimestampRoundTrip: stops at the year 10000, where the text leaves the RFC 3339 grammar.
- Coherence.NoReaderStaysStale: does not cover a table that `put_embeddings` creates, which the code does not announce; `UnbumpedTableMissed` is that case.
- ChunkPreamble.PreambleKeepsLine: an unbroken uncovered stretch over the budget is cut, so its tail is in the chunk's range but not in its text.
