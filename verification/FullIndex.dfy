/**
 A full index of a repository: every listed file replaced when its hash moved, vanished ones removed, every
 edge resolved.
 */
module FullIndex {
  import opened Wrappers
  import opened Schema
  import opened Incremental
  import opened Vectors
  import opened Effects
  import opened Stores
  import opened Update
  import opened Reconcile
  import Decimal
  import Sequences
  import VectorRuns

  type Db = VectorRuns.Db

  datatype IndexReport = IndexReport(indexed: nat, skippedUnchanged: nat, skippedUnsupported: nat, removed: nat,
                                     failed: nat)

  // ---- what a full index does to the tables ----

  /** One listed file: replaced by its parse when its hash moved, left alone otherwise. */
  function IndexStep(db: Db, path: string, c: Content, vecAvailable: bool, blake3: string -> nat): Db {
    if Replaces(db.graph, Event(path, c)) then
      VectorRuns.Db(InsertFile(DeleteFile(db.graph, path), path, c.lang, c.hash, c.parsed.value),
                    ReplaceShelf(db.graph, db.shelf, path, c.parsed.value.chunks, vecAvailable, blake3))
    else db
  }

  function ListedDb(db: Db, disk: Disk, listing: seq<string>, vecAvailable: bool, blake3: string -> nat): Db {
    if listing == [] then db
    else
      var init, last := listing[..|listing| - 1], listing[|listing| - 1];
      IndexStep(ListedDb(db, disk, init, vecAvailable, blake3), last, disk(last), vecAvailable, blake3)
  }

  /** Listed, and on disk when it was looked at. */
  predicate Seen(disk: Disk, listing: seq<string>, p: string) { p in listing && !disk(p).Missing? }

  function SeenIn(disk: Disk, listing: seq<string>): set<string> { set p | p in listing && Seen(disk, listing, p) }

  function PrunedDb(db: Db, paths: seq<string>, seen: set<string>, vecAvailable: bool): Db {
    if paths == [] then db
    else
      var init, last := PrunedDb(db, paths[..|paths| - 1], seen, vecAvailable), paths[|paths| - 1];
      if last in seen then init
      else VectorRuns.Db(DeleteFile(init.graph, last), DropPath(init.graph, init.shelf, last, vecAvailable))
  }

  /** The tables before the edges are resolved. */
  function IndexedDb(db: Db, disk: Disk, listing: seq<string>, vecAvailable: bool, blake3: string -> nat): Db {
    var listed := ListedDb(db, disk, listing, vecAvailable, blake3);
    PrunedDb(listed, Paths(listed.graph.files), SeenIn(disk, listing), vecAvailable)
  }

  /** A listed file that is replaced is written as it was parsed; nothing else moves. */
  lemma IndexStepEffect(db: Db, path: string, c: Content, vecAvailable: bool, blake3: string -> nat)
    requires Schema.Valid(db.graph) && ChunkIdsAscend(db.shelf.chunks) && Replaces(db.graph, Event(path, c))
    ensures var after := IndexStep(db, path, c, vecAvailable, blake3);
            FileReplaced(db.graph, db.shelf, after.graph, after.shelf, path, c.lang, c.hash, c.parsed.value,
                         vecAvailable, blake3)
  {
    hide Schema.Valid, InsertFile, DeleteFile, ReplaceShelf, FileReplaced, FileHash, WellFormed;
    ReplacementEffect(db.graph, db.shelf, path, c.lang, c.hash, c.parsed.value, vecAvailable, blake3);
  }

  lemma OneMoreListed(db: Db, disk: Disk, listing: seq<string>, p: string, vecAvailable: bool, blake3: string -> nat)
    ensures ListedDb(db, disk, listing + [p], vecAvailable, blake3) ==
            IndexStep(ListedDb(db, disk, listing, vecAvailable, blake3), p, disk(p), vecAvailable, blake3)
    ensures SeenIn(disk, listing + [p]) == SeenIn(disk, listing) + if disk(p).Missing? then {} else {p}
  {
    hide IndexStep;
    assert (listing + [p])[..|listing|] == listing;
  }

  lemma OneMorePruned(db: Db, paths: seq<string>, p: string, seen: set<string>, vecAvailable: bool)
    ensures var init := PrunedDb(db, paths, seen, vecAvailable);
            PrunedDb(db, paths + [p], seen, vecAvailable) ==
            if p in seen then init
            else VectorRuns.Db(DeleteFile(init.graph, p), DropPath(init.graph, init.shelf, p, vecAvailable))
  {
    hide DeleteFile, DropPath;
    assert (paths + [p])[..|paths|] == paths;
  }

  // ---- what it leaves in the file table ----

  /** Unsupported, unreadable and unparsable files keep their row. */
  function IndexedHash(c: Content, before: Option<nat>): Option<nat> {
    if c.Source? && c.parsed.Some? && WellFormed(c.parsed.value) then Some(c.hash) else before
  }

  function HashAfterListing(g: Graph, disk: Disk, listing: seq<string>, p: string): Option<nat> {
    if p in listing then IndexedHash(disk(p), FileHash(g, p)) else FileHash(g, p)
  }

  function HashAfterIndex(g: Graph, disk: Disk, listing: seq<string>, p: string): Option<nat> {
    if Seen(disk, listing, p) then IndexedHash(disk(p), FileHash(g, p)) else None
  }

  lemma ReplacedHash(g: Graph, path: string, lang: string, hash: nat, idx: FileIndex, p: string)
    requires Schema.Valid(g)
    ensures FileHash(InsertFile(DeleteFile(g, path), path, lang, hash, idx), p) ==
            if p == path then Some(hash) else FileHash(g, p)
  {
    hide Schema.Valid, DeleteFile, InsertFile, FileHash;
    DeleteIsValid(g, path);
    DeletedHash(g, path, p);
    InsertedHash(DeleteFile(g, path), path, lang, hash, idx, p);
  }

  lemma IndexStepSyncs(db: Db, path: string, c: Content, vecAvailable: bool, blake3: string -> nat, p: string)
    requires Schema.Valid(db.graph)
    ensures var after := IndexStep(db, path, c, vecAvailable, blake3).graph;
            && Schema.Valid(after)
            && FileHash(after, p) == if p == path then IndexedHash(c, FileHash(db.graph, p)) else FileHash(db.graph, p)
  {
    hide Schema.Valid, DeleteFile, InsertFile, FileHash, ReplaceShelf, WellFormed;
    if Replaces(db.graph, Event(path, c)) {
      DeleteIsValid(db.graph, path);
      InsertIsValid(DeleteFile(db.graph, path), path, c.lang, c.hash, c.parsed.value);
      ReplacedHash(db.graph, path, c.lang, c.hash, c.parsed.value, p);
    }
  }

  lemma {:induction false} ListingSyncs(db: Db, disk: Disk, listing: seq<string>, vecAvailable: bool,
                                        blake3: string -> nat, p: string)
    requires Schema.Valid(db.graph)
    ensures var after := ListedDb(db, disk, listing, vecAvailable, blake3).graph;
            Schema.Valid(after) && FileHash(after, p) == HashAfterListing(db.graph, disk, listing, p)
  {
    hide Schema.Valid, FileHash, IndexStep, WellFormed;
    if listing != [] {
      var init, last := listing[..|listing| - 1], listing[|listing| - 1];
      assert listing == init + [last];
      ListingSyncs(db, disk, init, vecAvailable, blake3, p);
      IndexStepSyncs(ListedDb(db, disk, init, vecAvailable, blake3), last, disk(last), vecAvailable, blake3, p);
    }
  }

  lemma {:induction false} PruningSyncs(db: Db, paths: seq<string>, seen: set<string>, vecAvailable: bool, p: string)
    requires Schema.Valid(db.graph)
    ensures var after := PrunedDb(db, paths, seen, vecAvailable).graph;
            && Schema.Valid(after)
            && FileHash(after, p) == if p in paths && p !in seen then None else FileHash(db.graph, p)
  {
    hide Schema.Valid, FileHash, DeleteFile, DropPath;
    if paths != [] {
      var init, last := paths[..|paths| - 1], paths[|paths| - 1];
      assert paths == init + [last];
      PruningSyncs(db, init, seen, vecAvailable, p);
      var before := PrunedDb(db, init, seen, vecAvailable);
      DeleteIsValid(before.graph, last);
      DeletedHash(before.graph, last, p);
    }
  }

  lemma UnlistedPath(g: Graph, p: string)
    ensures p !in Paths(g.files) ==> FileHash(g, p).None?
  {
    PathsMembers(g.files, [], p);
    assert AllPaths(g.files, []) == Sequences.Keep(Paths(g.files), (q: string) => q !in []);
  }

  /** Exactly the seen paths have a row: current when they could be read and parsed, as before otherwise. */
  lemma IndexSyncs(db: Db, disk: Disk, listing: seq<string>, vecAvailable: bool, blake3: string -> nat, p: string)
    requires Schema.Valid(db.graph)
    ensures Schema.Valid(IndexedDb(db, disk, listing, vecAvailable, blake3).graph)
    ensures FileHash(ResolveAll(IndexedDb(db, disk, listing, vecAvailable, blake3).graph), p) ==
            HashAfterIndex(db.graph, disk, listing, p)
  {
    hide Schema.Valid, FileHash, Paths, IndexedHash, ListedDb, PrunedDb;
    var listed := ListedDb(db, disk, listing, vecAvailable, blake3);
    ListingSyncs(db, disk, listing, vecAvailable, blake3, p);
    PruningSyncs(listed, Paths(listed.graph.files), SeenIn(disk, listing), vecAvailable, p);
    UnlistedPath(listed.graph, p);
    ResolvingKeepsHashes(IndexedDb(db, disk, listing, vecAvailable, blake3).graph, p);
  }

  lemma ResolvingKeepsHashes(g: Graph, p: string)
    ensures FileHash(ResolveAll(g), p) == FileHash(g, p)
  {
    hide ResolveEdge;
  }

  lemma ResolvedIsFull(g: Graph)
    ensures FullyResolved(ResolveAll(g))
  {
    hide ResolveEdge;
    forall i | 0 <= i < |g.edges| ensures ResolveAll(ResolveAll(g)).edges[i] == ResolveAll(g).edges[i] {
      ResolveTwice(g.symbols, g.edges[i]);
    }
  }

  // ---- the report ----

  /** What a listed file adds to the report. */
  function IndexCount(r: IndexReport, g: Graph, path: string, c: Content): IndexReport {
    if c.Missing? then r
    else if c.Unsupported? then r.(skippedUnsupported := r.skippedUnsupported + 1)
    else if c.Source? && FileHash(g, path) == Some(c.hash) then r.(skippedUnchanged := r.skippedUnchanged + 1)
    else if c.Source? && c.parsed.Some? then r.(indexed := r.indexed + 1)
    else r.(failed := r.failed + 1)
  }

  /** What becomes of a listed file, by its content and the hash it is indexed under when its turn comes. */
  datatype Fate = NotThere | NoSource | Unchanged | Entered | Broken

  ghost predicate HasFate(fate: Fate, c: Content, known: Option<nat>) {
    match fate
    case NotThere => c.Missing?
    case NoSource => c.Unsupported?
    case Unchanged => c.Source? && known == Some(c.hash)
    case Entered => c.Source? && known != Some(c.hash) && c.parsed.Some?
    case Broken => c.Unreadable? || (c.Source? && known != Some(c.hash) && c.parsed.None?)
  }

  ghost predicate FateAt(db: Db, disk: Disk, listing: seq<string>, vecAvailable: bool, blake3: string -> nat, i: nat,
                         fate: Fate)
    requires i < |listing|
  {
    HasFate(fate, disk(listing[i]),
            FileHash(ListedDb(db, disk, listing[..i], vecAvailable, blake3).graph, listing[i]))
  }

  /** Each counter is the number of listed files with that fate. */
  ghost predicate Tallied(db: Db, disk: Disk, listing: seq<string>, vecAvailable: bool, blake3: string -> nat,
                          r: IndexReport)
  {
    exists fates :: TalliedBy(db, disk, listing, vecAvailable, blake3, fates, r)
  }

  ghost predicate TalliedBy(db: Db, disk: Disk, listing: seq<string>, vecAvailable: bool, blake3: string -> nat,
                            fates: seq<Fate>, r: IndexReport)
  {
    && |fates| == |listing|
    && (forall i :: 0 <= i < |listing| ==> FateAt(db, disk, listing, vecAvailable, blake3, i, fates[i]))
    && CountsAre(fates, r)
  }

  ghost predicate CountsAre(fates: seq<Fate>, r: IndexReport) {
    && r.indexed == multiset(fates)[Entered] && r.failed == multiset(fates)[Broken]
    && r.skippedUnchanged == multiset(fates)[Unchanged] && r.skippedUnsupported == multiset(fates)[NoSource]
  }

  lemma FateFor(c: Content, known: Option<nat>) returns (fate: Fate)
    ensures HasFate(fate, c, known)
  {
    fate := if c.Missing? then NotThere else if c.Unsupported? then NoSource
            else if c.Unreadable? then Broken
            else if known == Some(c.hash) then Unchanged else if c.parsed.Some? then Entered else Broken;
  }

  lemma OneMoreTallied(db: Db, disk: Disk, listing: seq<string>, vecAvailable: bool, blake3: string -> nat, p: string,
                       r: IndexReport)
    requires Tallied(db, disk, listing, vecAvailable, blake3, r)
    ensures Tallied(db, disk, listing + [p], vecAvailable, blake3,
                    IndexCount(r, ListedDb(db, disk, listing, vecAvailable, blake3).graph, p, disk(p)))
  {
    hide ListedDb, FileHash, CountsAre, HasFate, IndexCount;
    var fates :| TalliedBy(db, disk, listing, vecAvailable, blake3, fates, r);
    var g, all := ListedDb(db, disk, listing, vecAvailable, blake3).graph, listing + [p];
    var fate := FateFor(disk(p), FileHash(g, p));
    CountsNext(fates, r, g, p, disk(p), fate);
    var more := fates + [fate];
    forall i | 0 <= i < |all| ensures FateAt(db, disk, all, vecAvailable, blake3, i, more[i]) {
      if i < |listing| {
        assert FateAt(db, disk, listing, vecAvailable, blake3, i, fates[i]) && all[..i] == listing[..i];
      } else {
        assert all[..i] == listing;
      }
    }
    assert TalliedBy(db, disk, all, vecAvailable, blake3, more, IndexCount(r, g, p, disk(p)));
  }

  lemma CountsNext(fates: seq<Fate>, r: IndexReport, g: Graph, p: string, c: Content, fate: Fate)
    requires CountsAre(fates, r) && HasFate(fate, c, FileHash(g, p))
    ensures CountsAre(fates + [fate], IndexCount(r, g, p, c))
  {
    hide FileHash;
  }

  lemma NothingTallied(db: Db, disk: Disk, vecAvailable: bool, blake3: string -> nat)
    ensures Tallied(db, disk, [], vecAvailable, blake3, IndexReport(0, 0, 0, 0, 0))
  {
    assert TalliedBy(db, disk, [], vecAvailable, blake3, [], IndexReport(0, 0, 0, 0, 0));
  }

  /** How many listed files were on disk. */
  function OnDisk(disk: Disk, listing: seq<string>): nat {
    if listing == [] then 0
    else OnDisk(disk, listing[..|listing| - 1]) + if disk(listing[|listing| - 1]).Missing? then 0 else 1
  }

  lemma OneMoreOnDisk(disk: Disk, listing: seq<string>, p: string)
    ensures OnDisk(disk, listing + [p]) == OnDisk(disk, listing) + if disk(p).Missing? then 0 else 1
  {
    assert (listing + [p])[..|listing|] == listing;
  }

  function Handled(r: IndexReport): nat { r.indexed + r.skippedUnchanged + r.skippedUnsupported + r.failed }

  lemma CountedOnce(r: IndexReport, g: Graph, path: string, c: Content)
    ensures var next := IndexCount(r, g, path, c);
            next.removed == r.removed && Handled(next) == Handled(r) + if c.Missing? then 0 else 1
  {
  }

  /** How many indexed paths were not seen. */
  function Unseen(paths: seq<string>, seen: set<string>): nat {
    |Sequences.Keep(paths, (p: string) => p !in seen)|
  }

  lemma OneMoreUnseen(paths: seq<string>, seen: set<string>, p: string)
    ensures Unseen(paths + [p], seen) == Unseen(paths, seen) + if p in seen then 0 else 1
  {
    Sequences.KeepLast(paths, p, (q: string) => q !in seen);
  }

  // ---- the passes ----

  /** The flags stay exact when they were. */
  ghost predicate Steady(v: Shelf, vecAvailable: bool, after: Shelf) {
    vecAvailable && FlagsMatch(v) ==> FlagsMatch(after)
  }

  lemma StaySteady(a: Shelf, b: Shelf, c: Shelf, vecAvailable: bool)
    requires Steady(a, vecAvailable, b) && Steady(b, vecAvailable, c)
    ensures Steady(a, vecAvailable, c)
  {
  }

  lemma AlwaysSteady(v: Shelf, vecAvailable: bool)
    ensures Steady(v, vecAvailable, v)
  {
  }

  ghost function DbOf(store: Store): Db
    reads store
  {
    VectorRuns.Db(store.G(), store.V())
  }

  /** One listed file. */
  method IndexFile(store: Store, path: string, content: Content, before: IndexReport)
    returns (r: Result<IndexReport, Error>)
    requires store.Valid()
    modifies store
    ensures store.Valid() && store.meta == old(store.meta)
    ensures Steady(old(store.V()), store.vecAvailable, store.V())
    ensures r.Err? ==> !Smooth(content)
    ensures r.Ok? ==> DbOf(store) == IndexStep(old(DbOf(store)), path, content, store.vecAvailable, store.blake3)
    ensures r.Ok? ==> r.value == IndexCount(before, old(store.G()), path, content)
    ensures r.Ok? ==>
              if Replaces(old(store.G()), Event(path, content)) then r.value.indexed == before.indexed + 1
              else DbOf(store) == old(DbOf(store)) && r.value.indexed == before.indexed
  {
    hide Schema.Valid, ChunksValid, FlagsMatch, ReplaceShelf, InsertFile, DeleteFile, NamesIn, BatchNames, FileHash;
    ghost var g, v := store.G(), store.V();
    match content
    case Missing => return Ok(before);
    case Unsupported => return Ok(before.(skippedUnsupported := before.skippedUnsupported + 1));
    case Unreadable => return Ok(before.(failed := before.failed + 1));
    case Source(lang, hash, parsed) =>
      if FileHash(Graph(store.files, store.symbols, store.edges), path) == Some(hash) {
        return Ok(before.(skippedUnchanged := before.skippedUnchanged + 1));
      }
      if parsed.None? { return Ok(before.(failed := before.failed + 1)); }
      var replaced := store.ReplaceFile(path, lang, hash, parsed.value);
      if replaced.Err? { return Err(replaced.error); }
      ReplaceShelfMatches(g, v, path, parsed.value.chunks, store.blake3);
      return Ok(before.(indexed := before.indexed + 1));
  }

  method IndexListing(store: Store, disk: Disk, listing: seq<string>)
    returns (r: Result<IndexReport, Error>, seen: set<string>)
    requires store.Valid()
    modifies store
    ensures store.Valid() && store.meta == old(store.meta)
    ensures Steady(old(store.V()), store.vecAvailable, store.V())
    ensures r.Err? ==> Rough(disk, listing)
    ensures r.Ok? ==> DbOf(store) == ListedDb(old(DbOf(store)), disk, listing, store.vecAvailable, store.blake3)
    ensures r.Ok? ==> seen == SeenIn(disk, listing) && r.value.removed == 0
    ensures r.Ok? && r.value.indexed == 0 ==> DbOf(store) == old(DbOf(store))
    ensures r.Ok? ==> Handled(r.value) == OnDisk(disk, listing)
    ensures r.Ok? ==> Tallied(old(DbOf(store)), disk, listing, store.vecAvailable, store.blake3, r.value)
  {
    hide Schema.Valid, ChunksValid, FlagsMatch, Replaces, IndexStep, IndexCount, Handled, Steady, SeenIn, Tallied;
    ghost var db := DbOf(store);
    AlwaysSteady(store.V(), store.vecAvailable);
    var report := IndexReport(0, 0, 0, 0, 0);
    seen := {};
    assert listing[..0] == [];
    NothingListed(disk);
    NothingTallied(db, disk, store.vecAvailable, store.blake3);
    for i := 0 to |listing|
      invariant store.Valid() && store.meta == old(store.meta)
      invariant Steady(old(store.V()), store.vecAvailable, store.V())
      invariant DbOf(store) == ListedDb(db, disk, listing[..i], store.vecAvailable, store.blake3)
      invariant seen == SeenIn(disk, listing[..i])
      invariant report.removed == 0 && (report.indexed == 0 ==> DbOf(store) == db)
      invariant Handled(report) == OnDisk(disk, listing[..i])
      invariant Tallied(db, disk, listing[..i], store.vecAvailable, store.blake3, report)
    {
      assert listing[..i + 1] == listing[..i] + [listing[i]];
      OneMoreOnDisk(disk, listing[..i], listing[i]);
      OneMoreListed(db, disk, listing[..i], listing[i], store.vecAvailable, store.blake3);
      var rel := listing[i];
      var content := disk(rel);
      ghost var now := DbOf(store);
      var indexed := IndexFile(store, rel, content, report);
      StaySteady(db.shelf, now.shelf, store.V(), store.vecAvailable);
      if indexed.Err? { return Err(indexed.error), seen; }
      CountedOnce(report, now.graph, rel, content);
      OneMoreTallied(db, disk, listing[..i], store.vecAvailable, store.blake3, rel, report);
      report := indexed.value;
      if !content.Missing? { seen := seen + {rel}; }
    }
    assert listing[..|listing|] == listing;
    r := Ok(report);
  }

  lemma NothingListed(disk: Disk)
    ensures SeenIn(disk, []) == {} && OnDisk(disk, []) == 0 && Handled(IndexReport(0, 0, 0, 0, 0)) == 0
  {
  }

  method RemoveUnseen(store: Store, seen: set<string>) returns (removed: nat)
    requires store.Valid()
    modifies store
    ensures store.Valid() && store.meta == old(store.meta)
    ensures Steady(old(store.V()), store.vecAvailable, store.V())
    ensures DbOf(store) == PrunedDb(old(DbOf(store)), Paths(old(store.files)), seen, store.vecAvailable)
    ensures removed == 0 ==> DbOf(store) == old(DbOf(store))
    ensures removed == Unseen(Paths(old(store.files)), seen)
  {
    hide Schema.Valid, ChunksValid, FlagsMatch, DeleteFile, DropPath, Paths, Steady, FileGone, ChunksGone, FileByPath,
         ChunkSymbolsHeld, PrunedDb, Unseen;
    ghost var db := DbOf(store);
    AlwaysSteady(store.V(), store.vecAvailable);
    removed := 0;
    var paths := Paths(store.files);
    assert paths[..0] == [];
    NothingPruned(db, seen, store.vecAvailable);
    for i := 0 to |paths|
      invariant store.Valid() && store.meta == old(store.meta)
      invariant Steady(old(store.V()), store.vecAvailable, store.V())
      invariant DbOf(store) == PrunedDb(db, paths[..i], seen, store.vecAvailable)
      invariant removed == 0 ==> DbOf(store) == db
      invariant removed == Unseen(paths[..i], seen)
    {
      OneMoreUnseen(paths[..i], seen, paths[i]);
      OneMorePruned(db, paths[..i], paths[i], seen, store.vecAvailable);
      assert paths[..i + 1] == paths[..i] + [paths[i]];
      if paths[i] !in seen {
        ghost var now := DbOf(store);
        var existed := store.RemoveFile(paths[i]);
        DropStaysSteady(now.graph, now.shelf, paths[i], store.vecAvailable);
        StaySteady(db.shelf, now.shelf, store.V(), store.vecAvailable);
        removed := removed + 1;
      }
    }
    assert paths[..|paths|] == paths;
  }

  lemma NothingPruned(db: Db, seen: set<string>, vecAvailable: bool)
    ensures PrunedDb(db, [], seen, vecAvailable) == db && Unseen([], seen) == 0
  {
  }

  lemma DropStaysSteady(g: Graph, v: Shelf, path: string, vecAvailable: bool)
    ensures Steady(v, vecAvailable, DropPath(g, v, path, vecAvailable))
  {
    hide FlagsMatch, DropPath;
    DropPathMatches(g, v, path);
  }

  /**
   A full index leaves the tables of the indexed files with every edge fully resolved, and exactly the seen paths
   with a row. Readers are told exactly when a row was replaced or removed.
   */
  method IndexRepo(store: Store, disk: Disk, listing: seq<string>) returns (r: Result<IndexReport, Error>)
    requires store.Valid()
    modifies store
    ensures store.Valid()
    ensures Steady(old(store.V()), store.vecAvailable, store.V())
    ensures r.Err? ==> Rough(disk, listing)
    ensures var db := IndexedDb(old(DbOf(store)), disk, listing, store.vecAvailable, store.blake3);
            r.Ok? ==> store.G() == ResolveAll(db.graph) && store.V() == db.shelf
    ensures r.Ok? ==> FullyResolved(store.G())
    ensures r.Ok? ==> forall p :: FileHash(store.G(), p) == HashAfterIndex(old(store.G()), disk, listing, p)
    ensures r.Ok? && r.value.indexed == 0 && r.value.removed == 0 ==> store.G() == ResolveAll(old(store.G()))
    ensures r.Ok? && old(GenerationIn(store.meta)) + 1 < Decimal.U64_LIMIT ==>
              GenerationIn(store.meta) == old(GenerationIn(store.meta)) + Moved(r.value)
    ensures r.Ok? ==> Handled(r.value) == OnDisk(disk, listing)
    ensures r.Ok? ==> Tallied(old(DbOf(store)), disk, listing, store.vecAvailable, store.blake3, r.value)
    ensures var listed := ListedDb(old(DbOf(store)), disk, listing, store.vecAvailable, store.blake3);
            r.Ok? ==> r.value.removed == Unseen(Paths(listed.graph.files), SeenIn(disk, listing))
    ensures r.Ok? && r.value.failed < Decimal.U64_LIMIT ==> FailedCount(store.meta) == r.value.failed
  {
    hide Schema.Valid, ChunksValid, FlagsMatch, FileHash, Rough, GenerationIn, FullyResolved, ResolveAll, FailedCount,
         HashAfterIndex, ListedDb, PrunedDb, Steady, SeenIn, Tallied, OnDisk, Unseen, Paths;
    ghost var db := DbOf(store);
    var listed, seen := IndexListing(store, disk, listing);
    if listed.Err? { return Err(listed.error); }
    ghost var half := store.V();
    var removed := RemoveUnseen(store, seen);
    StaySteady(db.shelf, half, store.V(), store.vecAvailable);
    ghost var left := store.G();
    assert DbOf(store) == IndexedDb(db, disk, listing, store.vecAvailable, store.blake3);
    var updated := store.ResolveAllEdges();
    ResolvedIsFull(left);
    forall p ensures FileHash(store.G(), p) == HashAfterIndex(db.graph, disk, listing, p) {
      IndexSyncs(db, disk, listing, store.vecAvailable, store.blake3, p);
    }
    var report := listed.value.(removed := removed);
    RemovedIsApart(db, disk, listing, store.vecAvailable, store.blake3, listed.value, removed);
    RecordOutcome(store, report);
    return Ok(report);
  }

  lemma RemovedIsApart(db: Db, disk: Disk, listing: seq<string>, vecAvailable: bool, blake3: string -> nat,
                       r: IndexReport, n: nat)
    requires Tallied(db, disk, listing, vecAvailable, blake3, r)
    ensures Tallied(db, disk, listing, vecAvailable, blake3, r.(removed := n))
  {
    hide FateAt;
    var fates :| TalliedBy(db, disk, listing, vecAvailable, blake3, fates, r);
    assert TalliedBy(db, disk, listing, vecAvailable, blake3, fates, r.(removed := n));
  }

  function Moved(r: IndexReport): nat { if r.indexed > 0 || r.removed > 0 then 1 else 0 }

  /** The failure count, and the announcement when a row moved. */
  method RecordOutcome(store: Store, report: IndexReport)
    modifies store`meta
    ensures old(GenerationIn(store.meta)) + 1 < Decimal.U64_LIMIT ==>
              GenerationIn(store.meta) == old(GenerationIn(store.meta)) + Moved(report)
    ensures report.failed < Decimal.U64_LIMIT ==> FailedCount(store.meta) == report.failed
  {
    hide GenerationIn, FailedCount, Decimal.Print;
    OtherKeys(store.meta, "last_index_failed", Decimal.Print(report.failed));
    store.SetMeta("last_index_failed", Decimal.Print(report.failed));
    if report.indexed > 0 || report.removed > 0 {
      store.BumpGeneration();
    }
    FailedIsWritten(store.meta, report.failed);
  }

  lemma FailedIsWritten(meta: map<string, string>, n: nat)
    requires "last_index_failed" in meta && meta["last_index_failed"] == Decimal.Print(n)
    ensures n < Decimal.U64_LIMIT ==> FailedCount(meta) == n
  {
    Decimal.ParsePrinted(n);
  }

  /** Where a full index and an update part ways: an indexed file that became unsupported keeps its row only here. */
  lemma UnsupportedKeepsItsRow(g: Graph, disk: Disk, listing: seq<string>, p: string)
    requires Schema.Valid(g) && p in listing && disk(p).Unsupported?
    ensures HashAfterIndex(g, disk, listing, p) == FileHash(g, p)
    ensures FileHash(Step(g, Event(p, disk(p))), p).None?
  {
    StepSyncs(g, Event(p, disk(p)), p);
  }
}
