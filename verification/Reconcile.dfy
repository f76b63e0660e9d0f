/** The reconcile pass: every listed or indexed path through one update, with progress and freshness kept in meta. */
module Reconcile {
  import opened Wrappers
  import opened Sequences
  import opened Schema
  import opened Incremental
  import opened Vectors
  import opened Stores
  import opened Embedding
  import opened Effects
  import opened Update
  import Decimal

  const PROGRESS_EVERY := 25
  const BULK_REINDEX_THRESHOLD := 200

  datatype Report = Report(updated: nat, removed: nat, unmoved: nat)

  type Disk = string -> Content

  // ---- a pass as a run of updates ----

  function Paths(files: seq<FileRow>): seq<string> {
    seq(|files|, i requires 0 <= i < |files| => files[i].path)
  }

  /** The listing, then every indexed path it leaves out. */
  function AllPaths(files: seq<FileRow>, listing: seq<string>): seq<string> {
    listing + Keep(Paths(files), (p: string) => p !in listing)
  }

  function EventsFor(disk: Disk, paths: seq<string>): seq<Event> {
    seq(|paths|, i requires 0 <= i < |paths| => Event(paths[i], disk(paths[i])))
  }

  function Pass(g: Graph, disk: Disk, paths: seq<string>): Graph { Run(g, EventsFor(disk, paths)) }

  function Count(r: Report, g: Graph, ev: Event): Report {
    if Replaces(g, ev) then r.(updated := r.updated + 1)
    else if ev.content.Missing? then r.(removed := r.removed + 1)
    else if ev.content.Source? && FileHash(g, ev.path) == Some(ev.content.hash) then r.(unmoved := r.unmoved + 1)
    else r
  }

  function ReportOf(g: Graph, disk: Disk, paths: seq<string>): Report {
    if paths == [] then Report(0, 0, 0)
    else
      var init, last := paths[..|paths| - 1], paths[|paths| - 1];
      Count(ReportOf(g, disk, init), Pass(g, disk, init), Event(last, disk(last)))
  }

  // ---- the report ----

  /** What a visit to a path amounts to, by its content and the hash it is indexed under at that time. */
  datatype Visit = Updated | Vanished | Unmoved | Passed

  ghost predicate IsVisit(v: Visit, c: Content, known: Option<nat>) {
    match v
    case Updated => c.Source? && known != Some(c.hash) && c.parsed.Some? && WellFormed(c.parsed.value)
    case Vanished => c.Missing?
    case Unmoved => c.Source? && known == Some(c.hash)
    case Passed =>
      || c.Unsupported? || c.Unreadable?
      || (c.Source? && known != Some(c.hash) && (c.parsed.None? || !WellFormed(c.parsed.value)))
  }

  ghost predicate VisitAt(g: Graph, disk: Disk, paths: seq<string>, i: nat, v: Visit)
    requires i < |paths|
  {
    IsVisit(v, disk(paths[i]), FileHash(Pass(g, disk, paths[..i]), paths[i]))
  }

  /** Each counter of the report is the number of visits of that kind. */
  lemma {:induction false} ReportCounts(g: Graph, disk: Disk, paths: seq<string>) returns (visits: seq<Visit>)
    ensures |visits| == |paths| && forall i :: 0 <= i < |paths| ==> VisitAt(g, disk, paths, i, visits[i])
    ensures VisitCounts(visits, ReportOf(g, disk, paths))
  {
    hide Pass, FileHash, ReportOf, WellFormed, VisitCounts, IsVisit, Count;
    visits := [];
    if paths == [] {
      NoVisits(g, disk);
    } else {
      var init, last := paths[..|paths| - 1], paths[|paths| - 1];
      var before := ReportCounts(g, disk, init);
      assert paths == init + [last];
      PassOneMore(g, disk, init, last);
      var v := VisitFor(disk(last), FileHash(Pass(g, disk, init), last));
      VisitCountsNext(before, ReportOf(g, disk, init), Pass(g, disk, init), Event(last, disk(last)), v);
      visits := before + [v];
      forall i | 0 <= i < |paths| ensures VisitAt(g, disk, paths, i, visits[i]) {
        if i < |init| {
          assert VisitAt(g, disk, init, i, before[i]) && paths[..i] == init[..i];
        } else {
          assert paths[..i] == init;
        }
      }
    }
  }

  ghost predicate VisitCounts(visits: seq<Visit>, r: Report) {
    && r.updated == multiset(visits)[Updated] && r.removed == multiset(visits)[Vanished]
    && r.unmoved == multiset(visits)[Unmoved]
  }

  lemma NoVisits(g: Graph, disk: Disk)
    ensures VisitCounts([], ReportOf(g, disk, []))
  {
  }

  lemma VisitCountsNext(visits: seq<Visit>, r: Report, g: Graph, ev: Event, v: Visit)
    requires VisitCounts(visits, r) && IsVisit(v, ev.content, FileHash(g, ev.path))
    ensures VisitCounts(visits + [v], Count(r, g, ev))
  {
    hide FileHash, WellFormed;
  }

  lemma VisitFor(c: Content, known: Option<nat>) returns (v: Visit)
    ensures IsVisit(v, c, known)
  {
    v := if c.Missing? then Vanished
         else if !c.Source? then Passed
         else if known == Some(c.hash) then Unmoved
         else if c.parsed.Some? && WellFormed(c.parsed.value) then Updated else Passed;
  }

  /** What the index should hold for a path. */
  function Current(c: Content): Option<nat> { if c.Source? then Some(c.hash) else None }

  /** No read, parse or store failure on a path. */
  predicate Smooth(c: Content) {
    !c.Unreadable? && (c.Source? ==> c.parsed.Some? && WellFormed(c.parsed.value))
  }

  lemma PassOneMore(g: Graph, disk: Disk, paths: seq<string>, p: string)
    ensures Pass(g, disk, paths + [p]) == Step(Pass(g, disk, paths), Event(p, disk(p)))
    ensures ReportOf(g, disk, paths + [p]) == Count(ReportOf(g, disk, paths), Pass(g, disk, paths), Event(p, disk(p)))
  {
    hide Step, Count;
    assert (paths + [p])[..|paths|] == paths;
    assert EventsFor(disk, paths + [p]) == EventsFor(disk, paths) + [Event(p, disk(p))];
    assert EventsFor(disk, paths + [p])[..|paths|] == EventsFor(disk, paths);
  }

  // ---- what a pass leaves in the file table ----

  lemma DeletedHash(g: Graph, path: string, p: string)
    requires Schema.Valid(g)
    ensures FileHash(DeleteFile(g, path), p) == if p == path then None else FileHash(g, p)
  {
    DeleteIsValid(g, path);
    if p != path {
      var f := FileByPath(g.files, p);
      if f.Some? {
        assert f.value in DeleteFile(g, path).files;
        FileByPathUnique(DeleteFile(g, path).files, f.value);
      }
    }
  }

  lemma InsertedHash(g: Graph, path: string, lang: string, hash: nat, idx: FileIndex, p: string)
    requires Schema.Valid(g) && FileByPath(g.files, path).None?
    ensures FileHash(InsertFile(g, path, lang, hash, idx), p) == if p == path then Some(hash) else FileHash(g, p)
  {
    var f := FileRow(NextFileId(g.files), path, lang, hash);
    FilesAppended(g.files, f);
    var all := g.files + [f];
    assert f in all;
    if p != path {
      var x := FileByPath(g.files, p);
      if x.Some? {
        assert x.value in all;
      }
    }
  }

  /** One smooth update brings its path up to date and leaves every other row's hash alone. */
  lemma StepSyncs(g: Graph, ev: Event, p: string)
    requires Schema.Valid(g) && Smooth(ev.content)
    ensures FileHash(Step(g, ev), p) == if p == ev.path then Current(ev.content) else FileHash(g, p)
  {
    hide Schema.Valid, DeleteFile, InsertFile;
    if Replaces(g, ev) || Removes(g, ev) {
      assert Step(g, ev).files == Rewritten(g, ev).files;
      DeletedHash(g, ev.path, p);
      if Replaces(g, ev) {
        DeleteIsValid(g, ev.path);
        InsertedHash(DeleteFile(g, ev.path), ev.path, ev.content.lang, ev.content.hash, ev.content.parsed.value, p);
      }
    }
  }

  /** After a smooth pass, exactly the supported paths among those visited have a row, with the current hash. */
  lemma {:induction false} PassSyncs(g: Graph, disk: Disk, paths: seq<string>, p: string)
    requires Schema.Valid(g) && forall q :: q in paths ==> Smooth(disk(q))
    ensures Schema.Valid(Pass(g, disk, paths))
    ensures FileHash(Pass(g, disk, paths), p) == if p in paths then Current(disk(p)) else FileHash(g, p)
  {
    hide Schema.Valid, Step, FileHash, Current;
    RunIsValid(g, EventsFor(disk, paths));
    if paths != [] {
      var init, last := paths[..|paths| - 1], paths[|paths| - 1];
      assert paths == init + [last];
      PassSyncs(g, disk, init, p);
      PassOneMore(g, disk, init, last);
      StepSyncs(Pass(g, disk, init), Event(last, disk(last)), p);
    }
  }

  ghost predicate InSync(g: Graph, disk: Disk, paths: seq<string>) {
    forall p :: p in paths ==> FileHash(g, p) == Current(disk(p))
  }

  /** A pass over paths already in sync is the identity and updates nothing. */
  lemma {:induction false} IdlePass(g: Graph, disk: Disk, paths: seq<string>)
    requires InSync(g, disk, paths)
    ensures Pass(g, disk, paths) == g && ReportOf(g, disk, paths).updated == 0
  {
    if paths != [] {
      var init, last := paths[..|paths| - 1], paths[|paths| - 1];
      assert paths == init + [last];
      IdlePass(g, disk, init);
      PassOneMore(g, disk, init, last);
    }
  }

  lemma PathsMembers(files: seq<FileRow>, listing: seq<string>, p: string)
    ensures p in AllPaths(files, listing) <==> p in listing || FileByPath(files, p).Some?
  {
    if p in Paths(files) {
      var i :| 0 <= i < |files| && files[i].path == p;
      assert files[i] in files;
    }
    if FileByPath(files, p).Some? {
      var f := FileByPath(files, p).value;
      var i :| 0 <= i < |files| && files[i] == f;
      assert Paths(files)[i] == p;
    }
  }

  /** What one pass leaves behind is in sync for the next one over the same listing. */
  lemma NextPassInSync(before: Graph, after: Graph, disk: Disk, listing: seq<string>)
    requires forall p :: FileHash(after, p) == if p in AllPaths(before.files, listing) then Current(disk(p)) else None
    ensures InSync(after, disk, AllPaths(after.files, listing))
  {
    forall p | p in AllPaths(after.files, listing) ensures FileHash(after, p) == Current(disk(p)) {
      PathsMembers(after.files, listing, p);
      PathsMembers(before.files, listing, p);
    }
  }

  /** Two smooth passes over a still disk: the second changes nothing at all. */
  lemma SecondPassIsIdle(g: Graph, disk: Disk, listing: seq<string>)
    requires Schema.Valid(g)
    requires forall p :: p in AllPaths(g.files, listing) ==> Smooth(disk(p))
    ensures var once := Pass(g, disk, AllPaths(g.files, listing));
            var again := AllPaths(once.files, listing);
            Pass(once, disk, again) == once && ReportOf(once, disk, again).updated == 0
  {
    hide Schema.Valid, Pass;
    var paths := AllPaths(g.files, listing);
    var once := Pass(g, disk, paths);
    forall p ensures FileHash(once, p) == if p in paths then Current(disk(p)) else None {
      PassSyncs(g, disk, paths, p);
      PathsMembers(g.files, listing, p);
    }
    NextPassInSync(g, once, disk, listing);
    IdlePass(once, disk, AllPaths(once.files, listing));
  }

  // ---- the pass itself ----

  datatype Freshness = Fresh | Indexing | Reconciling | Degraded | Stale

  function FreshnessText(f: Freshness): string {
    match f
    case Fresh => "fresh"
    case Indexing => "indexing"
    case Reconciling => "reconciling"
    case Degraded => "degraded"
    case Stale => "stale"
  }

  lemma FreshTexts()
    ensures FreshnessText(Fresh) == "fresh" && FreshnessText(Degraded) == "degraded"
    ensures FreshnessText(Reconciling) == "reconciling"
  {
  }

  const PassKeys := {"index_generation", "last_index_failed", "reconcile_progress", "reconcile_bulk"}

  /** The state, stamped with the time only when it changes. */
  method SetFreshness(store: Store, f: Freshness, now: nat)
    modifies store`meta
    ensures var before := old(store.meta);
            store.meta == if "freshness" in before && before["freshness"] == FreshnessText(f) then before
                          else before["freshness" := FreshnessText(f)]["freshness_since" := Decimal.Print(now)]
  {
    var changed := !("freshness" in store.meta && store.meta["freshness"] == FreshnessText(f));
    store.SetMeta("freshness", FreshnessText(f));
    if changed {
      store.SetMeta("freshness_since", Decimal.Print(now));
    }
  }

  lemma CountersAreKeys(before: map<string, string>, after: map<string, string>)
    requires OnlyCountersMove(before, after)
    ensures after - PassKeys == before - PassKeys
  {
    var two := {"index_generation", "last_index_failed"};
    assert after - PassKeys == (after - two) - PassKeys;
    assert before - PassKeys == (before - two) - PassKeys;
  }

  function Counted(r: Report, o: Outcome): Report {
    match o
    case Reindexed(_) => r.(updated := r.updated + 1)
    case Removed => r.(removed := r.removed + 1)
    case SkippedUnchanged => r.(unmoved := r.unmoved + 1)
    case SkippedUnsupported => r
    case Failed => r
  }

  lemma OutcomeCounts(g: Graph, ev: Event, o: Outcome, r: Report)
    requires Reported(g, ev, Ok(o))
    ensures Counted(r, o) == Count(r, g, ev)
  {
  }

  ghost predicate Rough(disk: Disk, paths: seq<string>) { exists p :: p in paths && !Smooth(disk(p)) }

  /** The pass got as far as replacing the n-th path. */
  ghost predicate FailedAt(g: Graph, disk: Disk, paths: seq<string>, n: nat) {
    n < |paths| && Replaces(Pass(g, disk, paths[..n]), Event(paths[n], disk(paths[n])))
  }

  /**
   On success the graph has taken one step per path; a failure is a rough path, or at a replacement an embedder
   that does not answer.
   */
  method ReconcileInner(store: Store, embedder: Option<Embedder>, disk: Disk, listing: seq<string>)
    returns (r: Result<Report, Error>)
    requires store.Valid()
    modifies store
    ensures store.Valid() && store.meta - PassKeys == old(store.meta) - PassKeys
    ensures var g, paths := old(store.G()), AllPaths(old(store.files), listing);
            && (r.Ok? ==> store.G() == Pass(g, disk, paths) && r.value == ReportOf(g, disk, paths))
            && (r.Err? ==> Rough(disk, paths) || (!Willing(embedder) && exists n :: FailedAt(g, disk, paths, n)))
    ensures store.vecAvailable && FlagsMatch(old(store.V())) ==> FlagsMatch(store.V())
  {
    hide Schema.Valid, ChunksValid, Step, Pass, ReportOf, Count, Counted, Replaces, WellFormed, AllPaths, FlagsMatch,
         FlaggedFrom, Reported, OnlyCountersMove, StepShelf, GenerationIn, FailedCount, Willing, Drained,
         Decimal.Print, Rough, ChunkSymbolsHeld, ResolvedCount, MetaSays;
    ghost var g := store.G();
    var paths := AllPaths(store.files, listing);
    var report := Report(0, 0, 0);
    var bulkFlagged := false;
    assert paths[..0] == [];
    StartOfPass(g, disk);
    for i := 0 to |paths|
      invariant store.Valid() && store.G() == Pass(g, disk, paths[..i])
      invariant report == ReportOf(g, disk, paths[..i])
      invariant store.meta - PassKeys == old(store.meta) - PassKeys
      invariant store.vecAvailable && FlagsMatch(old(store.V())) ==> FlagsMatch(store.V())
    {
      ghost var before, ev := store.G(), Event(paths[i], disk(paths[i]));
      assert paths[..i + 1] == paths[..i] + [paths[i]];
      PassOneMore(g, disk, paths[..i], paths[i]);
      ghost var meta := store.meta;
      var outcome := UpdateFile(store, embedder, Event(paths[i], disk(paths[i])));
      CountersAreKeys(meta, store.meta);
      if outcome.Err? {
        ErrMeansReplace(before, ev, outcome.error);
        FailureIsWitnessed(g, disk, paths, i);
        return Err(outcome.error);
      }
      OutcomeCounts(before, ev, outcome.value, report);
      report := Counted(report, outcome.value);
      if !bulkFlagged && report.updated + report.removed > BULK_REINDEX_THRESHOLD {
        store.SetMeta("reconcile_bulk", "1");
        bulkFlagged := true;
      }
      if (i + 1) % PROGRESS_EVERY == 0 || i + 1 == |paths| {
        store.SetMeta("reconcile_progress", Decimal.Print(i + 1) + "/" + Decimal.Print(|paths|));
      }
    }
    assert paths[..|paths|] == paths;
    return Ok(report);
  }

  lemma StartOfPass(g: Graph, disk: Disk)
    ensures Pass(g, disk, []) == g && ReportOf(g, disk, []) == Report(0, 0, 0)
  {
  }

  lemma FailureIsWitnessed(g: Graph, disk: Disk, paths: seq<string>, n: nat)
    requires n < |paths|
    ensures Replaces(Pass(g, disk, paths[..n]), Event(paths[n], disk(paths[n]))) <==> FailedAt(g, disk, paths, n)
    ensures !Smooth(disk(paths[n])) ==> Rough(disk, paths)
  {
    hide Pass, Replaces, Smooth;
  }

  lemma ErrMeansReplace(g: Graph, ev: Event, e: Error)
    requires Reported(g, ev, Err(e))
    ensures Replaces(g, ev) || !Smooth(ev.content)
  {
  }

  /**
   Whatever happens inside, the pass ends with no progress or bulk key and a state other than Reconciling; on a
   still and smooth disk it leaves exactly the supported paths, and repeats as the identity.
   */
  method ReconcileAll(store: Store, embedder: Option<Embedder>, disk: Disk, listing: seq<string>, now: nat)
    returns (r: Result<Report, Error>)
    requires store.Valid()
    modifies store
    ensures store.Valid()
    ensures "reconcile_progress" !in store.meta && "reconcile_bulk" !in store.meta
    ensures "freshness" in store.meta && store.meta["freshness"] == if r.Ok? then "fresh" else "degraded"
    ensures Willing(embedder) && !Rough(disk, AllPaths(old(store.files), listing)) ==> r.Ok?
    ensures r.Ok? && !Rough(disk, AllPaths(old(store.files), listing)) ==>
              forall p :: FileHash(store.G(), p) ==
                          if p in AllPaths(old(store.files), listing) then Current(disk(p)) else None
    ensures InSync(old(store.G()), disk, AllPaths(old(store.files), listing))
            && !Rough(disk, AllPaths(old(store.files), listing)) ==>
              r.Ok? && r.value.updated == 0 && store.G() == old(store.G())
    ensures store.vecAvailable && FlagsMatch(old(store.V())) ==> FlagsMatch(store.V())
  {
    hide Schema.Valid, ChunksValid, Pass, ReportOf, FlagsMatch, FileHash, InSync, Replaces, AllPaths, Willing,
         FreshnessText, Decimal.Print, FailedAt, Smooth, Rough, Current;
    ghost var g, paths := store.G(), AllPaths(store.files, listing);
    SetFreshness(store, Reconciling, now);
    r := ReconcileInner(store, embedder, disk, listing);
    store.DeleteMeta("reconcile_progress");
    store.DeleteMeta("reconcile_bulk");
    assert FreshnessText(Fresh) == "fresh" && FreshnessText(Degraded) == "degraded" by { FreshTexts(); }
    SetFreshness(store, if r.Ok? then Fresh else Degraded, now);
    if !Rough(disk, paths) { SmoothPassEnds(g, disk, listing); }
    if InSync(g, disk, paths) {
      IdlePass(g, disk, paths);
      forall n ensures !FailedAt(g, disk, paths, n) { IdlePrefix(g, disk, paths, n); }
    }
  }

  lemma SmoothPassEnds(g: Graph, disk: Disk, listing: seq<string>)
    requires Schema.Valid(g) && !Rough(disk, AllPaths(g.files, listing))
    ensures forall p :: FileHash(Pass(g, disk, AllPaths(g.files, listing)), p) ==
                        if p in AllPaths(g.files, listing) then Current(disk(p)) else None
  {
    hide Schema.Valid, Pass, FileHash, AllPaths, Smooth, Current;
    var paths := AllPaths(g.files, listing);
    forall p ensures FileHash(Pass(g, disk, paths), p) == if p in paths then Current(disk(p)) else None {
      PassSyncs(g, disk, paths, p);
      OutsidePaths(g, listing, p);
    }
  }

  /** A file that is ignored now, but still on disk, keeps its row: nothing in a pass removes it. */
  lemma IgnoredFileIsKept(g: Graph, disk: Disk, listing: seq<string>, p: string)
    requires Schema.Valid(g) && forall q :: q in AllPaths(g.files, listing) ==> Smooth(disk(q))
    requires FileHash(g, p).Some? && p !in listing && disk(p).Source?
    ensures FileHash(Pass(g, disk, AllPaths(g.files, listing)), p) == Some(disk(p).hash)
    ensures p in Paths(Pass(g, disk, AllPaths(g.files, listing)).files)
  {
    hide Schema.Valid, Pass;
    PathsMembers(g.files, listing, p);
    PassSyncs(g, disk, AllPaths(g.files, listing), p);
    PathsMembers(Pass(g, disk, AllPaths(g.files, listing)).files, [], p);
  }

  lemma OutsidePaths(g: Graph, listing: seq<string>, p: string)
    ensures p !in AllPaths(g.files, listing) ==> FileHash(g, p).None?
  {
    PathsMembers(g.files, listing, p);
  }

  lemma IdlePrefix(g: Graph, disk: Disk, paths: seq<string>, n: nat)
    requires InSync(g, disk, paths)
    ensures !FailedAt(g, disk, paths, n)
  {
    if n < |paths| { IdlePass(g, disk, paths[..n]); }
  }
}
