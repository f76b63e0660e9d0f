/** Draining the embedding backlog in batches, with one vector shared by identical chunks. */
module Embedding {
  import opened Wrappers
  import opened Sequences
  import opened Sorting
  import opened Schema
  import opened Vectors
  import opened Stores

  const BATCH := 256

  type Embedder = seq<string> -> Result<seq<Vector>, string>

  /** Every request is answered, with one vector per text. */
  ghost predicate Answers(embed: Embedder) { forall ts :: Answered(embed, ts) }

  predicate Answered(embed: Embedder, ts: seq<string>) { embed(ts).Ok? && |embed(ts).value| == |ts| }

  /** The embedder always answers, with the same vector for the same text. */
  ghost predicate Deterministic(embed: Embedder, f: string -> Vector) {
    forall ts :: embed(ts) == Ok(seq(|ts|, i requires 0 <= i < |ts| => f(ts[i])))
  }

  function MissingRows(chunks: seq<ChunkRow>): seq<ChunkRow> { Keep(chunks, (c: ChunkRow) => !c.embedded) }

  function MissingIds(chunks: seq<ChunkRow>): set<nat> { set c | c in chunks && !c.embedded :: c.id }

  function Backlog(v: Shelf, vecAvailable: bool): nat {
    if vecAvailable then |MissingIds(v.chunks)| else |v.chunks|
  }

  /** A page of the backlog: distinct, in hash order, nothing smaller left behind. */
  ghost predicate Page(chunks: seq<ChunkRow>, limit: nat, rows: seq<ChunkRow>) {
    && (forall r :: r in rows ==> r in chunks && !r.embedded)
    && (forall i, j :: 0 <= i < j < |rows| ==> rows[i].contentHash <= rows[j].contentHash)
    && (forall i, j :: 0 <= i < j < |rows| ==> rows[i].id != rows[j].id)
    && |rows| == (if |MissingIds(chunks)| < limit then |MissingIds(chunks)| else limit)
    && (forall c, r :: c in chunks && !c.embedded && c !in rows && r in rows ==> r.contentHash <= c.contentHash)
  }

  function HashLe(): (ChunkRow, ChunkRow) -> bool { (a: ChunkRow, b: ChunkRow) => a.contentHash <= b.contentHash }

  function ByHash(chunks: seq<ChunkRow>): seq<ChunkRow> {
    SortBy(MissingRows(chunks), HashLe())
  }

  lemma DistinctCount(rows: seq<ChunkRow>)
    requires forall i, j :: 0 <= i < j < |rows| ==> rows[i].id != rows[j].id
    ensures |ChunkIds(rows)| == |rows|
  {
    if rows != [] {
      var init, last := rows[..|rows| - 1], rows[|rows| - 1];
      assert rows == init + [last];
      DistinctCount(init);
      assert ChunkIds(rows) == ChunkIds(init) + {last.id};
    }
  }

  lemma MissingInOrder(chunks: seq<ChunkRow>)
    requires ChunkIdsAscend(chunks)
    ensures ChunkIdsAscend(MissingRows(chunks)) && |MissingRows(chunks)| == |MissingIds(chunks)|
    ensures forall c :: c in MissingRows(chunks) <==> c in chunks && !c.embedded
  {
    var missing := MissingRows(chunks);
    KeepOrder(chunks, (c: ChunkRow) => !c.embedded, (a: ChunkRow, b: ChunkRow) => a.id < b.id);
    DistinctCount(missing);
    assert ChunkIds(missing) == MissingIds(chunks);
  }

  /** The backlog in hash order holds each missing chunk once. */
  lemma BacklogSorted(chunks: seq<ChunkRow>)
    requires ChunkIdsAscend(chunks)
    ensures var all := ByHash(chunks);
            && (forall c :: c in all <==> c in chunks && !c.embedded)
            && (forall i, j :: 0 <= i < j < |all| ==>
                  all[i].contentHash <= all[j].contentHash && all[i].id != all[j].id)
            && |all| == |MissingIds(chunks)|
  {
    hide MissingRows, MissingIds;
    MissingInOrder(chunks);
    SortBySorted(MissingRows(chunks), HashLe());
    SortedDistinct(MissingRows(chunks), HashLe());
    var all := ByHash(chunks);
    assert DistinctIds(all);
    forall i, j | 0 <= i < j < |all| ensures all[i].contentHash <= all[j].contentHash && all[i].id != all[j].id {
      assert HashLe()(all[i], all[j]);
    }
  }

  ghost predicate DistinctIds(rows: seq<ChunkRow>) {
    forall i, j :: 0 <= i < j < |rows| ==> rows[i].id != rows[j].id
  }

  lemma SortedDistinct(rows: seq<ChunkRow>, le: (ChunkRow, ChunkRow) -> bool)
    requires forall i, j :: 0 <= i < j < |rows| ==> rows[i].id < rows[j].id
    ensures DistinctIds(SortBy(rows, le))
  {
    var r := SortBy(rows, le);
    SortByElements(rows, le);
    StayDifferent(rows, r);
    forall i, j | 0 <= i < j < |r| ensures r[i].id != r[j].id {
      assert r[i] in rows && r[j] in rows && r[i] != r[j];
    }
  }

  method ChunksMissingEmbedding(store: Store, limit: nat) returns (rows: seq<ChunkRow>)
    requires store.Valid()
    ensures store.vecAvailable ==> Page(store.chunks, limit, rows)
    ensures !store.vecAvailable ==> rows == []
  {
    hide Schema.Valid, ByHash;
    if !store.vecAvailable { return []; }
    var all := ByHash(store.chunks);
    BacklogSorted(store.chunks);
    rows := if |all| <= limit then all else all[..limit];
    PrefixIsPage(store.chunks, all, limit);
    assert all[..|all|] == all;
  }

  /** What a prefix of a list in hash order leaves behind is no smaller. */
  lemma PrefixIsSmallest(all: seq<ChunkRow>, n: nat, c: ChunkRow, r: ChunkRow)
    requires n <= |all| && forall i, j :: 0 <= i < j < |all| ==> all[i].contentHash <= all[j].contentHash
    requires c in all && c !in all[..n] && r in all[..n]
    ensures r.contentHash <= c.contentHash
  {
    var i :| 0 <= i < n && all[..n][i] == r;
    var j :| 0 <= j < |all| && all[j] == c;
    forall k | 0 <= k < n ensures all[k] != c { assert all[k] == all[..n][k]; }
  }

  lemma PrefixIsPage(chunks: seq<ChunkRow>, all: seq<ChunkRow>, limit: nat)
    requires forall c :: c in all <==> c in chunks && !c.embedded
    requires forall i, j :: 0 <= i < j < |all| ==> all[i].contentHash <= all[j].contentHash && all[i].id != all[j].id
    requires |all| == |MissingIds(chunks)|
    ensures Page(chunks, limit, all[..if |all| <= limit then |all| else limit])
  {
    hide MissingIds;
    var n := if |all| <= limit then |all| else limit;
    var rows := all[..n];
    assert forall r :: r in rows ==> r in all;
    forall c, r | c in chunks && !c.embedded && c !in rows && r in rows ensures r.contentHash <= c.contentHash {
      PrefixIsSmallest(all, n, c, r);
    }
  }

  // ---- groups of identical chunks ----

  ghost predicate Uniform(group: seq<ChunkRow>) {
    |group| > 0 && forall c :: c in group ==> c.contentHash == group[0].contentHash
  }

  lemma UniformExtended(group: seq<ChunkRow>, c: ChunkRow)
    requires Uniform(group) && group[0].contentHash == c.contentHash
    ensures Uniform(group + [c])
  {
    forall x | x in group + [c] ensures x.contentHash == group[0].contentHash {
      assert x in group || x == c;
    }
  }

  function Flatten(groups: seq<seq<ChunkRow>>): seq<ChunkRow> {
    if groups == [] then [] else Flatten(groups[..|groups| - 1]) + groups[|groups| - 1]
  }

  /** `chunk_by` on equal hashes: each run of neighbours with one hash. */
  function GroupRuns(rows: seq<ChunkRow>): (r: seq<seq<ChunkRow>>)
    ensures forall g :: g in r ==> Uniform(g)
    ensures rows != [] ==> r != [] && |r[|r| - 1]| > 0 && r[|r| - 1][|r[|r| - 1]| - 1] == rows[|rows| - 1]
  {
    if rows == [] then []
    else
      var init, last := GroupRuns(rows[..|rows| - 1]), rows[|rows| - 1];
      if init != [] && init[|init| - 1][0].contentHash == last.contentHash
      then
        var g := init[|init| - 1] + [last];
        UniformExtended(init[|init| - 1], last);
        init[..|init| - 1] + [g]
      else
        assert Uniform([last]);
        init + [[last]]
  }

  lemma FlattenLast(groups: seq<seq<ChunkRow>>, g: seq<ChunkRow>)
    ensures Flatten(groups + [g]) == Flatten(groups) + g
  {
    assert (groups + [g])[..|groups|] == groups;
  }

  lemma {:induction false} GroupsPartition(rows: seq<ChunkRow>)
    ensures Flatten(GroupRuns(rows)) == rows
  {
    if rows != [] {
      var last := rows[|rows| - 1];
      var init: seq<seq<ChunkRow>> := GroupRuns(rows[..|rows| - 1]);
      GroupsPartition(rows[..|rows| - 1]);
      assert rows == rows[..|rows| - 1] + [last];
      FlattenLast(init, [last]);
      if init != [] && init[|init| - 1][0].contentHash == last.contentHash {
        var n := |init| - 1;
        assert init == init[..n] + [init[n]];
        FlattenJoined(init[..n], init[n], last);
      }
      hide Flatten;
    }
  }

  /** A chunk that joins the last group comes last. */
  lemma FlattenJoined(groups: seq<seq<ChunkRow>>, last: seq<ChunkRow>, c: ChunkRow)
    ensures Flatten(groups + [last + [c]]) == Flatten(groups + [last]) + [c]
  {
    hide Flatten;
    FlattenLast(groups, last);
    FlattenLast(groups, last + [c]);
    JoinedTwice(Flatten(groups), last, [c]);
  }

  lemma JoinedTwice<T>(a: seq<T>, b: seq<T>, c: seq<T>)
    ensures a + (b + c) == (a + b) + c
  {
  }

  function Hashes(rows: seq<ChunkRow>): set<nat> { set c | c in rows :: c.contentHash }

  lemma LastRun(rows: seq<ChunkRow>)
    requires rows != []
    ensures var r := GroupRuns(rows);
            r != [] && r[|r| - 1] != [] && r[|r| - 1][0].contentHash == rows[|rows| - 1].contentHash
  {
    var g := GroupRuns(rows)[|GroupRuns(rows)| - 1];
    assert g in GroupRuns(rows) && g[|g| - 1] in g;
  }

  lemma HashAppears(rows: seq<ChunkRow>, last: ChunkRow)
    requires rows != []
    requires forall i, j :: 0 <= i < j < |rows| ==> rows[i].contentHash <= rows[j].contentHash
    requires rows[|rows| - 1].contentHash <= last.contentHash
    ensures last.contentHash in Hashes(rows) <==> rows[|rows| - 1].contentHash == last.contentHash
  {
    assert rows[|rows| - 1] in rows;
    forall c | c in rows ensures c.contentHash <= rows[|rows| - 1].contentHash {
      var i :| 0 <= i < |rows| && rows[i] == c;
    }
  }

  lemma RunsGrow(init: seq<ChunkRow>, last: ChunkRow)
    ensures |GroupRuns(init + [last])| ==
            |GroupRuns(init)| + (if init != [] && init[|init| - 1].contentHash == last.contentHash then 0 else 1)
  {
    assert (init + [last])[..|init|] == init;
    if init != [] { LastRun(init); }
  }

  lemma HashesGrow(init: seq<ChunkRow>, last: ChunkRow)
    ensures |Hashes(init + [last])| == |Hashes(init)| + (if last.contentHash in Hashes(init) then 0 else 1)
  {
    var all := init + [last];
    assert forall c :: c in all <==> c in init || c == last;
    assert Hashes(all) == Hashes(init) + {last.contentHash};
  }

  /** Rows in hash order make one group per distinct hash. */
  lemma {:induction false} GroupPerHash(rows: seq<ChunkRow>)
    requires forall i, j :: 0 <= i < j < |rows| ==> rows[i].contentHash <= rows[j].contentHash
    ensures |GroupRuns(rows)| == |Hashes(rows)|
  {
    if rows != [] {
      var init, last := rows[..|rows| - 1], rows[|rows| - 1];
      hide GroupRuns, Hashes;
      assert rows == init + [last];
      GroupPerHash(init);
      RunsGrow(init, last);
      HashesGrow(init, last);
      if init != [] {
        HashAppears(init, last);
      } else {
        NoHashes();
      }
    } else {
      NoHashes();
    }
  }

  lemma NoHashes()
    ensures Hashes([]) == {} && GroupRuns([]) == []
  {
  }

  /** Each chunk of a group with its group's vector. */
  function Ready(groups: seq<seq<ChunkRow>>, vecs: seq<Vector>): (r: seq<(nat, Vector)>)
    requires |groups| == |vecs|
    ensures |r| == |Flatten(groups)|
  {
    if groups == [] then []
    else
      var n := |groups| - 1;
      var g := groups[n];
      Ready(groups[..n], vecs[..n]) + seq(|g|, k requires 0 <= k < |g| => (g[k].id, vecs[n]))
  }

  lemma {:induction false} ReadyRows(groups: seq<seq<ChunkRow>>, vecs: seq<Vector>)
    requires |groups| == |vecs|
    ensures RowIds(Ready(groups, vecs)) == ChunkIds(Flatten(groups))
    ensures forall r :: r in Ready(groups, vecs) ==>
              exists i, c :: 0 <= i < |groups| && c in groups[i] && r == (c.id, vecs[i])
  {
    if groups != [] {
      var n := |groups| - 1;
      var g := groups[n];
      ReadyRows(groups[..n], vecs[..n]);
      var more := seq(|g|, k requires 0 <= k < |g| => (g[k].id, vecs[n]));
      assert RowIds(more) == ChunkIds(g) by {
        assert forall k :: 0 <= k < |g| ==> more[k].0 == g[k].id && g[k] in g && more[k] in more;
      }
      assert RowIds(Ready(groups, vecs)) == RowIds(Ready(groups[..n], vecs[..n])) + RowIds(more);
      assert ChunkIds(Flatten(groups)) == ChunkIds(Flatten(groups[..n])) + ChunkIds(g);
      forall r | r in Ready(groups, vecs)
        ensures exists i, c :: 0 <= i < |groups| && c in groups[i] && r == (c.id, vecs[i])
      {
        if r in more {
          var k :| 0 <= k < |g| && more[k] == r;
          assert g[k] in groups[n] && r == (g[k].id, vecs[n]);
        } else {
          var i, c :| 0 <= i < n && c in groups[..n][i] && r == (c.id, vecs[..n][i]);
          assert c in groups[i] && r == (c.id, vecs[i]);
        }
      }
    }
  }

  method ShareVectors(groups: seq<seq<ChunkRow>>, vecs: seq<Vector>) returns (ready: seq<(nat, Vector)>)
    requires |groups| == |vecs|
    ensures ready == Ready(groups, vecs)
  {
    ready := [];
    for i := 0 to |groups|
      invariant ready == Ready(groups[..i], vecs[..i])
    {
      ghost var before := ready;
      for k := 0 to |groups[i]|
        invariant ready == before + seq(k, j requires 0 <= j < k => (groups[i][j].id, vecs[i]))
      {
        ready := ready + [(groups[i][k].id, vecs[i])];
      }
      assert groups[..i + 1][..i] == groups[..i] && vecs[..i + 1][..i] == vecs[..i];
    }
    assert groups[..|groups|] == groups && vecs[..|vecs|] == vecs;
  }

  // ---- the loop ----

  function Text(group: seq<ChunkRow>): string
    requires Uniform(group)
  {
    group[0].content
  }

  /** One text per group: the content of its first chunk. */
  function Texts(groups: seq<seq<ChunkRow>>): (r: seq<string>)
    requires forall i :: 0 <= i < |groups| ==> Uniform(groups[i])
    ensures |r| == |groups|
  {
    seq(|groups|, i requires 0 <= i < |groups| && Uniform(groups[i]) => Text(groups[i]))
  }

  lemma BacklogAfterPut(chunks: seq<ChunkRow>, ids: set<nat>)
    ensures MissingIds(Flag(chunks, ids)) == MissingIds(chunks) - ids
  {
    hide Flag;
    FlagMembers(chunks, ids);
    forall c | c in chunks && !c.embedded && c.id !in ids ensures c.id in MissingIds(Flag(chunks, ids)) {
      assert FlagRow(c, ids) in Flag(chunks, ids);
    }
  }

  /** A page strictly shrinks the backlog, by exactly its length. */
  lemma PageShrinksBacklog(chunks: seq<ChunkRow>, limit: nat, rows: seq<ChunkRow>)
    requires ChunkIdsAscend(chunks) && Page(chunks, limit, rows)
    ensures ChunkIds(rows) <= MissingIds(chunks)
    ensures |MissingIds(Flag(chunks, ChunkIds(rows)))| == |MissingIds(chunks)| - |rows|
  {
    DistinctCount(rows);
    BacklogAfterPut(chunks, ChunkIds(rows));
    assert |MissingIds(chunks) - ChunkIds(rows)| == |MissingIds(chunks)| - |ChunkIds(rows)|;
  }

  ghost predicate Injective(blake3: string -> nat) {
    forall a, b :: blake3(a) == blake3(b) ==> a == b
  }

  /** With one hash per content, sharing a group's vector gives each chunk the vector of its own content. */
  lemma OwnRows(groups: seq<seq<ChunkRow>>, vecs: seq<Vector>, f: string -> Vector, blake3: string -> nat)
    requires |groups| == |vecs| && Injective(blake3)
    requires forall i :: 0 <= i < |groups| ==> Uniform(groups[i]) && vecs[i] == f(Text(groups[i]))
    requires forall c :: c in Flatten(groups) ==> c.contentHash == blake3(c.content)
    ensures forall r :: r in Ready(groups, vecs) ==> exists c :: c in Flatten(groups) && r == (c.id, f(c.content))
  {
    ReadyRows(groups, vecs);
    hide Ready, Flatten;
    forall r | r in Ready(groups, vecs) ensures exists c :: c in Flatten(groups) && r == (c.id, f(c.content)) {
      var i: nat, c: ChunkRow :| 0 <= i < |groups| && c in groups[i] && r == (c.id, vecs[i]);
      InFlatten(groups, i, c);
      InFlatten(groups, i, groups[i][0]);
      assert c.content == Text(groups[i]);
    }
  }

  lemma AnsweredTexts(embed: Embedder, f: string -> Vector, groups: seq<seq<ChunkRow>>)
    requires Deterministic(embed, f) && forall i :: 0 <= i < |groups| ==> Uniform(groups[i])
    ensures var vecs := embed(Texts(groups));
            && vecs.Ok? && |vecs.value| == |groups|
            && forall i :: 0 <= i < |groups| ==> vecs.value[i] == f(Text(groups[i]))
  {
    assert embed(Texts(groups)) == Ok(seq(|groups|, i requires 0 <= i < |groups| => f(Texts(groups)[i])));
  }

  /** Vectors for one page: each group embedded once, its vector shared. */
  method EmbedPage(missing: seq<ChunkRow>, embed: Embedder, ghost f: string -> Vector, ghost blake3: string -> nat)
    returns (ready: Result<seq<(nat, Vector)>, Error>, sent: nat)
    requires missing != [] && forall c :: c in missing ==> c.contentHash == blake3(c.content)
    ensures sent == |GroupRuns(missing)|
    ensures ready.Err? ==> ready.error == EmbedderFailed || ready.error == LengthMismatch
    ensures Answers(embed) ==> ready.Ok?
    ensures ready.Ok? ==> |ready.value| == |missing| && RowIds(ready.value) == ChunkIds(missing)
    ensures Deterministic(embed, f) && Injective(blake3) ==>
              ready.Ok? && forall r :: r in ready.value ==> exists c :: c in missing && r == (c.id, f(c.content))
  {
    hide Uniform, Flatten, Ready, Injective, Deterministic, RowIds, ChunkIds, Text, Texts;
    var groups := GroupRuns(missing);
    GroupsPartition(missing);
    forall i | 0 <= i < |groups| ensures Uniform(groups[i]) { assert groups[i] in groups; }
    hide GroupRuns;
    var texts := Texts(groups);
    sent := |groups|;
    var vecs := embed(texts);
    assert Answers(embed) ==> Answered(embed, texts);
    if Deterministic(embed, f) { AnsweredTexts(embed, f, groups); }
    if vecs.Err? { return Err(EmbedderFailed), sent; }
    if |vecs.value| != |texts| { return Err(LengthMismatch), sent; }
    var rows := ShareVectors(groups, vecs.value);
    ReadyRows(groups, vecs.value);
    if Deterministic(embed, f) && Injective(blake3) { OwnRows(groups, vecs.value, f, blake3); }
    return Ok(rows), sent;
  }

  lemma {:induction false} InFlatten(groups: seq<seq<ChunkRow>>, i: nat, c: ChunkRow)
    requires i < |groups| && c in groups[i]
    ensures c in Flatten(groups)
  {
    if i < |groups| - 1 { InFlatten(groups[..|groups| - 1], i, c); }
  }

  // ---- what a run of pages adds up to ----

  lemma FlagTwice(chunks: seq<ChunkRow>, a: set<nat>, b: set<nat>)
    ensures Flag(Flag(chunks, a), b) == Flag(chunks, a + b)
  {
  }

  lemma FlagNothing(chunks: seq<ChunkRow>)
    ensures Flag(chunks, {}) == chunks
  {
  }

  /** Hash sets that only meet at one boundary value overlap in at most one element. */
  lemma HashesOverlap(a: set<nat>, b: set<nat>)
    requires forall x, y :: x in a && y in b ==> x <= y
    ensures |a + b| >= |a| + |b| - 1
    ensures a == {} ==> |a + b| == |b|
  {
    var both := a * b;
    assert |a + b| == |a| + |b| - |both|;
    if both != {} {
      var m :| m in both;
      assert both == {m} by {
        forall x | x in both ensures x == m { assert x <= m && m <= x; }
      }
    }
    if a == {} { assert a + b == b; }
  }

  /** The value under an id after an upsert whose rows for that id all carry it. */
  lemma {:induction false} UpsertValue(table: map<nat, Vector>, rows: seq<(nat, Vector)>, id: nat, v: Vector)
    requires forall r :: r in rows && r.0 == id ==> r.1 == v
    requires id in RowIds(rows) || (id in table && table[id] == v)
    ensures id in Upsert(table, rows) && Upsert(table, rows)[id] == v
  {
    if rows != [] {
      var init, last := rows[..|rows| - 1], rows[|rows| - 1];
      assert rows == init + [last];
      if last.0 != id { UpsertValue(table, init, id, v); }
    }
  }

  lemma {:induction false} UpsertOther(table: map<nat, Vector>, rows: seq<(nat, Vector)>, id: nat)
    requires id !in RowIds(rows)
    ensures id in Upsert(table, rows) <==> id in table
    ensures id in table ==> Upsert(table, rows)[id] == table[id]
  {
    if rows != [] {
      var init, last := rows[..|rows| - 1], rows[|rows| - 1];
      assert rows == init + [last];
      assert last in rows;
      UpsertOther(table, init, id);
    }
  }

  function TableOf(t: Option<map<nat, Vector>>): map<nat, Vector> { if t.Some? then t.value else map[] }

  predicate SameEntry(a: map<nat, Vector>, b: map<nat, Vector>, id: nat) {
    (id in a <==> id in b) && (id in a ==> a[id] == b[id])
  }

  /** Since `before`, exactly the chunks `done` received a vector, each the vector of its own content. */
  ghost predicate Progress(before: Shelf, now: Option<map<nat, Vector>>, done: set<nat>, f: string -> Vector) {
    && (forall c :: c in before.chunks && c.id in done ==> c.id in TableOf(now) && TableOf(now)[c.id] == f(c.content))
    && (forall id :: id !in done ==> SameEntry(TableOf(now), TableOf(before.table), id))
  }

  lemma ProgressStart(before: Shelf, f: string -> Vector)
    ensures Progress(before, before.table, ChunkIds([]), f)
  {
  }

  lemma ProgressAfterPage(before: Shelf, now: Option<map<nat, Vector>>, done: set<nat>, f: string -> Vector,
                          page: seq<ChunkRow>, ready: seq<(nat, Vector)>)
    requires Progress(before, now, done, f) && ChunkIdsAscend(before.chunks)
    requires RowIds(ready) == ChunkIds(page)
    requires forall c :: c in page ==> exists o :: o in before.chunks && o.id == c.id && o.content == c.content
    requires forall r :: r in ready ==> exists c :: c in page && r == (c.id, f(c.content))
    ensures Progress(before, Some(Upsert(TableOf(now), ready)), done + ChunkIds(page), f)
  {
    forall c | c in before.chunks && c.id in done + ChunkIds(page)
      ensures c.id in Upsert(TableOf(now), ready) && Upsert(TableOf(now), ready)[c.id] == f(c.content)
    {
      forall r | r in ready && r.0 == c.id ensures r.1 == f(c.content) {
        var p :| p in page && r == (p.id, f(p.content));
        var o :| o in before.chunks && o.id == p.id && o.content == p.content;
        assert o == c;
      }
      UpsertValue(TableOf(now), ready, c.id, f(c.content));
    }
    forall id | id !in done + ChunkIds(page)
      ensures SameEntry(Upsert(TableOf(now), ready), TableOf(before.table), id)
    {
      UpsertOther(TableOf(now), ready, id);
    }
  }

  /** Counts kept by the batch loop: chunks embedded, texts sent, pages read. */
  ghost predicate Tally(before: seq<ChunkRow>, now: seq<ChunkRow>, done: seq<ChunkRow>, embedded: nat, sent: nat,
                        batches: nat)
  {
    && now == Flag(before, ChunkIds(done))
    && (forall c :: c in done ==> c in before && !c.embedded)
    && embedded + |MissingIds(now)| == |MissingIds(before)|
    && embedded <= BATCH * batches && (embedded == BATCH * batches || MissingIds(now) == {})
    && (batches > 0 ==> BATCH * (batches - 1) < embedded)
    && (batches == 0 ==> done == [] && sent == 0 && embedded == 0)
    && (batches > 0 ==> sent <= |Hashes(done)| + batches - 1)
    && (forall a, b :: a in done && b in now && !b.embedded ==> a.contentHash <= b.contentHash)
  }

  lemma MissingRowsAreOld(before: seq<ChunkRow>, ids: set<nat>)
    ensures forall c :: c in Flag(before, ids) && !c.embedded ==> c in before && c.id !in ids
    ensures forall c :: c in before && !c.embedded && c.id !in ids ==> c in Flag(before, ids)
  {
    hide Flag;
    FlagMembers(before, ids);
  }

  lemma FlagKeepsOrder(chunks: seq<ChunkRow>, ids: set<nat>)
    requires ChunkIdsAscend(chunks)
    ensures ChunkIdsAscend(Flag(chunks, ids))
  {
  }

  lemma PageOrder(now: seq<ChunkRow>, page: seq<ChunkRow>, after: seq<ChunkRow>)
    requires Page(now, BATCH, page) && after == Flag(now, ChunkIds(page))
    ensures forall a, b :: a in page && b in after && !b.embedded ==> a.contentHash <= b.contentHash
  {
    MissingRowsAreOld(now, ChunkIds(page));
    forall a, b | a in page && b in after && !b.embedded ensures a.contentHash <= b.contentHash {
      assert b in now && b.id !in ChunkIds(page);
      assert b !in page;
    }
  }

  lemma TallyStart(chunks: seq<ChunkRow>)
    ensures Tally(chunks, chunks, [], 0, 0, 0)
  {
    FlagNothing(chunks);
    assert ChunkIds([]) == {};
  }

  /** Everything still missing is at or above everything done so far, page by page. */
  lemma TallyOrder(before: seq<ChunkRow>, now: seq<ChunkRow>, done: seq<ChunkRow>, page: seq<ChunkRow>)
    requires Page(now, BATCH, page)
    requires forall a, b :: a in done && b in now && !b.embedded ==> a.contentHash <= b.contentHash
    ensures forall a, b :: a in done + page && b in Flag(now, ChunkIds(page)) && !b.embedded ==>
              a.contentHash <= b.contentHash
    ensures forall a, b :: a in done && b in page ==> a.contentHash <= b.contentHash
  {
    hide Flag;
    MissingRowsAreOld(now, ChunkIds(page));
    PageOrder(now, page, Flag(now, ChunkIds(page)));
  }

  lemma TallySent(done: seq<ChunkRow>, page: seq<ChunkRow>, sent: nat, batches: nat)
    requires forall a, b :: a in done && b in page ==> a.contentHash <= b.contentHash
    requires forall i, j :: 0 <= i < j < |page| ==> page[i].contentHash <= page[j].contentHash
    requires batches == 0 ==> done == [] && sent == 0
    requires batches > 0 ==> sent <= |Hashes(done)| + batches - 1
    ensures sent + |GroupRuns(page)| <= |Hashes(done + page)| + batches
  {
    hide GroupRuns;
    GroupPerHash(page);
    assert Hashes(done + page) == Hashes(done) + Hashes(page);
    HashesOverlap(Hashes(done), Hashes(page));
    if batches == 0 { NoHashes(); }
  }

  lemma TallyAfterPage(before: seq<ChunkRow>, now: seq<ChunkRow>, done: seq<ChunkRow>, embedded: nat, sent: nat,
                       batches: nat, page: seq<ChunkRow>)
    requires ChunkIdsAscend(before) && Tally(before, now, done, embedded, sent, batches)
    requires page != [] && Page(now, BATCH, page)
    ensures Tally(before, Flag(now, ChunkIds(page)), done + page, embedded + |page|, sent + |GroupRuns(page)|,
                  batches + 1)
    ensures |MissingIds(Flag(now, ChunkIds(page)))| < |MissingIds(now)|
    ensures Flag(now, ChunkIds(page)) == Flag(before, ChunkIds(done + page))
    ensures forall c :: c in page ==> c in before
  {
    hide Flag, GroupRuns, Hashes, MissingIds, ChunkIds;
    FlagKeepsOrder(before, ChunkIds(done));
    MissingRowsAreOld(before, ChunkIds(done));
    FlagTwice(before, ChunkIds(done), ChunkIds(page));
    IdsConcat(done, page);
    PageShrinksBacklog(now, BATCH, page);
    TallyOrder(before, now, done, page);
    TallySent(done, page, sent, batches);
  }

  /** When nothing is missing any more, exactly the initial backlog was done. */
  lemma TallyEnd(before: seq<ChunkRow>, now: seq<ChunkRow>, done: seq<ChunkRow>, embedded: nat, sent: nat, batches: nat)
    requires Tally(before, now, done, embedded, sent, batches) && |MissingIds(now)| == 0
    ensures embedded == |MissingIds(before)| && ChunkIds(done) == MissingIds(before)
    ensures embedded > 0 ==> BATCH * (batches - 1) < embedded <= BATCH * batches
    ensures embedded > 0 ==> sent <= |Hashes(MissingRows(before))| + batches - 1
  {
    BacklogAfterPut(before, ChunkIds(done));
    assert forall c :: c in done ==> c.id in MissingIds(before) && c in MissingRows(before);
    assert Hashes(done) <= Hashes(MissingRows(before));
    SubsetSize(Hashes(done), Hashes(MissingRows(before)));
  }

  lemma {:induction false} SubsetSize(a: set<nat>, b: set<nat>)
    requires a <= b
    ensures |a| <= |b|
  {
    assert b == a + (b - a);
  }

  lemma EmptyPage(chunks: seq<ChunkRow>)
    requires Page(chunks, BATCH, [])
    ensures |MissingIds(chunks)| == 0
  {
  }

  lemma PageHashes(chunks: seq<ChunkRow>, page: seq<ChunkRow>, files: seq<FileRow>, blake3: string -> nat)
    requires ChunksValid(files, chunks, blake3) && Page(chunks, BATCH, page)
    ensures forall c :: c in page ==> c.contentHash == blake3(c.content)
    ensures ChunkIds(page) <= ChunkIds(chunks)
  {
  }

  lemma IdsConcat(a: seq<ChunkRow>, b: seq<ChunkRow>)
    ensures ChunkIds(a + b) == ChunkIds(a) + ChunkIds(b)
  {
  }

  /**
   Embeds every chunk without a vector, a page at a time. It never reports a lack of progress; and with an
   embedder that answers deterministically it empties the backlog, gives each chunk the vector of its own
   content, touches no other vector, and sends few more texts than there are distinct contents.
   */
  method EmbedPending(store: Store, embed: Embedder, ghost f: string -> Vector)
    returns (r: Result<nat, Error>, ghost sent: nat, ghost batches: nat)
    requires store.Valid()
    modifies store`chunks, store`vecTable, store`vecTableCached
    ensures store.Valid()
    ensures r.Err? ==> r.error == EmbedderFailed || r.error == LengthMismatch
    ensures Answers(embed) ==> r.Ok?
    ensures r.Ok? && store.vecAvailable ==> r.value == Backlog(old(store.V()), true) && Backlog(store.V(), true) == 0
    ensures FlaggedFrom(old(store.chunks), store.chunks)
    ensures !store.vecAvailable ==> r == Ok(0) && store.V() == old(store.V())
    ensures store.vecAvailable && FlagsMatch(old(store.V())) ==> FlagsMatch(store.V())
    ensures store.vecAvailable && Deterministic(embed, f) && Injective(store.blake3) ==>
              r.Ok? && Progress(old(store.V()), store.vecTable, MissingIds(old(store.chunks)), f)
    ensures store.vecAvailable && r.Ok? && r.value > 0 ==>
              && 256 * (batches - 1) < r.value <= 256 * batches
              && sent <= |Hashes(MissingRows(old(store.chunks)))| + batches - 1
  {
    hide Schema.Valid, ChunksValid, Flag, GroupRuns, Upsert, MissingIds, Tally, Page, Progress, FlagsMatch,
         Deterministic, Injective, Answers, MissingRows, Hashes, RowIds, ChunkIds, ChunkIdsAscend, VectorIds;
    ghost var before := store.V();
    ghost var done: seq<ChunkRow> := [];
    ghost var good := Deterministic(embed, f) && Injective(store.blake3);
    var embedded: nat := 0;
    sent, batches := 0, 0;
    TallyStart(store.chunks);
    FlagNothing(store.chunks);
    assert ChunkIdsAscend(before.chunks) by { ValidChunksAscend(store.files, store.chunks, store.blake3); }
    assert Progress(before, store.vecTable, ChunkIds(done), f) by { ProgressStart(before, f); }
    r := Ok(0);
    while true
      invariant store.Valid() && r == Ok(0)
      invariant store.chunks == Flag(before.chunks, ChunkIds(done))
      invariant store.vecAvailable ==> Tally(before.chunks, store.chunks, done, embedded, sent, batches)
      invariant !store.vecAvailable ==> store.V() == before && embedded == 0
      invariant store.vecAvailable && FlagsMatch(before) ==> FlagsMatch(store.V())
      invariant store.vecAvailable && good ==> Progress(before, store.vecTable, ChunkIds(done), f)
      decreases |MissingIds(store.chunks)|
    {
      var backlogBefore := Backlog(Shelf(store.chunks, store.vecTable), store.vecAvailable);
      var missing := ChunksMissingEmbedding(store, BATCH);
      if missing == [] {
        if store.vecAvailable {
          EmptyPage(store.chunks);
          TallyEnd(before.chunks, store.chunks, done, embedded, sent, batches);
        }
        break;
      }
      PageHashes(store.chunks, missing, store.files, store.blake3);
      var ready, texts := EmbedPage(missing, embed, f, store.blake3);
      if ready.Err? {
        r := Err(ready.error);
        break;
      }
      TallyAfterPage(before.chunks, store.chunks, done, embedded, sent, batches, missing);
      if FlagsMatch(store.V()) { PutMatches(store.V(), ready.value); }
      if good {
        ProgressAfterPage(before, store.vecTable, ChunkIds(done), f, missing, ready.value);
        IdsConcat(done, missing);
      }
      embedded := embedded + |ready.value|;
      store.PutEmbeddings(ready.value);
      done, sent, batches := done + missing, sent + texts, batches + 1;
      var backlogAfter := Backlog(Shelf(store.chunks, store.vecTable), store.vecAvailable);
      if backlogAfter >= backlogBefore {
        r := Err(NoProgress);
        break;
      }
    }
    if r.Ok? {
      r := Ok(embedded);
    }
  }
}
