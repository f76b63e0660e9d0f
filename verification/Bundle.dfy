/** Packing search results into a token budget: duplicates out, greedy by score, then grouped by file. */
module Bundle {
  import opened Wrappers
  import opened Sequences
  import opened Sorting
  import opened Schema

  /** Scores are real numbers here; `chunkId` is -1 for a slice of a file that is no chunk. */
  datatype BundleItem = BundleItem(path: string, qualname: Option<string>, startLine: nat, endLine: nat,
                                   content: string, score: real, chunkId: int)
  datatype OmittedItem = OmittedItem(name: string, score: real, startLine: nat, endLine: nat)

  function Cost(item: BundleItem): nat { EstimateTokens(item.content) + 20 }

  function CostAt(items: seq<BundleItem>, i: nat): nat { if i < |items| then Cost(items[i]) else 0 }

  function ScoreAt(items: seq<BundleItem>, i: nat): real { if i < |items| then items[i].score else 0.0 }

  // ---- one item per chunk ----

  /** `i` is the first of the best-scored items of its chunk among the first `n`. */
  predicate Best(items: seq<BundleItem>, n: nat, i: nat)
    requires n <= |items|
  {
    i < n && forall j :: 0 <= j < n && items[j].chunkId == items[i].chunkId ==>
               items[j].score < items[i].score || (items[j].score == items[i].score && i <= j)
  }

  predicate Representative(items: seq<BundleItem>, i: nat) {
    i < |items| && (items[i].chunkId == -1 || Best(items, |items|, i))
  }

  ghost predicate Ascending(s: seq<nat>) { forall i, j :: 0 <= i < j < |s| ==> s[i] < s[j] }

  /** The representatives in input order. */
  ghost predicate Deduped(items: seq<BundleItem>, kept: seq<nat>) {
    Ascending(kept) && forall i: nat :: i in kept <==> Representative(items, i)
  }

  ghost predicate BestMap(items: seq<BundleItem>, n: nat, best: map<int, nat>)
    requires n <= |items|
  {
    && (forall id :: id in best ==> id != -1 && Best(items, n, best[id]) && items[best[id]].chunkId == id)
    && (forall j :: 0 <= j < n && items[j].chunkId != -1 ==> items[j].chunkId in best)
  }

  lemma BestMapStep(items: seq<BundleItem>, n: nat, best: map<int, nat>)
    requires n < |items| && BestMap(items, n, best)
    ensures var id := items[n].chunkId;
            && (id == -1 ==> BestMap(items, n + 1, best))
            && (id != -1 && id !in best ==> BestMap(items, n + 1, best[id := n]))
            && (id != -1 && id in best && items[n].score > items[best[id]].score ==>
                  BestMap(items, n + 1, best[id := n]))
            && (id != -1 && id in best && items[n].score <= items[best[id]].score ==> BestMap(items, n + 1, best))
  {
  }

  method Dedupe(items: seq<BundleItem>) returns (kept: seq<nat>)
    ensures Deduped(items, kept)
  {
    hide BestMap;
    var best: map<int, nat> := map[];
    assert BestMap(items, 0, best) by { NoBest(items); }
    for idx := 0 to |items|
      invariant BestMap(items, idx, best)
    {
      BestMapStep(items, idx, best);
      BestMapRange(items, idx, best);
      var id := items[idx].chunkId;
      if id != -1 {
        if id !in best {
          best := best[id := idx];
        } else if items[idx].score > items[best[id]].score {
          best := best[id := idx];
        }
      }
    }
    kept := [];
    for idx := 0 to |items|
      invariant Ascending(kept) && forall k :: 0 <= k < |kept| ==> kept[k] < idx
      invariant forall i: nat :: i in kept <==> i < idx && Representative(items, i)
    {
      BestIsInMap(items, best, idx);
      if items[idx].chunkId == -1 {
        kept := kept + [idx];
      } else if items[idx].chunkId in best && best[items[idx].chunkId] == idx {
        kept := kept + [idx];
      }
    }
  }

  lemma NoBest(items: seq<BundleItem>)
    ensures BestMap(items, 0, map[])
  {
  }

  lemma BestMapRange(items: seq<BundleItem>, n: nat, best: map<int, nat>)
    requires n <= |items| && BestMap(items, n, best)
    ensures forall id :: id in best ==> best[id] < n
  {
  }

  lemma BestIsInMap(items: seq<BundleItem>, best: map<int, nat>, i: nat)
    requires BestMap(items, |items|, best) && i < |items|
    ensures items[i].chunkId != -1 ==>
              (Best(items, |items|, i) <==> items[i].chunkId in best && best[items[i].chunkId] == i)
  {
    var id := items[i].chunkId;
    if id != -1 {
      var b := best[id];
      assert items[b].chunkId == id && Best(items, |items|, b);
    }
  }

  /** Every chunk keeps exactly one item, and no item of the chunk scores higher. */
  lemma OnePerChunk(items: seq<BundleItem>, kept: seq<nat>, i: nat) returns (b: nat)
    requires Deduped(items, kept) && i < |items| && items[i].chunkId != -1
    ensures b in kept && b < |items| && items[b].chunkId == items[i].chunkId && items[b].score >= items[i].score
    ensures items[b].score == items[i].score ==> b <= i
    ensures forall k :: k in kept && k < |items| && items[k].chunkId == items[i].chunkId ==> k == b
  {
    b := FindBest(items, |items|, items[i].chunkId, i);
    assert Representative(items, b);
    forall k | k in kept && k < |items| && items[k].chunkId == items[i].chunkId ensures k == b {
      assert Representative(items, k);
    }
  }

  lemma {:induction false} FindBest(items: seq<BundleItem>, n: nat, id: int, i: nat) returns (b: nat)
    requires i < n <= |items| && items[i].chunkId == id
    ensures Best(items, n, b) && items[b].chunkId == id
  {
    if exists j :: 0 <= j < n - 1 && items[j].chunkId == id {
      var j :| 0 <= j < n - 1 && items[j].chunkId == id;
      b := FindBest(items, n - 1, id, j);
      if items[n - 1].chunkId == id && items[n - 1].score > items[b].score { b := n - 1; }
    } else {
      b := n - 1;
    }
  }

  // ---- greedy filling ----

  /** The cost of the chosen items among the first `p`. */
  function Used(items: seq<BundleItem>, order: seq<nat>, chosen: set<nat>, p: nat): nat
    requires p <= |order|
  {
    if p == 0 then 0
    else Used(items, order, chosen, p - 1) + if order[p - 1] in chosen then CostAt(items, order[p - 1]) else 0
  }

  /** An item is chosen exactly when it fits in what the chosen items before it left of the budget. */
  ghost predicate Greedy(items: seq<BundleItem>, order: seq<nat>, chosen: set<nat>, budget: nat, n: nat)
    requires n <= |order|
  {
    && (forall i :: i in chosen ==> i in order[..n])
    && (forall p :: 0 <= p < n ==> ChosenIfItFits(items, order, chosen, budget, p))
  }

  predicate ChosenIfItFits(items: seq<BundleItem>, order: seq<nat>, chosen: set<nat>, budget: nat, p: nat)
    requires p < |order|
  {
    order[p] in chosen <==> Used(items, order, chosen, p) + CostAt(items, order[p]) <= budget
  }

  lemma {:induction false} UsedFrame(items: seq<BundleItem>, order: seq<nat>, chosen: set<nat>, p: nat, x: nat)
    requires p <= |order| && forall q :: 0 <= q < p ==> order[q] != x
    ensures Used(items, order, chosen + {x}, p) == Used(items, order, chosen, p)
  {
    if p > 0 { UsedFrame(items, order, chosen, p - 1, x); }
  }

  lemma {:induction false} UsedGrows(items: seq<BundleItem>, order: seq<nat>, chosen: set<nat>, p: nat, q: nat)
    requires p <= q <= |order|
    ensures Used(items, order, chosen, p) <= Used(items, order, chosen, q)
    decreases q
  {
    if p < q { UsedGrows(items, order, chosen, p, q - 1); }
  }

  /** The chosen items stay within the budget, and nothing left out fits in what remains. */
  lemma {:induction false} GreedyIsMaximal(items: seq<BundleItem>, order: seq<nat>, chosen: set<nat>, budget: nat,
                                           n: nat)
    requires n <= |order| && Greedy(items, order, chosen, budget, n)
    ensures forall m: nat :: m <= n ==> Used(items, order, chosen, m) <= budget
    ensures forall p :: 0 <= p < n && order[p] !in chosen ==>
              Used(items, order, chosen, n) + CostAt(items, order[p]) > budget
  {
    forall m: nat | m <= n ensures Used(items, order, chosen, m) <= budget {
      UsedWithin(items, order, chosen, budget, n, m);
    }
    forall p | 0 <= p < n && order[p] !in chosen
      ensures Used(items, order, chosen, n) + CostAt(items, order[p]) > budget
    {
      assert ChosenIfItFits(items, order, chosen, budget, p);
      UsedGrows(items, order, chosen, p, n);
    }
  }

  lemma {:induction false} UsedWithin(items: seq<BundleItem>, order: seq<nat>, chosen: set<nat>, budget: nat, n: nat,
                                      m: nat)
    requires m <= n <= |order| && Greedy(items, order, chosen, budget, n)
    ensures Used(items, order, chosen, m) <= budget
    decreases m
  {
    if m > 0 {
      UsedWithin(items, order, chosen, budget, n, m - 1);
      assert ChosenIfItFits(items, order, chosen, budget, m - 1);
    }
  }

  lemma FitFrame(items: seq<BundleItem>, order: seq<nat>, chosen: set<nat>, budget: nat, p: nat, x: nat)
    requires p < |order| && forall q :: 0 <= q <= p ==> order[q] != x
    ensures ChosenIfItFits(items, order, chosen + {x}, budget, p) <==> ChosenIfItFits(items, order, chosen, budget, p)
  {
    UsedFrame(items, order, chosen, p, x);
    hide Used, CostAt;
  }

  lemma TakeOneMore(order: seq<nat>, k: nat)
    requires k < |order| && AllDifferent(order)
    ensures order[k] in order[..k + 1] && order[k] !in order[..k] && forall x :: x in order[..k] ==> x in order[..k + 1]
  {
    assert order[..k + 1] == order[..k] + [order[k]];
  }

  /** The next item joins when it fits. */
  lemma GreedyAdd(items: seq<BundleItem>, order: seq<nat>, chosen: set<nat>, budget: nat, k: nat)
    requires k < |order| && AllDifferent(order) && Greedy(items, order, chosen, budget, k)
    requires Used(items, order, chosen, k) + CostAt(items, order[k]) <= budget
    ensures var more := chosen + {order[k]};
            && Greedy(items, order, more, budget, k + 1)
            && Used(items, order, more, k + 1) == Used(items, order, chosen, k) + CostAt(items, order[k])
  {
    hide CostAt;
    var more := chosen + {order[k]};
    UsedFrame(items, order, chosen, k, order[k]);
    TakeOneMore(order, k);
    assert ChosenIfItFits(items, order, more, budget, k);
    hide ChosenIfItFits;
    forall p | 0 <= p < k + 1 ensures ChosenIfItFits(items, order, more, budget, p) {
      if p < k { FitFrame(items, order, chosen, budget, p, order[k]); }
    }
  }

  lemma GreedySkip(items: seq<BundleItem>, order: seq<nat>, chosen: set<nat>, budget: nat, k: nat)
    requires k < |order| && AllDifferent(order) && Greedy(items, order, chosen, budget, k)
    requires Used(items, order, chosen, k) + CostAt(items, order[k]) > budget
    ensures Greedy(items, order, chosen, budget, k + 1)
    ensures Used(items, order, chosen, k + 1) == Used(items, order, chosen, k)
  {
    hide CostAt;
    TakeOneMore(order, k);
    assert ChosenIfItFits(items, order, chosen, budget, k);
    hide ChosenIfItFits;
  }

  method Fill(items: seq<BundleItem>, order: seq<nat>, budget: nat) returns (chosen: set<nat>)
    requires AllDifferent(order)
    ensures Greedy(items, order, chosen, budget, |order|)
  {
    hide Greedy, CostAt, AllDifferent;
    chosen := {};
    var used := 0;
    assert Greedy(items, order, chosen, budget, 0) by { GreedyStart(items, order, budget); }
    for k := 0 to |order|
      invariant Greedy(items, order, chosen, budget, k)
      invariant used == Used(items, order, chosen, k)
    {
      var cost := CostAt(items, order[k]);
      if used + cost <= budget {
        GreedyAdd(items, order, chosen, budget, k);
        chosen := chosen + {order[k]};
        used := used + cost;
      } else {
        GreedySkip(items, order, chosen, budget, k);
      }
    }
  }

  lemma GreedyStart(items: seq<BundleItem>, order: seq<nat>, budget: nat)
    ensures Greedy(items, order, {}, budget, 0)
  {
  }

  // ---- order ----

  function ByScore(items: seq<BundleItem>): (nat, nat) -> bool {
    (a: nat, b: nat) => ScoreAt(items, a) >= ScoreAt(items, b)
  }

  /** Byte order of the UTF-8 encodings, which is the order of the code points. */
  predicate PathLe(a: string, b: string) {
    a == "" || (b != "" && (a[0] < b[0] || (a[0] == b[0] && PathLe(a[1..], b[1..]))))
  }

  lemma {:induction false} PathLeTotal(a: string, b: string)
    ensures PathLe(a, b) || PathLe(b, a)
  {
    if a != "" && b != "" { PathLeTotal(a[1..], b[1..]); }
  }

  lemma {:induction false} PathLeTransitive(a: string, b: string, c: string)
    requires PathLe(a, b) && PathLe(b, c)
    ensures PathLe(a, c)
  {
    if a != "" && a[0] == b[0] == c[0] { PathLeTransitive(a[1..], b[1..], c[1..]); }
  }

  lemma {:induction false} PathLeAntisymmetric(a: string, b: string)
    requires PathLe(a, b) && PathLe(b, a)
    ensures a == b
  {
    if a != "" && b != "" {
      PathLeAntisymmetric(a[1..], b[1..]);
      assert a == [a[0]] + a[1..] && b == [b[0]] + b[1..];
    }
  }

  /** A proper prefix, or smaller at the first place where the two differ. */
  ghost predicate PathBefore(a: string, b: string) {
    exists n: nat :: DiffersAt(a, b, n)
  }

  predicate DiffersAt(a: string, b: string, n: nat) {
    n <= |a| && n < |b| && a[..n] == b[..n] && (n == |a| || a[n] < b[n])
  }

  lemma BehindSameStart(a: string, b: string)
    requires a != "" && b != "" && a[0] == b[0]
    ensures PathBefore(a, b) <==> PathBefore(a[1..], b[1..])
  {
    forall n: nat ensures DiffersAt(a, b, n + 1) <==> DiffersAt(a[1..], b[1..], n) { OneFurther(a, b, n); }
    forall n: nat | DiffersAt(a, b, n) ensures PathBefore(a[1..], b[1..]) {
      assert n > 0 && DiffersAt(a, b, n - 1 + 1);
      assert DiffersAt(a[1..], b[1..], n - 1);
    }
    forall n: nat | DiffersAt(a[1..], b[1..], n) ensures PathBefore(a, b) { assert DiffersAt(a, b, n + 1); }
  }

  lemma OneFurther(a: string, b: string, n: nat)
    requires a != "" && b != "" && a[0] == b[0]
    ensures DiffersAt(a, b, n + 1) <==> DiffersAt(a[1..], b[1..], n)
  {
    if n < |a| && n + 1 < |b| {
      assert a[..n + 1] == [a[0]] + a[1..][..n] && b[..n + 1] == [b[0]] + b[1..][..n];
      assert a[..n + 1][1..] == a[1..][..n] && b[..n + 1][1..] == b[1..][..n];
    }
  }

  lemma SameStart(a: string, b: string, n: nat)
    requires n <= |a| && n <= |b| && a[..n] == b[..n]
    ensures n > 0 ==> a[0] == b[0]
  {
    if n > 0 { assert a[..n][0] == a[0] && b[..n][0] == b[0]; }
  }

  lemma {:induction false} PathLeMeans(a: string, b: string)
    ensures PathLe(a, b) <==> a == b || PathBefore(a, b)
  {
    if a == "" {
      assert b != "" ==> DiffersAt(a, b, 0);
    } else if b != "" && a[0] == b[0] {
      PathLeMeans(a[1..], b[1..]);
      assert a == [a[0]] + a[1..] && b == [b[0]] + b[1..];
      BehindSameStart(a, b);
    } else if b != "" {
      assert DiffersAt(a, b, 0) <==> a[0] < b[0];
      forall n: nat | DiffersAt(a, b, n) ensures n == 0 { SameStart(a, b, n); }
    }
  }

  function Look(best: map<string, real>, path: string): real { if path in best then best[path] else 0.0 }

  /** Files by best score, then by path; lines within a file. */
  predicate Before(best: map<string, real>, a: BundleItem, b: BundleItem) {
    var x, y := Look(best, a.path), Look(best, b.path);
    x > y || (x == y && (if a.path == b.path then a.startLine <= b.startLine else PathLe(a.path, b.path)))
  }

  function ByFile(best: map<string, real>): (BundleItem, BundleItem) -> bool {
    (a: BundleItem, b: BundleItem) => Before(best, a, b)
  }

  lemma BeforeTransitive(best: map<string, real>, a: BundleItem, b: BundleItem, c: BundleItem)
    ensures Before(best, a, b) && Before(best, b, c) ==> Before(best, a, c)
  {
    if Before(best, a, b) && Before(best, b, c) {
      if a.path != b.path && b.path != c.path && Look(best, a.path) == Look(best, b.path) == Look(best, c.path) {
        PathLeTransitive(a.path, b.path, c.path);
        if a.path == c.path { PathLeAntisymmetric(a.path, b.path); }
      }
    }
  }

  lemma ByFileTotal(best: map<string, real>)
    ensures Total(ByFile(best))
  {
    var le := ByFile(best);
    forall a, b ensures le(a, b) || le(b, a) { PathLeTotal(a.path, b.path); }
    forall a, b, c ensures le(a, b) && le(b, c) ==> le(a, c) { BeforeTransitive(best, a, b, c); }
  }

  /** The best score of each file that has an item. */
  ghost predicate BestByPath(items: seq<BundleItem>, best: map<string, real>) {
    && (forall x :: x in items ==> x.path in best && x.score <= best[x.path])
    && (forall p :: p in best ==> exists x :: x in items && x.path == p && x.score == best[p])
  }

  function Larger(best: map<string, real>, x: BundleItem): real {
    if x.path in best && best[x.path] > x.score then best[x.path] else x.score
  }

  lemma BestByPathStep(items: seq<BundleItem>, best: map<string, real>, x: BundleItem)
    requires BestByPath(items, best)
    ensures BestByPath(items + [x], best[x.path := Larger(best, x)])
  {
    var all, more := items + [x], best[x.path := Larger(best, x)];
    assert x in all;
    forall p | p in more ensures exists y :: y in all && y.path == p && y.score == more[p] {
      if p in best {
        var y :| y in items && y.path == p && y.score == best[p];
        assert y in all;
      }
    }
  }

  method PathScores(items: seq<BundleItem>) returns (best: map<string, real>)
    ensures BestByPath(items, best)
  {
    hide BestByPath;
    best := map[];
    assert BestByPath([], best) by { NoPaths(); }
    assert items[..0] == [];
    for k := 0 to |items|
      invariant BestByPath(items[..k], best)
    {
      var item := items[k];
      BestByPathStep(items[..k], best, item);
      assert items[..k + 1] == items[..k] + [item];
      var soFar := if item.path in best then best[item.path] else item.score;
      best := best[item.path := if soFar > item.score then soFar else item.score];
    }
    assert items[..|items|] == items;
  }

  lemma NoPaths()
    ensures BestByPath([], map[])
  {
  }

  /** Sorted items of one file stand together, in line order, and a file with a better item stands first. */
  lemma GroupedByFile(items: seq<BundleItem>, best: map<string, real>, i: nat, j: nat, k: nat)
    requires Sorted(items, ByFile(best)) && i <= j <= k < |items| && i < k
    ensures items[i].path == items[k].path ==>
              items[j].path == items[i].path && items[i].startLine <= items[j].startLine <= items[k].startLine
    ensures Look(best, items[i].path) >= Look(best, items[k].path)
    ensures Look(best, items[i].path) == Look(best, items[k].path) && items[i].path != items[k].path ==>
              PathBefore(items[i].path, items[k].path)
  {
    var le := ByFile(best);
    assert le(items[i], items[j]) && le(items[j], items[k]) && le(items[i], items[k]);
    if items[i].path == items[k].path && items[j].path != items[i].path {
      PathLeAntisymmetric(items[i].path, items[j].path);
    }
    PathLeMeans(items[i].path, items[k].path);
  }

  // ---- packing ----

  function Picked(items: seq<BundleItem>, indices: seq<nat>): (r: seq<BundleItem>)
    requires forall i :: i in indices ==> i < |items|
    ensures |r| == |indices|
  {
    seq(|indices|, k requires 0 <= k < |indices| =>
          assert indices[k] in indices; items[indices[k]])
  }

  function Label(item: BundleItem): OmittedItem {
    OmittedItem(if item.qualname.Some? then item.qualname.value else item.path, item.score, item.startLine,
                item.endLine)
  }

  /** An omitted entry names its item, by path when there is no qualified name, with its score and lines. */
  ghost predicate Omits(o: OmittedItem, x: BundleItem) {
    && o.name == (match x.qualname { case Some(q) => q case None => x.path })
    && o.score == x.score && o.startLine == x.startLine && o.endLine == x.endLine
  }

  /** One entry for each item left, the best first. */
  ghost predicate OmitsAll(omitted: seq<OmittedItem>, left: seq<BundleItem>) {
    && (forall i, j :: 0 <= i < j < |omitted| ==> omitted[i].score >= omitted[j].score)
    && exists entries: seq<OmittedItem> ::
         |entries| == |left| && multiset(entries) == multiset(omitted)
         && forall k :: 0 <= k < |left| ==> Omits(entries[k], left[k])
  }

  lemma LabelsOmit(omitted: seq<OmittedItem>, left: seq<BundleItem>)
    requires multiset(omitted) == multiset(Labels(left)) && Sorted(omitted, ByOmittedScore())
    ensures OmitsAll(omitted, left)
  {
    var entries := Labels(left);
    assert forall k :: 0 <= k < |left| ==> Omits(entries[k], left[k]);
    forall i, j | 0 <= i < j < |omitted| ensures omitted[i].score >= omitted[j].score {
      assert ByOmittedScore()(omitted[i], omitted[j]);
    }
  }

  function Labels(items: seq<BundleItem>): seq<OmittedItem> {
    seq(|items|, k requires 0 <= k < |items| => Label(items[k]))
  }

  function ByOmittedScore(): (OmittedItem, OmittedItem) -> bool {
    (a: OmittedItem, b: OmittedItem) => a.score >= b.score
  }

  function In(chosen: set<nat>): nat -> bool { (i: nat) => i in chosen }

  function NotIn(chosen: set<nat>): nat -> bool { (i: nat) => i !in chosen }

  /** The order in which items are offered: by score, ties in input order. */
  ghost predicate Offered(items: seq<BundleItem>, kept: seq<nat>, order: seq<nat>) {
    && multiset(order) == multiset(kept)
    && StablySorted(order, ByScore(items), (a: nat, b: nat) => a < b)
  }

  /** What was chosen: the greedy fill, or the best single item when nothing fits. */
  ghost predicate ChosenBy(items: seq<BundleItem>, order: seq<nat>, budget: nat, chosen: set<nat>) {
    || (Greedy(items, order, chosen, budget, |order|) && (order == [] || chosen != {}))
    || (Greedy(items, order, {}, budget, |order|) && order != [] && chosen == {order[0]})
  }

  lemma OrderOf(items: seq<BundleItem>, kept: seq<nat>)
    requires Ascending(kept)
    ensures Offered(items, kept, SortBy(kept, ByScore(items))) && AllDifferent(SortBy(kept, ByScore(items)))
  {
    var before, order := (a: nat, b: nat) => a < b, SortBy(kept, ByScore(items));
    SortByElements(kept, ByScore(items));
    assert Total(ByScore(items));
    assert forall i, j :: 0 <= i < j < |kept| ==> before(kept[i], kept[j]);
    SortByStable(kept, ByScore(items), before);
    forall i, j | 0 <= i < j < |order| ensures order[i] != order[j] {
      assert ByScore(items)(order[j], order[i]) ==> order[i] < order[j];
    }
  }

  lemma PickedSnoc(items: seq<BundleItem>, indices: seq<nat>, i: nat)
    requires i < |items| && forall k :: k in indices ==> k < |items|
    ensures forall k :: k in indices + [i] ==> k < |items|
    ensures Picked(items, indices + [i]) == Picked(items, indices) + [items[i]]
  {
  }

  lemma {:induction false} PickedSplit(items: seq<BundleItem>, kept: seq<nat>, chosen: set<nat>)
    requires forall i :: i in kept ==> i < |items|
    ensures multiset(Picked(items, Keep(kept, In(chosen)))) + multiset(Picked(items, Keep(kept, NotIn(chosen))))
            == multiset(Picked(items, kept))
  {
    hide Keep, Picked;
    if kept == [] {
      NothingPicked(items, chosen);
    } else {
      var init, last := kept[..|kept| - 1], kept[|kept| - 1];
      assert kept == init + [last] && last in kept && forall i :: i in init ==> i in kept;
      PickedSplit(items, init, chosen);
      KeepLast(init, last, In(chosen));
      KeepLast(init, last, NotIn(chosen));
      PickedSnoc(items, init, last);
      PickedSnoc(items, Keep(init, In(chosen)), last);
      PickedSnoc(items, Keep(init, NotIn(chosen)), last);
    }
  }

  lemma NothingPicked(items: seq<BundleItem>, chosen: set<nat>)
    ensures Keep<nat>([], In(chosen)) == [] && Keep<nat>([], NotIn(chosen)) == [] && Picked(items, []) == []
  {
  }

  function Weight(items: seq<BundleItem>, chosen: set<nat>): nat -> nat {
    (i: nat) => if i in chosen then CostAt(items, i) else 0
  }

  lemma {:induction false} UsedIsSum(items: seq<BundleItem>, order: seq<nat>, chosen: set<nat>, p: nat)
    requires p <= |order|
    ensures Used(items, order, chosen, p) == SumOf(order[..p], Weight(items, chosen))
  {
    if p > 0 {
      UsedIsSum(items, order, chosen, p - 1);
      assert order[..p] == order[..p - 1] + [order[p - 1]];
      SumOfLast(order[..p - 1], order[p - 1], Weight(items, chosen));
    }
  }

  lemma {:induction false} PickedSum(items: seq<BundleItem>, kept: seq<nat>, chosen: set<nat>)
    requires forall i :: i in kept ==> i < |items|
    ensures SumOf(kept, Weight(items, chosen)) == TotalCost(Picked(items, Keep(kept, In(chosen))))
  {
    hide Keep, Picked, Cost;
    if kept == [] {
      NothingPicked(items, chosen);
    } else {
      var init, last := kept[..|kept| - 1], kept[|kept| - 1];
      assert kept == init + [last] && last in kept && forall i :: i in init ==> i in kept;
      PickedSum(items, init, chosen);
      KeepLast(init, last, In(chosen));
      PickedSnoc(items, Keep(init, In(chosen)), last);
      SumOfLast(init, last, Weight(items, chosen));
      SumOfLast(Picked(items, Keep(init, In(chosen))), items[last], Cost);
    }
  }

  /** What the selection costs, in any order. */
  function TotalCost(items: seq<BundleItem>): nat { SumOf(items, Cost) }

  /** The selection costs what the filling counted. */
  lemma SelectionCost(items: seq<BundleItem>, kept: seq<nat>, order: seq<nat>, chosen: set<nat>,
                      selected: seq<BundleItem>)
    requires Offered(items, kept, order) && forall i :: i in kept ==> i < |items|
    requires multiset(selected) == multiset(Picked(items, Keep(kept, In(chosen))))
    ensures TotalCost(selected) == Used(items, order, chosen, |order|)
  {
    hide Used, Keep, Picked, Cost, CostAt;
    UsedIsSum(items, order, chosen, |order|);
    assert order[..|order|] == order;
    SumOfPermuted(order, kept, Weight(items, chosen));
    PickedSum(items, kept, chosen);
    SumOfPermuted(selected, Picked(items, Keep(kept, In(chosen))), Cost);
  }

  /** A quarter of the content's length. */
  function Quarter(): BundleItem -> nat { (x: BundleItem) => |x.content| / 4 }

  /** A quarter of each content's length, and 20 for every item. */
  function Spent(items: seq<BundleItem>): nat { SumOf(items, Quarter()) + 20 * |items| }

  lemma {:induction false} SpentIsCost(items: seq<BundleItem>)
    ensures Spent(items) == TotalCost(items)
  {
    if items != [] { SpentIsCost(items[..|items| - 1]); }
  }

  /** Within budget with no room for what was left; or one item that alone costs more, as every other does. */
  ghost predicate FitsBudget(selected: seq<BundleItem>, left: seq<BundleItem>, budget: nat) {
    && (Spent(selected) <= budget
        || (|selected| == 1 && |selected[0].content| / 4 + 20 > budget
            && forall x :: x in left ==> |x.content| / 4 + 20 > budget && x.score <= selected[0].score))
    && forall x :: x in left ==> Spent(selected) + |x.content| / 4 + 20 > budget
  }

  lemma {:induction false} KeepOne(kept: seq<nat>, x: nat)
    requires Ascending(kept)
    ensures Keep(kept, In({x})) == if x in kept then [x] else []
  {
    if kept != [] {
      var init, last := kept[..|kept| - 1], kept[|kept| - 1];
      assert kept == init + [last] && last !in init;
      KeepOne(init, x);
      KeepLast(init, last, In({x}));
    }
  }

  /** A selection is the sorted picks; what is left are the picks of the others. */
  ghost predicate Selection(items: seq<BundleItem>, kept: seq<nat>, chosen: set<nat>, selected: seq<BundleItem>,
                            left: seq<BundleItem>)
  {
    && (forall i :: i in kept ==> i < |items|)
    && multiset(selected) == multiset(Picked(items, Keep(kept, In(chosen))))
    && left == Picked(items, Keep(kept, NotIn(chosen)))
  }

  lemma FallbackSelection(items: seq<BundleItem>, kept: seq<nat>, x: nat, selected: seq<BundleItem>,
                          left: seq<BundleItem>)
    requires Ascending(kept) && x in kept && Selection(items, kept, {x}, selected, left)
    ensures selected == [items[x]]
  {
    KeepOne(kept, x);
    assert Picked(items, [x]) == [items[x]];
    assert |selected| == |multiset(selected)| == 1 && selected[0] in multiset(selected);
  }

  lemma LeftIsKept(items: seq<BundleItem>, kept: seq<nat>, chosen: set<nat>, x: BundleItem) returns (i: nat)
    requires (forall k :: k in kept ==> k < |items|) && x in Picked(items, Keep(kept, NotIn(chosen)))
    ensures i in kept && i !in chosen && i < |items| && items[i] == x
  {
    var rest := Keep(kept, NotIn(chosen));
    var k :| 0 <= k < |rest| && Picked(items, rest)[k] == x;
    i := rest[k];
    assert i in rest;
  }

  /** The one item kept although it does not fit. */
  lemma FallbackCost(items: seq<BundleItem>, kept: seq<nat>, order: seq<nat>, budget: nat, selected: seq<BundleItem>,
                     left: seq<BundleItem>)
    requires order != [] && order[0] in kept && Ascending(kept) && Selection(items, kept, {order[0]}, selected, left)
    requires forall i :: i in kept ==> CostAt(items, i) > budget && ScoreAt(items, i) <= ScoreAt(items, order[0])
    ensures |selected| == 1 && Cost(selected[0]) > budget
    ensures forall x :: x in left ==> Cost(x) > budget && x.score <= selected[0].score
  {
    FallbackSelection(items, kept, order[0], selected, left);
    hide Picked, Keep, Cost;
    forall x | x in left ensures Cost(x) > budget && x.score <= selected[0].score {
      var i := LeftIsKept(items, kept, {order[0]}, x);
    }
  }

  lemma LeftDoNotFit(items: seq<BundleItem>, kept: seq<nat>, order: seq<nat>, budget: nat, chosen: set<nat>,
                     selected: seq<BundleItem>, left: seq<BundleItem>)
    requires Offered(items, kept, order) && ChosenBy(items, order, budget, chosen)
    requires Selection(items, kept, chosen, selected, left)
    ensures forall x :: x in left ==> Used(items, order, chosen, |order|) + Cost(x) > budget
  {
    hide Used, ChosenBy, Offered, Picked, Keep, Cost;
    forall x | x in left ensures Used(items, order, chosen, |order|) + Cost(x) > budget {
      var i := LeftIsKept(items, kept, chosen, x);
      OmittedDoNotFit(items, kept, order, budget, chosen, i);
    }
  }

  lemma BudgetMet(items: seq<BundleItem>, kept: seq<nat>, order: seq<nat>, budget: nat, chosen: set<nat>,
                  selected: seq<BundleItem>, left: seq<BundleItem>)
    requires Ascending(kept) && Offered(items, kept, order) && ChosenBy(items, order, budget, chosen)
    requires Selection(items, kept, chosen, selected, left)
    ensures TotalCost(selected) == Used(items, order, chosen, |order|) && FitsBudget(selected, left, budget)
  {
    hide Used, ChosenBy, Ascending, Picked, Keep, Cost, TotalCost, CostAt, ScoreAt, ByScore, Spent;
    SelectionCost(items, kept, order, chosen, selected);
    SpentIsCost(selected);
    CostIsQuarter(left);
    FallbackIsBest(items, kept, order, budget, chosen);
    LeftDoNotFit(items, kept, order, budget, chosen, selected, left);
    SameElements(order, kept);
    hide Offered, Selection;
    if TotalCost(selected) > budget {
      FallbackCost(items, kept, order, budget, selected, left);
      CostIsQuarter(selected);
    }
  }

  lemma CostIsQuarter(items: seq<BundleItem>)
    ensures forall x :: x in items ==> Cost(x) == |x.content| / 4 + 20
  {
  }

  lemma FillOrFallback(items: seq<BundleItem>, order: seq<nat>, budget: nat, filled: set<nat>)
    requires Greedy(items, order, filled, budget, |order|)
    ensures ChosenBy(items, order, budget, if filled == {} && order != [] then {order[0]} else filled)
  {
    hide Greedy;
  }

  lemma OmittedTotal()
    ensures Total(ByOmittedScore())
  {
  }

  /**
   How the choice is shown: selected and left-out items together are the kept ones; the selected stand file by file
   under the best scores, the left-out ones by score.
   */
  ghost predicate Presents(items: seq<BundleItem>, kept: seq<nat>, chosen: set<nat>, best: map<string, real>,
                           selected: seq<BundleItem>, omitted: seq<OmittedItem>, left: seq<BundleItem>)
    requires forall i :: i in kept ==> i < |items|
  {
    && multiset(selected) == multiset(Picked(items, Keep(kept, In(chosen))))
    && left == Picked(items, Keep(kept, NotIn(chosen))) && multiset(omitted) == multiset(Labels(left))
    && multiset(selected) + multiset(left) == multiset(Picked(items, kept))
    && BestByPath(Picked(items, Keep(kept, In(chosen))), best) && Sorted(selected, ByFile(best))
    && selected == SortBy(Picked(items, Keep(kept, In(chosen))), ByFile(best))
    && omitted == SortBy(Labels(left), ByOmittedScore()) && OmitsAll(omitted, left)
  }

  lemma Presented(items: seq<BundleItem>, kept: seq<nat>, chosen: set<nat>, best: map<string, real>,
                  selected: seq<BundleItem>, omitted: seq<OmittedItem>, left: seq<BundleItem>)
    requires forall i :: i in kept ==> i < |items|
    requires left == Picked(items, Keep(kept, NotIn(chosen))) && omitted == SortBy(Labels(left), ByOmittedScore())
    requires BestByPath(Picked(items, Keep(kept, In(chosen))), best)
    requires selected == SortBy(Picked(items, Keep(kept, In(chosen))), ByFile(best))
    ensures Presents(items, kept, chosen, best, selected, omitted, left)
  {
    hide OmitsAll, Keep, Picked, Labels, Total, Cost, BestByPath, SortBy, Sorted;
    var picked := Picked(items, Keep(kept, In(chosen)));
    ByFileTotal(best);
    SortByElements(picked, ByFile(best));
    SortBySorted(picked, ByFile(best));
    OmittedTotal();
    SortByElements(Labels(left), ByOmittedScore());
    SortBySorted(Labels(left), ByOmittedScore());
    LabelsOmit(omitted, left);
    PickedSplit(items, kept, chosen);
  }

  /**
   `kept` are the representatives, `order` the order in which they are offered, `chosen` the ones taken, `best` the
   best score of each file, and `left` the items left out.
   */
  ghost predicate PacksBy(items: seq<BundleItem>, budget: nat, selected: seq<BundleItem>, omitted: seq<OmittedItem>,
                          kept: seq<nat>, order: seq<nat>, chosen: set<nat>, best: map<string, real>,
                          left: seq<BundleItem>)
  {
    && Deduped(items, kept) && (forall i :: i in kept ==> i < |items|)
    && Offered(items, kept, order) && ChosenBy(items, order, budget, chosen) && chosen <= (set i | i in kept)
    && Presents(items, kept, chosen, best, selected, omitted, left)
    && TotalCost(selected) == Used(items, order, chosen, |order|) && FitsBudget(selected, left, budget)
  }

  lemma KeptInRange(items: seq<BundleItem>, kept: seq<nat>)
    requires Deduped(items, kept)
    ensures Ascending(kept) && forall i :: i in kept ==> i < |items|
  {
  }

  lemma GreedyPicks(items: seq<BundleItem>, order: seq<nat>, chosen: set<nat>, budget: nat)
    requires Greedy(items, order, chosen, budget, |order|)
    ensures forall i :: i in chosen ==> i in order
  {
  }

  /**
   Packs items into a budget. Selected and omitted items together are the representatives; the chosen ones are
   the greedy fill in score order; the selected ones stand file by file, the omitted ones by score.
   */
  method Pack(items: seq<BundleItem>, budget: nat) returns (selected: seq<BundleItem>, omitted: seq<OmittedItem>)
    ensures exists kept, order, chosen, best, left ::
              PacksBy(items, budget, selected, omitted, kept, order, chosen, best, left)
  {
    hide OmitsAll, FitsBudget, TotalCost, ChosenBy, Used, Keep, Picked, Labels, Total, Cost, Sorted, SortBy;
    hide Deduped, Offered, Greedy, Best, Representative, BestByPath, AllDifferent;
    var deduped := Dedupe(items);
    KeptInRange(items, deduped);
    OrderOf(items, deduped);
    var sorted := SortBy(deduped, ByScore(items));
    var picks := Fill(items, sorted, budget);
    GreedyPicks(items, sorted, picks, budget);
    FillOrFallback(items, sorted, budget, picks);
    if picks == {} && sorted != [] { picks := {sorted[0]}; }
    var unordered := Picked(items, Keep(deduped, In(picks)));
    var scores := PathScores(unordered);
    selected := SortBy(unordered, ByFile(scores));
    var rest := Picked(items, Keep(deduped, NotIn(picks)));
    omitted := SortBy(Labels(rest), ByOmittedScore());
    Presented(items, deduped, picks, scores, selected, omitted, rest);
    BudgetMet(items, deduped, sorted, budget, picks, selected, rest);
    assert PacksBy(items, budget, selected, omitted, deduped, sorted, picks, scores, rest);
  }

  /** A single over-budget item is chosen only when no item fits, and it is then one that no other outscores. */
  lemma FallbackIsBest(items: seq<BundleItem>, kept: seq<nat>, order: seq<nat>, budget: nat, chosen: set<nat>)
    requires Offered(items, kept, order) && ChosenBy(items, order, budget, chosen)
    ensures Used(items, order, chosen, |order|) <= budget
            || (order != [] && chosen == {order[0]} && (forall i :: i in kept ==> CostAt(items, i) > budget)
                && forall i :: i in kept ==> ScoreAt(items, i) <= ScoreAt(items, order[0]))
  {
    if Greedy(items, order, chosen, budget, |order|) {
      GreedyIsMaximal(items, order, chosen, budget, |order|);
    } else {
      GreedyIsMaximal(items, order, {}, budget, |order|);
      NothingUsed(items, order, |order|);
      var le := ByScore(items);
      SameElements(kept, order);
      forall i | i in kept ensures CostAt(items, i) > budget && ScoreAt(items, i) <= ScoreAt(items, order[0]) {
        var p :| 0 <= p < |order| && order[p] == i;
        assert p > 0 ==> le(order[0], order[p]);
      }
    }
  }

  /** No omitted item fits in what the selection leaves of the budget. */
  lemma OmittedDoNotFit(items: seq<BundleItem>, kept: seq<nat>, order: seq<nat>, budget: nat, chosen: set<nat>, i: nat)
    requires Offered(items, kept, order) && ChosenBy(items, order, budget, chosen) && i in kept && i !in chosen
    ensures Used(items, order, chosen, |order|) + CostAt(items, i) > budget
  {
    hide Used, Cost;
    SameElements(kept, order);
    var p :| 0 <= p < |order| && order[p] == i;
    if Greedy(items, order, chosen, budget, |order|) {
      GreedyIsMaximal(items, order, chosen, budget, |order|);
    } else {
      GreedyIsMaximal(items, order, {}, budget, |order|);
      NothingUsed(items, order, |order|);
    }
  }

  lemma {:induction false} NothingUsed(items: seq<BundleItem>, order: seq<nat>, p: nat)
    requires p <= |order|
    ensures Used(items, order, {}, p) == 0
  {
    if p > 0 { NothingUsed(items, order, p - 1); }
  }
}
