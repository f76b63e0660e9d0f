/** Which symbol owns each line: ranges painted from the largest inward, then docs and decorators claimed upward. */
module ChunkOwners {
  import opened Wrappers
  import opened Sorting
  import opened Schema
  import opened Text

  type Owners = seq<Option<nat>>

  // ---- symbols ----

  /** What the parser guarantees: real line ranges, and parents before their children. */
  predicate ValidSymbols(symbols: seq<NewSymbol>) {
    ParentsPrecede(symbols) && forall i :: 1 <= i < |symbols| ==> 1 <= symbols[i].startLine <= symbols[i].endLine
  }

  predicate Covers(s: NewSymbol, line: nat) { s.startLine <= line + 1 <= s.endLine }

  function Size(s: NewSymbol): nat { if s.endLine >= s.startLine then s.endLine - s.startLine else 0 }

  /** `anc` is reached from `of` by one or more parent links. */
  predicate Ancestor(symbols: seq<NewSymbol>, anc: nat, of: nat)
    requires ParentsPrecede(symbols) && of < |symbols|
    decreases of
  {
    var p := symbols[of].parent;
    p.Some? && (p.value == anc || Ancestor(symbols, anc, p.value))
  }

  method IsAncestor(symbols: seq<NewSymbol>, anc: nat, of: nat) returns (r: bool)
    requires ParentsPrecede(symbols) && of < |symbols|
    ensures r <==> Ancestor(symbols, anc, of)
  {
    var cur, at := symbols[of].parent, of;
    while cur.Some?
      invariant at <= of && cur == symbols[at].parent
      invariant Ancestor(symbols, anc, of) <==> Ancestor(symbols, anc, at)
      decreases at
    {
      if cur.value == anc { return true; }
      at := cur.value;
      cur := symbols[at].parent;
    }
    return false;
  }

  // ---- painting ----

  /** The smallest symbol below `k` that covers the line, the later one among equals. */
  function Innermost(symbols: seq<NewSymbol>, line: nat, k: nat): (r: Option<nat>)
    requires k <= |symbols|
    ensures r.Some? ==> 1 <= r.value < k && Covers(symbols[r.value], line)
    ensures forall j :: 1 <= j < k && Covers(symbols[j], line) ==>
              && r.Some?
              && (Size(symbols[r.value]) < Size(symbols[j])
                  || (Size(symbols[r.value]) == Size(symbols[j]) && j <= r.value))
  {
    if k <= 1 then None
    else
      var r := Innermost(symbols, line, k - 1);
      if Covers(symbols[k - 1], line) && (r.None? || Size(symbols[k - 1]) <= Size(symbols[r.value])) then Some(k - 1)
      else r
  }

  function Painted(symbols: seq<NewSymbol>, n: nat): Owners {
    seq(n, l requires 0 <= l < n => Innermost(symbols, l, |symbols|))
  }

  /** Lines `from` up to `to` pass to symbol `i`. */
  function Claimed(owner: Owners, from: nat, to: nat, i: nat): Owners {
    seq(|owner|, l requires 0 <= l < |owner| => if from <= l < to then Some(i) else owner[l])
  }

  ghost predicate InStep(covered: array<bool>, owner: array<Option<nat>>)
    reads covered, owner
  {
    covered.Length == owner.Length && forall l :: 0 <= l < covered.Length ==> covered[l] == owner[l].Some?
  }

  method Claim(covered: array<bool>, owner: array<Option<nat>>, from: nat, to: nat, i: nat)
    requires InStep(covered, owner) && to <= owner.Length
    modifies covered, owner
    ensures InStep(covered, owner)
    ensures owner[..] == Claimed(old(owner[..]), from, to, i)
  {
    if from < to {
      for l := from to to
        invariant forall k :: 0 <= k < covered.Length ==> covered[k] == (old(covered[k]) || from <= k < l)
        invariant forall k :: 0 <= k < owner.Length ==> owner[k] == old(owner[k])
      {
        covered[l] := true;
      }
      for l := from to to
        invariant forall k :: 0 <= k < covered.Length ==> covered[k] == (old(covered[k]) || from <= k < to)
        invariant forall k :: 0 <= k < owner.Length ==> owner[k] == if from <= k < l then Some(i) else old(owner[k])
      {
        owner[l] := Some(i);
      }
    }
  }

  function Indices(n: nat): seq<nat> { seq(n, i => i + 1) }

  function BySize(symbols: seq<NewSymbol>): seq<nat> {
    if symbols == [] then []
    else SortBy(Indices(|symbols| - 1), (a: nat, b: nat) => SizeOf(symbols, a) >= SizeOf(symbols, b))
  }

  function SizeOf(symbols: seq<NewSymbol>, i: nat): nat { if i < |symbols| then Size(symbols[i]) else 0 }

  lemma BySizeOrder(symbols: seq<NewSymbol>)
    ensures var order := BySize(symbols);
            && (forall i :: i in order <==> 1 <= i < |symbols|)
            && (forall p, q :: 0 <= p < q < |order| ==>
                  SizeOf(symbols, order[p]) >= SizeOf(symbols, order[q])
                  && (SizeOf(symbols, order[p]) == SizeOf(symbols, order[q]) ==> order[p] < order[q]))
  {
    if symbols != [] {
      var le, before := (a: nat, b: nat) => SizeOf(symbols, a) >= SizeOf(symbols, b), (a: nat, b: nat) => a < b;
      var indices := Indices(|symbols| - 1);
      SortByStable(indices, le, before);
      forall i | 1 <= i < |symbols| ensures i in indices { assert indices[i - 1] == i; }
      var order := BySize(symbols);
      forall p, q | 0 <= p < q < |order|
        ensures SizeOf(symbols, order[p]) >= SizeOf(symbols, order[q])
        ensures SizeOf(symbols, order[p]) == SizeOf(symbols, order[q]) ==> order[p] < order[q]
      {
        assert le(order[p], order[q]) && (le(order[q], order[p]) ==> before(order[p], order[q]));
      }
    }
  }

  predicate CoversAt(symbols: seq<NewSymbol>, i: nat, line: nat) { i < |symbols| && Covers(symbols[i], line) }

  /** The last of the first `k` painted symbols that covers the line. */
  function LastPainted(symbols: seq<NewSymbol>, order: seq<nat>, k: nat, line: nat): (r: Option<nat>)
    requires k <= |order|
  {
    if k == 0 then None
    else if CoversAt(symbols, order[k - 1], line) then Some(order[k - 1])
    else LastPainted(symbols, order, k - 1, line)
  }

  ghost predicate LastAt(symbols: seq<NewSymbol>, order: seq<nat>, k: nat, line: nat, p: nat)
    requires k <= |order|
  {
    p < k && CoversAt(symbols, order[p], line) && forall q :: p < q < k ==> !CoversAt(symbols, order[q], line)
  }

  lemma {:induction false} LastPaintedAt(symbols: seq<NewSymbol>, order: seq<nat>, k: nat, line: nat)
    requires k <= |order|
    ensures var r := LastPainted(symbols, order, k, line);
            && (r.Some? ==> exists p: nat :: LastAt(symbols, order, k, line, p) && order[p] == r.value)
            && (r.None? ==> forall q :: 0 <= q < k ==> !CoversAt(symbols, order[q], line))
  {
    if k > 0 {
      if CoversAt(symbols, order[k - 1], line) {
        assert LastAt(symbols, order, k, line, k - 1);
      } else {
        LastPaintedAt(symbols, order, k - 1, line);
        if p: nat :| LastAt(symbols, order, k - 1, line, p)
                     && Some(order[p]) == LastPainted(symbols, order, k - 1, line)
        {
          assert LastAt(symbols, order, k, line, p);
        }
      }
    }
  }

  /** Painting from the largest range down leaves the innermost symbol on top. */
  lemma LastPaintedIsInnermost(symbols: seq<NewSymbol>, line: nat)
    ensures LastPainted(symbols, BySize(symbols), |BySize(symbols)|, line) == Innermost(symbols, line, |symbols|)
  {
    var order := BySize(symbols);
    hide BySize;
    BySizeOrder(symbols);
    LastPaintedAt(symbols, order, |order|, line);
    var r, inner := LastPainted(symbols, order, |order|, line), Innermost(symbols, line, |symbols|);
    assert inner.Some? ==> inner.value in order && CoversAt(symbols, inner.value, line);
    if r.Some? {
      var p: nat :| LastAt(symbols, order, |order|, line, p) && order[p] == r.value;
      assert order[p] in order && CoversAt(symbols, order[p], line);
      var q :| 0 <= q < |order| && order[q] == inner.value;
      assert q <= p;
    }
  }

  method Paint(symbols: seq<NewSymbol>, covered: array<bool>, owner: array<Option<nat>>)
    requires ValidSymbols(symbols) && InStep(covered, owner)
    requires forall l :: 0 <= l < owner.Length ==> owner[l].None?
    modifies covered, owner
    ensures InStep(covered, owner) && owner[..] == Painted(symbols, owner.Length)
  {
    hide BySize;
    BySizeOrder(symbols);
    var order := BySize(symbols);
    for k := 0 to |order|
      invariant InStep(covered, owner)
      invariant forall l :: 0 <= l < owner.Length ==> owner[l] == LastPainted(symbols, order, k, l)
    {
      var i := order[k];
      assert i in order;
      var s := symbols[i];
      var from := if s.startLine - 1 < owner.Length then s.startLine - 1 else owner.Length;
      var to := if s.endLine < owner.Length then s.endLine else owner.Length;
      ghost var before := owner[..];
      Claim(covered, owner, from, to, i);
      forall l | 0 <= l < owner.Length ensures owner[l] == LastPainted(symbols, order, k + 1, l) {
        assert owner[l] == owner[..][l] == Claimed(before, from, to, i)[l];
      }
    }
    forall l | 0 <= l < owner.Length ensures owner[l] == Painted(symbols, owner.Length)[l] {
      LastPaintedIsInnermost(symbols, l);
    }
  }
}
