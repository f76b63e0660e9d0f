/**
 A recursive common table expression with UNION: rows leave a queue one at a time, and a row they produce joins
 the result and the queue unless the result holds it already.
 */
module Recursion {

  datatype Hop = Hop(id: nat, depth: nat)

  function Elements(s: seq<Hop>): set<Hop> { set h | h in s }

  /** The rows of `rows` that are not seen yet, each once. */
  function Unseen(seen: set<Hop>, rows: seq<Hop>): (r: seq<Hop>)
    ensures Elements(r) == Elements(rows) - seen
  {
    if rows == [] then []
    else
      var init, last := Unseen(seen, rows[..|rows| - 1]), rows[|rows| - 1];
      assert rows == rows[..|rows| - 1] + [last];
      assert Elements(rows) == Elements(rows[..|rows| - 1]) + {last};
      assert Elements(init + [last]) == Elements(init) + {last};
      assert last in init <==> last in Elements(init);
      if last in seen || last in init then init else init + [last]
  }

  ghost predicate StaysIn(next: Hop -> seq<Hop>, universe: set<Hop>) {
    forall h, x :: h in universe && x in next(h) ==> x in universe
  }

  lemma Shrinks(universe: set<Hop>, seen: set<Hop>, added: set<Hop>)
    requires added <= universe && added !! seen && added != {}
    ensures |universe - (seen + added)| < |universe - seen|
  {
    assert universe - (seen + added) == (universe - seen) - added;
    assert added <= universe - seen;
    assert |(universe - seen) - added| == |universe - seen| - |added|;
  }

  /** The result of the recursion; it ends because the rows come from a finite universe. */
  function Closure(next: Hop -> seq<Hop>, universe: set<Hop>, seen: set<Hop>, queue: seq<Hop>): (r: set<Hop>)
    requires StaysIn(next, universe) && seen <= universe && Elements(queue) <= seen
    ensures seen <= r <= universe
    decreases |universe - seen|, |queue|
  {
    if queue == [] then seen
    else
      var added := Unseen(seen, next(queue[0]));
      assert queue[0] in Elements(queue);
      assert Elements(added) <= universe;
      assert Elements(queue[1..] + added) <= seen + Elements(added);
      if added == [] then
        assert seen + Elements(added) == seen;
        Closure(next, universe, seen, queue[1..])
      else
        assert added[0] in Elements(added);
        Shrinks(universe, seen, Elements(added));
        Closure(next, universe, seen + Elements(added), queue[1..] + added)
  }

  /** Everything seen and not waiting has had its successors seen. */
  ghost predicate ClosedBehind(next: Hop -> seq<Hop>, seen: set<Hop>, queue: seq<Hop>) {
    forall h, x :: h in seen && h !in queue && x in next(h) ==> x in seen
  }

  lemma {:induction false} ClosureIsClosed(next: Hop -> seq<Hop>, universe: set<Hop>, seen: set<Hop>, queue: seq<Hop>)
    requires StaysIn(next, universe) && seen <= universe && Elements(queue) <= seen
    requires ClosedBehind(next, seen, queue)
    ensures ClosedBehind(next, Closure(next, universe, seen, queue), [])
    decreases |universe - seen|, |queue|
  {
    if queue != [] {
      var added := Unseen(seen, next(queue[0]));
      assert queue[0] in Elements(queue);
      assert queue == [queue[0]] + queue[1..];
      var more := seen + Elements(added);
      assert ClosedBehind(next, more, queue[1..] + added) by {
        forall h, x | h in more && h !in queue[1..] + added && x in next(h) ensures x in more {
          assert h in seen;
          if h == queue[0] { assert x in Elements(next(h)); }
        }
      }
      if added == [] {
        assert more == seen && queue[1..] + added == queue[1..];
        ClosureIsClosed(next, universe, seen, queue[1..]);
      } else {
        assert added[0] in Elements(added);
        Shrinks(universe, seen, Elements(added));
        ClosureIsClosed(next, universe, more, queue[1..] + added);
      }
    }
  }

  /** The result holds nothing that an inductive property excludes. */
  lemma {:induction false} ClosureIsLeast(next: Hop -> seq<Hop>, universe: set<Hop>, seen: set<Hop>, queue: seq<Hop>,
                                          p: Hop -> bool)
    requires StaysIn(next, universe) && seen <= universe && Elements(queue) <= seen
    requires forall h :: h in seen ==> p(h)
    requires forall h, x :: p(h) && x in next(h) ==> p(x)
    ensures forall h :: h in Closure(next, universe, seen, queue) ==> p(h)
    decreases |universe - seen|, |queue|
  {
    if queue != [] {
      var added := Unseen(seen, next(queue[0]));
      assert queue[0] in Elements(queue);
      forall h | h in added ensures p(h) { assert h in Elements(added) && h in next(queue[0]); }
      if added == [] {
        ClosureIsLeast(next, universe, seen, queue[1..], p);
      } else {
        assert added[0] in Elements(added);
        Shrinks(universe, seen, Elements(added));
        ClosureIsLeast(next, universe, seen + Elements(added), queue[1..] + added, p);
      }
    }
  }
}
