/** The watcher's debouncer: a burst of events for a path comes out once, after the path has gone quiet. */
module Debounce {
  import opened Wrappers
  import opened Sequences

  /** Times are ticks; a time before the other counts as no time at all, as `Instant::duration_since` does. */
  function Elapsed(now: nat, since: nat): nat { if now >= since then now - since else 0 }

  datatype State = State(order: seq<string>, lastEvent: map<string, nat>)

  // ---- one step ----

  predicate Quiet(window: nat, lastEvent: map<string, nat>, now: nat, path: string) {
    path in lastEvent && Elapsed(now, lastEvent[path]) >= window
  }

  /** The window has passed since then; a window of length zero always has. */
  predicate Rested(window: nat, since: nat, now: nat) { window == 0 || since + window <= now }

  function IsQuiet(window: nat, lastEvent: map<string, nat>, now: nat): string -> bool {
    (p: string) => Quiet(window, lastEvent, now, p)
  }

  function IsWarm(window: nat, lastEvent: map<string, nat>, now: nat): string -> bool {
    (p: string) => !Quiet(window, lastEvent, now, p)
  }

  function Pushed(s: State, path: string, now: nat): State {
    State(if path in s.lastEvent then s.order else s.order + [path], s.lastEvent[path := now])
  }

  function Ready(window: nat, s: State, now: nat): seq<string> { Keep(s.order, IsQuiet(window, s.lastEvent, now)) }

  function Drained(window: nat, s: State, now: nat): State {
    State(Keep(s.order, IsWarm(window, s.lastEvent, now)),
          map p | p in s.lastEvent && !Quiet(window, s.lastEvent, now, p) :: s.lastEvent[p])
  }

  /** The queue is the duplicate-free key set of the timers. */
  ghost predicate InStep(s: State) {
    && (forall p :: p in s.order <==> p in s.lastEvent)
    && (forall i, j :: 0 <= i < j < |s.order| ==> s.order[i] != s.order[j])
  }

  class Debouncer {
    const window: nat
    var order: seq<string>
    var lastEvent: map<string, nat>

    ghost function Now(): State
      reads this
    {
      State(order, lastEvent)
    }

    constructor (window: nat)
      ensures this.window == window && Now() == State([], map[])
    {
      this.window := window;
      order, lastEvent := [], map[];
    }

    method Push(path: string, now: nat)
      requires InStep(Now())
      modifies this
      ensures Now() == Pushed(old(Now()), path, now) && InStep(Now())
    {
      PushKeepsStep(Now(), path, now);
      if path !in lastEvent { order := order + [path]; }
      lastEvent := lastEvent[path := now];
    }

    method DrainReady(now: nat) returns (ready: seq<string>)
      requires InStep(Now())
      modifies this
      ensures ready == Ready(window, old(Now()), now)
      ensures forall p :: p in ready <==> p in old(lastEvent) && Rested(window, old(lastEvent)[p], now)
      ensures Now() == Drained(window, old(Now()), now) && InStep(Now())
    {
      hide Keep, Quiet, Ready, Warm, InStep, Prefix, Drained;
      ghost var was := Now();
      DrainKeepsStep(window, was, now);
      ready := [];
      var stillPending: seq<string> := [];
      ghost var k := 0;
      NothingKept(window, was, now);
      while order != []
        invariant k <= |was.order| && order == was.order[k..]
        invariant ready == Ready(window, Prefix(was, k), now) && stillPending == Warm(window, Prefix(was, k), now)
        invariant forall p :: p in lastEvent <==> p in was.lastEvent && p !in ready
        invariant forall p :: p in lastEvent ==> lastEvent[p] == was.lastEvent[p]
        decreases |order|
      {
        var path := order[0];
        OneMore(window, was, k, now);
        order := order[1..];
        var last := lastEvent[path];
        if Elapsed(now, last) >= window {
          lastEvent := lastEvent - {path};
          ready := ready + [path];
        } else {
          stillPending := stillPending + [path];
        }
        k := k + 1;
      }
      AllDrained(window, was, now, k);
      TimersLeft(window, was, now, lastEvent);
      order := stillPending;
    }
  }

  function Prefix(s: State, k: nat): State
    requires k <= |s.order|
  {
    State(s.order[..k], s.lastEvent)
  }

  function Warm(window: nat, s: State, now: nat): seq<string> { Keep(s.order, IsWarm(window, s.lastEvent, now)) }

  lemma NothingKept(window: nat, s: State, now: nat)
    ensures Ready(window, Prefix(s, 0), now) == [] && Warm(window, Prefix(s, 0), now) == []
  {
    assert s.order[..0] == [];
  }

  lemma OneMore(window: nat, s: State, k: nat, now: nat)
    requires InStep(s) && k < |s.order|
    ensures s.order[k..][0] == s.order[k] && s.order[k..][1..] == s.order[k + 1..] && s.order[k] in s.lastEvent
    ensures s.order[k] !in Ready(window, Prefix(s, k), now)
    ensures var path := s.order[k];
            var quiet := Elapsed(now, s.lastEvent[path]) >= window;
            && Ready(window, Prefix(s, k + 1), now) == Ready(window, Prefix(s, k), now) + (if quiet then [path] else [])
            && Warm(window, Prefix(s, k + 1), now) == Warm(window, Prefix(s, k), now) + (if quiet then [] else [path])
  {
    var path := s.order[k];
    assert path in s.order && path !in s.order[..k];
    assert s.order[..k + 1] == s.order[..k] + [path];
    KeepLast(s.order[..k], path, IsQuiet(window, s.lastEvent, now));
    KeepLast(s.order[..k], path, IsWarm(window, s.lastEvent, now));
  }

  lemma TimersLeft(window: nat, s: State, now: nat, left: map<string, nat>)
    requires InStep(s) && forall p :: p in left <==> p in s.lastEvent && p !in Ready(window, s, now)
    requires forall p :: p in left ==> left[p] == s.lastEvent[p]
    ensures left == Drained(window, s, now).lastEvent
  {
  }

  lemma AllDrained(window: nat, s: State, now: nat, k: nat)
    requires InStep(s) && k <= |s.order| && s.order[k..] == []
    ensures Ready(window, Prefix(s, k), now) == Ready(window, s, now)
    ensures Warm(window, Prefix(s, k), now) == Drained(window, s, now).order
    ensures forall p :: p in s.lastEvent ==> (p in Ready(window, s, now) <==> Quiet(window, s.lastEvent, now, p))
    ensures forall p :: p in Ready(window, s, now) <==> p in s.lastEvent && Rested(window, s.lastEvent[p], now)
  {
    assert k == |s.order| by { assert |s.order[k..]| == |s.order| - k; }
    assert s.order[..k] == s.order;
  }

  lemma PushKeepsStep(s: State, path: string, now: nat)
    requires InStep(s)
    ensures InStep(Pushed(s, path, now))
  {
    assert forall i :: 0 <= i < |s.order| ==> s.order[i] in s.order;
  }

  lemma DrainKeepsStep(window: nat, s: State, now: nat)
    requires InStep(s)
    ensures InStep(Drained(window, s, now))
  {
    KeepOrder(s.order, IsWarm(window, s.lastEvent, now), (a: string, b: string) => a != b);
    assert forall i, j :: 0 <= i < j < |Drained(window, s, now).order| ==>
        ((a: string, b: string) => a != b)(Drained(window, s, now).order[i], Drained(window, s, now).order[j]);
  }

  // ---- histories ----

  datatype Event = Push(path: string, now: nat) | Drain(now: nat)

  function Step(window: nat, s: State, e: Event): State {
    match e
    case Push(path, now) => Pushed(s, path, now)
    case Drain(now) => Drained(window, s, now)
  }

  /** The debouncer after a history of events. */
  function Run(window: nat, h: seq<Event>): State {
    if h == [] then State([], map[]) else Step(window, Run(window, h[..|h| - 1]), h[|h| - 1])
  }

  // What should hold, read off the history alone.

  /** When the path's last event was. */
  function LastTime(h: seq<Event>, path: string): Option<nat> {
    if h == [] then None
    else
      var e := h[|h| - 1];
      if e.Push? && e.path == path then Some(e.now) else LastTime(h[..|h| - 1], path)
  }

  /** Which event made the path pending, if it is. */
  function ArrivedAt(window: nat, h: seq<Event>, path: string): (r: Option<nat>)
    ensures r.Some? ==> r.value < |h| && h[r.value].Push? && h[r.value].path == path && LastTime(h, path).Some?
    decreases |h|, 0
  {
    if h == [] then None
    else
      var e, init := h[|h| - 1], h[..|h| - 1];
      var before := ArrivedAt(window, init, path);
      match e
      case Push(p, _) => if p == path && before.None? then Some(|h| - 1) else before
      case Drain(now) => if Emits(window, init, path, now) then None else before
  }

  /** A drain at `now` after the history emits the path: it is pending, and has been quiet for the window. */
  predicate Emits(window: nat, h: seq<Event>, path: string, now: nat)
    decreases |h|, 1
  {
    ArrivedAt(window, h, path).Some? && Elapsed(now, LastTime(h, path).value) >= window
  }

  /** The order of arrival. */
  predicate Earlier(window: nat, h: seq<Event>, a: string, b: string) {
    var x, y := ArrivedAt(window, h, a), ArrivedAt(window, h, b);
    x.Some? && y.Some? && x.value < y.value
  }

  /** The queue holds the pending paths in order of arrival, and each timer the time of the path's last event. */
  ghost predicate MatchesHistory(window: nat, h: seq<Event>, s: State) {
    && InStep(s)
    && (forall p :: p in s.lastEvent <==> ArrivedAt(window, h, p).Some?)
    && (forall p :: p in s.lastEvent ==> LastTime(h, p) == Some(s.lastEvent[p]))
    && (forall i, j :: 0 <= i < j < |s.order| ==> Earlier(window, h, s.order[i], s.order[j]))
  }

  lemma AfterPush(window: nat, h: seq<Event>, e: Event, p: string)
    requires e.Push?
    ensures ArrivedAt(window, h + [e], p) ==
            if p == e.path && ArrivedAt(window, h, p).None? then Some(|h|) else ArrivedAt(window, h, p)
    ensures LastTime(h + [e], p) == if p == e.path then Some(e.now) else LastTime(h, p)
  {
    assert (h + [e])[..|h|] == h;
  }

  lemma AfterDrain(window: nat, h: seq<Event>, e: Event, p: string)
    requires e.Drain?
    ensures ArrivedAt(window, h + [e], p) == if Emits(window, h, p, e.now) then None else ArrivedAt(window, h, p)
    ensures LastTime(h + [e], p) == LastTime(h, p)
  {
    assert (h + [e])[..|h|] == h;
  }

  lemma PushMatches(window: nat, h: seq<Event>, s: State, e: Event)
    requires MatchesHistory(window, h, s) && e.Push?
    ensures MatchesHistory(window, h + [e], Step(window, s, e))
  {
    hide ArrivedAt, LastTime, Keep, Quiet;
    var all, t := h + [e], Step(window, s, e);
    PushKeepsStep(s, e.path, e.now);
    forall p ensures p in t.lastEvent <==> ArrivedAt(window, all, p).Some? { AfterPush(window, h, e, p); }
    forall p | p in t.lastEvent ensures LastTime(all, p) == Some(t.lastEvent[p]) { AfterPush(window, h, e, p); }
    forall i, j | 0 <= i < j < |t.order| ensures Earlier(window, all, t.order[i], t.order[j]) {
      AfterPush(window, h, e, t.order[i]);
      AfterPush(window, h, e, t.order[j]);
      assert t.order[i] == s.order[i] && s.order[i] in s.order;
      if j < |s.order| { assert Earlier(window, h, s.order[i], s.order[j]); }
    }
  }

  lemma QuietIsEmits(window: nat, h: seq<Event>, s: State, now: nat, p: string)
    requires MatchesHistory(window, h, s)
    ensures Quiet(window, s.lastEvent, now, p) <==> Emits(window, h, p, now)
  {
    hide ArrivedAt, LastTime;
  }

  lemma DrainMatches(window: nat, h: seq<Event>, s: State, e: Event)
    requires MatchesHistory(window, h, s) && e.Drain?
    ensures MatchesHistory(window, h + [e], Step(window, s, e))
    ensures forall p :: p in Ready(window, s, e.now) <==> Emits(window, h, p, e.now)
  {
    hide ArrivedAt, LastTime, Quiet, Emits;
    var all, t := h + [e], Step(window, s, e);
    DrainKeepsStep(window, s, e.now);
    forall p ensures p in t.lastEvent <==> ArrivedAt(window, all, p).Some? {
      AfterDrain(window, h, e, p);
      QuietIsEmits(window, h, s, e.now, p);
      EmitsArrived(window, h, p, e.now);
    }
    forall p | p in t.lastEvent ensures LastTime(all, p) == Some(t.lastEvent[p]) { AfterDrain(window, h, e, p); }
    forall p ensures p in Ready(window, s, e.now) <==> Emits(window, h, p, e.now) {
      QuietIsEmits(window, h, s, e.now, p);
      EmitsArrived(window, h, p, e.now);
    }
    hide Keep;
    DrainKeepsOrder(window, h, s, e);
  }

  lemma EmitsArrived(window: nat, h: seq<Event>, p: string, now: nat)
    ensures Emits(window, h, p, now) ==> ArrivedAt(window, h, p).Some?
  {
  }

  lemma DrainKeepsOrder(window: nat, h: seq<Event>, s: State, e: Event)
    requires MatchesHistory(window, h, s) && e.Drain?
    ensures var t := Step(window, s, e);
            forall i, j :: 0 <= i < j < |t.order| ==> Earlier(window, h + [e], t.order[i], t.order[j])
  {
    hide ArrivedAt, LastTime, Quiet, Emits;
    var t, before := Step(window, s, e), (a: string, b: string) => Earlier(window, h, a, b);
    var warm := IsWarm(window, s.lastEvent, e.now);
    KeepOrder(s.order, warm, before);
    forall i, j | 0 <= i < j < |t.order| ensures Earlier(window, h + [e], t.order[i], t.order[j]) {
      assert before(t.order[i], t.order[j]);
      assert t.order[i] in t.order && t.order[j] in t.order && warm(t.order[i]) && warm(t.order[j]);
      AfterDrain(window, h, e, t.order[i]);
      AfterDrain(window, h, e, t.order[j]);
      QuietIsEmits(window, h, s, e.now, t.order[i]);
      QuietIsEmits(window, h, s, e.now, t.order[j]);
    }
  }

  /** Over any history the debouncer's state is what the history says. */
  lemma {:induction false} RunMatches(window: nat, h: seq<Event>)
    ensures MatchesHistory(window, h, Run(window, h))
  {
    if h != [] {
      var init, e := h[..|h| - 1], h[|h| - 1];
      RunMatches(window, init);
      assert h == init + [e];
      if e.Push? {
        PushMatches(window, init, Run(window, init), e);
      } else {
        DrainMatches(window, init, Run(window, init), e);
      }
    }
  }

  /** A drain emits exactly the pending paths that have been quiet for the window, in order of arrival. */
  lemma DrainEmitsQuietPaths(window: nat, h: seq<Event>, now: nat)
    ensures var ready := Ready(window, Run(window, h), now);
            && (forall p :: p in ready <==> Emits(window, h, p, now))
            && (forall p :: Emits(window, h, p, now) <==>
                  ArrivedAt(window, h, p).Some? && Rested(window, LastTime(h, p).value, now))
            && (forall i, j :: 0 <= i < j < |ready| ==> Earlier(window, h, ready[i], ready[j]))
  {
    var s := Run(window, h);
    RunMatches(window, h);
    DrainMatches(window, h, s, Drain(now));
    var before := (a: string, b: string) => Earlier(window, h, a, b);
    KeepOrder(s.order, IsQuiet(window, s.lastEvent, now), before);
    var ready := Ready(window, s, now);
    assert forall i, j :: 0 <= i < j < |ready| ==> before(ready[i], ready[j]);
  }

  /** The event at `k` is a drain that emits the path. */
  predicate EmittedAt(window: nat, h: seq<Event>, k: nat, path: string) {
    k < |h| && h[k].Drain? && Emits(window, h[..k], path, h[k].now)
  }

  /** No event is lost: after its push a path is pending until a drain emits it. */
  lemma {:induction false} NothingIsLost(window: nat, h: seq<Event>, i: nat)
    requires i < |h| && h[i].Push?
    ensures ArrivedAt(window, h, h[i].path).Some? || exists k :: i < k < |h| && EmittedAt(window, h, k, h[i].path)
  {
    var init, last := h[..|h| - 1], |h| - 1;
    if i < last {
      NothingIsLost(window, init, i);
      if ArrivedAt(window, init, h[i].path).None? {
        var k :| i < k < |init| && EmittedAt(window, init, k, h[i].path);
        assert init[..k] == h[..k];
        assert EmittedAt(window, h, k, h[i].path);
      } else if h[last].Drain? && Emits(window, init, h[i].path, h[last].now) {
        assert EmittedAt(window, h, last, h[i].path);
      }
    }
  }

  /** A path that is pending arrived after its last emission. */
  lemma {:induction false} ArrivedSinceEmission(window: nat, h: seq<Event>, j: nat, path: string)
    requires j < |h| && EmittedAt(window, h, j, path) && ArrivedAt(window, h, path).Some?
    ensures j < ArrivedAt(window, h, path).value
  {
    var init, last := h[..|h| - 1], |h| - 1;
    if j < last {
      assert init[..j] == h[..j];
      if ArrivedAt(window, init, path).Some? { ArrivedSinceEmission(window, init, j, path); }
    }
  }

  /** Between two emissions of a path there is a push of it. */
  lemma EmissionNeedsPush(window: nat, h: seq<Event>, j: nat, k: nat, path: string) returns (i: nat)
    requires j < k && EmittedAt(window, h, j, path) && EmittedAt(window, h, k, path)
    ensures j < i < k && h[i].Push? && h[i].path == path
  {
    assert h[..k][..j] == h[..j];
    assert EmittedAt(window, h[..k], j, path);
    ArrivedSinceEmission(window, h[..k], j, path);
    i := ArrivedAt(window, h[..k], path).value;
  }
}
