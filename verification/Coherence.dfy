/**
 Cache coherence between one writer process and any number of reader processes that share the database. Each
 database statement is one atomic step; the steps of different processes interleave freely.
 */
module Coherence {
  import opened Wrappers

  /** What the writer still owes: a bump after it changed the schema inside `set_model`. */
  datatype WriterPc = Idle | MustBump

  datatype Reader = Reader(cached: Option<bool>, last: nat)

  /**
   The shared database (table presence, generation), the writer's position, and the readers' caches.
   `unannounced` records that the table changed after the last bump.
   */
  datatype System = System(table: bool, generation: nat, pc: WriterPc, readers: map<nat, Reader>, unannounced: bool)

  datatype Action =
    | SetModelSame            // ensure_vec_table found the table missing and created it
    | SetModelChanged(vecAvailable: bool)   // the wiping transaction commits
    | Bump                    // bump_generation, owed or not
    | PutEmbeddingsCreates    // put_embeddings found no table and created one
    | StartReader(r: nat, seen: nat)
    | LockFresh(r: nat, readOk: bool)       // lock_store_fresh; the generation read may fail
    | Probe(r: nat)                         // vec_table_exists

  ghost predicate Enabled(s: System, a: Action) {
    match a
    case SetModelSame => s.pc == Idle && !s.table
    case SetModelChanged(_) => s.pc == Idle
    case Bump => true
    case PutEmbeddingsCreates => s.pc == Idle && !s.table
    case StartReader(r, seen) => r !in s.readers && seen <= s.generation
    case LockFresh(r, _) => r in s.readers
    case Probe(r) => r in s.readers
  }

  function Refreshed(reader: Reader, current: nat): Reader {
    if current != reader.last then Reader(None, current) else reader
  }

  function Probed(reader: Reader, table: bool): Reader {
    if reader.cached.None? then reader.(cached := Some(table)) else reader
  }

  function Next(s: System, a: Action): System
    requires Enabled(s, a)
  {
    match a
    case SetModelSame => s.(table := true, pc := MustBump, unannounced := true)
    case SetModelChanged(vec) => s.(table := vec, pc := MustBump, unannounced := true)
    case Bump => s.(generation := s.generation + 1, pc := Idle, unannounced := false)
    case PutEmbeddingsCreates => s.(table := true, unannounced := true)
    case StartReader(r, seen) => s.(readers := s.readers[r := Reader(None, seen)])
    case LockFresh(r, readOk) =>
      if readOk then s.(readers := s.readers[r := Refreshed(s.readers[r], s.generation)]) else s
    case Probe(r) => s.(readers := s.readers[r := Probed(s.readers[r], s.table)])
  }

  /** A reader process: its cached answer and the last generation it saw. `ready` says that its store is open. */
  class Session {
    var ready: bool
    var lastGeneration: nat
    var vecTableCached: Option<bool>

    ghost function View(): Reader
      reads this
    {
      Reader(vecTableCached, lastGeneration)
    }

    constructor (seen: nat)
      ensures ready && View() == Reader(None, seen)
    {
      ready, lastGeneration, vecTableCached := true, seen, None;
    }

    /** `current` is the generation as read from the database, None when the read failed. */
    method LockStoreFresh(current: Option<nat>) returns (ok: bool)
      modifies this
      ensures ok == old(ready) == ready
      ensures View() == if old(ready) && current.Some? then Refreshed(old(View()), current.value) else old(View())
    {
      if !ready { return false; }
      var generation := if current.Some? then current.value else lastGeneration;
      if generation != lastGeneration {
        vecTableCached := None;
        lastGeneration := generation;
      }
      return true;
    }

    method VecTableExists(table: bool) returns (present: bool)
      modifies this`vecTableCached
      ensures View() == Probed(old(View()), table) && Some(present) == View().cached
    {
      if vecTableCached.None? { vecTableCached := Some(table); }
      present := vecTableCached.value;
    }
  }

  ghost predicate Steps(s: System, actions: seq<Action>, t: System)
    decreases |actions|
  {
    if actions == [] then t == s
    else Enabled(s, actions[0]) && Steps(Next(s, actions[0]), actions[1..], t)
  }

  function Initial(): System { System(false, 0, Idle, map[], false) }

  // ---- coherence ----

  ghost predicate StaleReader(s: System, r: nat) {
    r in s.readers && s.readers[r].cached.Some? && s.readers[r].cached.value != s.table
  }

  /** No reader is ahead of the writer, and a stale one is either behind it or ahead of the next bump. */
  ghost predicate Coherent(s: System) {
    && (s.pc == MustBump ==> s.unannounced)
    && (forall r :: r in s.readers ==> s.readers[r].last <= s.generation)
    && (forall r :: StaleReader(s, r) ==> s.unannounced || s.readers[r].last < s.generation)
  }

  lemma NextCoherent(s: System, a: Action)
    requires Coherent(s) && Enabled(s, a)
    ensures Coherent(Next(s, a))
  {
  }

  lemma {:induction false} StepsCoherent(s: System, actions: seq<Action>, t: System)
    requires Coherent(s) && Steps(s, actions, t)
    ensures Coherent(t)
    decreases |actions|
  {
    if actions != [] {
      NextCoherent(s, actions[0]);
      StepsCoherent(Next(s, actions[0]), actions[1..], t);
    }
  }

  /** In every reachable state a stale answer means the change is not announced yet, or the reader is behind. */
  lemma StaleMeansBehind(actions: seq<Action>, s: System, r: nat)
    requires Steps(Initial(), actions, s) && StaleReader(s, r)
    ensures s.unannounced || s.readers[r].last < s.generation
  {
    StepsCoherent(Initial(), actions, s);
  }

  /** `lock_store_fresh` leaves a reader stale exactly when it was stale and saw no newer generation. */
  lemma LockFreshCures(s: System, r: nat)
    requires r in s.readers
    ensures StaleReader(Next(s, LockFresh(r, true)), r) <==> StaleReader(s, r) && s.readers[r].last == s.generation
  {
  }

  predicate ChangesTable(a: Action) { a.SetModelSame? || a.SetModelChanged? || a.PutEmbeddingsCreates? }

  lemma {:induction false} FreshStaysFresh(s: System, actions: seq<Action>, t: System, r: nat)
    requires Steps(s, actions, t) && r in s.readers && !StaleReader(s, r)
    requires forall a :: a in actions ==> !ChangesTable(a)
    ensures r in t.readers && !StaleReader(t, r)
    decreases |actions|
  {
    if actions != [] {
      assert actions == [actions[0]] + actions[1..];
      assert actions[0] in actions && forall a :: a in actions[1..] ==> a in actions;
      FreshStaysFresh(Next(s, actions[0]), actions[1..], t, r);
    }
  }

  lemma {:induction false} OwedWhileUnannounced(s: System, actions: seq<Action>, t: System)
    requires Steps(s, actions, t) && (s.unannounced ==> s.pc == MustBump)
    requires forall a :: a in actions ==> !a.PutEmbeddingsCreates?
    ensures t.unannounced ==> t.pc == MustBump
    decreases |actions|
  {
    if actions != [] {
      assert actions == [actions[0]] + actions[1..];
      assert actions[0] in actions && forall a :: a in actions[1..] ==> a in actions;
      OwedWhileUnannounced(Next(s, actions[0]), actions[1..], t);
    }
  }

  /**
   As long as tables come from `set_model`: once the writer is idle, the first `lock_store_fresh` of any reader gives
   it the truth, and it keeps the truth until the table changes again.
   */
  lemma NoReaderStaysStale(before: seq<Action>, s: System, r: nat, after: seq<Action>, t: System)
    requires Steps(Initial(), before, s) && s.pc == Idle && r in s.readers
    requires forall a :: a in before ==> !a.PutEmbeddingsCreates?
    requires Steps(Next(s, LockFresh(r, true)), after, t)
    requires forall a :: a in after ==> !ChangesTable(a)
    ensures r in t.readers && !StaleReader(t, r)
  {
    StepsCoherent(Initial(), before, s);
    OwedWhileUnannounced(Initial(), before, s);
    LockFreshCures(s, r);
    FreshStaysFresh(Next(s, LockFresh(r, true)), after, t, r);
  }

  /** However the table changed, one bump and one successful `lock_store_fresh` after it are enough. */
  lemma BumpThenLockCures(before: seq<Action>, s: System, r: nat)
    requires Steps(Initial(), before, s) && r in s.readers
    ensures !StaleReader(Next(Next(s, Bump), LockFresh(r, true)), r)
  {
    StepsCoherent(Initial(), before, s);
    NextCoherent(s, Bump);
    LockFreshCures(Next(s, Bump), r);
  }

  function Locks(r: nat, n: nat): seq<Action> { seq(n, i => LockFresh(r, true)) }

  lemma {:induction false} LocksChangeNothing(s: System, r: nat, n: nat)
    requires r in s.readers && s.readers[r].last == s.generation
    ensures Steps(s, Locks(r, n), s)
    decreases n
  {
    if n > 0 {
      assert s.readers[r := s.readers[r]] == s.readers;
      assert Locks(r, n)[1..] == Locks(r, n - 1);
      LocksChangeNothing(s, r, n - 1);
    }
  }

  lemma {:induction false} StepsConcat(s: System, a: seq<Action>, t: System, b: seq<Action>, u: System)
    requires Steps(s, a, t) && Steps(t, b, u)
    ensures Steps(s, a + b, u)
    decreases |a|
  {
    if a == [] {
      assert a + b == b;
    } else {
      assert (a + b)[1..] == a[1..] + b;
      StepsConcat(Next(s, a[0]), a[1..], t, b, u);
    }
  }

  /** A table that `put_embeddings` creates is never announced: a reader can miss it for any number of locks. */
  lemma UnbumpedTableMissed(n: nat) returns (s: System)
    ensures Steps(Initial(), [StartReader(0, 0), Probe(0), PutEmbeddingsCreates] + Locks(0, n), s)
    ensures s.pc == Idle && s.table && StaleReader(s, 0)
  {
    var s1 := Next(Initial(), StartReader(0, 0));
    var s2 := Next(s1, Probe(0));
    s := Next(s2, PutEmbeddingsCreates);
    var actions := [StartReader(0, 0), Probe(0), PutEmbeddingsCreates];
    assert actions[1..] == [Probe(0), PutEmbeddingsCreates];
    assert actions[1..][1..] == [PutEmbeddingsCreates];
    assert actions[1..][1..][1..] == [];
    assert Steps(s2, [PutEmbeddingsCreates], s);
    assert Steps(s1, actions[1..], s);
    LocksChangeNothing(s, 0, n);
    StepsConcat(Initial(), actions, s, Locks(0, n), s);
  }
}
