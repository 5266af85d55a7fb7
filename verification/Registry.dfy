/** The pool registry: getters, janitor and Forget, interleaved at their critical sections. */
module Registry {

  const IDLE_TTL: int := 300_000_000_000 // five minutes, in nanoseconds

  /** The registry keeps one map per kind; a slot is a place in one of them. */
  datatype Kind = Pg | Mysql | Sqlite | Redis | Mongo
  datatype Slot = Slot(kind: Kind, id: int)

  /** A pool is named by the ticket of the getter call that opened it. */
  datatype Entry = Entry(pool: nat, lastUsed: int)
  type Cache = map<Slot, Entry>

  predicate Idle(e: Entry, now: int) { now - e.lastUsed > IDLE_TTL }

  function Swept(c: Cache, now: int): Cache {
    map s | s in c && !Idle(c[s], now) :: c[s]
  }

  function Without(c: Cache, id: int): Cache {
    map s | s in c && s.id != id :: c[s]
  }

  function Pools(c: Cache): set<nat> {
    set s | s in c :: c[s].pool
  }

  /** The pools of `c` that `d` no longer holds under the same slot. */
  function Gone(c: Cache, d: Cache): set<nat> {
    set s | s in c && s !in d :: c[s].pool
  }

  datatype Lookup = Hit(pool: nat) | Miss

  class PoolRegistry {
    var cached: Cache
    /** Every pool the registry has called Close on. */
    var closed: set<nat>

    constructor ()
      ensures cached == map[] && closed == {}
    {
      cached, closed := map[], {};
    }

    /** First critical section of a getter. */
    method Find(slot: Slot, now: int) returns (r: Lookup)
      modifies this
      ensures closed == old(closed)
      ensures slot in old(cached) ==>
                r == Hit(old(cached)[slot].pool) && cached == old(cached)[slot := Entry(r.pool, now)]
      ensures slot !in old(cached) ==> r == Miss && cached == old(cached)
    {
      if slot in cached {
        var e := cached[slot];
        cached := cached[slot := e.(lastUsed := now)];
        return Hit(e.pool);
      }
      return Miss;
    }

    /** Second critical section of a getter. */
    method Store(slot: Slot, pool: nat, now: int)
      modifies this
      ensures cached == old(cached)[slot := Entry(pool, now)] && closed == old(closed)
    {
      cached := cached[slot := Entry(pool, now)];
    }

    /** A getter closes the pool it opened when the ping fails. */
    method Discard(pool: nat)
      modifies this
      ensures cached == old(cached) && closed == old(closed) + {pool}
    {
      closed := closed + {pool};
    }

    method Janitor(now: int)
      modifies this
      ensures cached == Swept(old(cached), now)
      ensures cached == map s | s in old(cached) && now - old(cached)[s].lastUsed <= 300_000_000_000 :: old(cached)[s]
      ensures closed == old(closed) + Gone(old(cached), cached)
      ensures forall s | s in old(cached) && now - old(cached)[s].lastUsed > 300_000_000_000 :: old(cached)[s].pool in closed
    {
      var slots := cached.Keys;
      while slots != {}
        invariant slots <= cached.Keys <= old(cached).Keys
        invariant forall s | s in cached :: cached[s] == old(cached)[s]
        invariant forall s | s in old(cached).Keys - slots :: s in cached <==> !Idle(old(cached)[s], now)
        invariant closed == old(closed) + Gone(old(cached), cached)
        decreases |slots|
      {
        var s :| s in slots;
        slots := slots - {s};
        if Idle(cached[s], now) {
          ghost var before := cached;
          closed := closed + {cached[s].pool};
          cached := cached - {s};
          GoneOneMore(old(cached), before, s);
        }
      }
    }

    method Drop(slot: Slot)
      modifies this
      ensures cached == old(cached) - {slot}
      ensures closed == old(closed) + if slot in old(cached) then {old(cached)[slot].pool} else {}
    {
      if slot in cached {
        closed := closed + {cached[slot].pool};
        cached := cached - {slot};
      }
    }

    method Forget(id: int)
      modifies this
      ensures cached == Without(old(cached), id)
      ensures cached == map s | s in old(cached) && s.id != id :: old(cached)[s]
      ensures closed == old(closed) + Gone(old(cached), cached)
      ensures forall s | s in old(cached) && s.id == id :: old(cached)[s].pool in closed
    {
      var kinds := [Pg, Mysql, Sqlite, Redis, Mongo];
      for i := 0 to 5
        invariant cached == map s | s in old(cached) && !(s.id == id && s.kind in kinds[..i]) :: old(cached)[s]
        invariant closed == old(closed) + Gone(old(cached), cached)
      {
        var slot := Slot(kinds[i], id);
        assert kinds[..i + 1] == kinds[..i] + [kinds[i]];
        ghost var before := cached;
        Drop(slot);
        if slot in before { GoneOneMore(old(cached), before, slot); }
        assert cached.Keys == before.Keys - {slot};
      }
      assert kinds[..5] == kinds;
      forall s: Slot ensures s.kind in kinds {
        assert s.kind == kinds[0] || s.kind == kinds[1] || s.kind == kinds[2] || s.kind == kinds[3] || s.kind == kinds[4];
      }
    }
  }

  lemma {:induction false} GoneOneMore(c: Cache, d: Cache, s: Slot)
    requires s in d && d.Keys <= c.Keys && forall t | t in d :: d[t] == c[t]
    ensures Gone(c, d - {s}) == Gone(c, d) + {d[s].pool}
  {
    forall p | p in Gone(c, d) + {d[s].pool} ensures p in Gone(c, d - {s}) {
      if p in Gone(c, d) {
        var t :| t in c && t !in d && c[t].pool == p;
        assert t !in d - {s};
      } else {
        assert s !in d - {s} && c[s].pool == p;
      }
    }
  }

  // ---- every interleaving of the critical sections ----

  /** A getter call that missed: before its pool is opened, or between opening and storing. */
  datatype Call = Call(slot: Slot, holds: bool)

  datatype State = State(
    cached: Cache,
    closed: set<nat>,
    calls: map<nat, Call>,
    everOpened: set<nat>,
    leaked: set<nat>,        // overwritten in the cache: no longer held, never closed
    next: nat,               // the next ticket; tickets are taken in the order of the misses
    forgotAt: map<int, nat>  // for each forgotten id, the ticket counter at its last Forget
  )

  const INITIAL: State := State(map[], {}, map[], {}, {}, 0, map[])

  datatype Step =
    | Begin(slot: Slot, now: int)
    | Open(ticket: nat)
    | Fail(ticket: nat)
    | Finish(ticket: nat, now: int)
    | Clean(now: int)
    | Drop(id: int)

  predicate Enabled(s: State, st: Step) {
    match st
    case Open(t) => t in s.calls && !s.calls[t].holds
    case Fail(t) => t in s.calls
    case Finish(t, _) => t in s.calls && s.calls[t].holds
    case _ => true
  }

  function Next(s: State, st: Step): State
    requires Enabled(s, st)
  {
    match st
    case Begin(slot, now) =>
      if slot in s.cached then s.(cached := s.cached[slot := Entry(s.cached[slot].pool, now)])
      else s.(calls := s.calls[s.next := Call(slot, false)], next := s.next + 1)
    case Open(t) => s.(calls := s.calls[t := Call(s.calls[t].slot, true)], everOpened := s.everOpened + {t})
    case Fail(t) =>
      s.(calls := s.calls - {t}, closed := s.closed + if s.calls[t].holds then {t} else {})
    case Finish(t, now) =>
      var slot := s.calls[t].slot;
      s.(calls := s.calls - {t}, cached := s.cached[slot := Entry(t, now)],
         leaked := s.leaked + if slot in s.cached then {s.cached[slot].pool} else {})
    case Clean(now) =>
      var kept := Swept(s.cached, now);
      s.(cached := kept, closed := s.closed + Gone(s.cached, kept))
    case Drop(id) =>
      var kept := Without(s.cached, id);
      s.(cached := kept, closed := s.closed + Gone(s.cached, kept), forgotAt := s.forgotAt[id := s.next])
  }

  /** A step is a critical section of the registry, or none: the registry's own code takes the maps
      and the closed pools where the step does. */
  method Perform(r: PoolRegistry, s: State, st: Step)
    requires Enabled(s, st) && r.cached == s.cached && r.closed == s.closed
    modifies r
    ensures r.cached == Next(s, st).cached && r.closed == Next(s, st).closed
  {
    match st {
      case Begin(slot, now) => var found := r.Find(slot, now);
      case Open(t) =>
      case Fail(t) => if s.calls[t].holds { r.Discard(t); }
      case Finish(t, now) => r.Store(s.calls[t].slot, t, now);
      case Clean(now) => r.Janitor(now);
      case Drop(id) => r.Forget(id);
    }
  }

  /** `steps` can be taken one after the other from `s`. */
  ghost predicate Possible(s: State, steps: seq<Step>)
    decreases |steps|
  {
    steps == [] || (Enabled(s, steps[0]) && Possible(Next(s, steps[0]), steps[1..]))
  }

  ghost function After(s: State, steps: seq<Step>): State
    requires Possible(s, steps)
    decreases |steps|
  {
    if steps == [] then s else After(Next(s, steps[0]), steps[1..])
  }

  // ---- what every step keeps ----

  function Flight(calls: map<nat, Call>): set<nat> {
    set t | t in calls && calls[t].holds :: t
  }

  ghost predicate OneSlotEach(c: Cache) {
    forall a, b | a in c && b in c && c[a].pool == c[b].pool :: a == b
  }

  /** Every opened pool is in exactly one place: cached, closed, held by its call, or leaked. */
  ghost predicate Inv(s: State) {
    && OneSlotEach(s.cached)
    && (forall t | t in s.everOpened :: t < s.next)
    && (forall id | id in s.forgotAt :: s.forgotAt[id] <= s.next)
    && (forall t | t in s.calls :: t < s.next && (t in s.everOpened <==> s.calls[t].holds))
    && (forall a | a in s.cached :: Placed(s, s.cached[a].pool) && s.cached[a].pool !in s.closed && s.cached[a].pool !in s.leaked)
    && s.closed <= s.everOpened && s.leaked <= s.everOpened && s.closed !! s.leaked
    && (forall t | t in s.calls :: t !in s.closed && t !in s.leaked)
    && (forall p | p in s.everOpened :: p in Pools(s.cached) || p in s.closed || p in s.calls || p in s.leaked)
  }

  ghost predicate Placed(s: State, p: nat) { p in s.everOpened && p !in s.calls }

  lemma {:induction false} PoolsOf(c: Cache, d: Cache)
    requires forall s | s in d :: s in c && d[s] == c[s]
    ensures Pools(c) == Pools(d) + Gone(c, d)
  {
    forall p | p in Pools(c) ensures p in Pools(d) + Gone(c, d) {
      var s :| s in c && c[s].pool == p;
      if s in d { assert d[s].pool == p; }
    }
  }

  /** Dropping entries and closing their pools keeps the accounts. */
  lemma {:induction false} ClosingKeepsInv(s: State, kept: Cache, forgotAt: map<int, nat>)
    requires Inv(s) && (forall id | id in forgotAt :: forgotAt[id] <= s.next)
    requires forall a | a in kept :: a in s.cached && kept[a] == s.cached[a]
    ensures Inv(s.(cached := kept, closed := s.closed + Gone(s.cached, kept), forgotAt := forgotAt))
  {
    PoolsOf(s.cached, kept);
    var s' := s.(cached := kept, closed := s.closed + Gone(s.cached, kept), forgotAt := forgotAt);
    forall a | a in kept ensures Placed(s', kept[a].pool) && kept[a].pool !in s'.closed && kept[a].pool !in s'.leaked {
      assert Placed(s, s.cached[a].pool);
    }
    forall p | p in Gone(s.cached, kept) ensures p in s.everOpened && p !in s.leaked && p !in s.calls {
      var a :| a in s.cached && a !in kept && s.cached[a].pool == p;
      assert Placed(s, s.cached[a].pool);
    }
  }

  lemma {:induction false} PoolsAfterUpdate(c: Cache, slot: Slot, e: Entry)
    ensures var d := c[slot := e];
            && e.pool in Pools(d)
            && (forall p | p in Pools(c) :: p in Pools(d) || (slot in c && p == c[slot].pool))
  {
    var d := c[slot := e];
    assert d[slot] == e;
    forall p | p in Pools(c) ensures p in Pools(d) || (slot in c && p == c[slot].pool) {
      var a :| a in c && c[a].pool == p;
      if a != slot { assert d[a].pool == p; }
    }
  }

  lemma {:induction false} FinishKeepsInv(s: State, t: nat, now: int)
    requires Inv(s) && Enabled(s, Finish(t, now))
    ensures Inv(Next(s, Finish(t, now)))
  {
    var slot := s.calls[t].slot;
    var s' := Next(s, Finish(t, now));
    PoolsAfterUpdate(s.cached, slot, Entry(t, now));
    forall a | a in s.cached ensures Placed(s, s.cached[a].pool) && s.cached[a].pool != t {}
    forall a | a in s'.cached ensures Placed(s', s'.cached[a].pool) && s'.cached[a].pool !in s'.closed && s'.cached[a].pool !in s'.leaked {
      if a != slot { assert s'.cached[a] == s.cached[a]; }
    }
  }

  lemma {:induction false} StepKeepsInv(s: State, st: Step)
    requires Inv(s) && Enabled(s, st)
    ensures Inv(Next(s, st))
  {
    match st
    case Begin(slot, now) =>
      if slot in s.cached {
        var e := Entry(s.cached[slot].pool, now);
        PoolsAfterUpdate(s.cached, slot, e);
        var s' := Next(s, st);
        forall a | a in s'.cached ensures Placed(s', s'.cached[a].pool) && s'.cached[a].pool == s.cached[a].pool {
          assert Placed(s, s.cached[a].pool);
        }
      } else {
        var s' := Next(s, st);
        forall a | a in s'.cached ensures Placed(s', s'.cached[a].pool) {
          assert Placed(s, s.cached[a].pool);
        }
      }
    case Open(t) =>
      var s' := Next(s, st);
      forall a | a in s'.cached ensures Placed(s', s'.cached[a].pool) {
        assert Placed(s, s.cached[a].pool);
      }
    case Fail(t) =>
      var s' := Next(s, st);
      forall a | a in s'.cached ensures Placed(s', s'.cached[a].pool) && s'.cached[a].pool != t {
        assert Placed(s, s.cached[a].pool);
      }
    case Finish(t, now) => FinishKeepsInv(s, t, now);
    case Clean(now) => ClosingKeepsInv(s, Swept(s.cached, now), s.forgotAt);
    case Drop(id) => ClosingKeepsInv(s, Without(s.cached, id), s.forgotAt[id := s.next]);
  }

  lemma {:induction false} RunKeepsInv(s: State, steps: seq<Step>)
    requires Inv(s) && Possible(s, steps)
    ensures Inv(After(s, steps))
    decreases |steps|
  {
    if steps != [] {
      StepKeepsInv(s, steps[0]);
      RunKeepsInv(Next(s, steps[0]), steps[1..]);
    }
  }

  lemma {:induction false} PoolsSize(c: Cache)
    requires OneSlotEach(c)
    ensures |Pools(c)| == |c|
    decreases |c|
  {
    if c == map[] {
      assert Pools(c) == {};
    } else {
      var s :| s in c;
      var d := c - {s};
      PoolsSize(d);
      assert d.Keys == c.Keys - {s} && |d.Keys| == |d| && |c.Keys| == |c|;
      PoolsOf(c, d);
      assert Gone(c, d) == {c[s].pool};
    }
  }

  lemma {:induction false} FourParts(all: set<nat>, a: set<nat>, b: set<nat>, c: set<nat>, d: set<nat>)
    requires all == a + b + c + d && a !! b && (a + b) !! c && (a + b + c) !! d
    ensures |all| == |a| + |b| + |c| + |d|
  {
    assert |a + b| == |a| + |b| && |a + b + c| == |a + b| + |c|;
  }

  lemma {:induction false} InvPartitions(s: State)
    requires Inv(s)
    ensures s.everOpened == Pools(s.cached) + s.closed + Flight(s.calls) + s.leaked
    ensures Pools(s.cached) !! s.closed && Pools(s.cached) !! s.leaked && Pools(s.cached) !! Flight(s.calls)
  {
    forall p | p in Pools(s.cached) ensures p in s.everOpened && p !in s.closed && p !in s.leaked && p !in s.calls {
      var a :| a in s.cached && s.cached[a].pool == p;
      assert Placed(s, s.cached[a].pool);
    }
  }

  /** In every reachable state of every interleaving: each cached pool is open and held under one
      id, and pools opened = cached + closed + in flight + leaked. */
  lemma {:induction false} EveryPoolIsAccountedFor(steps: seq<Step>)
    requires Possible(INITIAL, steps)
    ensures var s := After(INITIAL, steps);
            && OneSlotEach(s.cached)
            && Pools(s.cached) <= s.everOpened - s.closed
            && s.everOpened == Pools(s.cached) + s.closed + Flight(s.calls) + s.leaked
            && |s.everOpened| == |s.cached| + |s.closed| + |Flight(s.calls)| + |s.leaked|
  {
    RunKeepsInv(INITIAL, steps);
    Accounts(After(INITIAL, steps));
  }

  lemma {:induction false} Accounts(s: State)
    requires Inv(s)
    ensures Pools(s.cached) <= s.everOpened - s.closed
    ensures s.everOpened == Pools(s.cached) + s.closed + Flight(s.calls) + s.leaked
    ensures |s.everOpened| == |s.cached| + |s.closed| + |Flight(s.calls)| + |s.leaked|
  {
    InvPartitions(s);
    PoolsSize(s.cached);
    FourParts(s.everOpened, Pools(s.cached), s.closed, Flight(s.calls), s.leaked);
  }

  /** A pool is closed by a failed ping of its own call, by the janitor when its entry has been
      idle past the limit, or by Forget of its id; by nothing else. */
  lemma {:induction false} WhoCloses(s: State, st: Step, p: nat)
    requires Inv(s) && Enabled(s, st) && p !in s.closed
    ensures p in Next(s, st).closed <==>
            || (st.Fail? && st.ticket == p && s.calls[p].holds)
            || (st.Clean? && exists a :: a in s.cached && s.cached[a].pool == p && st.now - s.cached[a].lastUsed > 300_000_000_000)
            || (st.Drop? && exists a :: a in s.cached && s.cached[a].pool == p && a.id == st.id)
  {
    if st.Clean? || st.Drop? {
      var kept := Next(s, st).cached;
      if a :| a in s.cached && s.cached[a].pool == p && a !in kept {
        assert p in Gone(s.cached, kept);
      }
    }
  }

  // ---- a pool that was handed out stays open ----

  predicate Within(st: Step, from: int, upto: int) {
    match st
    case Begin(_, now) => from <= now
    case Finish(_, now) => from <= now
    case Clean(now) => now <= upto
    case _ => true
  }

  /** Held in the cache under `slot` and used at `from` or later, or overwritten. */
  ghost predicate InUse(s: State, slot: Slot, p: nat, from: int) {
    || (slot in s.cached && s.cached[slot].pool == p && s.cached[slot].lastUsed >= from)
    || p in s.leaked
  }

  lemma {:induction false} StepKeepsInUse(s: State, st: Step, slot: Slot, p: nat, from: int)
    requires Inv(s) && Enabled(s, st) && InUse(s, slot, p, from)
    requires Within(st, from, from + IDLE_TTL) && !(st.Drop? && st.id == slot.id)
    ensures InUse(Next(s, st), slot, p, from)
  {
  }

  /** For five minutes after it was handed out, and whatever else runs, a pool is closed by
      nothing but a Forget of its id. */
  lemma {:induction false} HandedOutPoolStaysOpen(s: State, steps: seq<Step>, slot: Slot, p: nat, from: int)
    requires Inv(s) && Possible(s, steps) && InUse(s, slot, p, from)
    requires forall i | 0 <= i < |steps| :: Within(steps[i], from, from + 300_000_000_000) && !(steps[i].Drop? && steps[i].id == slot.id)
    ensures p in After(s, steps).everOpened && p !in After(s, steps).closed
    decreases |steps|
  {
    if steps == [] {
      assert slot in s.cached ==> Placed(s, s.cached[slot].pool);
    } else {
      StepKeepsInv(s, steps[0]);
      StepKeepsInUse(s, steps[0], slot, p, from);
      forall i | 0 <= i < |steps| - 1
        ensures Within(steps[1..][i], from, from + IDLE_TTL) && !(steps[1..][i].Drop? && steps[1..][i].id == slot.id)
      {
        assert steps[1..][i] == steps[i + 1];
      }
      HandedOutPoolStaysOpen(Next(s, steps[0]), steps[1..], slot, p, from);
    }
  }

  /** The step hands out the pool `p` of `slot` at `now`: a hit, or the end of the call that opened it. */
  predicate HandsOut(s: State, st: Step, slot: Slot, p: nat, now: int) {
    || (st == Begin(slot, now) && slot in s.cached && s.cached[slot].pool == p)
    || (st == Finish(p, now) && p in s.calls && s.calls[p].slot == slot)
  }

  /** So it is from every step that hands it out, a hit included: each one starts the five minutes anew. */
  lemma {:induction false} OpenAfterHandOut(s: State, st: Step, steps: seq<Step>, slot: Slot, p: nat, now: int)
    requires Inv(s) && Enabled(s, st) && HandsOut(s, st, slot, p, now) && Possible(Next(s, st), steps)
    requires forall i | 0 <= i < |steps| :: Within(steps[i], now, now + 300_000_000_000) && !(steps[i].Drop? && steps[i].id == slot.id)
    ensures p in After(Next(s, st), steps).everOpened && p !in After(Next(s, st), steps).closed
  {
    StepKeepsInv(s, st);
    assert InUse(Next(s, st), slot, p, now);
    HandedOutPoolStaysOpen(Next(s, st), steps, slot, p, now);
  }

  // ---- runs in which the calls of one id do not overlap ----

  /** A getter misses, and a Forget runs, only while no other call of that id is under way. */
  predicate Alone(s: State, st: Step) {
    match st
    case Begin(slot, _) => slot !in s.cached ==> forall t | t in s.calls :: s.calls[t].slot != slot
    case Drop(id) => forall t | t in s.calls :: s.calls[t].slot.id != id
    case _ => true
  }

  ghost predicate Serial(s: State, steps: seq<Step>)
    requires Possible(s, steps)
    decreases |steps|
  {
    steps == [] || (Alone(s, steps[0]) && Serial(Next(s, steps[0]), steps[1..]))
  }

  /** Not before the last Forget of the id. */
  predicate Current(s: State, id: int, ticket: nat) {
    id in s.forgotAt ==> s.forgotAt[id] <= ticket
  }

  ghost predicate SerialInv(s: State) {
    && s.leaked == {}
    && (forall t, u | t in s.calls && u in s.calls && s.calls[t].slot == s.calls[u].slot :: t == u)
    && (forall t | t in s.calls :: s.calls[t].slot !in s.cached && Current(s, s.calls[t].slot.id, t))
    && (forall a | a in s.cached :: Current(s, a.id, s.cached[a].pool))
  }

  lemma {:induction false} FinishKeepsSerialInv(s: State, t: nat, now: int)
    requires Inv(s) && SerialInv(s) && Enabled(s, Finish(t, now))
    ensures SerialInv(Next(s, Finish(t, now)))
  {
  }

  lemma {:induction false} BeginKeepsSerialInv(s: State, slot: Slot, now: int)
    requires Inv(s) && SerialInv(s) && Alone(s, Begin(slot, now))
    ensures SerialInv(Next(s, Begin(slot, now)))
  {
  }

  lemma {:induction false} DropKeepsSerialInv(s: State, id: int)
    requires Inv(s) && SerialInv(s) && Alone(s, Drop(id))
    ensures SerialInv(Next(s, Drop(id)))
  {
  }

  lemma {:induction false} StepKeepsSerialInv(s: State, st: Step)
    requires Inv(s) && SerialInv(s) && Enabled(s, st) && Alone(s, st)
    ensures SerialInv(Next(s, st))
  {
    match st
    case Begin(slot, now) => BeginKeepsSerialInv(s, slot, now);
    case Finish(t, now) => FinishKeepsSerialInv(s, t, now);
    case Drop(id) => DropKeepsSerialInv(s, id);
    case _ =>
  }

  lemma {:induction false} RunKeepsSerialInv(s: State, steps: seq<Step>)
    requires Inv(s) && SerialInv(s) && Possible(s, steps) && Serial(s, steps)
    ensures SerialInv(After(s, steps))
    decreases |steps|
  {
    if steps != [] {
      StepKeepsInv(s, steps[0]);
      StepKeepsSerialInv(s, steps[0]);
      RunKeepsSerialInv(Next(s, steps[0]), steps[1..]);
    }
  }

  /** Without overlap nothing leaks, and what a getter finds in the cache is a pool whose call
      began, and so opened it, after the last Forget of the id. */
  lemma {:induction false} SerialRunsNeitherLeakNorGoStale(steps: seq<Step>)
    requires Possible(INITIAL, steps) && Serial(INITIAL, steps)
    ensures var s := After(INITIAL, steps);
            && |s.everOpened| == |s.cached| + |s.closed| + |Flight(s.calls)|
            && forall slot | slot in s.cached :: Current(s, slot.id, s.cached[slot].pool)
  {
    RunKeepsSerialInv(INITIAL, steps);
    EveryPoolIsAccountedFor(steps);
  }

  /** In any run, overlapping or not: a step leaks a pool exactly when it stores over an occupied
      slot, and makes an entry stale exactly when it stores the pool of a call that began before
      the last Forget of its id. */
  lemma {:induction false} ExactlyWhenItLeaksOrGoesStale(s: State, st: Step)
    requires Inv(s) && Enabled(s, st)
    ensures Next(s, st).leaked != s.leaked <==> st.Finish? && s.calls[st.ticket].slot in s.cached
    ensures (forall a | a in s.cached :: Current(s, a.id, s.cached[a].pool)) ==>
            ((exists a :: a in Next(s, st).cached && !Current(Next(s, st), a.id, Next(s, st).cached[a].pool))
             <==> st.Finish? && !Current(s, s.calls[st.ticket].slot.id, st.ticket))
  {
    var s' := Next(s, st);
    if st.Finish? {
      var slot := s.calls[st.ticket].slot;
      assert s'.cached[slot].pool == st.ticket;
      assert slot in s.cached ==> s.cached[slot].pool !in s.leaked;
    }
  }

  // ---- which histories lead there ----

  /** The step takes the slot's entry away: a sweep that finds it idle, or a Forget of its id. */
  predicate Removes(s: State, st: Step, slot: Slot) {
    || (st.Drop? && st.id == slot.id)
    || (st.Clean? && slot in s.cached && Idle(s.cached[slot], st.now))
  }

  predicate Stores(s: State, st: Step, slot: Slot) {
    st.Finish? && st.ticket in s.calls && s.calls[st.ticket].slot == slot
  }

  ghost predicate Survives(s: State, steps: seq<Step>, slot: Slot)
    requires Possible(s, steps)
    decreases |steps|
  {
    steps == [] || (!Removes(s, steps[0], slot) && Survives(Next(s, steps[0]), steps[1..], slot))
  }

  /** Some call of the slot finished in these steps, and its entry was neither swept nor forgotten
      by the end of them. */
  ghost predicate StoredAndKept(s: State, steps: seq<Step>, slot: Slot)
    requires Possible(s, steps)
    decreases |steps|
  {
    && steps != []
    && var t := Next(s, steps[0]);
       (Stores(s, steps[0], slot) && Survives(t, steps[1..], slot)) || StoredAndKept(t, steps[1..], slot)
  }

  lemma {:induction false} CachedAfterStep(s: State, st: Step, slot: Slot)
    requires Enabled(s, st)
    ensures slot in Next(s, st).cached <==> (slot in s.cached && !Removes(s, st, slot)) || Stores(s, st, slot)
  {
  }

  lemma {:induction false} CachedExactly(s: State, steps: seq<Step>, slot: Slot)
    requires Possible(s, steps)
    ensures slot in After(s, steps).cached <==> (slot in s.cached && Survives(s, steps, slot)) || StoredAndKept(s, steps, slot)
    decreases |steps|
  {
    if steps != [] {
      CachedAfterStep(s, steps[0], slot);
      CachedExactly(Next(s, steps[0]), steps[1..], slot);
    }
  }

  /** A call keeps its slot for as long as it runs, and its ticket is never given out again. */
  lemma {:induction false} CallKeepsSlot(s: State, steps: seq<Step>, t: nat, slot: Slot)
    requires Possible(s, steps) && t < s.next && (t in s.calls ==> s.calls[t].slot == slot)
    ensures var s' := After(s, steps); t < s'.next && (t in s'.calls ==> s'.calls[t].slot == slot)
    decreases |steps|
  {
    if steps != [] { CallKeepsSlot(Next(s, steps[0]), steps[1..], t, slot); }
  }

  /** A getter that missed, and whatever ran until it could store its pool. */
  ghost predicate Missed(s: State, slot: Slot, now: int, mid: seq<Step>, end: int) {
    && Inv(s) && slot !in s.cached
    && Possible(Next(s, Begin(slot, now)), mid)
    && Enabled(After(Next(s, Begin(slot, now)), mid), Finish(s.next, end))
  }

  /** A call leaks a pool, if and only if another call of its slot finished since it began and the
      entry of that call was neither swept nor forgotten in between. */
  lemma {:induction false} LeaksExactly(s: State, slot: Slot, now: int, mid: seq<Step>, end: int)
    requires Missed(s, slot, now, mid, end)
    ensures var begun := Next(s, Begin(slot, now));
            var last := After(begun, mid);
            Next(last, Finish(s.next, end)).leaked != last.leaked <==> StoredAndKept(begun, mid, slot)
  {
    var begun := Next(s, Begin(slot, now));
    StepKeepsInv(s, Begin(slot, now));
    RunKeepsInv(begun, mid);
    CallKeepsSlot(begun, mid, s.next, slot);
    CachedExactly(begun, mid, slot);
    ExactlyWhenItLeaksOrGoesStale(After(begun, mid), Finish(s.next, end));
  }

  ghost predicate Forgotten(steps: seq<Step>, id: int) {
    exists i | 0 <= i < |steps| :: steps[i] == Drop(id)
  }

  lemma {:induction false} CurrentExactly(s: State, steps: seq<Step>, id: int, t: nat)
    requires Possible(s, steps) && t < s.next
    ensures Current(After(s, steps), id, t) <==> Current(s, id, t) && !Forgotten(steps, id)
    decreases |steps|
  {
    if steps != [] {
      var s', rest := Next(s, steps[0]), steps[1..];
      CurrentExactly(s', rest, id, t);
      assert Current(s', id, t) <==> Current(s, id, t) && steps[0] != Drop(id);
      ForgottenFirst(steps, id);
    }
  }

  lemma {:induction false} ForgottenFirst(steps: seq<Step>, id: int)
    requires steps != []
    ensures Forgotten(steps, id) <==> steps[0] == Drop(id) || Forgotten(steps[1..], id)
  {
    if i :| 0 <= i < |steps| && steps[i] == Drop(id) {
      if i > 0 { assert steps[1..][i - 1] == Drop(id); }
    }
    if i :| 0 <= i < |steps[1..]| && steps[1..][i] == Drop(id) {
      assert steps[i + 1] == Drop(id);
    }
  }

  /** A call stores a pool from before the last Forget of its id, if and only if that Forget ran
      since the call began. */
  lemma {:induction false} GoesStaleExactly(s: State, slot: Slot, now: int, mid: seq<Step>, end: int)
    requires Missed(s, slot, now, mid, end)
    ensures var done := Next(After(Next(s, Begin(slot, now)), mid), Finish(s.next, end));
            && slot in done.cached && done.cached[slot].pool == s.next
            && (!Current(done, slot.id, s.next) <==> Forgotten(mid, slot.id))
  {
    var begun := Next(s, Begin(slot, now));
    CallKeepsSlot(begun, mid, s.next, slot);
    CurrentExactly(begun, mid, slot.id, s.next);
  }

  /** Two calls that both miss: the second store loses the first one's pool for good. */
  lemma {:induction false} OverlappingGettersLeak(slot: Slot)
    ensures var steps := [Begin(slot, 0), Begin(slot, 0), Open(0), Open(1), Finish(0, 1), Finish(1, 2)];
            Possible(INITIAL, steps) && After(INITIAL, steps).leaked == {0}
  {
    var s1 := Next(INITIAL, Begin(slot, 0));
    var s2 := Next(s1, Begin(slot, 0));
    var s3 := Next(s2, Open(0));
    var s4 := Next(s3, Open(1));
    var s5 := Next(s4, Finish(0, 1));
    var s6 := Next(s5, Finish(1, 2));
    ThenStep(s6, [], s5, Finish(1, 2));
    ThenStep(s5, [Finish(1, 2)], s4, Finish(0, 1));
    ThenStep(s4, [Finish(0, 1), Finish(1, 2)], s3, Open(1));
    ThenStep(s3, [Open(1), Finish(0, 1), Finish(1, 2)], s2, Open(0));
    ThenStep(s2, [Open(0), Open(1), Finish(0, 1), Finish(1, 2)], s1, Begin(slot, 0));
    ThenStep(s1, [Begin(slot, 0), Open(0), Open(1), Finish(0, 1), Finish(1, 2)], INITIAL, Begin(slot, 0));
  }

  /** A Forget during a call: the pool opened before it is found afterwards. */
  lemma {:induction false} ForgetDuringGetterGoesStale(slot: Slot)
    ensures var steps := [Begin(slot, 0), Open(0), Drop(slot.id), Finish(0, 1)];
            && Possible(INITIAL, steps)
            && var s := After(INITIAL, steps);
               slot in s.cached && s.cached[slot].pool == 0 && !Current(s, slot.id, 0)
  {
    var s1 := Next(INITIAL, Begin(slot, 0));
    var s2 := Next(s1, Open(0));
    var s3 := Next(s2, Drop(slot.id));
    var s4 := Next(s3, Finish(0, 1));
    ThenStep(s4, [], s3, Finish(0, 1));
    ThenStep(s3, [Finish(0, 1)], s2, Drop(slot.id));
    ThenStep(s2, [Drop(slot.id), Finish(0, 1)], s1, Open(0));
    ThenStep(s1, [Open(0), Drop(slot.id), Finish(0, 1)], INITIAL, Begin(slot, 0));
  }

  lemma {:induction false} ThenStep(mid: State, rest: seq<Step>, s: State, st: Step)
    requires Enabled(s, st) && Next(s, st) == mid && Possible(mid, rest)
    ensures Possible(s, [st] + rest) && After(s, [st] + rest) == After(mid, rest)
  {
    assert ([st] + rest)[0] == st && ([st] + rest)[1..] == rest;
  }
}
