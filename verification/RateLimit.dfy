/** The fixed-window rate limiter: its table, its two sweeps, and the simple limiter it refines. */
module RateLimit {

  const MAX_RATE_KEYS: nat := 50_000

  /** Instants and durations are integers (nanoseconds). */
  datatype Window = Window(count: int, reset: int)

  type Table = map<string, Window>

  datatype Config = Config(max: int, period: int)

  function Live(h: Table, now: int): Table {
    map k | k in h && now <= h[k].reset :: h[k]
  }

  datatype Verdict = Verdict(ok: bool, hits: Table)

  /** What one request does to the table, sweep included. */
  function AllowStep(c: Config, h: Table, key: string, now: int): Verdict {
    if key in h && now <= h[key].reset then
      if h[key].count >= c.max then Verdict(false, h)
      else Verdict(true, h[key := Window(h[key].count + 1, h[key].reset)])
    else
      var first := Window(1, now + c.period);
      if key !in h && |h| >= MAX_RATE_KEYS then
        if |Live(h, now)| >= MAX_RATE_KEYS then Verdict(false, Live(h, now))
        else Verdict(true, Live(h, now)[key := first])
      else Verdict(true, h[key := first])
  }

  class RateLimiter {
    var hits: Table
    const config: Config

    constructor (max: int, period: int)
      ensures hits == map[] && config == Config(max, period)
    {
      hits := map[];
      config := Config(max, period);
    }

    /** Deletes every window that has expired at `now`: the body of both sweeps. */
    method Sweep(now: int)
      modifies this
      ensures hits == Live(old(hits), now)
      ensures hits == map k | k in old(hits) && now <= old(hits)[k].reset :: old(hits)[k]
    {
      var keys := hits.Keys;
      while keys != {}
        invariant keys <= hits.Keys <= old(hits).Keys
        invariant forall k | k in hits :: hits[k] == old(hits)[k]
        invariant forall k | k in old(hits).Keys - keys :: k in hits <==> now <= old(hits)[k].reset
        decreases |keys|
      {
        var k :| k in keys;
        keys := keys - {k};
        if now > hits[k].reset { hits := hits - {k}; }
      }
    }

    /** Whether `key` may proceed at `now`, recording the attempt. */
    method Allow(key: string, now: int) returns (ok: bool)
      modifies this
      ensures Verdict(ok, hits) == AllowStep(config, old(hits), key, now)
      ensures key in old(hits) && now <= old(hits)[key].reset ==>
                var w := old(hits)[key];
                ok == (w.count < config.max) && hits == if ok then old(hits)[key := Window(w.count + 1, w.reset)] else old(hits)
      ensures key in old(hits) && now > old(hits)[key].reset ==> ok && hits == old(hits)[key := Window(1, now + config.period)]
      ensures key !in old(hits) && |old(hits)| < 50_000 ==> ok && hits == old(hits)[key := Window(1, now + config.period)]
      ensures key !in old(hits) && |old(hits)| >= 50_000 ==>
                var left := map k | k in old(hits) && now <= old(hits)[k].reset :: old(hits)[k];
                ok == (|left| < 50_000) && hits == if ok then left[key := Window(1, now + config.period)] else left
    {
      if key in hits && now <= hits[key].reset {
        if hits[key].count >= config.max { return false; }
        hits := hits[key := Window(hits[key].count + 1, hits[key].reset)];
        return true;
      }
      if key !in hits && |hits| >= MAX_RATE_KEYS {
        Sweep(now);
        if |hits| >= MAX_RATE_KEYS { return false; }
      }
      hits := hits[key := Window(1, now + config.period)];
      return true;
    }
  }

  // ---- runs ----

  datatype Event = Request(key: string, now: int) | Prune(now: int)

  function Step(c: Config, h: Table, e: Event): Verdict {
    match e
    case Request(key, now) => AllowStep(c, h, key, now)
    case Prune(now) => Verdict(false, Live(h, now))
  }

  /** For each event, whether it admitted a request. */
  function Admitted(c: Config, h: Table, evs: seq<Event>): seq<bool>
    decreases |evs|
  {
    if evs == [] then []
    else var v := Step(c, h, evs[0]); [v.ok] + Admitted(c, v.hits, evs[1..])
  }

  function After(c: Config, h: Table, evs: seq<Event>): Table
    decreases |evs|
  {
    if evs == [] then h else After(c, Step(c, h, evs[0]).hits, evs[1..])
  }

  /** Clock readings never go back, starting from `t`. */
  predicate ClockFrom(t: int, evs: seq<Event>)
    decreases |evs|
  {
    evs == [] || (t <= evs[0].now && ClockFrom(evs[0].now, evs[1..]))
  }

  // ---- the simple limiter: no pruning, no sweep, live windows only ----

  function SpecStep(c: Config, l: Table, e: Event): Verdict {
    match e
    case Prune(_) => Verdict(false, l)
    case Request(key, now) =>
      var live := Live(l, now);
      if key in live then
        if live[key].count < c.max then Verdict(true, live[key := live[key].(count := live[key].count + 1)])
        else Verdict(false, live)
      else if |live| < MAX_RATE_KEYS then Verdict(true, live[key := Window(1, now + c.period)])
      else Verdict(false, live)
  }

  function SpecAdmitted(c: Config, l: Table, evs: seq<Event>): seq<bool>
    decreases |evs|
  {
    if evs == [] then []
    else var v := SpecStep(c, l, evs[0]); [v.ok] + SpecAdmitted(c, v.hits, evs[1..])
  }

  lemma {:induction false} SubmapSize(a: Table, b: Table)
    requires a.Keys <= b.Keys
    ensures |a| <= |b| && (a.Keys < b.Keys ==> |a| < |b|)
  {
    assert |a| == |a.Keys| && |b| == |b.Keys|;
    assert b.Keys == a.Keys + (b.Keys - a.Keys);
  }

  /** The table never holds more than `MAX_RATE_KEYS` windows. */
  lemma {:induction false} StepKeepsCap(c: Config, h: Table, e: Event)
    requires |h| <= MAX_RATE_KEYS
    ensures |Step(c, h, e).hits| <= MAX_RATE_KEYS
  {
    var l := Live(h, e.now);
    SubmapSize(l, h);
    var g := Step(c, h, e).hits;
    if e.Request? && e.key in h {
      assert g.Keys <= h.Keys;
      SubmapSize(g, h);
    } else if e.Request? {
      assert |h[e.key := Window(1, e.now + c.period)]| == |h| + 1;
      assert |l[e.key := Window(1, e.now + c.period)]| == |l| + 1;
    }
  }

  lemma {:induction false} TableNeverExceedsCap(c: Config, h: Table, evs: seq<Event>)
    requires |h| <= 50_000
    ensures |After(c, h, evs)| <= 50_000
    decreases |evs|
  {
    if evs != [] {
      StepKeepsCap(c, h, evs[0]);
      TableNeverExceedsCap(c, Step(c, h, evs[0]).hits, evs[1..]);
    }
  }

  lemma {:induction false} LiveLater(h: Table, l: Table, t: int, now: int)
    requires t <= now && Live(h, t) == Live(l, t)
    ensures Live(h, now) == Live(l, now)
  {
    var hl, ll := Live(h, now), Live(l, now);
    forall k ensures (k in hl <==> k in ll) && (k in hl ==> hl[k] == ll[k]) {
      assert k in hl ==> k in Live(h, t) && Live(h, t)[k] == h[k];
      assert k in ll ==> k in Live(l, t) && Live(l, t)[k] == l[k];
    }
  }

  /** A request of a key with a live window. */
  lemma {:induction false} HitRefines(c: Config, h: Table, l: Table, key: string, now: int)
    requires Live(h, now) == Live(l, now) && key in Live(h, now)
    ensures var e := Request(key, now); var v, s := Step(c, h, e), SpecStep(c, l, e);
            v.ok == s.ok && Live(v.hits, now) == Live(s.hits, now)
  {
  }

  lemma {:induction false} MissHasRoom(h: Table, key: string, now: int)
    requires |h| <= MAX_RATE_KEYS && key !in Live(h, now)
    ensures |Live(h, now)| <= |h| && (key in h ==> |Live(h, now)| < MAX_RATE_KEYS)
  {
    SubmapSize(Live(h, now), h);
    if key in h { assert key in h.Keys && key !in Live(h, now).Keys; }
  }

  /** A request of a key without one. */
  lemma {:induction false} MissRefines(c: Config, h: Table, l: Table, key: string, now: int)
    requires |h| <= MAX_RATE_KEYS && Live(h, now) == Live(l, now) && key !in Live(h, now)
    ensures var e := Request(key, now); var v, s := Step(c, h, e), SpecStep(c, l, e);
            v.ok == s.ok && Live(v.hits, now) == Live(s.hits, now)
  {
    MissHasRoom(h, key, now);
  }

  lemma {:induction false} LiveTwice(h: Table, now: int)
    ensures Live(Live(h, now), now) == Live(h, now)
  {
  }

  /** One step of the real limiter against one of the simple one. */
  lemma {:induction false} StepRefines(c: Config, h: Table, l: Table, t: int, e: Event)
    requires |h| <= MAX_RATE_KEYS && t <= e.now && Live(h, t) == Live(l, t)
    ensures var v, s := Step(c, h, e), SpecStep(c, l, e);
            v.ok == s.ok && Live(v.hits, e.now) == Live(s.hits, e.now)
  {
    LiveLater(h, l, t, e.now);
    match e
    case Prune(now) => LiveTwice(h, now);
    case Request(key, now) =>
      if key in Live(h, now) { HitRefines(c, h, l, key, now); } else { MissRefines(c, h, l, key, now); }
  }

  /** Whatever the timing of the sweeps, every request gets the verdict of the simple limiter. */
  lemma {:induction false} Refines(c: Config, h: Table, l: Table, t: int, evs: seq<Event>)
    requires |h| <= MAX_RATE_KEYS && Live(h, t) == Live(l, t) && ClockFrom(t, evs)
    ensures Admitted(c, h, evs) == SpecAdmitted(c, l, evs)
    decreases |evs|
  {
    if evs != [] {
      StepRefines(c, h, l, t, evs[0]);
      StepKeepsCap(c, h, evs[0]);
      Refines(c, Step(c, h, evs[0]).hits, SpecStep(c, l, evs[0]).hits, evs[0].now, evs[1..]);
    }
  }

  /** The same, from the empty table the limiter starts with. */
  lemma {:induction false} LimiterRefinesSimpleLimiter(c: Config, t: int, evs: seq<Event>)
    requires ClockFrom(t, evs)
    ensures Admitted(c, map[], evs) == SpecAdmitted(c, map[], evs)
  {
    Refines(c, map[], map[], t, evs);
  }

  /** Readings taken before the lock can be out of order; then a prune may forget a window that
      is still live for a later request. */
  lemma {:induction false} ClockGoingBackBreaksRefinement()
    ensures var evs := [Request("a", 0), Prune(100), Request("a", 0)];
            Admitted(Config(1, 60), map[], evs) == [true, false, true]
            && SpecAdmitted(Config(1, 60), map[], evs) == [true, false, false]
  {
    var c := Config(1, 60);
    var evs := [Request("a", 0), Prune(100), Request("a", 0)];
    var h1: Table := map["a" := Window(1, 60)];
    assert evs[1..] == [Prune(100), Request("a", 0)] && evs[1..][1..] == [Request("a", 0)];
    assert Live(map[], 0) == map[] && Live(h1, 100) == map[] && Live(h1, 0) == h1;
    assert Step(c, map[], evs[0]) == Verdict(true, h1) == SpecStep(c, map[], evs[0]);
    assert Step(c, h1, evs[1]) == Verdict(false, map[]) && SpecStep(c, h1, evs[1]) == Verdict(false, h1);
    assert SpecStep(c, h1, evs[2]) == Verdict(false, h1);
    assert Admitted(c, map[], [Request("a", 0)]) == [true];
    assert SpecAdmitted(c, h1, [Request("a", 0)]) == [false];
    assert Admitted(c, h1, evs[1..]) == [false, true];
    assert SpecAdmitted(c, h1, evs[1..]) == [false, false];
  }

  // ---- how many requests of one key can pass ----

  function Passed(c: Config, h: Table, evs: seq<Event>, key: string): nat
    decreases |evs|
  {
    if evs == [] then 0
    else
      var v := Step(c, h, evs[0]);
      Passed(c, v.hits, evs[1..], key) + if evs[0].Request? && evs[0].key == key && v.ok then 1 else 0
  }

  ghost predicate Counted(h: Table) {
    forall k | k in h :: h[k].count >= 1
  }

  lemma {:induction false} AfterCounted(c: Config, h: Table, evs: seq<Event>)
    requires Counted(h)
    ensures Counted(After(c, h, evs))
    decreases |evs|
  {
    if evs != [] { AfterCounted(c, Step(c, h, evs[0]).hits, evs[1..]); }
  }

  predicate Before(end: int, evs: seq<Event>) {
    forall i | 0 <= i < |evs| :: evs[i].now <= end
  }

  function Max(a: int, b: int): int { if a >= b then a else b }

  /** While its window lasts, a key gets only what the window has left. */
  lemma {:induction false} WithinWindow(c: Config, h: Table, evs: seq<Event>, key: string, end: int)
    requires key in h && end <= h[key].reset && Before(end, evs)
    ensures Passed(c, h, evs, key) <= Max(c.max - h[key].count, 0)
    decreases |evs|
  {
    if evs != [] {
      assert evs[0].now <= end;
      var g := Step(c, h, evs[0]).hits;
      assert key in g && g[key].reset == h[key].reset;
      forall i | 0 <= i < |evs| - 1 ensures evs[1..][i].now <= end { assert evs[1..][i] == evs[i + 1]; }
      WithinWindow(c, g, evs[1..], key, end);
    }
  }

  /** The window a key has at the start of a span and the one opened within it. */
  lemma {:induction false} WithinSpan(c: Config, h: Table, evs: seq<Event>, key: string, start: int, end: int)
    requires Counted(h) && ClockFrom(start, evs) && Before(end, evs) && end <= start + c.period
    ensures key in h ==> Passed(c, h, evs, key) <= Max(c.max - h[key].count, 0) + Max(c.max, 1)
    ensures key !in h ==> Passed(c, h, evs, key) <= Max(c.max, 1)
    decreases |evs|
  {
    if evs != [] {
      var e := evs[0];
      assert e.now <= end;
      var g := Step(c, h, e).hits;
      forall i | 0 <= i < |evs| - 1 ensures evs[1..][i].now <= end { assert evs[1..][i] == evs[i + 1]; }
      WithinSpan(c, g, evs[1..], key, e.now, end);
      if e.Request? && e.key == key && key in g && g[key] == Window(1, e.now + c.period) {
        WithinWindow(c, g, evs[1..], key, end);
      }
    }
  }

  /** In any stretch of any run that lasts no longer than one period, a key passes at most
      2·max - 1 times (once when max is below one: a window's first request is never counted). */
  lemma {:induction false} AtMostTwiceMinusOne(c: Config, before: seq<Event>, span: seq<Event>, key: string, start: int, end: int)
    requires ClockFrom(start, span) && Before(end, span) && end <= start + c.period
    ensures Passed(c, After(c, map[], before), span, key) <= 2 * Max(c.max, 1) - 1
  {
    AfterCounted(c, map[], before);
    WithinSpan(c, After(c, map[], before), span, key, start, end);
  }

  /** `n` requests of one key at one instant, then the rest. */
  function Burst(key: string, now: int, n: nat, rest: seq<Event>): seq<Event> {
    if n == 0 then rest else [Request(key, now)] + Burst(key, now, n - 1, rest)
  }

  lemma {:induction false} BurstThenRest(c: Config, h: Table, key: string, now: int, n: nat, rest: seq<Event>)
    requires key in h && now <= h[key].reset && h[key].count + n <= c.max
    ensures var g := h[key := Window(h[key].count + n, h[key].reset)];
            Passed(c, h, Burst(key, now, n, rest), key) == n + Passed(c, g, rest, key)
    decreases n
  {
    if n == 0 {
      assert h[key := Window(h[key].count, h[key].reset)] == h;
    } else {
      var evs := Burst(key, now, n, rest);
      assert evs[1..] == Burst(key, now, n - 1, rest);
      var g := h[key := Window(h[key].count + 1, h[key].reset)];
      BurstThenRest(c, g, key, now, n - 1, rest);
      assert g[key := Window(g[key].count + (n - 1), h[key].reset)] == h[key := Window(h[key].count + n, h[key].reset)];
    }
  }

  lemma {:induction false} BurstClock(key: string, t: int, now: int, n: nat, rest: seq<Event>)
    requires t <= now && ClockFrom(now, rest)
    ensures ClockFrom(t, Burst(key, now, n, rest))
    decreases n
  {
    if n > 0 {
      assert Burst(key, now, n, rest)[1..] == Burst(key, now, n - 1, rest);
      BurstClock(key, now, now, n - 1, rest);
    } else if rest != [] {
      assert ClockFrom(rest[0].now, rest[1..]);
    }
  }

  /** A full window: opened by its first request, filled by the others. */
  lemma {:induction false} FullWindow(c: Config, h: Table, key: string, now: int)
    requires c.max >= 1 && c.period >= 0 && key in h && h[key].reset < now
    ensures Passed(c, h, Burst(key, now, c.max, []), key) == c.max
  {
    var g := h[key := Window(1, now + c.period)];
    var evs := Burst(key, now, c.max, []);
    assert evs[0] == Request(key, now) && evs[1..] == Burst(key, now, c.max - 1, []);
    assert Step(c, h, evs[0]) == Verdict(true, g);
    BurstThenRest(c, g, key, now, c.max - 1, []);
  }

  lemma {:induction false} BurstBefore(key: string, now: int, n: nat, rest: seq<Event>, end: int)
    requires now <= end && Before(end, rest)
    ensures Before(end, Burst(key, now, n, rest))
    decreases n
  {
    if n > 0 {
      var more := Burst(key, now, n - 1, rest);
      BurstBefore(key, now, n - 1, rest, end);
      forall i | 0 <= i < |more| + 1 ensures ([Request(key, now)] + more)[i].now <= end {
        if i > 0 { assert ([Request(key, now)] + more)[i] == more[i - 1]; }
      }
    }
  }

  /** The rest of one window at its last instant, then a full window one tick later. */
  function TwoWindows(c: Config, key: string): seq<Event>
    requires c.max >= 1
  {
    Burst(key, c.period, c.max - 1, Burst(key, c.period + 1, c.max, []))
  }

  lemma {:induction false} TwoWindowsFit(c: Config, key: string)
    requires c.max >= 1
    ensures ClockFrom(c.period, TwoWindows(c, key)) && Before(c.period + 1, TwoWindows(c, key))
  {
    var second := Burst(key, c.period + 1, c.max, []);
    BurstClock(key, c.period, c.period + 1, c.max, []);
    BurstClock(key, c.period, c.period, c.max - 1, second);
    BurstBefore(key, c.period + 1, c.max, [], c.period + 1);
    BurstBefore(key, c.period, c.max - 1, second, c.period + 1);
  }

  lemma {:induction false} TwoWindowsPass(c: Config, key: string)
    requires c.max >= 1 && c.period >= 0
    ensures Passed(c, map[key := Window(1, c.period)], TwoWindows(c, key), key) == 2 * c.max - 1
  {
    var h: Table := map[key := Window(1, c.period)];
    var g: Table := map[key := Window(c.max, c.period)];
    var second := Burst(key, c.period + 1, c.max, []);
    assert h[key := Window(h[key].count + (c.max - 1), h[key].reset)] == g;
    BurstThenRest(c, h, key, c.period, c.max - 1, second);
    FullWindow(c, g, key, c.period + 1);
  }

  lemma {:induction false} FirstRequest(c: Config, key: string)
    ensures After(c, map[], [Request(key, 0)]) == map[key := Window(1, c.period)] && ClockFrom(0, [Request(key, 0)])
  {
    assert Step(c, map[], Request(key, 0)).hits == map[key := Window(1, c.period)];
    assert [Request(key, 0)][1..] == [];
  }

  /** The bound is reached for every max and every period of at least one tick: one request opens a
      window, and a span from the last instant of that window, no longer than one period, passes
      all the others and a full window after it. */
  lemma {:induction false} BoundIsReached(c: Config, key: string)
    requires c.max >= 1 && c.period >= 1
    ensures var before, span := [Request(key, 0)], TwoWindows(c, key);
            && ClockFrom(0, before) && ClockFrom(c.period, span) && Before(c.period + 1, span) && c.period + 1 <= c.period + c.period
            && Passed(c, After(c, map[], before), span, key) == 2 * c.max - 1
  {
    FirstRequest(c, key);
    TwoWindowsFit(c, key);
    TwoWindowsPass(c, key);
  }
}
