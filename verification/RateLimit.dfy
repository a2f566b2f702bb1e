/** The per-agent token bucket limiter with idle eviction (src/rate_limit.rs).

    Time and tokens are real numbers.  One call carries, besides the agent and the instant,
    the two things the code does not decide itself: whether the sweep lock was free, and which
    buckets the bounded scan of the unordered map happened to visit. */
module RateLimit {
  import opened Common

  const DEFAULT_SWEEP_INTERVAL: real := 60.0
  const MAX_SWEEP_SCAN: nat := 1024

  datatype Config = Config(rpm: nat, burst: nat, idleTtl: real) {
    predicate Enabled() {
      rpm > 0
    }

    /** Tokens per second. */
    function Rate(): real {
      rpm as real / 60.0
    }

    function Capacity(): real {
      burst as real
    }

    function SweepInterval(): real {
      if idleTtl <= DEFAULT_SWEEP_INTERVAL then idleTtl else DEFAULT_SWEEP_INTERVAL
    }

    /** Tokens gained over a span of time, before capping. */
    function Gain(span: real): real {
      span * Rate()
    }
  }

  datatype Bucket = Bucket(tokens: real, lastRefill: real)

  type Buckets = map<string, Bucket>

  datatype Limiter = Limiter(buckets: Buckets, lastSweep: real)

  datatype Call = Call(agent: string, now: real, lockFree: bool, scan: set<string>)

  /** `Instant::saturating_duration_since`. */
  function Elapsed(now: real, earlier: real): real {
    if now <= earlier then 0.0 else now - earlier
  }

  // ---- One call ------------------------------------------------------------------------

  predicate Stale(cfg: Config, b: Bucket, now: real) {
    Elapsed(now, b.lastRefill) >= cfg.idleTtl
  }

  predicate SweepDue(cfg: Config, l: Limiter, now: real, lockFree: bool) {
    l.buckets != map[] && lockFree && Elapsed(now, l.lastSweep) >= cfg.SweepInterval()
  }

  function Purge(cfg: Config, bs: Buckets, now: real, scan: set<string>): Buckets {
    map k | k in bs && !(k in scan && Stale(cfg, bs[k], now)) :: bs[k]
  }

  function Swept(cfg: Config, l: Limiter, now: real, lockFree: bool, scan: set<string>): Limiter {
    if SweepDue(cfg, l, now, lockFree) then Limiter(Purge(cfg, l.buckets, now, scan), now) else l
  }

  /** The bucket as it stands once the call has refilled it. */
  function Refilled(cfg: Config, bs: Buckets, agent: string, now: real): Bucket {
    var b := if agent in bs then bs[agent] else Bucket(cfg.Capacity(), now);
    var level := b.tokens + cfg.Gain(Elapsed(now, b.lastRefill));
    Bucket(if level <= cfg.Capacity() then level else cfg.Capacity(), now)
  }

  function Spend(b: Bucket): Bucket {
    if b.tokens >= 1.0 then b.(tokens := b.tokens - 1.0) else b
  }

  function Consume(cfg: Config, bs: Buckets, agent: string, now: real): (Buckets, bool) {
    var b := Refilled(cfg, bs, agent, now);
    (bs[agent := Spend(b)], b.tokens >= 1.0)
  }

  /** A scan visits `min(MAX_SWEEP_SCAN, len)` buckets, in an order nobody controls. */
  ghost predicate LegalScan(bs: Buckets, scan: set<string>) {
    scan <= bs.Keys && |scan| == Min(MAX_SWEEP_SCAN, |bs|)
  }

  ghost predicate Enumerates(order: seq<string>, bs: Buckets) {
    && (forall k :: k in order <==> k in bs)
    && Distinct(order)
  }

  function Visited(order: seq<string>): set<string> {
    set k | k in order[..Min(MAX_SWEEP_SCAN, |order|)]
  }

  /** The first buckets of any enumeration are a legal scan. */
  lemma VisitedIsLegal(order: seq<string>, bs: Buckets)
    requires Enumerates(order, bs)
    ensures LegalScan(bs, Visited(order))
  {
    DistinctCount(order);
    DistinctCount(order[..Min(MAX_SWEEP_SCAN, |order|)]);
    assert (set k | k in order) == bs.Keys;
    assert |bs| == |bs.Keys|;
  }

  function Step(cfg: Config, l: Limiter, c: Call): (Limiter, bool) {
    if !cfg.Enabled() then (l, true)
    else
      var s := Swept(cfg, l, c.now, c.lockFree, c.scan);
      var (bs, ok) := Consume(cfg, s.buckets, c.agent, c.now);
      (s.(buckets := bs), ok)
  }

  /** The same call on a limiter that never evicts. */
  function PlainStep(cfg: Config, bs: Buckets, c: Call): (Buckets, bool) {
    if !cfg.Enabled() then (bs, true) else Consume(cfg, bs, c.agent, c.now)
  }

  // ---- The imperative limiter ----------------------------------------------------------

  class RateLimiter {
    const cfg: Config
    var buckets: Buckets
    var lastSweep: real

    constructor (rpm: nat, burst: nat, idleTtl: real, now: real)
      ensures cfg == Config(rpm, burst, idleTtl)
      ensures View() == Limiter(map[], now)
    {
      cfg := Config(rpm, burst, idleTtl);
      buckets := map[];
      lastSweep := now;
    }

    ghost function View(): Limiter
      reads this
    {
      Limiter(buckets, lastSweep)
    }

    /** `order` is the order in which iteration happens to yield the buckets. */
    method CheckAndConsume(agent: string, now: real, lockFree: bool, order: seq<string>) returns (ok: bool)
      requires Enumerates(order, buckets)
      modifies this
      ensures LegalScan(old(buckets), Visited(order))
      ensures (View(), ok) == Step(cfg, old(View()), Call(agent, now, lockFree, Visited(order)))
    {
      VisitedIsLegal(order, buckets);
      if !cfg.Enabled() {
        return true;
      }
      EvictStaleBuckets(now, lockFree, order);
      ok := RefillAndSpend(agent, now);
    }

    method RefillAndSpend(agent: string, now: real) returns (ok: bool)
      modifies this`buckets
      ensures (buckets, ok) == Consume(cfg, old(buckets), agent, now)
    {
      var entry := if agent in buckets then buckets[agent] else Bucket(cfg.Capacity(), now);
      var level := entry.tokens + cfg.Gain(Elapsed(now, entry.lastRefill));
      entry := Bucket(if level <= cfg.Capacity() then level else cfg.Capacity(), now);
      if entry.tokens >= 1.0 {
        entry := entry.(tokens := entry.tokens - 1.0);
        ok := true;
      } else {
        ok := false;
      }
      buckets := buckets[agent := entry];
    }

    method EvictStaleBuckets(now: real, lockFree: bool, order: seq<string>)
      requires Enumerates(order, buckets)
      modifies this
      ensures View() == Swept(cfg, old(View()), now, lockFree, Visited(order))
      ensures var interval := if cfg.idleTtl <= 60.0 then cfg.idleTtl else 60.0;
        var due := old(buckets) != map[] && lockFree && Elapsed(now, old(lastSweep)) >= interval;
        && lastSweep == (if due then now else old(lastSweep))
        && forall k :: k in buckets <==>
             k in old(buckets)
             && !(due && k in order[..Min(1024, |order|)] && Elapsed(now, old(buckets)[k].lastRefill) >= cfg.idleTtl)
      ensures forall k :: k in buckets ==> buckets[k] == old(buckets)[k]
    {
      if buckets == map[] || !lockFree || Elapsed(now, lastSweep) < cfg.SweepInterval() {
        return;
      }
      lastSweep := now;
      var scan := order[..Min(MAX_SWEEP_SCAN, |order|)];
      var staleKeys := StaleKeys(scan, now);
      for i := 0 to |staleKeys|
        invariant lastSweep == now
        invariant buckets == old(buckets) - set k | k in staleKeys[..i]
      {
        assert staleKeys[..i + 1] == staleKeys[..i] + [staleKeys[i]];
        if staleKeys[i] in buckets && Stale(cfg, buckets[staleKeys[i]], now) {
          buckets := buckets - {staleKeys[i]};
        }
      }
      assert staleKeys[..|staleKeys|] == staleKeys;
    }

    method StaleKeys(scan: seq<string>, now: real) returns (keys: seq<string>)
      requires forall k :: k in scan ==> k in buckets
      ensures forall k :: k in keys <==> k in scan && Stale(cfg, buckets[k], now)
    {
      keys := [];
      for i := 0 to |scan|
        invariant forall k :: k in keys <==> k in scan[..i] && Stale(cfg, buckets[k], now)
      {
        if Stale(cfg, buckets[scan[i]], now) {
          keys := keys + [scan[i]];
        }
      }
    }
  }

  // ---- Runs ----------------------------------------------------------------------------

  function Fresh(): Limiter {
    Limiter(map[], 0.0)
  }

  ghost predicate Ordered(from: real, calls: seq<Call>)
    decreases |calls|
  {
    calls != [] ==> from <= calls[0].now && Ordered(calls[0].now, calls[1..])
  }

  ghost predicate Legal(cfg: Config, l: Limiter, calls: seq<Call>)
    decreases |calls|
  {
    calls != [] ==> LegalScan(l.buckets, calls[0].scan) && Legal(cfg, Step(cfg, l, calls[0]).0, calls[1..])
  }

  function Answers(cfg: Config, l: Limiter, calls: seq<Call>): (r: seq<bool>)
    ensures |r| == |calls|
    decreases |calls|
  {
    if calls == [] then [] else
      var (l', ok) := Step(cfg, l, calls[0]);
      [ok] + Answers(cfg, l', calls[1..])
  }

  function PlainAnswers(cfg: Config, bs: Buckets, calls: seq<Call>): (r: seq<bool>)
    ensures |r| == |calls|
    decreases |calls|
  {
    if calls == [] then [] else
      var (bs', ok) := PlainStep(cfg, bs, calls[0]);
      [ok] + PlainAnswers(cfg, bs', calls[1..])
  }

  /** A run from start-up; `ordered`, one whose calls reach the limiter in the order of their time
      readings.  A reading is taken before the bucket is locked, so the code does not see to that. */
  ghost predicate IsRun(cfg: Config, calls: seq<Call>, ordered: bool) {
    Legal(cfg, Fresh(), calls) && (ordered ==> Ordered(0.0, calls))
  }

  /** No run of the evicting limiter can be told from the limiter that never evicts. */
  ghost predicate Invisible(cfg: Config, ordered: bool) {
    forall calls :: IsRun(cfg, calls, ordered) ==>
      Answers(cfg, Fresh(), calls) == PlainAnswers(cfg, map[], calls)
  }

  ghost predicate Sane(cfg: Config, bs: Buckets, now: real) {
    forall k :: k in bs ==> 0.0 <= bs[k].tokens <= cfg.Capacity() && bs[k].lastRefill <= now
  }

  lemma GainAdds(cfg: Config, a: real, b: real)
    ensures cfg.Gain(a) + cfg.Gain(b) == cfg.Gain(a + b)
    ensures a >= 0.0 ==> cfg.Gain(a) >= 0.0
  {
    var r := cfg.Rate();
    assert a * r + b * r == (a + b) * r;
    if a >= 0.0 {
      assert r >= 0.0;
      assert a * r >= 0.0;
    }
  }

  lemma ConsumeKeepsSane(cfg: Config, bs: Buckets, agent: string, now: real)
    requires Sane(cfg, bs, now)
    ensures Sane(cfg, Consume(cfg, bs, agent, now).0, now)
  {
    var b := if agent in bs then bs[agent] else Bucket(cfg.Capacity(), now);
    GainAdds(cfg, Elapsed(now, b.lastRefill), 0.0);
  }

  // ---- Eviction is invisible exactly when an idle bucket refills in full ---------------

  /** Every bucket the evicting limiter dropped would be full again by `now`. */
  ghost predicate Simulates(cfg: Config, evicting: Buckets, plain: Buckets, now: real) {
    && Sane(cfg, plain, now)
    && (forall k :: k in evicting ==> k in plain && evicting[k] == plain[k])
    && (forall k :: k in plain && k !in evicting ==>
          plain[k].tokens + cfg.Gain(now - plain[k].lastRefill) >= cfg.Capacity())
  }

  lemma SimulationAges(cfg: Config, evicting: Buckets, plain: Buckets, now: real, later: real)
    requires Simulates(cfg, evicting, plain, now) && now <= later
    ensures Simulates(cfg, evicting, plain, later)
  {
    forall k | k in plain && k !in evicting
      ensures plain[k].tokens + cfg.Gain(later - plain[k].lastRefill) >= cfg.Capacity()
    {
      GainAdds(cfg, later - now, now - plain[k].lastRefill);
    }
  }

  lemma SweepKeepsSimulation(cfg: Config, l: Limiter, plain: Buckets, c: Call)
    requires cfg.idleTtl >= 0.0 && cfg.Gain(cfg.idleTtl) >= cfg.Capacity()
    requires Simulates(cfg, l.buckets, plain, c.now)
    ensures Simulates(cfg, Swept(cfg, l, c.now, c.lockFree, c.scan).buckets, plain, c.now)
  {
    var bs := Swept(cfg, l, c.now, c.lockFree, c.scan).buckets;
    forall k | k in plain && k !in bs
      ensures plain[k].tokens + cfg.Gain(c.now - plain[k].lastRefill) >= cfg.Capacity()
    {
      if k in l.buckets {
        assert Stale(cfg, l.buckets[k], c.now);
        GainAdds(cfg, c.now - plain[k].lastRefill - cfg.idleTtl, cfg.idleTtl);
      }
    }
  }

  lemma StepKeepsSimulation(cfg: Config, l: Limiter, plain: Buckets, c: Call)
    requires cfg.Enabled() && cfg.idleTtl >= 0.0 && cfg.Gain(cfg.idleTtl) >= cfg.Capacity()
    requires Simulates(cfg, l.buckets, plain, c.now)
    ensures Step(cfg, l, c).1 == PlainStep(cfg, plain, c).1
    ensures Simulates(cfg, Step(cfg, l, c).0.buckets, PlainStep(cfg, plain, c).0, c.now)
  {
    SweepKeepsSimulation(cfg, l, plain, c);
    ConsumeKeepsSane(cfg, plain, c.agent, c.now);
    var bs := Swept(cfg, l, c.now, c.lockFree, c.scan).buckets;
    GainAdds(cfg, 0.0, 0.0);
    assert Refilled(cfg, bs, c.agent, c.now) == Refilled(cfg, plain, c.agent, c.now);
  }

  lemma {:induction false} RunsAgree(cfg: Config, l: Limiter, plain: Buckets, from: real, calls: seq<Call>)
    requires cfg.Enabled() && cfg.idleTtl >= 0.0 && cfg.Gain(cfg.idleTtl) >= cfg.Capacity()
    requires Ordered(from, calls) && Simulates(cfg, l.buckets, plain, from)
    ensures Answers(cfg, l, calls) == PlainAnswers(cfg, plain, calls)
    decreases |calls|
  {
    if calls != [] {
      var c := calls[0];
      SimulationAges(cfg, l.buckets, plain, from, c.now);
      StepKeepsSimulation(cfg, l, plain, c);
      RunsAgree(cfg, Step(cfg, l, c).0, PlainStep(cfg, plain, c).0, c.now, calls[1..]);
    }
  }

  lemma {:induction false} DisabledAgrees(cfg: Config, l: Limiter, plain: Buckets, calls: seq<Call>)
    requires !cfg.Enabled()
    ensures Answers(cfg, l, calls) == PlainAnswers(cfg, plain, calls)
  {
    if calls != [] {
      DisabledAgrees(cfg, l, plain, calls[1..]);
    }
  }

  // ---- The window bound ----------------------------------------------------------------

  /** Requests of one agent accepted at an instant in [s, t]. */
  function Accepted(calls: seq<Call>, answers: seq<bool>, agent: string, s: real, t: real): nat
    requires |calls| == |answers|
  {
    if calls == [] then 0 else
      (if calls[0].agent == agent && s <= calls[0].now <= t && answers[0] then 1 else 0)
      + Accepted(calls[1..], answers[1..], agent, s, t)
  }

  function Level(cfg: Config, bs: Buckets, agent: string, now: real): real {
    Refilled(cfg, bs, agent, now).tokens
  }

  lemma {:induction false} NothingAfterTheWindow(calls: seq<Call>, answers: seq<bool>, agent: string, s: real,
                                                 t: real, from: real)
    requires |calls| == |answers| && Ordered(from, calls) && t < from
    ensures Accepted(calls, answers, agent, s, t) == 0
  {
    if calls != [] {
      NothingAfterTheWindow(calls[1..], answers[1..], agent, s, t, calls[0].now);
    }
  }

  /** What a call leaves behind for `agent`, and how the level grew up to the call. */
  lemma LevelStep(cfg: Config, bs: Buckets, agent: string, from: real, c: Call)
    requires cfg.Enabled() && Sane(cfg, bs, from) && from <= c.now
    ensures 0.0 <= Level(cfg, bs, agent, c.now) <= cfg.Capacity()
    ensures Level(cfg, bs, agent, c.now) <= Level(cfg, bs, agent, from) + cfg.Gain(c.now - from)
    ensures var (bs', ok) := PlainStep(cfg, bs, c);
      Level(cfg, bs', agent, c.now) ==
        Level(cfg, bs, agent, c.now) - (if c.agent == agent && ok then 1.0 else 0.0)
    ensures Sane(cfg, PlainStep(cfg, bs, c).0, c.now)
  {
    ConsumeKeepsSane(cfg, bs, c.agent, c.now);
    GainAdds(cfg, c.now - from, 0.0);
    if agent in bs {
      GainAdds(cfg, c.now - bs[agent].lastRefill, 0.0);
      GainAdds(cfg, from - bs[agent].lastRefill, c.now - from);
    }
  }

  lemma {:induction false} PlainWindowFrom(cfg: Config, bs: Buckets, calls: seq<Call>, agent: string, s: real,
                                           t: real, from: real)
    requires cfg.Enabled() && Ordered(from, calls) && Sane(cfg, bs, from)
    requires s <= from <= t
    ensures Accepted(calls, PlainAnswers(cfg, bs, calls), agent, s, t) as real
            <= Level(cfg, bs, agent, from) + cfg.Gain(t - from)
    decreases |calls|
  {
    GainAdds(cfg, t - from, 0.0);
    if calls == [] {
      LevelStep(cfg, bs, agent, from, Call(agent, from, false, {}));
    } else {
      var c := calls[0];
      var (bs', ok) := PlainStep(cfg, bs, c);
      LevelStep(cfg, bs, agent, from, c);
      assert PlainAnswers(cfg, bs, calls)[1..] == PlainAnswers(cfg, bs', calls[1..]);
      if c.now <= t {
        PlainWindowFrom(cfg, bs', calls[1..], agent, s, t, c.now);
        GainAdds(cfg, c.now - from, t - c.now);
      } else {
        NothingAfterTheWindow(calls[1..], PlainAnswers(cfg, bs', calls[1..]), agent, s, t, c.now);
        LevelStep(cfg, bs, agent, from, Call(agent, from, false, {}));
      }
    }
  }

  lemma {:induction false} PlainWindowBound(cfg: Config, bs: Buckets, calls: seq<Call>, agent: string, s: real,
                                            t: real, from: real)
    requires cfg.Enabled() && Ordered(from, calls) && Sane(cfg, bs, from) && s <= t
    ensures Accepted(calls, PlainAnswers(cfg, bs, calls), agent, s, t) as real
            <= cfg.Capacity() + cfg.Gain(t - s)
    decreases |calls|
  {
    GainAdds(cfg, t - s, 0.0);
    if calls != [] {
      var c := calls[0];
      var (bs', ok) := PlainStep(cfg, bs, c);
      LevelStep(cfg, bs, agent, from, c);
      assert PlainAnswers(cfg, bs, calls)[1..] == PlainAnswers(cfg, bs', calls[1..]);
      if c.now < s {
        PlainWindowBound(cfg, bs', calls[1..], agent, s, t, c.now);
      } else if c.now <= t {
        PlainWindowFrom(cfg, bs', calls[1..], agent, s, t, c.now);
        GainAdds(cfg, c.now - s, t - c.now);
      } else {
        NothingAfterTheWindow(calls[1..], PlainAnswers(cfg, bs', calls[1..]), agent, s, t, c.now);
      }
    }
  }

  // ---- In any order --------------------------------------------------------------------

  function Max(a: real, b: real): real {
    if a >= b then a else b
  }

  /** How far the time readings move backward, in all, from one call to the next. */
  function Back(prev: real, calls: seq<Call>): real
    decreases |calls|
  {
    if calls == [] then 0.0 else Max(prev - calls[0].now, 0.0) + Back(calls[0].now, calls[1..])
  }

  function Backward(calls: seq<Call>): real {
    if calls == [] then 0.0 else Back(calls[0].now, calls[1..])
  }

  lemma {:induction false} OrderedIsNeverBackward(prev: real, calls: seq<Call>)
    requires Ordered(prev, calls)
    ensures Back(prev, calls) == 0.0
    decreases |calls|
  {
    if calls != [] { OrderedIsNeverBackward(calls[0].now, calls[1..]); }
  }

  lemma {:induction false} BackIsNotNegative(prev: real, calls: seq<Call>)
    ensures Back(prev, calls) >= 0.0
    decreases |calls|
  {
    if calls != [] { BackIsNotNegative(calls[0].now, calls[1..]); }
  }

  ghost predicate Bounded(cfg: Config, bs: Buckets) {
    forall k :: k in bs ==> 0.0 <= bs[k].tokens <= cfg.Capacity()
  }

  /** `age` is at least the time since the agent's bucket was refilled, by the last reading and by
      any clock that never ran backward. */
  ghost predicate Aged(cfg: Config, l: Limiter, agent: string, prev: real, age: real) {
    Bounded(cfg, l.buckets) && age >= 0.0 && (agent in l.buckets ==> age >= prev - l.buckets[agent].lastRefill)
  }

  /** What the agent may have in its bucket by now, on such a clock. */
  function Potential(cfg: Config, l: Limiter, agent: string, age: real): real {
    if agent !in l.buckets then cfg.Capacity()
    else
      var level := l.buckets[agent].tokens + cfg.Gain(age);
      if level <= cfg.Capacity() then level else cfg.Capacity()
  }

  lemma GainGrows(cfg: Config, a: real, b: real)
    requires a <= b
    ensures cfg.Gain(a) <= cfg.Gain(b)
  {
    GainAdds(cfg, b - a, a);
  }

  /** A sweep forgets only buckets that are full on that clock. */
  lemma SweepKeepsPotential(cfg: Config, l: Limiter, c: Call, agent: string, age: real)
    requires cfg.idleTtl >= 0.0 && cfg.Gain(cfg.idleTtl) >= cfg.Capacity() && Aged(cfg, l, agent, c.now, age)
    ensures var s := Swept(cfg, l, c.now, c.lockFree, c.scan);
      Aged(cfg, s, agent, c.now, age) && Potential(cfg, s, agent, age) == Potential(cfg, l, agent, age)
  {
    var s := Swept(cfg, l, c.now, c.lockFree, c.scan);
    if agent in l.buckets && agent !in s.buckets {
      assert Stale(cfg, l.buckets[agent], c.now);
      GainGrows(cfg, cfg.idleTtl, Max(age, cfg.idleTtl));
      GainAdds(cfg, age, 0.0);
    }
  }

  lemma ConsumeSpendsPotential(cfg: Config, l: Limiter, c: Call, agent: string, age: real)
    requires cfg.Enabled() && Aged(cfg, l, agent, c.now, age)
    ensures var (bs, ok) := Consume(cfg, l.buckets, c.agent, c.now);
      var l' := l.(buckets := bs);
      var age' := if c.agent == agent then 0.0 else age;
      && Aged(cfg, l', agent, c.now, age')
      && Potential(cfg, l', agent, age') + (if c.agent == agent && ok then 1.0 else 0.0)
         <= Potential(cfg, l, agent, age)
  {
    GainAdds(cfg, 0.0, 0.0);
    if c.agent in l.buckets {
      var span := Elapsed(c.now, l.buckets[c.agent].lastRefill);
      GainAdds(cfg, span, 0.0);
      if c.agent == agent {
        GainGrows(cfg, span, age);
      }
    }
  }

  lemma StepSpendsPotential(cfg: Config, l: Limiter, c: Call, agent: string, prev: real, age: real)
    requires cfg.Enabled() && cfg.idleTtl >= 0.0 && cfg.Gain(cfg.idleTtl) >= cfg.Capacity()
    requires Aged(cfg, l, agent, prev, age)
    ensures var up := Max(c.now - prev, 0.0);
      var (l', ok) := Step(cfg, l, c);
      var age' := if c.agent == agent then 0.0 else age + up;
      && Aged(cfg, l', agent, c.now, age')
      && Potential(cfg, l', agent, age') + (if c.agent == agent && ok then 1.0 else 0.0)
         <= Potential(cfg, l, agent, age) + cfg.Gain(up)
  {
    var up := Max(c.now - prev, 0.0);
    GainAdds(cfg, age, up);
    GainAdds(cfg, up, 0.0);
    assert Aged(cfg, l, agent, c.now, age + up);
    assert Potential(cfg, l, agent, age + up) <= Potential(cfg, l, agent, age) + cfg.Gain(up);
    hide Aged, Potential, Swept, Consume;
    SweepKeepsPotential(cfg, l, c, agent, age + up);
    ConsumeSpendsPotential(cfg, Swept(cfg, l, c.now, c.lockFree, c.scan), c, agent, age + up);
  }

  /** From here on, with the last reading at `prev`: the window still open for `t - prev`, and for
      as long again as the readings move backward. */
  lemma {:induction false} AcceptedFromHere(cfg: Config, l: Limiter, calls: seq<Call>, agent: string, s: real, t: real,
                                            prev: real, age: real)
    requires cfg.Enabled() && cfg.idleTtl >= 0.0 && cfg.Gain(cfg.idleTtl) >= cfg.Capacity()
    requires Aged(cfg, l, agent, prev, age)
    ensures var left := t - prev + Back(prev, calls);
      var n := Accepted(calls, Answers(cfg, l, calls), agent, s, t);
      && (left < 0.0 ==> n == 0)
      && (left >= 0.0 ==> n as real <= Potential(cfg, l, agent, age) + cfg.Gain(left))
    decreases |calls|
  {
    var left := t - prev + Back(prev, calls);
    GainAdds(cfg, left, 0.0);
    GainAdds(cfg, age, 0.0);
    if calls != [] {
      var c := calls[0];
      var up := Max(c.now - prev, 0.0);
      var (l', ok) := Step(cfg, l, c);
      var age' := if c.agent == agent then 0.0 else age + up;
      StepSpendsPotential(cfg, l, c, agent, prev, age);
      AcceptedFromHere(cfg, l', calls[1..], agent, s, t, c.now, age');
      BackIsNotNegative(c.now, calls[1..]);
      AnswersUnfold(cfg, l, calls);
      GainAdds(cfg, up, left - up);
      GainAdds(cfg, up, 0.0);
      hide Aged, Potential, Step, Answers;
    }
  }

  lemma AnswersUnfold(cfg: Config, l: Limiter, calls: seq<Call>)
    requires calls != []
    ensures var (l', ok) := Step(cfg, l, calls[0]);
      Answers(cfg, l, calls)[0] == ok && Answers(cfg, l, calls)[1..] == Answers(cfg, l', calls[1..])
  {
    hide Step;
  }

  /** Up to the first call in the window nothing is counted; that call starts from a full bucket at
      most. */
  lemma {:induction false} AcceptedInWindow(cfg: Config, l: Limiter, calls: seq<Call>, agent: string, s: real, t: real)
    requires cfg.Enabled() && cfg.idleTtl >= 0.0 && cfg.Gain(cfg.idleTtl) >= cfg.Capacity()
    requires Bounded(cfg, l.buckets) && s <= t
    ensures Accepted(calls, Answers(cfg, l, calls), agent, s, t) as real
            <= cfg.Capacity() + cfg.Gain(t - s + Backward(calls))
    decreases |calls|
  {
    GainAdds(cfg, t - s, 0.0);
    if calls != [] {
      var c := calls[0];
      var rest := calls[1..];
      var (l', ok) := Step(cfg, l, c);
      var age := if agent in l.buckets then Max(c.now - l.buckets[agent].lastRefill, 0.0) else 0.0;
      StepSpendsPotential(cfg, l, c, agent, c.now, age);
      AnswersUnfold(cfg, l, calls);
      BackIsNotNegative(c.now, rest);
      GainAdds(cfg, 0.0, 0.0);
      assert Potential(cfg, l, agent, age) <= cfg.Capacity();
      hide Potential, Step, Answers;
      if c.agent == agent && s <= c.now <= t {
        AcceptedFromHere(cfg, l', rest, agent, s, t, c.now, 0.0);
        GainGrows(cfg, t - c.now + Back(c.now, rest), t - s + Back(c.now, rest));
      } else {
        AcceptedInWindow(cfg, l', rest, agent, s, t);
        if rest != [] {
          GainGrows(cfg, t - s + Backward(rest), t - s + Backward(calls));
        }
      }
    }
  }

  /** In every run and every interval, one agent gets at most `burst + rate * length` requests
      through, its bucket being evicted and recreated as often as the sweeps like; in whatever order
      the calls reach the limiter, if the time that readings move backward is added to the length. */
  lemma WindowBound(cfg: Config, calls: seq<Call>, agent: string, s: real, t: real)
    requires cfg.Enabled() && cfg.idleTtl >= 0.0 && cfg.Gain(cfg.idleTtl) >= cfg.Capacity() && s <= t
    ensures var n := Accepted(calls, Answers(cfg, Fresh(), calls), agent, s, t);
      && n as real <= cfg.Capacity() + cfg.Gain(t - s + Backward(calls))
      && (Ordered(0.0, calls) ==> n as real <= cfg.Capacity() + cfg.Gain(t - s))
  {
    AcceptedInWindow(cfg, Fresh(), calls, agent, s, t);
    if Ordered(0.0, calls) && calls != [] {
      OrderedIsNeverBackward(calls[0].now, calls[1..]);
    }
  }

  // ---- That term is needed -------------------------------------------------------------

  const ONE_A_SECOND := Config(60, 1, 3600.0)

  function Swaying(): seq<Call> {
    [Call(A, 10.0, false, {}), Call(A, 11.0, false, {A}), Call(A, 10.0, false, {A}), Call(A, 11.0, false, {A})]
  }

  /** Readings 10, 11, 10, 11 at one request a second and no burst: two requests get through at the
      instant 11, exactly as many as the bound with the term, and one more than without. */
  lemma BackwardTermIsNeeded()
    ensures var cfg, calls := ONE_A_SECOND, Swaying();
      && IsRun(cfg, calls, false) && cfg.idleTtl * cfg.Rate() >= cfg.Capacity()
      && Answers(cfg, Fresh(), calls) == [true, true, false, true]
      && Accepted(calls, Answers(cfg, Fresh(), calls), A, 11.0, 11.0) == 2
      && cfg.Capacity() + cfg.Gain(11.0 - 11.0) == 1.0
      && cfg.Capacity() + cfg.Gain(11.0 - 11.0 + Backward(calls)) == 2.0
  {
    var calls, answers := Swaying(), [true, true, false, true];
    assert Answers(ONE_A_SECOND, Fresh(), calls) == answers;
    CountedAtEleven(calls, answers);
  }

  lemma CountedAtEleven(calls: seq<Call>, answers: seq<bool>)
    requires calls == Swaying() && answers == [true, true, false, true]
    ensures Accepted(calls, answers, A, 11.0, 11.0) == 2
  {
    var c3, c2, c1 := calls[3..], calls[2..], calls[1..];
    var a3, a2, a1 := answers[3..], answers[2..], answers[1..];
    assert c3[1..] == [] && a3[1..] == [] && c2[1..] == c3 && a2[1..] == a3 && c1[1..] == c2 && a1[1..] == a2;
    assert Accepted(c3, a3, A, 11.0, 11.0) == 1 + Accepted(c3[1..], a3[1..], A, 11.0, 11.0) == 1;
    assert Accepted(c2, a2, A, 11.0, 11.0) == 1;
    assert Accepted(c1, a1, A, 11.0, 11.0) == 2;
  }

  // ---- Other agents do not interfere ---------------------------------------------------

  function CallsOf(calls: seq<Call>, agent: string): seq<Call> {
    if calls == [] then []
    else (if calls[0].agent == agent then [calls[0]] else []) + CallsOf(calls[1..], agent)
  }

  /** The answers given to one agent, in order. */
  function AnswersTo(calls: seq<Call>, answers: seq<bool>, agent: string): seq<bool>
    requires |calls| == |answers|
  {
    if calls == [] then []
    else (if calls[0].agent == agent then [answers[0]] else []) + AnswersTo(calls[1..], answers[1..], agent)
  }

  ghost predicate SameBucket(a: Buckets, b: Buckets, agent: string) {
    && (agent in a <==> agent in b)
    && (agent in a ==> a[agent] == b[agent])
  }

  lemma {:induction false} AloneOrNot(cfg: Config, bs: Buckets, own: Buckets, calls: seq<Call>, agent: string)
    requires SameBucket(bs, own, agent)
    ensures AnswersTo(calls, PlainAnswers(cfg, bs, calls), agent) == PlainAnswers(cfg, own, CallsOf(calls, agent))
    decreases |calls|
  {
    if calls != [] {
      var c := calls[0];
      var (bs', ok) := PlainStep(cfg, bs, c);
      assert PlainAnswers(cfg, bs, calls)[1..] == PlainAnswers(cfg, bs', calls[1..]);
      if c.agent == agent {
        var (own', ok') := PlainStep(cfg, own, c);
        AloneOrNot(cfg, bs', own', calls[1..], agent);
        assert ([c] + CallsOf(calls[1..], agent))[1..] == CallsOf(calls[1..], agent);
      } else {
        AloneOrNot(cfg, bs', own, calls[1..], agent);
        assert [] + CallsOf(calls[1..], agent) == CallsOf(calls[1..], agent);
      }
    }
  }

  /** The time readings of one agent's calls. */
  function Times(calls: seq<Call>, agent: string): seq<real> {
    if calls == [] then []
    else (if calls[0].agent == agent then [calls[0].now] else []) + Times(calls[1..], agent)
  }

  /** What an agent is answered is a function of the time readings of its own calls: two runs in which
      these are the same give it the same answers, whatever the other agents, the sweeps and the
      scans do in either. */
  ghost predicate Independent(cfg: Config, ordered: bool) {
    forall calls, others, agent ::
      IsRun(cfg, calls, ordered) && IsRun(cfg, others, ordered) && Times(calls, agent) == Times(others, agent) ==>
        AnswersTo(calls, Answers(cfg, Fresh(), calls), agent) == AnswersTo(others, Answers(cfg, Fresh(), others), agent)
  }

  /** A call is told from another by its agent and its reading only, where nothing is evicted. */
  ghost predicate Alike(a: seq<Call>, b: seq<Call>) {
    |a| == |b| && forall i :: 0 <= i < |a| ==> a[i].agent == b[i].agent && a[i].now == b[i].now
  }

  lemma {:induction false} AlikeArePlainlyAlike(cfg: Config, bs: Buckets, a: seq<Call>, b: seq<Call>)
    requires Alike(a, b)
    ensures PlainAnswers(cfg, bs, a) == PlainAnswers(cfg, bs, b)
    decreases |a|
  {
    if a != [] { AlikeArePlainlyAlike(cfg, PlainStep(cfg, bs, a[0]).0, a[1..], b[1..]); }
  }

  lemma {:induction false} TimesTellOwnCalls(calls: seq<Call>, agent: string)
    ensures var own := CallsOf(calls, agent);
      && |own| == |Times(calls, agent)|
      && forall i :: 0 <= i < |own| ==> own[i].agent == agent && own[i].now == Times(calls, agent)[i]
  {
    if calls != [] { TimesTellOwnCalls(calls[1..], agent); }
  }

  lemma SameTimesSamePlainAnswers(cfg: Config, calls: seq<Call>, others: seq<Call>, agent: string)
    requires Times(calls, agent) == Times(others, agent)
    ensures AnswersTo(calls, PlainAnswers(cfg, map[], calls), agent)
         == AnswersTo(others, PlainAnswers(cfg, map[], others), agent)
  {
    AloneOrNot(cfg, map[], map[], calls, agent);
    AloneOrNot(cfg, map[], map[], others, agent);
    TimesTellOwnCalls(calls, agent);
    TimesTellOwnCalls(others, agent);
    hide PlainAnswers, AnswersTo, Times, CallsOf;
    AlikeArePlainlyAlike(cfg, map[], CallsOf(calls, agent), CallsOf(others, agent));
  }

  lemma {:induction false} SomeOf(keys: set<string>, n: nat) returns (some: set<string>)
    requires n <= |keys|
    ensures some <= keys && |some| == n
    decreases keys
  {
    if n == |keys| {
      some := keys;
    } else {
      var k :| k in keys;
      some := SomeOf(keys - {k}, n);
    }
  }

  /** The same calls with the sweep lock taken: a run in which nothing is ever evicted. */
  lemma {:induction false} Unswept(cfg: Config, l: Limiter, calls: seq<Call>) returns (others: seq<Call>)
    ensures Alike(calls, others) && Legal(cfg, l, others)
    ensures Answers(cfg, l, others) == PlainAnswers(cfg, l.buckets, calls)
    decreases |calls|
  {
    if calls == [] {
      others := [];
    } else {
      var scan := SomeOf(l.buckets.Keys, Min(MAX_SWEEP_SCAN, |l.buckets.Keys|));
      assert |l.buckets| == |l.buckets.Keys|;
      var c := calls[0].(lockFree := false, scan := scan);
      var rest := Unswept(cfg, Step(cfg, l, c).0, calls[1..]);
      others := [c] + rest;
      assert others[1..] == rest;
    }
  }

  lemma {:induction false} AlikeInOrderAndTimes(a: seq<Call>, b: seq<Call>, from: real, agent: string)
    requires Alike(a, b)
    ensures Ordered(from, a) ==> Ordered(from, b)
    ensures Times(a, agent) == Times(b, agent)
    decreases |a|
  {
    if a != [] { AlikeInOrderAndTimes(a[1..], b[1..], a[0].now, agent); }
  }

  lemma {:induction false} AlikeAnswered(a: seq<Call>, b: seq<Call>, answers: seq<bool>, agent: string)
    requires Alike(a, b) && |answers| == |a|
    ensures AnswersTo(a, answers, agent) == AnswersTo(b, answers, agent)
  {
    if a != [] { AlikeAnswered(a[1..], b[1..], answers[1..], agent); }
  }

  lemma {:induction false} AnswersByAgent(calls: seq<Call>, x: seq<bool>, y: seq<bool>)
    requires |calls| == |x| == |y| && forall agent :: AnswersTo(calls, x, agent) == AnswersTo(calls, y, agent)
    ensures x == y
  {
    if calls != [] {
      var c := calls[0];
      assert AnswersTo(calls, x, c.agent)[0] == x[0] && AnswersTo(calls, y, c.agent)[0] == y[0];
      forall agent ensures AnswersTo(calls[1..], x[1..], agent) == AnswersTo(calls[1..], y[1..], agent) {
        var u, v := AnswersTo(calls[1..], x[1..], agent), AnswersTo(calls[1..], y[1..], agent);
        assert AnswersTo(calls, x, agent) == AnswersTo(calls, y, agent);
        assert ([x[0]] + u)[1..] == u && ([y[0]] + v)[1..] == v && [] + u == u && [] + v == v;
      }
      AnswersByAgent(calls[1..], x[1..], y[1..]);
      assert x == [x[0]] + x[1..] && y == [y[0]] + y[1..];
    }
  }

  /** Agents interfere with each other through eviction only: where it cannot be seen, and nowhere
      else, what an agent is answered is a function of its own calls. */
  lemma IndependentIffInvisible(cfg: Config, ordered: bool)
    ensures Independent(cfg, ordered) <==> Invisible(cfg, ordered)
  {
    hide Answers, PlainAnswers, AnswersTo, Times, Legal, Ordered;
    if Invisible(cfg, ordered) {
      forall calls, others, agent | IsRun(cfg, calls, ordered) && IsRun(cfg, others, ordered)
          && Times(calls, agent) == Times(others, agent)
        ensures AnswersTo(calls, Answers(cfg, Fresh(), calls), agent)
             == AnswersTo(others, Answers(cfg, Fresh(), others), agent)
      {
        SameTimesSamePlainAnswers(cfg, calls, others, agent);
      }
    }
    if Independent(cfg, ordered) {
      forall calls | IsRun(cfg, calls, ordered)
        ensures Answers(cfg, Fresh(), calls) == PlainAnswers(cfg, map[], calls)
      {
        IndependentRun(cfg, calls, ordered);
      }
    }
  }

  lemma IndependentRun(cfg: Config, calls: seq<Call>, ordered: bool)
    requires Independent(cfg, ordered) && IsRun(cfg, calls, ordered)
    ensures Answers(cfg, Fresh(), calls) == PlainAnswers(cfg, map[], calls)
  {
    hide Answers, PlainAnswers, AnswersTo, Times, Legal, Ordered;
    var others := Unswept(cfg, Fresh(), calls);
    AlikeInOrderAndTimes(calls, others, 0.0, "");
    forall agent
      ensures AnswersTo(calls, Answers(cfg, Fresh(), calls), agent)
           == AnswersTo(calls, PlainAnswers(cfg, map[], calls), agent)
    {
      AlikeInOrderAndTimes(calls, others, 0.0, agent);
      AlikeAnswered(calls, others, Answers(cfg, Fresh(), others), agent);
    }
    AnswersByAgent(calls, Answers(cfg, Fresh(), calls), PlainAnswers(cfg, map[], calls));
  }

  // ---- The converse: too short an idle TTL is visible ----------------------------------

  const A: string := "a"

  function Hits(n: nat, now: real): seq<Call> {
    seq(n, _ => Call(A, now, true, {A}))
  }

  /** The agent's bucket is the only one, and `n` more calls at `now` will be accepted. */
  ghost predicate Ready(cfg: Config, l: Limiter, now: real, n: nat) {
    && l.buckets.Keys == {A} && l.lastSweep == now && l.buckets[A].lastRefill == now
    && n as real <= l.buckets[A].tokens <= cfg.Capacity()
  }

  lemma ReadyScan(cfg: Config, l: Limiter, now: real, n: nat)
    requires Ready(cfg, l, now, n)
    ensures LegalScan(l.buckets, {A})
  {
    assert |l.buckets| == |l.buckets.Keys| == |{A}|;
  }

  lemma HitAccepted(cfg: Config, l: Limiter, now: real, n: nat)
    requires cfg.Enabled() && cfg.idleTtl >= 0.0 && n >= 1 && Ready(cfg, l, now, n)
    ensures Step(cfg, l, Call(A, now, true, {A})).1
    ensures Ready(cfg, Step(cfg, l, Call(A, now, true, {A})).0, now, n - 1)
  {
    GainAdds(cfg, 0.0, 0.0);
    var c := Call(A, now, true, {A});
    var s := Swept(cfg, l, c.now, c.lockFree, c.scan);
    assert s.buckets == l.buckets || s.buckets == map[];
  }

  /** A legal run in which every call is accepted. */
  ghost predicate Passes(cfg: Config, l: Limiter, calls: seq<Call>)
    decreases |calls|
  {
    calls != [] ==>
      var (l', ok) := Step(cfg, l, calls[0]);
      LegalScan(l.buckets, calls[0].scan) && ok && Passes(cfg, l', calls[1..])
  }

  lemma {:induction false} PassingRuns(cfg: Config, l: Limiter, calls: seq<Call>)
    requires Passes(cfg, l, calls)
    ensures Legal(cfg, l, calls)
    ensures forall i :: 0 <= i < |calls| ==> Answers(cfg, l, calls)[i]
    decreases |calls|
  {
    if calls != [] {
      PassingRuns(cfg, Step(cfg, l, calls[0]).0, calls[1..]);
    }
  }

  lemma {:induction false} HitsAccepted(cfg: Config, l: Limiter, now: real, n: nat, rest: seq<Call>)
    returns (l': Limiter)
    requires cfg.Enabled() && cfg.idleTtl >= 0.0 && Ready(cfg, l, now, n)
    ensures Ready(cfg, l', now, 0)
    ensures Passes(cfg, l', rest) ==> Passes(cfg, l, Hits(n, now) + rest)
    decreases n
  {
    if n == 0 {
      l' := l;
      assert Hits(n, now) + rest == rest;
    } else {
      HitAccepted(cfg, l, now, n);
      ReadyScan(cfg, l, now, n);
      l' := HitsAccepted(cfg, Step(cfg, l, Call(A, now, true, {A})).0, now, n - 1, rest);
      assert (Hits(n, now) + rest)[1..] == Hits(n - 1, now) + rest;
    }
  }

  /** After `idleTtl` of silence the sweep forgets the bucket and the agent starts full again. */
  lemma ReturnStartsFull(cfg: Config, l: Limiter)
    requires cfg.Enabled() && cfg.idleTtl >= 0.0 && cfg.burst >= 1 && Ready(cfg, l, 0.0, 0)
    ensures Step(cfg, l, Call(A, cfg.idleTtl, true, {A})).1
    ensures Ready(cfg, Step(cfg, l, Call(A, cfg.idleTtl, true, {A})).0, cfg.idleTtl, cfg.burst - 1)
  {
    GainAdds(cfg, 0.0, 0.0);
    assert Swept(cfg, l, cfg.idleTtl, true, {A}).buckets == map[];
  }

  lemma {:induction false} AllAtOnceIsOrdered(n: nat, now: real, rest: seq<Call>)
    requires Ordered(now, rest)
    ensures Ordered(now, Hits(n, now) + rest)
  {
    if n == 0 {
      assert Hits(n, now) + rest == rest;
    } else {
      AllAtOnceIsOrdered(n - 1, now, rest);
      assert (Hits(n, now) + rest)[1..] == Hits(n - 1, now) + rest;
    }
  }

  lemma {:induction false} AllAccepted(calls: seq<Call>, answers: seq<bool>, s: real, t: real)
    requires |calls| == |answers|
    requires forall i :: 0 <= i < |calls| ==> calls[i].agent == A && s <= calls[i].now <= t && answers[i]
    ensures Accepted(calls, answers, A, s, t) == |calls|
  {
    if calls != [] {
      AllAccepted(calls[1..], answers[1..], s, t);
    }
  }

  /** A full burst, silence for `idleTtl`, then another full burst. */
  function TwoBursts(cfg: Config): seq<Call>
    requires cfg.burst >= 1
  {
    [Call(A, 0.0, true, {})] + (Hits(cfg.burst - 1, 0.0) +
      ([Call(A, cfg.idleTtl, true, {A})] + (Hits(cfg.burst - 1, cfg.idleTtl) + [])))
  }

  lemma TwoBurstsAccepted(cfg: Config)
    requires cfg.Enabled() && cfg.idleTtl >= 0.0 && cfg.burst >= 1
    ensures Ordered(0.0, TwoBursts(cfg)) && Legal(cfg, Fresh(), TwoBursts(cfg))
    ensures forall i :: 0 <= i < |TwoBursts(cfg)| ==> Answers(cfg, Fresh(), TwoBursts(cfg))[i]
  {
    var n := cfg.burst - 1;
    var last := Hits(n, cfg.idleTtl) + [];
    var second := [Call(A, cfg.idleTtl, true, {A})] + last;
    var first := Hits(n, 0.0) + second;
    GainAdds(cfg, 0.0, 0.0);
    var l0 := Step(cfg, Fresh(), Call(A, 0.0, true, {})).0;
    assert Ready(cfg, l0, 0.0, n);
    var l1 := HitsAccepted(cfg, l0, 0.0, n, second);
    ReadyScan(cfg, l1, 0.0, 0);
    ReturnStartsFull(cfg, l1);
    var l2 := Step(cfg, l1, second[0]).0;
    var l3 := HitsAccepted(cfg, l2, cfg.idleTtl, n, []);
    assert second[1..] == last;
    assert TwoBursts(cfg)[1..] == first;
    AllAtOnceIsOrdered(n, cfg.idleTtl, []);
    assert Ordered(0.0, second);
    AllAtOnceIsOrdered(n, 0.0, second);
    PassingRuns(cfg, Fresh(), TwoBursts(cfg));
  }

  lemma ShortTtlIsVisible(cfg: Config)
    requires cfg.Enabled() && cfg.idleTtl >= 0.0 && cfg.Gain(cfg.idleTtl) < cfg.Capacity()
    ensures !Invisible(cfg, true)
  {
    GainAdds(cfg, cfg.idleTtl, 0.0);
    var calls := TwoBursts(cfg);
    TwoBurstsAccepted(cfg);
    assert IsRun(cfg, calls, true);
    if Answers(cfg, Fresh(), calls) == PlainAnswers(cfg, map[], calls) {
      AllAccepted(calls, PlainAnswers(cfg, map[], calls), 0.0, cfg.idleTtl);
      PlainWindowBound(cfg, map[], calls, A, 0.0, cfg.idleTtl, 0.0);
      assert false;
    }
  }

  /** In order of time, eviction cannot be observed if and only if a bucket idle for `idleTtl`
      refills in full. */
  lemma EvictionInvisibleIff(cfg: Config)
    requires cfg.idleTtl >= 0.0
    ensures Invisible(cfg, true) <==> !cfg.Enabled() || cfg.idleTtl * cfg.Rate() >= cfg.Capacity()
  {
    if !cfg.Enabled() {
      forall calls ensures Answers(cfg, Fresh(), calls) == PlainAnswers(cfg, map[], calls) {
        DisabledAgrees(cfg, Fresh(), map[], calls);
      }
    } else if cfg.Gain(cfg.idleTtl) >= cfg.Capacity() {
      forall calls | IsRun(cfg, calls, true) ensures Answers(cfg, Fresh(), calls) == PlainAnswers(cfg, map[], calls) {
        RunsAgree(cfg, Fresh(), map[], 0.0, calls);
      }
    } else {
      ShortTtlIsVisible(cfg);
    }
  }

  // ---- Out of order, eviction is visible -----------------------------------------------

  const B: string := "b"

  /** A full burst of one agent at 0; a call of another, which sweeps; and the first agent again,
      with a reading taken at 0. */
  function Late(cfg: Config): seq<Call>
    requires cfg.burst >= 1
  {
    [Call(A, 0.0, true, {})] + (Hits(cfg.burst - 1, 0.0) + [Call(B, cfg.idleTtl, true, {A}), Call(A, 0.0, true, {B})])
  }

  lemma LateIsAccepted(cfg: Config, l: Limiter)
    requires cfg.Enabled() && cfg.idleTtl > 0.0 && cfg.burst >= 1 && Ready(cfg, l, 0.0, 0)
    ensures Passes(cfg, l, [Call(B, cfg.idleTtl, true, {A}), Call(A, 0.0, true, {B})])
  {
    GainAdds(cfg, 0.0, 0.0);
    var b, a := Call(B, cfg.idleTtl, true, {A}), Call(A, 0.0, true, {B});
    ReadyScan(cfg, l, 0.0, 0);
    assert Swept(cfg, l, cfg.idleTtl, true, {A}).buckets == map[];
    var l' := Step(cfg, l, b).0;
    assert l'.buckets.Keys == {B} && l'.lastSweep == cfg.idleTtl;
    assert |l'.buckets| == |l'.buckets.Keys| == |{B}|;
    assert Swept(cfg, l', 0.0, true, {B}) == l';
    assert [b, a][1..] == [a] && [a][1..] == [];
    assert Passes(cfg, l', [a]);
  }

  lemma LatePasses(cfg: Config)
    requires cfg.Enabled() && cfg.idleTtl > 0.0 && cfg.burst >= 1
    ensures Passes(cfg, Fresh(), Late(cfg))
  {
    GainAdds(cfg, 0.0, 0.0);
    var n := cfg.burst - 1;
    var rest := [Call(B, cfg.idleTtl, true, {A}), Call(A, 0.0, true, {B})];
    var l0 := Step(cfg, Fresh(), Call(A, 0.0, true, {})).0;
    assert Ready(cfg, l0, 0.0, n);
    var l1 := HitsAccepted(cfg, l0, 0.0, n, rest);
    LateIsAccepted(cfg, l1);
    assert Late(cfg)[1..] == Hits(n, 0.0) + rest;
  }

  lemma {:induction false} OwnCallsJoin(a: seq<Call>, b: seq<Call>, agent: string)
    ensures CallsOf(a + b, agent) == CallsOf(a, agent) + CallsOf(b, agent)
  {
    if a == [] {
      assert a + b == b;
    } else {
      assert (a + b)[1..] == a[1..] + b && (a + b)[0] == a[0];
      OwnCallsJoin(a[1..], b, agent);
      Regrouped(if a[0].agent == agent then [a[0]] else [], CallsOf(a[1..], agent), CallsOf(b, agent));
    }
  }

  lemma {:induction false} AllOwn(calls: seq<Call>, agent: string)
    requires forall i :: 0 <= i < |calls| ==> calls[i].agent == agent
    ensures CallsOf(calls, agent) == calls
  {
    if calls != [] { AllOwn(calls[1..], agent); }
  }

  /** The first agent's own calls are `burst + 1` at one instant. */
  lemma LateOwnCalls(cfg: Config)
    requires cfg.burst >= 1
    ensures var own := CallsOf(Late(cfg), A);
      && |own| == cfg.burst + 1 && Ordered(0.0, own)
      && forall i :: 0 <= i < |own| ==> own[i].agent == A && own[i].now == 0.0
  {
    var first, hits := [Call(A, 0.0, true, {})], Hits(cfg.burst - 1, 0.0);
    var b, a := Call(B, cfg.idleTtl, true, {A}), Call(A, 0.0, true, {B});
    OwnCallsJoin(first, hits + [b, a], A);
    OwnCallsJoin(hits, [b, a], A);
    AllOwn(first, A);
    AllOwn(hits, A);
    assert [b, a][1..] == [a] && [a][1..] == [];
    assert CallsOf([b, a], A) == [a];
    var own := CallsOf(Late(cfg), A);
    assert own == first + (hits + [a]);
    AtOneInstant(own);
  }

  lemma {:induction false} AtOneInstant(calls: seq<Call>)
    requires forall i :: 0 <= i < |calls| ==> calls[i].now == 0.0
    ensures Ordered(0.0, calls)
  {
    if calls != [] { AtOneInstant(calls[1..]); }
  }

  lemma {:induction false} AllAnswered(calls: seq<Call>, answers: seq<bool>, agent: string)
    requires |calls| == |answers| && forall i :: 0 <= i < |answers| ==> answers[i]
    ensures |AnswersTo(calls, answers, agent)| == |CallsOf(calls, agent)|
    ensures forall i :: 0 <= i < |AnswersTo(calls, answers, agent)| ==> AnswersTo(calls, answers, agent)[i]
  {
    if calls != [] { AllAnswered(calls[1..], answers[1..], agent); }
  }

  lemma LateIsVisible(cfg: Config)
    requires cfg.Enabled() && cfg.idleTtl > 0.0 && cfg.burst >= 1
    ensures !Invisible(cfg, false)
  {
    var calls := Late(cfg);
    LatePasses(cfg);
    PassingRuns(cfg, Fresh(), calls);
    assert IsRun(cfg, calls, false);
    if Answers(cfg, Fresh(), calls) == PlainAnswers(cfg, map[], calls) {
      var own := CallsOf(calls, A);
      LateOwnCalls(cfg);
      AllAnswered(calls, PlainAnswers(cfg, map[], calls), A);
      AloneOrNot(cfg, map[], map[], calls, A);
      hide Late, PlainAnswers, AnswersTo, CallsOf, Ordered;
      AllAccepted(own, PlainAnswers(cfg, map[], own), 0.0, 0.0);
      PlainWindowBound(cfg, map[], own, A, 0.0, 0.0, 0.0);
      GainAdds(cfg, 0.0, 0.0);
      assert false;
    }
  }

  lemma {:induction false} NoBurstAgrees(cfg: Config, l: Limiter, plain: Buckets, calls: seq<Call>)
    requires cfg.Enabled() && cfg.burst == 0
    ensures Answers(cfg, l, calls) == PlainAnswers(cfg, plain, calls)
    decreases |calls|
  {
    if calls != [] {
      var c := calls[0];
      assert !Step(cfg, l, c).1 && !PlainStep(cfg, plain, c).1;
      NoBurstAgrees(cfg, Step(cfg, l, c).0, PlainStep(cfg, plain, c).0, calls[1..]);
    }
  }

  /** When calls may reach the limiter out of the order of their readings, eviction can be observed
      whatever the TTL, unless no request is ever limited or none is ever let through. */
  lemma InvisibleInAnyOrderIff(cfg: Config)
    requires cfg.idleTtl >= 0.0
    ensures Invisible(cfg, false) <==> !cfg.Enabled() || cfg.burst == 0
  {
    if !cfg.Enabled() {
      forall calls ensures Answers(cfg, Fresh(), calls) == PlainAnswers(cfg, map[], calls) {
        DisabledAgrees(cfg, Fresh(), map[], calls);
      }
    } else if cfg.burst == 0 {
      forall calls ensures Answers(cfg, Fresh(), calls) == PlainAnswers(cfg, map[], calls) {
        NoBurstAgrees(cfg, Fresh(), map[], calls);
      }
    } else if cfg.Gain(cfg.idleTtl) < cfg.Capacity() {
      ShortTtlIsVisible(cfg);
      assert forall calls :: IsRun(cfg, calls, true) ==> IsRun(cfg, calls, false);
    } else {
      GainAdds(cfg, 0.0, 0.0);
      LateIsVisible(cfg);
    }
  }

  // ---- When the window bound holds -----------------------------------------------------

  ghost predicate WindowsBounded(cfg: Config) {
    forall calls, agent, s, t :: IsRun(cfg, calls, false) && s <= t ==>
      Accepted(calls, Answers(cfg, Fresh(), calls), agent, s, t) as real
      <= cfg.Capacity() + cfg.Gain(t - s + Backward(calls))
  }

  /** The same with nothing added for readings that move backward. */
  ghost predicate PlainlyBounded(cfg: Config, ordered: bool) {
    forall calls, agent, s, t :: IsRun(cfg, calls, ordered) && s <= t ==>
      Accepted(calls, Answers(cfg, Fresh(), calls), agent, s, t) as real <= cfg.Capacity() + cfg.Gain(t - s)
  }

  lemma TwoBurstsAreTooMany(cfg: Config)
    requires cfg.Enabled() && cfg.idleTtl >= 0.0 && cfg.Gain(cfg.idleTtl) < cfg.Capacity()
    ensures !WindowsBounded(cfg) && !PlainlyBounded(cfg, true)
  {
    assert cfg.burst >= 1 by { GainAdds(cfg, cfg.idleTtl, 0.0); }
    var calls := TwoBursts(cfg);
    assert |calls| == 2 * cfg.burst;
    assert forall i :: 0 <= i < |calls| ==> calls[i].agent == A && 0.0 <= calls[i].now <= cfg.idleTtl;
    TwoBurstsAccepted(cfg);
    assert IsRun(cfg, calls, true) && IsRun(cfg, calls, false);
    OrderedIsNeverBackward(calls[0].now, calls[1..]);
    hide TwoBursts, Answers, Legal, Ordered, Step, Config.Gain;
    AllAccepted(calls, Answers(cfg, Fresh(), calls), 0.0, cfg.idleTtl);
    assert cfg.idleTtl - 0.0 + Backward(calls) == cfg.idleTtl == cfg.idleTtl - 0.0;
  }

  /** Over all runs, in any order, the window bound holds if and only if a bucket idle for `idleTtl`
      refills in full; with a shorter TTL, two full bursts pass within one. */
  lemma WindowsBoundedIff(cfg: Config)
    requires cfg.Enabled() && cfg.idleTtl >= 0.0
    ensures WindowsBounded(cfg) <==> cfg.idleTtl * cfg.Rate() >= cfg.Capacity()
  {
    hide Ordered, Legal, Answers, Accepted, Backward;
    if cfg.Gain(cfg.idleTtl) >= cfg.Capacity() {
      forall calls, agent, s, t | IsRun(cfg, calls, false) && s <= t
        ensures Accepted(calls, Answers(cfg, Fresh(), calls), agent, s, t) as real
                <= cfg.Capacity() + cfg.Gain(t - s + Backward(calls))
      {
        WindowBound(cfg, calls, agent, s, t);
      }
    } else {
      TwoBurstsAreTooMany(cfg);
    }
  }

  /** The time one token takes. */
  function TokenTime(cfg: Config): real
    requires cfg.Enabled()
  {
    60.0 / cfg.rpm as real
  }

  /** `n` pairs of calls, with readings 0 and one token's time, the sweep lock never free. */
  function Sways(cfg: Config, n: nat): seq<Call>
    requires cfg.Enabled()
  {
    if n == 0 then []
    else [Call(A, 0.0, false, {A}), Call(A, TokenTime(cfg), false, {A})] + Sways(cfg, n - 1)
  }

  /** A call one token's time after the refill is let through. */
  lemma SwayStep(cfg: Config, l: Limiter, c: Call)
    requires cfg.Enabled() && cfg.burst >= 1 && Bounded(cfg, l.buckets) && c == Call(A, c.now, false, c.scan)
    requires l.buckets.Keys <= {A}
    ensures var (l', ok) := Step(cfg, l, c);
      && Bounded(cfg, l'.buckets) && l'.buckets.Keys == {A} && l'.buckets[A].lastRefill == c.now
      && (A in l.buckets && c.now == l.buckets[A].lastRefill + TokenTime(cfg) ==> ok)
  {
    GainAdds(cfg, if A in l.buckets then Elapsed(c.now, l.buckets[A].lastRefill) else 0.0, 0.0);
    GainAdds(cfg, 0.0, 0.0);
    assert cfg.Gain(TokenTime(cfg)) == 1.0;
  }

  lemma OneBucketScan(l: Limiter)
    requires l.buckets.Keys == {A}
    ensures LegalScan(l.buckets, {A})
  {
    assert |l.buckets| == |l.buckets.Keys|;
  }

  /** Each pair gets a request through at the later reading, however low the bucket is. */
  lemma {:induction false} SwaysAccepted(cfg: Config, l: Limiter, n: nat)
    requires cfg.Enabled() && cfg.burst >= 1 && Bounded(cfg, l.buckets) && l.buckets.Keys == {A}
    ensures Legal(cfg, l, Sways(cfg, n))
    ensures Accepted(Sways(cfg, n), Answers(cfg, l, Sways(cfg, n)), A, TokenTime(cfg), TokenTime(cfg)) == n
    decreases n
  {
    if n > 0 {
      var early, late, d := Call(A, 0.0, false, {A}), Call(A, TokenTime(cfg), false, {A}), TokenTime(cfg);
      var rest := Sways(cfg, n - 1);
      var calls := Sways(cfg, n);
      assert calls[1..] == [late] + rest && calls[1..][1..] == rest;
      OneBucketScan(l);
      SwayStep(cfg, l, early);
      var l1 := Step(cfg, l, early).0;
      OneBucketScan(l1);
      SwayStep(cfg, l1, late);
      var l2 := Step(cfg, l1, late).0;
      SwaysAccepted(cfg, l2, n - 1);
      AnswersUnfold(cfg, l, calls);
      AnswersUnfold(cfg, l1, calls[1..]);
      hide Step, Answers, LegalScan, Bounded;
      var answers := Answers(cfg, l, calls);
      assert Accepted(calls[1..], answers[1..], A, d, d) == n;
    }
  }

  lemma SwayingIsTooMuch(cfg: Config)
    requires cfg.Enabled() && cfg.burst >= 1
    ensures !PlainlyBounded(cfg, false)
  {
    var n, d := cfg.burst + 1, TokenTime(cfg);
    var first := Call(A, 0.0, false, {});
    var calls := [first] + Sways(cfg, n);
    assert calls[1..] == Sways(cfg, n);
    SwayStep(cfg, Fresh(), first);
    SwaysAccepted(cfg, Step(cfg, Fresh(), first).0, n);
    AnswersUnfold(cfg, Fresh(), calls);
    assert IsRun(cfg, calls, false);
    GainAdds(cfg, 0.0, 0.0);
    hide Step, Answers, Legal;
    assert Accepted(calls, Answers(cfg, Fresh(), calls), A, d, d) >= n;
  }

  lemma {:induction false} NothingWithoutBurst(cfg: Config, l: Limiter, calls: seq<Call>, agent: string, s: real,
                                               t: real)
    requires cfg.Enabled() && cfg.burst == 0
    ensures Accepted(calls, Answers(cfg, l, calls), agent, s, t) == 0
    decreases |calls|
  {
    if calls != [] {
      assert !Step(cfg, l, calls[0]).1;
      AnswersUnfold(cfg, l, calls);
      NothingWithoutBurst(cfg, Step(cfg, l, calls[0]).0, calls[1..], agent, s, t);
    }
  }

  /** Without that addition, the window bound holds over all runs if and only if no request is ever let
      through, or calls reach the limiter in order of time and an idle bucket refills in full. */
  lemma PlainlyBoundedIff(cfg: Config, ordered: bool)
    requires cfg.Enabled() && cfg.idleTtl >= 0.0
    ensures PlainlyBounded(cfg, ordered) <==>
      cfg.burst == 0 || (ordered && cfg.idleTtl * cfg.Rate() >= cfg.Capacity())
  {
    hide Ordered, Legal, Answers, Accepted;
    if cfg.burst == 0 || (ordered && cfg.Gain(cfg.idleTtl) >= cfg.Capacity()) {
      forall calls, agent, s, t | IsRun(cfg, calls, ordered) && s <= t
        ensures Accepted(calls, Answers(cfg, Fresh(), calls), agent, s, t) as real <= cfg.Capacity() + cfg.Gain(t - s)
      {
        GainAdds(cfg, t - s, 0.0);
        if cfg.burst == 0 {
          NothingWithoutBurst(cfg, Fresh(), calls, agent, s, t);
        } else {
          WindowBound(cfg, calls, agent, s, t);
        }
      }
    } else if ordered {
      TwoBurstsAreTooMany(cfg);
    } else {
      SwayingIsTooMuch(cfg);
    }
  }

  // ---- The bounds in the configuration's own numbers -----------------------------------

  lemma RateIs(cfg: Config, span: real)
    ensures cfg.Gain(span) == cfg.rpm as real * span / 60.0
  {
    assert span * (cfg.rpm as real / 60.0) == cfg.rpm as real * span / 60.0;
  }

  /** At most: with calls in order of time, and a TTL in which `rpm` a minute refills the burst, no
      more than `burst` requests and `rpm` for every minute of the window. */
  lemma AtMostPerMinute(cfg: Config, calls: seq<Call>, agent: string, s: real, t: real)
    requires cfg.rpm > 0 && cfg.idleTtl >= 0.0 && cfg.rpm as real * cfg.idleTtl >= 60.0 * cfg.burst as real
    requires IsRun(cfg, calls, true) && s <= t
    ensures Accepted(calls, Answers(cfg, Fresh(), calls), agent, s, t) as real
            <= cfg.burst as real + cfg.rpm as real * (t - s) / 60.0
  {
    RateIs(cfg, cfg.idleTtl);
    RateIs(cfg, t - s);
    hide Config.Gain, Accepted, Answers;
    WindowBound(cfg, calls, agent, s, t);
  }

  /** The next `n` calls of one agent, all at the same time. */
  ghost predicate NextCalls(calls: seq<Call>, agent: string, now: real, n: nat) {
    |calls| == n && forall i :: 0 <= i < n ==> calls[i].agent == agent && calls[i].now == now
  }

  /** The agent can spend `n` tokens at `now`: it has no bucket, or one that holds as many by then. */
  ghost predicate Affords(cfg: Config, l: Limiter, agent: string, now: real, n: nat) {
    && n <= cfg.burst
    && (agent in l.buckets ==>
          n as real <= l.buckets[agent].tokens + cfg.rpm as real * Elapsed(now, l.buckets[agent].lastRefill) / 60.0)
  }

  lemma AffordedStep(cfg: Config, l: Limiter, c: Call, n: nat)
    requires n >= 1 && Affords(cfg, l, c.agent, c.now, n)
    ensures var (l', ok) := Step(cfg, l, c); ok && (cfg.Enabled() ==> Affords(cfg, l', c.agent, c.now, n - 1))
  {
    if cfg.Enabled() {
      var s := Swept(cfg, l, c.now, c.lockFree, c.scan);
      assert c.agent in s.buckets ==> s.buckets[c.agent] == l.buckets[c.agent];
      RateIs(cfg, if c.agent in s.buckets then Elapsed(c.now, s.buckets[c.agent].lastRefill) else 0.0);
      RateIs(cfg, 0.0);
      hide Swept;
    }
  }

  lemma {:induction false} AffordedPass(cfg: Config, l: Limiter, calls: seq<Call>, agent: string, now: real, n: nat)
    requires NextCalls(calls, agent, now, n)
    requires cfg.Enabled() ==> Affords(cfg, l, agent, now, n)
    ensures forall i :: 0 <= i < n ==> Answers(cfg, l, calls)[i]
    decreases n
  {
    if n > 0 {
      if cfg.Enabled() { AffordedStep(cfg, l, calls[0], n); }
      AnswersUnfold(cfg, l, calls);
      AffordedPass(cfg, Step(cfg, l, calls[0]).0, calls[1..], agent, now, n - 1);
      hide Step, Affords;
      forall i | 0 <= i < n ensures Answers(cfg, l, calls)[i] {
        if i > 0 { assert Answers(cfg, l, calls)[i] == Answers(cfg, l, calls)[1..][i - 1]; }
      }
    }
  }

  lemma {:induction false} LegalKeepsBounded(cfg: Config, l: Limiter, calls: seq<Call>)
    requires Bounded(cfg, l.buckets)
    ensures Bounded(cfg, Ended(cfg, l, calls).buckets)
    decreases |calls|
  {
    if calls != [] {
      var c := calls[0];
      var s := Swept(cfg, l, c.now, c.lockFree, c.scan);
      GainAdds(cfg, if c.agent in s.buckets then Elapsed(c.now, s.buckets[c.agent].lastRefill) else 0.0, 0.0);
      LegalKeepsBounded(cfg, Step(cfg, l, c).0, calls[1..]);
    }
  }

  /** The limiter after a run. */
  function Ended(cfg: Config, l: Limiter, calls: seq<Call>): Limiter
    decreases |calls|
  {
    if calls == [] then l else Ended(cfg, Step(cfg, l, calls[0]).0, calls[1..])
  }

  lemma GrantedInTime(k: real, a: real, b: real, n: real)
    requires k >= 0.0 && a <= b && 60.0 * n <= k * a
    ensures n <= k * b / 60.0
  {
    var x, y := k * a, k * b;
    assert x <= y;
    Sixtieth(n, y);
  }

  lemma Sixtieth(n: real, y: real)
    requires 60.0 * n <= y
    ensures n <= y / 60.0
  {
  }

  lemma AffordsAfter(cfg: Config, l: Limiter, agent: string, now: real, span: real, n: nat)
    requires Bounded(cfg, l.buckets) && n <= cfg.burst && span >= 0.0 && 60.0 * n as real <= cfg.rpm as real * span
    requires agent in l.buckets ==> l.buckets[agent].lastRefill + span <= now
    ensures Affords(cfg, l, agent, now, n)
  {
    if agent in l.buckets {
      var b := l.buckets[agent];
      var elapsed := Elapsed(now, b.lastRefill);
      assert 0.0 <= b.tokens && span <= elapsed;
      hide Bounded, Elapsed;
      GrantedInTime(cfg.rpm as real, span, elapsed, n as real);
    }
  }

  /** At least: after any run in any order, an agent whose bucket was last touched `span` seconds ago, or
      that has none, gets as many requests through at once as `rpm` a minute grant in that time, up to
      the burst. */
  lemma AtLeastPerMinute(cfg: Config, before: seq<Call>, calls: seq<Call>, agent: string, now: real, span: real, n: nat)
    requires NextCalls(calls, agent, now, n) && span >= 0.0
    requires n <= cfg.burst && 60.0 * n as real <= cfg.rpm as real * span
    requires var bs := Ended(cfg, Fresh(), before).buckets;
      agent in bs ==> bs[agent].lastRefill + span <= now
    ensures forall i :: 0 <= i < n ==> Answers(cfg, Ended(cfg, Fresh(), before), calls)[i]
  {
    LegalKeepsBounded(cfg, Fresh(), before);
    var l := Ended(cfg, Fresh(), before);
    hide Ended, Bounded, Affords;
    AffordsAfter(cfg, l, agent, now, span, n);
    hide *;
    AffordedPass(cfg, l, calls, agent, now, n);
  }

  /** In a minute, `rpm` of them, up to the burst. */
  lemma AMinuteRefills(cfg: Config, before: seq<Call>, calls: seq<Call>, agent: string, now: real)
    requires NextCalls(calls, agent, now, if cfg.rpm <= cfg.burst then cfg.rpm else cfg.burst)
    requires var bs := Ended(cfg, Fresh(), before).buckets;
      agent in bs ==> bs[agent].lastRefill + 60.0 <= now
    ensures forall i :: 0 <= i < |calls| ==> Answers(cfg, Ended(cfg, Fresh(), before), calls)[i]
  {
    AtLeastPerMinute(cfg, before, calls, agent, now, 60.0, |calls|);
  }
}
