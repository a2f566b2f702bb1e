/** Many authenticators, one registry, requests interleaved step by step
    (src/credentials/mod.rs:444-584 over src/credentials/cache.rs).

    A tick is the common monotonic time; each wall-clock reading is arbitrary.  The registry may
    be rewritten from outside at any moment. */
module Revocation {
  import opened Common
  import Cache
  import opened Store
  import opened Authenticator

  type NodeId = nat
  type RequestId = nat

  datatype Phase = Looking | Missed | Holding(record: Record, fromCache: bool)

  /** `at` is the wall-clock reading taken on arrival, `began` the tick of arrival. */
  datatype Request = Request(node: NodeId, id: Uuid, mac: Mac, at: int, began: nat, phase: Phase)

  /** `used` are the request numbers given out so far: a number names one request for ever. */
  datatype State = State(tick: nat, rows: Rows, caches: map<NodeId, Entries>, requests: map<RequestId, Request>,
                         used: set<RequestId>)

  datatype Action =
    | Advance(ticks: nat)
    | Outside(rows: Rows)
    | Begin(req: RequestId, node: NodeId, id: Uuid, mac: Mac, at: int)
    | LookUp(req: RequestId, wall: int)
    | FetchRow(req: RequestId)
    | Finish(req: RequestId, wall: int, dropped: set<Uuid>)
    | Fail(req: RequestId)
    | Invalidate(node: NodeId, id: Uuid)

  /** The request reached its decision with a record it fetched, and is accepted. */
  predicate Admits(s: State, req: RequestId) {
    && req in s.requests
    && var q := s.requests[req];
    && q.phase.Holding? && !q.phase.fromCache && Judge(q.phase.record, q.mac, q.at).Authenticated?
  }

  ghost predicate Enabled(capacity: nat, s: State, a: Action) {
    match a
    case Advance(_) => true
    case Outside(_) => true
    case Begin(req, node, _, _, _) => req !in s.used && node in s.caches
    case LookUp(req, _) => req in s.requests && s.requests[req].node in s.caches && s.requests[req].phase == Looking
    case FetchRow(req) => req in s.requests && s.requests[req].phase == Missed
    case Finish(req, wall, dropped) =>
      && req in s.requests && s.requests[req].node in s.caches && s.requests[req].phase.Holding?
      && (Admits(s, req) ==>
            Cache.Evicts(s.caches[s.requests[req].node], capacity, s.requests[req].id, Cache.Reading(s.tick, wall),
                         dropped))
    case Fail(req) => req in s.requests
    case Invalidate(node, _) => node in s.caches
  }

  function Next(s: State, a: Action): State {
    match a
    case Advance(ticks) => s.(tick := s.tick + ticks)
    case Outside(rows) => s.(rows := rows)
    case Begin(req, node, id, mac, at) =>
      s.(requests := s.requests[req := Request(node, id, mac, at, s.tick, Looking)], used := s.used + {req})
    case LookUp(req, wall) =>
      if req !in s.requests || s.requests[req].node !in s.caches then s else
        var q := s.requests[req];
        var es := s.caches[q.node];
        var phase := match FromCache(es, q.id, q.mac, Cache.Reading(s.tick, wall))
          case Some(rec) => Holding(rec, true) case None => Missed;
        s.(caches := s.caches[q.node := Cache.Looked(es, q.id, Cache.Reading(s.tick, wall)).0],
           requests := s.requests[req := q.(phase := phase)])
    case FetchRow(req) =>
      if req !in s.requests then s else
        var q := s.requests[req];
        if q.id in s.rows && Validate(s.rows[q.id]).Ok?
        then s.(requests := s.requests[req := q.(phase := Holding(Validate(s.rows[q.id]).value, false))])
        else s.(requests := s.requests - {req})
    case Finish(req, wall, dropped) =>
      var s' := s.(requests := s.requests - {req});
      if Admits(s, req) && s.requests[req].node in s.caches then
        var q := s.requests[req];
        s'.(caches := s.caches[q.node := Cache.Stored(s.caches[q.node], Cache.MAX_TTL, q.id, q.phase.record,
                                                      q.phase.record.CacheBound(), Cache.Reading(s.tick, wall),
                                                      dropped)])
      else s'
    case Fail(req) => s.(requests := s.requests - {req})
    case Invalidate(node, id) => if node in s.caches then s.(caches := s.caches[node := s.caches[node] - {id}]) else s
  }

  /** The verdict a step delivers to its caller, if it delivers one. */
  function Verdict(s: State, a: Action): Option<Outcome> {
    match a
    case FetchRow(req) =>
      if req !in s.requests then None
      else if s.requests[req].id !in s.rows then Some(Rejected(UnknownCredential))
      else if Validate(s.rows[s.requests[req].id]).Err? then Some(Rejected(Corrupt))
      else None
    case Finish(req, _, _) =>
      if req in s.requests && s.requests[req].phase.Holding?
      then Some(Judge(s.requests[req].phase.record, s.requests[req].mac, s.requests[req].at))
      else None
    case _ => None
  }

  datatype Run = Run(states: seq<State>, acts: seq<Action>)

  ghost predicate Initial(s: State) {
    s.requests == map[] && s.used == {} && forall n :: n in s.caches ==> s.caches[n] == map[]
  }

  ghost predicate Valid(capacity: nat, run: Run) {
    && |run.states| == |run.acts| + 1 && Initial(run.states[0])
    && forall i :: 0 <= i < |run.acts| ==>
         Enabled(capacity, run.states[i], run.acts[i]) && run.states[i + 1] == Next(run.states[i], run.acts[i])
  }

  // ---- Where a record came from --------------------------------------------------------

  /** Step `f` fetched `rec` for request `req`. */
  ghost predicate Fetched(run: Run, f: int, req: RequestId, id: Uuid, rec: Record)
    requires |run.states| == |run.acts| + 1
  {
    && 0 <= f < |run.acts| && run.acts[f] == FetchRow(req) && Reads(run.states[f].rows, id, rec)
    && req in run.states[f].requests && run.states[f].requests[req].id == id
  }

  /** Step `f` fetched `rec`; step `ins`, the acceptance of that same request, cached it on `node`. */
  ghost predicate Cached(run: Run, f: int, ins: int, node: NodeId, id: Uuid, rec: Record)
    requires |run.states| == |run.acts| + 1
  {
    && 0 <= f < ins < |run.acts| && run.acts[ins].Finish? && Fetched(run, f, run.acts[ins].req, id, rec)
    && Admits(run.states[ins], run.acts[ins].req)
    && var q := run.states[ins].requests[run.acts[ins].req];
    && q.node == node && q.id == id && q.phase.record == rec
  }

  ghost predicate CacheSound(run: Run, t: int)
    requires |run.states| == |run.acts| + 1 && 0 <= t < |run.states|
  {
    forall n, id :: n in run.states[t].caches && id in run.states[t].caches[n] ==>
      EntrySound(run, t, n, id, run.states[t].caches[n][id])
  }

  /** An entry of node `n` was put there by the acceptance that fetched its record, and lives for
      the TTL from then, but not past the expiry of its credential. */
  ghost predicate EntrySound(run: Run, t: int, n: NodeId, id: Uuid, e: Cache.Entry<Record>)
    requires |run.states| == |run.acts| + 1 && t <= |run.acts|
  {
    exists f, ins :: (
      ins < t && Cached(run, f, ins, n, id, e.value) && LivesFrom(run.states[ins].tick, run.acts[ins].wall, e))
  }

  /** The deadlines of an entry stored at these readings. */
  predicate LivesFrom(tick: nat, wall: int, e: Cache.Entry<Record>) {
    && e.expiresTick == tick + Cache.MAX_TTL
    && e.expiresWall <= wall + Cache.MAX_TTL
    && (e.value.expiresAt.Some? ==> e.expiresWall <= e.value.expiresAt.value)
    && (e.expiresWall == wall + Cache.MAX_TTL || e.value.expiresAt == Some(e.expiresWall))
  }

  /** A request served from the cache: its own lookup, step `g`, came within the TTL of the insert. */
  ghost predicate Served(run: Run, f: int, ins: int, g: int, t: int, req: RequestId, q: Request)
    requires |run.states| == |run.acts| + 1 && q.phase.Holding?
  {
    && ins < g < t <= |run.acts| && Cached(run, f, ins, q.node, q.id, q.phase.record)
    && run.acts[g].LookUp? && run.acts[g].req == req
    && run.states[g].tick < run.states[ins].tick + Cache.MAX_TTL
    && q.began <= run.states[g].tick && q.mac == q.phase.record.secretMac
    && run.acts[g].wall < run.acts[ins].wall + Cache.MAX_TTL
    && (q.phase.record.expiresAt.Some? ==> run.acts[g].wall < q.phase.record.expiresAt.value)
  }

  ghost predicate RequestSound(run: Run, t: int, req: RequestId)
    requires |run.states| == |run.acts| + 1 && 0 <= t < |run.states| && req in run.states[t].requests
  {
    var q := run.states[t].requests[req];
    && q.began <= run.states[t].tick
    && (q.phase.Holding? && !q.phase.fromCache ==>
          exists f :: f < t && Fetched(run, f, req, q.id, q.phase.record) && q.began <= run.states[f].tick)
    && (q.phase.Holding? && q.phase.fromCache ==> exists f, ins, g :: Served(run, f, ins, g, t, req, q))
  }

  ghost predicate RequestsSound(run: Run, t: int)
    requires |run.states| == |run.acts| + 1 && 0 <= t < |run.states|
  {
    forall req :: req in run.states[t].requests ==> RequestSound(run, t, req)
  }

  lemma {:induction false} TicksGrow(capacity: nat, run: Run, i: int, j: int)
    requires Valid(capacity, run) && 0 <= i <= j < |run.states|
    ensures run.states[i].tick <= run.states[j].tick
    decreases j - i
  {
    if i < j {
      TicksGrow(capacity, run, i, j - 1);
    }
  }

  /** An entry after a step was there before it, or is the one an acceptance stored. */
  lemma EntryOrigin(s: State, a: Action, n: NodeId, id: Uuid)
    requires n in Next(s, a).caches && id in Next(s, a).caches[n]
    ensures || (n in s.caches && id in s.caches[n] && s.caches[n][id] == Next(s, a).caches[n][id])
            || (&& a.Finish? && Admits(s, a.req) && s.requests[a.req].node == n && s.requests[a.req].id == id
                && Next(s, a).caches[n][id].value == s.requests[a.req].phase.record
                && LivesFrom(s.tick, a.wall, Next(s, a).caches[n][id]))
  {
  }

  lemma EntryStaysSound(run: Run, t: int, n: NodeId, id: Uuid, e: Cache.Entry<Record>)
    requires |run.states| == |run.acts| + 1 && t < |run.acts| && EntrySound(run, t, n, id, e)
    ensures EntrySound(run, t + 1, n, id, e)
  {
    hide Cached;
  }

  lemma StoredEntryIsSound(run: Run, t: int, e: Cache.Entry<Record>)
    requires |run.states| == |run.acts| + 1 && 0 <= t < |run.acts| && RequestsSound(run, t)
    requires run.acts[t].Finish? && Admits(run.states[t], run.acts[t].req)
    requires e.value == run.states[t].requests[run.acts[t].req].phase.record
    requires LivesFrom(run.states[t].tick, run.acts[t].wall, e)
    ensures var q := run.states[t].requests[run.acts[t].req]; EntrySound(run, t + 1, q.node, q.id, e)
  {
    hide Judge, Served;
    var q := run.states[t].requests[run.acts[t].req];
    assert RequestSound(run, t, run.acts[t].req);
    var f :| f < t && Fetched(run, f, run.acts[t].req, q.id, q.phase.record) && q.began <= run.states[f].tick;
    assert Cached(run, f, t, q.node, q.id, e.value);
  }

  lemma CacheStaysSound(capacity: nat, run: Run, t: int)
    requires Valid(capacity, run) && 0 <= t < |run.acts|
    requires CacheSound(run, t) && RequestsSound(run, t)
    ensures CacheSound(run, t + 1)
  {
    var s, a, s' := run.states[t], run.acts[t], run.states[t + 1];
    assert |run.states| == |run.acts| + 1 && s' == Next(s, a);
    hide Valid, Admits, Next, EntrySound, RequestsSound;
    forall n, id | n in s'.caches && id in s'.caches[n] ensures EntrySound(run, t + 1, n, id, s'.caches[n][id]) {
      EntryOrigin(s, a, n, id);
      if n in s.caches && id in s.caches[n] && s.caches[n][id] == s'.caches[n][id] {
        EntryStaysSound(run, t, n, id, s.caches[n][id]);
      } else {
        StoredEntryIsSound(run, t, s'.caches[n][id]);
      }
    }
  }

  /** `q` has just been found in the cache, by the step `a`. */
  ghost predicate FoundInCache(s: State, a: Action, req: RequestId, q: Request) {
    && a.LookUp? && a.req == req && q.node in s.caches && q.phase.Holding? && q.phase.fromCache
    && FromCache(s.caches[q.node], q.id, q.mac, Cache.Reading(s.tick, a.wall)) == Some(q.phase.record)
  }

  /** `q` has just been fetched, by the step `a`. */
  ghost predicate FoundInRegistry(s: State, a: Action, req: RequestId, q: Request) {
    a == FetchRow(req) && q.phase.Holding? && !q.phase.fromCache && Reads(s.rows, q.id, q.phase.record)
  }

  /** How a request can have come to its present phase. */
  lemma RequestOrigin(s: State, a: Action, req: RequestId)
    requires req in Next(s, a).requests
    ensures var q' := Next(s, a).requests[req];
      || (req in s.requests && s.requests[req] == q')
      || (a.Begin? && a.req == req && q'.phase == Looking && q'.began == s.tick)
      || (&& req in s.requests && s.requests[req].(phase := q'.phase) == q'
          && (q'.phase == Missed || FoundInCache(s, a, req, q') || FoundInRegistry(s, a, req, q')))
  {
  }

  lemma IdleRequestStaysSound(capacity: nat, run: Run, t: int, req: RequestId)
    requires Valid(capacity, run) && 0 <= t < |run.acts|
    requires req in run.states[t].requests && req in run.states[t + 1].requests
    requires run.states[t + 1].requests[req] == run.states[t].requests[req] && RequestSound(run, t, req)
    ensures RequestSound(run, t + 1, req)
  {
    TicksGrow(capacity, run, t, t + 1);
    hide Valid, Fetched, Cached;
    var q := run.states[t].requests[req];
    if q.phase.Holding? && q.phase.fromCache {
      var f, ins, g :| Served(run, f, ins, g, t, req, q);
      assert Served(run, f, ins, g, t + 1, req, q);
    }
  }

  lemma HitEntry(s: State, a: Action, req: RequestId, q: Request)
    requires FoundInCache(s, a, req, q)
    ensures q.id in s.caches[q.node]
    ensures var e := s.caches[q.node][q.id];
      e.value == q.phase.record && q.mac == e.value.secretMac && s.tick < e.expiresTick && a.wall < e.expiresWall
  {
  }

  /** A record in an entry at step `t`, looked up there. */
  lemma ServedFrom(run: Run, t: int, next: int, req: RequestId, q: Request, e: Cache.Entry<Record>)
    requires |run.states| == |run.acts| + 1 && 0 <= t < |run.acts| && next == t + 1 &&
        EntrySound(run, t, q.node, q.id, e)
    requires q.phase.Holding? && e.value == q.phase.record && q.mac == e.value.secretMac
    requires run.acts[t].LookUp? && run.acts[t].req == req && q.began <= run.states[t].tick < e.expiresTick
    requires run.acts[t].wall < e.expiresWall
    ensures exists f, ins, g :: Served(run, f, ins, g, next, req, q)
  {
    hide Fetched;
    var f, ins :| ins < t && Cached(run, f, ins, q.node, q.id, e.value)
      && LivesFrom(run.states[ins].tick, run.acts[ins].wall, e);
    assert Served(run, f, ins, t, next, req, q);
  }

  /** A cache hit at step `t`. */
  lemma HitIsSound(run: Run, t: int, next: int, req: RequestId)
    requires |run.states| == |run.acts| + 1 && 0 <= t < |run.acts| && next == t + 1 && CacheSound(run, t)
    requires req in run.states[next].requests &&
        FoundInCache(run.states[t], run.acts[t], req, run.states[next].requests[req])
    requires run.states[next].requests[req].began <= run.states[t].tick <= run.states[next].tick
    ensures RequestSound(run, next, req)
  {
    var q := run.states[next].requests[req];
    HitEntry(run.states[t], run.acts[t], req, q);
    var e := run.states[t].caches[q.node][q.id];
    assert EntrySound(run, t, q.node, q.id, e);
    hide CacheSound, Served, EntrySound, FromCache;
    ServedFrom(run, t, next, req, q, e);
  }

  /** A fetch at step `t`. */
  lemma FetchIsSound(run: Run, t: int, next: int, req: RequestId)
    requires |run.states| == |run.acts| + 1 && 0 <= t < |run.acts| && next == t + 1
    requires req in run.states[t].requests && req in run.states[next].requests
    requires var q, q' := run.states[t].requests[req], run.states[next].requests[req];
      && q.(phase := q'.phase) == q' && FoundInRegistry(run.states[t], run.acts[t], req, q')
      && q.began <= run.states[t].tick <= run.states[next].tick
    ensures RequestSound(run, next, req)
  {
    hide Reads;
    var q' := run.states[next].requests[req];
    assert Fetched(run, t, req, q'.id, q'.phase.record);
  }

  lemma WaitingIsSound(run: Run, t: int, req: RequestId)
    requires |run.states| == |run.acts| + 1 && 0 <= t < |run.states| && req in run.states[t].requests
    requires !run.states[t].requests[req].phase.Holding? && run.states[t].requests[req].began <= run.states[t].tick
    ensures RequestSound(run, t, req)
  {
    hide Served, Fetched;
  }

  lemma RequestStaysSound(capacity: nat, run: Run, t: int, req: RequestId)
    requires Valid(capacity, run) && 0 <= t < |run.acts|
    requires CacheSound(run, t) && RequestsSound(run, t) && req in run.states[t + 1].requests
    ensures RequestSound(run, t + 1, req)
  {
    var s, a, s' := run.states[t], run.acts[t], run.states[t + 1];
    var q' := s'.requests[req];
    assert |run.states| == |run.acts| + 1 && s' == Next(s, a);
    assert s.tick <= s'.tick by { TicksGrow(capacity, run, t, t + 1); }
    if req in s.requests {
      assert RequestSound(run, t, req);
      assert s.requests[req].began <= s.tick;
    }
    hide Next, Valid, CacheSound, RequestsSound, RequestSound, FoundInCache, FoundInRegistry;
    RequestOrigin(s, a, req);
    if req in s.requests && s.requests[req] == q' {
      IdleRequestStaysSound(capacity, run, t, req);
    } else if req in s.requests && FoundInCache(s, a, req, q') {
      HitIsSound(run, t, t + 1, req);
    } else if req in s.requests && FoundInRegistry(s, a, req, q') {
      FetchIsSound(run, t, t + 1, req);
    } else {
      WaitingIsSound(run, t + 1, req);
    }
  }

  lemma {:induction false} RunIsSound(capacity: nat, run: Run, t: int)
    requires Valid(capacity, run) && 0 <= t < |run.states|
    ensures CacheSound(run, t) && RequestsSound(run, t)
    decreases t
  {
    if t > 0 {
      RunIsSound(capacity, run, t - 1);
      CacheStaysSound(capacity, run, t - 1);
      forall req | req in run.states[t].requests ensures RequestSound(run, t, req) {
        RequestStaysSound(capacity, run, t - 1, req);
      }
    }
  }

  // ---- A number names one request ------------------------------------------------------

  lemma {:induction false} UsedGrows(capacity: nat, run: Run, i: int, j: int)
    requires Valid(capacity, run) && 0 <= i <= j < |run.states|
    ensures run.states[i].used <= run.states[j].used
    ensures run.states[j].requests.Keys <= run.states[j].used
    decreases j
  {
    if 0 < j {
      UsedGrows(capacity, run, if i < j then i else j - 1, j - 1);
      StepUses(run.states[j - 1], run.acts[j - 1]);
      hide Next, Enabled;
    }
  }

  lemma StepUses(s: State, a: Action)
    requires s.requests.Keys <= s.used
    ensures s.used <= Next(s, a).used && Next(s, a).requests.Keys <= Next(s, a).used
  {
    hide Judge, Validate, FromCache, Admits;
  }

  /** Between the fetch and the insert of one number no request begins under it, so both are steps
      of one and the same request. */
  lemma {:induction false} FetchAndInsertAreOneRequest(capacity: nat, run: Run, f: int, ins: int, node: NodeId,
                                                       id: Uuid, rec: Record, k: int)
    requires Valid(capacity, run) && Cached(run, f, ins, node, id, rec) && f <= k <= ins
    ensures var req := run.acts[ins].req;
      && !(run.acts[k].Begin? && run.acts[k].req == req)
      && req in run.states[k].requests
      && run.states[k].requests[req].(phase := Looking) == run.states[ins].requests[req].(phase := Looking)
    decreases ins - k
  {
    var req := run.acts[ins].req;
    UsedGrows(capacity, run, f, f);
    UsedGrows(capacity, run, f, k);
    assert req in run.states[k].used;
    if k < ins {
      FetchAndInsertAreOneRequest(capacity, run, f, ins, node, id, rec, k + 1);
      hide Enabled, Next, Judge, Validate;
      assert Enabled(capacity, run.states[k], run.acts[k]) && run.states[k + 1] == Next(run.states[k], run.acts[k]);
      StepKeepsRequest(capacity, run.states[k], run.acts[k], req);
    }
  }

  lemma StepKeepsRequest(capacity: nat, s: State, a: Action, req: RequestId)
    requires Enabled(capacity, s, a) && req in s.used && req in Next(s, a).requests
    ensures !(a.Begin? && a.req == req) && req in s.requests
    ensures s.requests[req].(phase := Looking) == Next(s, a).requests[req].(phase := Looking)
  {
    hide Judge, Validate, FromCache, Admits;
    RequestOrigin(s, a, req);
  }

  // ---- Decisions refine the cacheless check --------------------------------------------

  /** `rows` and `later` hold the same row for `id`, but for the time of last use. */
  ghost predicate SameRow(rows: Rows, later: Rows, id: Uuid) {
    && (id in rows <==> id in later)
    && (id in rows ==> rows[id] == later[id].(lastUsedAt := rows[id].lastUsedAt))
  }

  lemma SameRowSameVerdict(rows: Rows, later: Rows, id: Uuid, mac: Mac, at: int)
    requires SameRow(rows, later, id)
    ensures Cacheless(rows, id, mac, at) == Cacheless(later, id, mac, at)
  {
  }

  /** Step `f` is the fetch that the verdict of step `t` rests on: the request's own, or the one behind
      the cache entry that the request's own lookup found alive. */
  ghost predicate RestsOn(run: Run, f: int, t: int)
    requires |run.states| == |run.acts| + 1 && 0 <= t < |run.acts| && Verdict(run.states[t], run.acts[t]).Some?
  {
    var req := run.acts[t].req;
    var q := run.states[t].requests[req];
    && 0 <= f <= t
    && (run.acts[t].FetchRow? ==> f == t)
    && (run.acts[t].Finish? && !q.phase.fromCache ==>
          Fetched(run, f, req, q.id, q.phase.record) && q.began <= run.states[f].tick)
    && (run.acts[t].Finish? && q.phase.fromCache ==> exists ins, g :: Served(run, f, ins, g, t, req, q))
  }

  /** Every verdict, served from a cache or not, is the verdict of a check that has no cache on
      the registry as it was at the fetch the verdict rests on, hence on the present registry if the
      row has not changed since. */
  lemma EveryVerdictIsCacheless(capacity: nat, run: Run, t: int) returns (f: int)
    requires Valid(capacity, run) && 0 <= t < |run.acts| && Verdict(run.states[t], run.acts[t]).Some?
    ensures RestsOn(run, f, t)
    ensures var q := run.states[t].requests[run.acts[t].req];
      && Verdict(run.states[t], run.acts[t]).value == Cacheless(run.states[f].rows, q.id, q.mac, q.at)
      && (SameRow(run.states[f].rows, run.states[t].rows, q.id) ==>
            Verdict(run.states[t], run.acts[t]).value == Cacheless(run.states[t].rows, q.id, q.mac, q.at))
  {
    var s, a := run.states[t], run.acts[t];
    var q := s.requests[a.req];
    RunIsSound(capacity, run, t);
    f := t;
    if a.Finish? {
      assert RequestSound(run, t, a.req);
      if q.phase.fromCache {
        var f0, ins, g :| Served(run, f0, ins, g, t, a.req, q);
        f := f0;
      } else {
        f :| f < t && Fetched(run, f, a.req, q.id, q.phase.record) && q.began <= run.states[f].tick;
      }
      assert Reads(run.states[f].rows, q.id, q.phase.record);
    }
    assert Verdict(s, a).value == Cacheless(run.states[f].rows, q.id, q.mac, q.at);
    if SameRow(run.states[f].rows, s.rows, q.id) {
      SameRowSameVerdict(run.states[f].rows, s.rows, q.id, q.mac, q.at);
    }
  }

  /** So no verdict, on status, scopes, tenant or anything else in the row, is staler than the TTL and
      the time requests may spend between a fetch and its insert: it is that of a cacheless check on
      the registry as it was less than that before the request arrived, or since. */
  lemma StalenessIsBounded(capacity: nat, run: Run, lag: nat, t: int) returns (f: int)
    requires Valid(capacity, run) && InsertsWithin(run, lag)
    requires 0 <= t < |run.acts| && Verdict(run.states[t], run.acts[t]).Some?
    ensures 0 <= f <= t
    ensures var q := run.states[t].requests[run.acts[t].req];
      && Verdict(run.states[t], run.acts[t]).value == Cacheless(run.states[f].rows, q.id, q.mac, q.at)
      && q.began < run.states[f].tick + Cache.MAX_TTL + lag
  {
    f := EveryVerdictIsCacheless(capacity, run, t);
    RunIsSound(capacity, run, t);
    hide Judge, Validate, Fetched, Verdict;
    var q := run.states[t].requests[run.acts[t].req];
    assert RequestSound(run, t, run.acts[t].req);
    if run.acts[t].Finish? && q.phase.fromCache {
      var ins, g :| Served(run, f, ins, g, t, run.acts[t].req, q);
    }
  }

  /** One request on one node, run without interruption but for the passing of time: it arrives, looks
      its credential up, fetches the row if it missed, and finishes unless the fetch ended it. */
  function LookedUp(s: State, req: RequestId, node: NodeId, id: Uuid, mac: Mac, clock: Clock): State
    requires s.tick <= clock.lookup.tick
  {
    var s1 := Next(Next(s, Begin(req, node, id, mac, clock.at)), Advance(clock.lookup.tick - s.tick));
    Next(s1, LookUp(req, clock.lookup.wall))
  }

  predicate IsMissed(s: State, req: RequestId) {
    req in s.requests && s.requests[req].phase == Missed
  }

  function Decided(s: State, req: RequestId, node: NodeId, id: Uuid, mac: Mac, clock: Clock): State
    requires s.tick <= clock.lookup.tick <= clock.insert.tick
  {
    var s2 := LookedUp(s, req, node, id, mac, clock);
    Next(if IsMissed(s2, req) then Next(s2, FetchRow(req)) else s2, Advance(clock.insert.tick - clock.lookup.tick))
  }

  const CALM := Weather(false, true, false)

  /** `s'` holds in the cache of `node` what the sequential authenticator leaves of that in `s`. */
  ghost predicate LeavesBehind(capacity: nat, s: State, s': State, node: NodeId, id: Uuid, mac: Mac, clock: Clock,
                               dropped: set<Uuid>)
    requires node in s.caches
  {
    && node in s'.caches
    && Leaves(s.caches[node], false, s.rows, CALM, id, mac, clock, capacity, Cache.MAX_TTL, dropped,
              s'.caches[node], s'.rows)
  }

  /** The state after the lookup. */
  lemma LookedUpIs(s: State, req: RequestId, node: NodeId, id: Uuid, mac: Mac, clock: Clock)
    requires req !in s.used && node in s.caches && s.tick <= clock.lookup.tick
    ensures var hit := FromCache(s.caches[node], id, mac, clock.lookup);
      var phase := if hit.Some? then Holding(hit.value, true) else Missed;
      LookedUp(s, req, node, id, mac, clock) ==
        State(clock.lookup.tick, s.rows, s.caches[node := Cache.Looked(s.caches[node], id, clock.lookup).0],
              s.requests[req := Request(node, id, mac, clock.at, s.tick, phase)], s.used + {req})
  {
    hide Cache.Looked, FromCache;
  }

  /** A request that holds a record finishes as the sequential authenticator does. */
  lemma FinishIsSequential(capacity: nat, s: State, s3: State, req: RequestId, node: NodeId, id: Uuid, mac: Mac,
                           clock: Clock, dropped: set<Uuid>)
    requires node in s.caches && node in s3.caches && req in s3.requests
    requires s3.tick == clock.insert.tick && s3.rows == s.rows
    requires s3.caches[node] == Cache.Looked(s.caches[node], id, clock.lookup).0
    requires var q, hit := s3.requests[req], FromCache(s.caches[node], id, mac, clock.lookup);
      && q.node == node && q.id == id && q.mac == mac && q.at == clock.at && q.phase.Holding?
      && (hit.Some? ==> q.phase == Holding(hit.value, true))
      && (hit.None? ==> !q.phase.fromCache && Reads(s.rows, id, q.phase.record))
    ensures var done := Finish(req, clock.insert.wall, dropped);
      && Verdict(s3, done) == Some(Decide(s.caches[node], false, s.rows, CALM, id, mac, clock))
      && (Enabled(capacity, s3, done) ==> LeavesBehind(capacity, s, Next(s3, done), node, id, mac, clock, dropped))
  {
    hide Cache.Looked, FromCache, Cache.Evicts, Cache.Stored, Validate;
  }

  /** Uninterrupted, those steps deliver exactly what the sequential authenticator decides, and leave
      in the cache exactly what it leaves; the stamp on the row is the registry's, a step of its own. */
  lemma UninterruptedIsSequential(capacity: nat, s: State, req: RequestId, node: NodeId, id: Uuid, mac: Mac,
                                  clock: Clock, dropped: set<Uuid>)
    requires req !in s.used && node in s.caches && s.tick <= clock.lookup.tick <= clock.insert.tick
    ensures var s2, s3 := LookedUp(s, req, node, id, mac, clock), Decided(s, req, node, id, mac, clock);
      var done := Finish(req, clock.insert.wall, dropped);
      var decision := Decide(s.caches[node], false, s.rows, CALM, id, mac, clock);
      && req in s2.requests && s3.rows == s.rows
      && (req in s3.requests ==>
            && Verdict(s3, done) == Some(decision)
            && (Enabled(capacity, s3, done) ==>
                  LeavesBehind(capacity, s, Next(s3, done), node, id, mac, clock, dropped)))
      && (req !in s3.requests ==>
            && IsMissed(s2, req) && Verdict(s2, FetchRow(req)) == Some(decision)
            && LeavesBehind(capacity, s, s3, node, id, mac, clock, dropped))
  {
    LookedUpIs(s, req, node, id, mac, clock);
    var s3 := Decided(s, req, node, id, mac, clock);
    hide LookedUp, Cache.Looked, FromCache, Validate, Enabled;
    if req in s3.requests {
      hide Verdict, LeavesBehind;
      FinishIsSequential(capacity, s, s3, req, node, id, mac, clock, dropped);
    }
  }

  // ---- Revocation ----------------------------------------------------------------------

  /** No row that `rows` holds for `id` can authenticate anyone: it is revoked or disabled, or this
      build cannot read it, or it is gone. */
  ghost predicate Withdrawn(rows: Rows, id: Uuid) {
    id in rows && Validate(rows[id]).Ok? ==> Validate(rows[id]).value.status != Status.Active
  }

  ghost predicate WithdrawnFrom(run: Run, r: int, id: Uuid) {
    0 <= r < |run.states| && forall j :: r <= j < |run.states| ==> Withdrawn(run.states[j].rows, id)
  }

  /** A request for `id` is accepted at step `t`. */
  ghost predicate Accepts(run: Run, t: int, id: Uuid)
    requires |run.states| == |run.acts| + 1
  {
    && 0 <= t < |run.acts| && run.acts[t].Finish? && run.acts[t].req in run.states[t].requests
    && run.states[t].requests[run.acts[t].req].id == id
    && Verdict(run.states[t], run.acts[t]).Some? && Verdict(run.states[t], run.acts[t]).value.Authenticated?
  }

  /** Every acceptance of a withdrawn credential rests on a row fetched before the withdrawal; if
      it was served from a cache, the lookup came within the TTL of an insert, so within the TTL
      of the withdrawal plus the time that request had spent between its fetch and its insert. */
  lemma RevocationBound(capacity: nat, run: Run, r: int, t: int, id: Uuid)
    requires Valid(capacity, run) && WithdrawnFrom(run, r, id) && Accepts(run, t, id)
    ensures var q := run.states[t].requests[run.acts[t].req];
      && q.phase.Holding?
      && (q.phase.fromCache ==> exists f, ins, g :: (
            && f < r && Served(run, f, ins, g, t, run.acts[t].req, q)
            && run.states[g].tick < run.states[r].tick + Cache.MAX_TTL + (run.states[ins].tick - run.states[f].tick)))
      && (!q.phase.fromCache ==> exists f :: (
            && f < r && f < t && Fetched(run, f, run.acts[t].req, id, q.phase.record)
            && q.began <= run.states[f].tick))
  {
    var q := run.states[t].requests[run.acts[t].req];
    RunIsSound(capacity, run, t);
    assert RequestSound(run, t, run.acts[t].req);
    if q.phase.fromCache {
      var f, ins, g :| Served(run, f, ins, g, t, run.acts[t].req, q);
      assert Reads(run.states[f].rows, id, q.phase.record);
      assert f < r;
      TicksGrow(capacity, run, f, r);
    } else {
      var f :| f < t && Fetched(run, f, run.acts[t].req, q.id, q.phase.record) && q.began <= run.states[f].tick;
      assert f < r;
    }
  }

  /** No request spends more than `lag` between fetching a row and caching it. */
  ghost predicate InsertsWithin(run: Run, lag: nat)
    requires |run.states| == |run.acts| + 1
  {
    forall f, ins, node, id, rec :: Cached(run, f, ins, node, id, rec) ==>
      run.states[ins].tick <= run.states[f].tick + lag
  }

  lemma LateRequestsAreRefused(capacity: nat, run: Run, lag: nat, r: int, t: int, id: Uuid)
    requires Valid(capacity, run) && InsertsWithin(run, lag) && WithdrawnFrom(run, r, id) && Accepts(run, t, id)
    ensures run.states[t].requests[run.acts[t].req].began < run.states[r].tick + Cache.MAX_TTL + lag
  {
    hide Judge, Validate, Withdrawn;
    var q := run.states[t].requests[run.acts[t].req];
    RevocationBound(capacity, run, r, t, id);
    if q.phase.fromCache {
      var f, ins, g :| f < r && Served(run, f, ins, g, t, run.acts[t].req, q)
        && run.states[g].tick < run.states[r].tick + Cache.MAX_TTL + (run.states[ins].tick - run.states[f].tick);
      assert Cached(run, f, ins, q.node, q.id, q.phase.record);
    } else {
      var f :| f < r && f < t && Fetched(run, f, run.acts[t].req, id, q.phase.record) && q.began <= run.states[f].tick;
      TicksGrow(capacity, run, f, r);
    }
  }

  /** In every run whose inserts follow their fetches within `lag`, no request that arrives
      `bound` or more after a credential was withdrawn is accepted for it. */
  ghost predicate StopsWithin(capacity: nat, lag: nat, bound: nat) {
    forall run, r, t, id ::
      Valid(capacity, run) && InsertsWithin(run, lag) && WithdrawnFrom(run, r, id) && Accepts(run, t, id) ==>
        run.states[t].requests[run.acts[t].req].began < run.states[r].tick + bound
  }

  // ---- The bound is exact --------------------------------------------------------------

  const WITNESS_MAC: Mac := [0, 0, 0, 0, 0, 0, 0, 0, 0, 0, 0, 0, 0, 0, 0, 0,
                             0, 0, 0, 0, 0, 0, 0, 0, 0, 0, 0, 0, 0, 0, 0, 0]

  function ActiveRow(id: Uuid): Row {
    Row(id, 0, "p", WITNESS_MAC, V2Required.AsStr(), [], false, Active.AsStr(), 0, None, None, None)
  }

  function ActiveRecord(id: Uuid): Record {
    Record(id, 0, "p", WITNESS_MAC, V2Required, {}, false, Active, 0, None, None, None)
  }

  function RevokedRows(id: Uuid): Rows {
    map[id := ActiveRow(id).(status := Status.Revoked.AsStr(), revokedAt := Some(0))]
  }

  lemma WitnessRows(id: Uuid)
    ensures Reads(map[id := ActiveRow(id)], id, ActiveRecord(id))
    ensures Withdrawn(RevokedRows(id), id)
    ensures Checks(ActiveRow(id)) && Checks(RevokedRows(id)[id])
  {
    StatusNamesDiffer();
    assert |LegacyOnly.AsStr()| == |V2Required.AsStr()| && LegacyOnly.AsStr()[0] != V2Required.AsStr()[0];
  }

  /** Fetch; be revoked, through this very node, which drops its entry; take `lag` to insert; and be
      served from the cache just before it dies. */
  function SlowActs(id: Uuid, lag: nat): seq<Action> {
    [Begin(0, 0, id, WITNESS_MAC, 0), LookUp(0, 0), FetchRow(0), Outside(RevokedRows(id)), Invalidate(0, id),
     Advance(lag), Finish(0, 0, {}),
     Advance(Cache.MAX_TTL - 1), Begin(1, 0, id, WITNESS_MAC, 0), LookUp(1, 0), Finish(1, 0, {})]
  }

  function SlowStates(id: Uuid, lag: nat): seq<State> {
    var rec := ActiveRecord(id);
    var live, dead := map[id := ActiveRow(id)], RevokedRows(id);
    var q0, q1 := Request(0, id, WITNESS_MAC, 0, 0, Looking),
      Request(0, id, WITNESS_MAC, 0, lag + Cache.MAX_TTL - 1, Looking);
    var empty := map[0 := map[]];
    var warm := map[0 := map[id := Cache.Entry(rec, lag + Cache.MAX_TTL, Cache.MAX_TTL)]];
    var late := lag + Cache.MAX_TTL - 1;
    var holding := map[0 := q0.(phase := Holding(rec, false))];
    [State(0, live, empty, map[], {}), State(0, live, empty, map[0 := q0], {0}),
     State(0, live, empty, map[0 := q0.(phase := Missed)], {0}),
     State(0, live, empty, holding, {0}), State(0, dead, empty, holding, {0}), State(0, dead, empty, holding, {0}),
     State(lag, dead, empty, holding, {0}), State(lag, dead, warm, map[], {0}), State(late, dead, warm, map[], {0}),
     State(late, dead, warm, map[1 := q1], {0, 1}),
     State(late, dead, warm, map[1 := q1.(phase := Holding(rec, true))], {0, 1}),
      State(late, dead, warm, map[], {0, 1})]
  }

  ghost predicate Steps(capacity: nat, s: State, a: Action, s': State) {
    Enabled(capacity, s, a) && Next(s, a) == s'
  }

  lemma SlowMiss(capacity: nat, id: Uuid, lag: nat)
    ensures var ss, aa := SlowStates(id, lag), SlowActs(id, lag);
      Steps(capacity, ss[0], aa[0], ss[1]) && Steps(capacity, ss[1], aa[1], ss[2])
  {
    hide Validate, RevokedRows, ActiveRow, ActiveRecord;
  }

  lemma SlowFetch(capacity: nat, id: Uuid, lag: nat)
    ensures Steps(capacity, SlowStates(id, lag)[2], SlowActs(id, lag)[2], SlowStates(id, lag)[3])
  {
    WitnessRows(id);
    hide Validate, RevokedRows, ActiveRow, ActiveRecord;
  }

  lemma SlowWait(capacity: nat, id: Uuid, lag: nat)
    ensures var ss, aa := SlowStates(id, lag), SlowActs(id, lag);
      && Steps(capacity, ss[3], aa[3], ss[4]) && Steps(capacity, ss[4], aa[4], ss[5]) &&
        Steps(capacity, ss[5], aa[5], ss[6])
      && Steps(capacity, ss[7], aa[7], ss[8]) && Steps(capacity, ss[8], aa[8], ss[9])
  {
    hide Validate, RevokedRows, ActiveRow;
  }

  lemma SlowInsert(capacity: nat, id: Uuid, lag: nat)
    requires capacity >= 1
    ensures Steps(capacity, SlowStates(id, lag)[6], SlowActs(id, lag)[6], SlowStates(id, lag)[7])
  {
    hide Validate, RevokedRows, ActiveRow;
    var s := SlowStates(id, lag)[6];
    var es: Entries := s.caches[0];
    assert es == map[];
    assert Admits(s, 0);
    var rec := ActiveRecord(id);
    assert Cache.Stored(es, Cache.MAX_TTL, id, rec, None, Cache.Reading(lag, 0), {})
        == map[id := Cache.Entry(rec, lag + Cache.MAX_TTL, Cache.MAX_TTL)];
  }

  lemma SlowHit(capacity: nat, id: Uuid, lag: nat)
    ensures var ss, aa := SlowStates(id, lag), SlowActs(id, lag);
      Steps(capacity, ss[9], aa[9], ss[10]) && Steps(capacity, ss[10], aa[10], ss[11])
  {
    hide Validate, RevokedRows, ActiveRow;
    var s := SlowStates(id, lag)[9];
    assert FromCache(s.caches[0], id, WITNESS_MAC, Cache.Reading(s.tick, 0)) == Some(ActiveRecord(id));
  }

  lemma SlowStart(id: Uuid, lag: nat)
    ensures Initial(SlowStates(id, lag)[0]) && |SlowStates(id, lag)| == 12 && |SlowActs(id, lag)| == 11
  {
    hide ActiveRow, RevokedRows;
  }

  lemma SlowRunIsValid(capacity: nat, id: Uuid, lag: nat)
    requires capacity >= 1
    ensures Valid(capacity, Run(SlowStates(id, lag), SlowActs(id, lag)))
  {
    SlowMiss(capacity, id, lag);
    SlowFetch(capacity, id, lag);
    SlowWait(capacity, id, lag);
    SlowInsert(capacity, id, lag);
    SlowHit(capacity, id, lag);
    SlowStart(id, lag);
    var ss, aa := SlowStates(id, lag), SlowActs(id, lag);
    hide Enabled, Next, SlowStates, SlowActs, Initial;
    forall i | 0 <= i < |aa| ensures Steps(capacity, ss[i], aa[i], ss[i + 1]) {
      assert i in {0, 1, 2, 3, 4, 5, 6, 7, 8, 9, 10};
    }
  }

  lemma SlowActions(id: Uuid, lag: nat, i: nat)
    requires i < 11
    ensures SlowActs(id, lag)[i].FetchRow? <==> i == 2
    ensures SlowActs(id, lag)[i].Finish? <==> i == 6 || i == 10
    ensures SlowActs(id, lag)[2].req == SlowActs(id, lag)[6].req == 0 && SlowActs(id, lag)[10].req == 1
  {
  }

  lemma SlowTicks(id: Uuid, lag: nat, i: nat)
    requires i < 12
    ensures SlowStates(id, lag)[i].tick == if i < 6 then 0 else if i < 8 then lag else lag + Cache.MAX_TTL - 1
    ensures SlowStates(id, lag)[i].rows == if i < 4 then map[id := ActiveRow(id)] else RevokedRows(id)
  {
    hide ActiveRow, RevokedRows;
  }

  lemma SlowAcceptance(id: Uuid, lag: nat)
    ensures var s := SlowStates(id, lag)[10];
      && 1 in s.requests && s.requests[1].id == id && s.requests[1].began == lag + Cache.MAX_TTL - 1
      && Verdict(s, SlowActs(id, lag)[10]) == Some(Authenticated(ContextOf(ActiveRecord(id))))
  {
    hide ActiveRow, RevokedRows;
  }

  /** The bound cannot be lowered: a request arriving one tick earlier is accepted in this run, and by
      the node that revoked the credential and dropped it from its cache. */
  lemma BoundIsReached(capacity: nat, lag: nat, id: Uuid)
    requires capacity >= 1
    ensures var run := Run(SlowStates(id, lag), SlowActs(id, lag));
      && Valid(capacity, run) && InsertsWithin(run, lag) && WithdrawnFrom(run, 4, id) && Accepts(run, 10, id)
      && run.acts[4] == Invalidate(0, id) && run.states[10].requests[run.acts[10].req].node == 0
      && run.states[10].requests[run.acts[10].req].began == run.states[4].tick + Cache.MAX_TTL + lag - 1
  {
    var run := Run(SlowStates(id, lag), SlowActs(id, lag));
    SlowRunIsValid(capacity, id, lag);
    SlowAcceptance(id, lag);
    WitnessRows(id);
    assert |run.acts| == 11 && |run.states| == 12;
    hide SlowStates, SlowActs, Valid, Withdrawn, RevokedRows, ActiveRow, Verdict;
    forall i | 0 <= i < 11 { SlowActions(id, lag, i); }
    forall i | 0 <= i < 12 { SlowTicks(id, lag, i); }
    forall f, ins, node, k, rec | Cached(run, f, ins, node, k, rec)
      ensures run.states[ins].tick <= run.states[f].tick + lag
    {
      assert f == 2 && ins == 6;
    }
  }

  /** The frozen bound of 30 seconds (or any other) holds over every run if and only if it leaves
      room for the time requests may spend between fetching a row and caching it; with exactly
      30 seconds, if and only if that time is nil. */
  lemma StopsWithinIff(capacity: nat, lag: nat, bound: nat)
    requires capacity >= 1
    ensures StopsWithin(capacity, lag, bound) <==> bound >= 30_000_000_000 + lag
    ensures StopsWithin(capacity, lag, 30_000_000_000) <==> lag == 0
  {
    forall b: nat ensures StopsWithin(capacity, lag, b) <==> b >= Cache.MAX_TTL + lag {
      BoundIsExact(capacity, lag, b);
    }
  }

  lemma BoundIsExact(capacity: nat, lag: nat, bound: nat)
    requires capacity >= 1
    ensures StopsWithin(capacity, lag, bound) <==> bound >= Cache.MAX_TTL + lag
  {
    hide Judge, Withdrawn, Enabled, Next, SlowStates, SlowActs;
    if bound >= Cache.MAX_TTL + lag {
      forall run, r, t, id | Valid(capacity, run) && InsertsWithin(run, lag) && WithdrawnFrom(run, r, id) &&
        Accepts(run, t, id)
        ensures run.states[t].requests[run.acts[t].req].began < run.states[r].tick + bound
      {
        LateRequestsAreRefused(capacity, run, lag, r, t, id);
      }
    } else {
      var id: Uuid := seq(16, _ => 0);
      BoundIsReached(capacity, lag, id);
    }
  }

  // ---- How often last_used_at is written -----------------------------------------------

  /** Step `t` accepts a fetched record of `id` on `node`: it is cached there, and its row stamped. */
  ghost predicate Stamps(run: Run, t: int, node: NodeId, id: Uuid)
    requires |run.states| == |run.acts| + 1
  {
    && 0 <= t < |run.acts| && run.acts[t].Finish? && Admits(run.states[t], run.acts[t].req)
    && run.states[t].requests[run.acts[t].req].node == node && run.states[t].requests[run.acts[t].req].id == id
  }

  /** The entry an acceptance stores. */
  ghost predicate IsStored(s: State, a: Action, e: Cache.Entry<Record>) {
    && a.Finish? && a.req in s.requests && s.requests[a.req].phase.Holding?
    && e.value == s.requests[a.req].phase.record && LivesFrom(s.tick, a.wall, e)
  }

  /** The step takes the entry for `id` out of the cache of `node`: it invalidates it, evicts it, or
      looks it up and finds it dead. */
  ghost predicate Drops(s: State, a: Action, node: NodeId, id: Uuid) {
    && node in s.caches && id in s.caches[node]
    && match a
       case Invalidate(n, k) => n == node && k == id
       case Finish(req, _, dropped) =>
         Admits(s, req) && s.requests[req].node == node && s.requests[req].id != id && id in dropped
       case LookUp(req, wall) =>
         && req in s.requests && s.requests[req].node == node && s.requests[req].id == id
         && !Cache.Live(s.caches[node][id], Cache.Reading(s.tick, wall))
       case _ => false
  }

  /** Any other step leaves the entry, or its absence, as it was. */
  lemma StepKeepsEntry(s: State, a: Action, node: NodeId, id: Uuid)
    requires node in s.caches
    requires !(a.Finish? && Admits(s, a.req) && s.requests[a.req].node == node && s.requests[a.req].id == id)
    ensures var s' := Next(s, a);
      && node in s'.caches
      && (Drops(s, a, node, id) ==> id !in s'.caches[node])
      && (!Drops(s, a, node, id) ==>
            (id in s'.caches[node] <==> id in s.caches[node])
            && (id in s.caches[node] ==> s'.caches[node][id] == s.caches[node][id]))
  {
    hide Judge, Validate;
  }

  lemma StampStores(capacity: nat, run: Run, i: int, node: NodeId, id: Uuid)
    requires Valid(capacity, run) && Stamps(run, i, node, id)
    ensures var s' := run.states[i + 1];
      && node in s'.caches && id in s'.caches[node]
      && IsStored(run.states[i], run.acts[i], s'.caches[node][id])
  {
    hide Judge, Validate, Cache.Evicts;
    assert Enabled(capacity, run.states[i], run.acts[i]) && run.states[i + 1] == Next(run.states[i], run.acts[i]);
  }

  /** After a stamp, and until the next, the cache holds that entry as long as no step drops it. */
  lemma {:induction false} HeldUntilDropped(capacity: nat, run: Run, i: int, g: int, node: NodeId, id: Uuid)
    requires Valid(capacity, run) && Stamps(run, i, node, id) && i < g < |run.states|
    requires forall k :: i < k < g ==> !Stamps(run, k, node, id)
    ensures node in run.states[g].caches
    ensures id in run.states[g].caches[node] <==> forall k :: i < k < g ==> !Drops(run.states[k], run.acts[k], node, id)
    ensures id in run.states[g].caches[node] ==>
      IsStored(run.states[i], run.acts[i], run.states[g].caches[node][id])
    decreases g - i
  {
    hide Judge, Validate, Next, Enabled, IsStored, Admits;
    if g == i + 1 {
      StampStores(capacity, run, i, node, id);
    } else {
      var k := g - 1;
      HeldUntilDropped(capacity, run, i, k, node, id);
      assert run.states[g] == Next(run.states[k], run.acts[k]);
      assert !Stamps(run, k, node, id);
      StepKeepsEntry(run.states[k], run.acts[k], node, id);
    }
  }

  /** A request that looks its credential up after the last stamp on its node goes to the registry
      again, and so may stamp again, if and only if the entry was dropped in between, or one of its
      deadlines has passed, or the presented MAC is not the one that was stored. */
  lemma MissesAgainIff(capacity: nat, run: Run, i: int, g: int, node: NodeId, id: Uuid)
    requires Valid(capacity, run) && Stamps(run, i, node, id) && i < g < |run.acts| && run.acts[g].LookUp?
    requires forall k :: i < k < g ==> !Stamps(run, k, node, id)
    requires var s, req := run.states[g], run.acts[g].req;
      req in s.requests && s.requests[req].node == node && s.requests[req].id == id
    ensures var rec := run.states[i].requests[run.acts[i].req].phase.record;
      var req := run.acts[g].req;
      && req in run.states[g + 1].requests
      && (run.states[g + 1].requests[req].phase == Missed <==>
            || (exists k :: i < k < g && Drops(run.states[k], run.acts[k], node, id))
            || run.states[g].tick >= run.states[i].tick + Cache.MAX_TTL
            || run.acts[g].wall >= run.acts[i].wall + Cache.MAX_TTL
            || (rec.expiresAt.Some? && run.acts[g].wall >= rec.expiresAt.value)
            || run.states[g].requests[req].mac != rec.secretMac)
  {
    HeldUntilDropped(capacity, run, i, g, node, id);
    assert Enabled(capacity, run.states[g], run.acts[g]) && run.states[g + 1] == Next(run.states[g], run.acts[g]);
    hide Judge, Validate, Drops, Stamps, Valid, Admits;
  }

  predicate PastMiss(q: Request) {
    q.phase == Missed || (q.phase.Holding? && !q.phase.fromCache)
  }

  predicate SameRequest(p: Request, q: Request) {
    p.(phase := q.phase) == q
  }

  /** Step `g` looked the credential of `q`, request number `req`, up, and missed. */
  ghost predicate MissedAt(run: Run, g: int, req: RequestId, q: Request)
    requires |run.states| == |run.acts| + 1
  {
    && 0 <= g < |run.acts| && run.acts[g].LookUp? && run.acts[g].req == req
    && req in run.states[g].requests && SameRequest(run.states[g].requests[req], q)
    && req in run.states[g + 1].requests && run.states[g + 1].requests[req].phase == Missed
  }

  lemma StepPastMiss(capacity: nat, s: State, a: Action, req: RequestId)
    requires Enabled(capacity, s, a) && req in Next(s, a).requests && PastMiss(Next(s, a).requests[req])
    ensures req in s.requests && SameRequest(s.requests[req], Next(s, a).requests[req])
    ensures PastMiss(s.requests[req]) || (a.LookUp? && a.req == req && Next(s, a).requests[req].phase == Missed)
  {
    hide Judge, Validate, FromCache, Admits;
  }

  lemma {:induction false} WasLookedUp(capacity: nat, run: Run, t: int, req: RequestId)
    requires Valid(capacity, run) && 0 <= t < |run.states|
    requires req in run.states[t].requests && PastMiss(run.states[t].requests[req])
    ensures exists g :: g < t && MissedAt(run, g, req, run.states[t].requests[req])
    decreases t
  {
    hide Next, Enabled;
    if t > 0 {
      var s, a := run.states[t - 1], run.acts[t - 1];
      assert Enabled(capacity, s, a) && run.states[t] == Next(s, a);
      StepPastMiss(capacity, s, a, req);
      if PastMiss(s.requests[req]) {
        WasLookedUp(capacity, run, t - 1, req);
        var g :| g < t - 1 && MissedAt(run, g, req, s.requests[req]);
        assert MissedAt(run, g, req, run.states[t].requests[req]);
      } else {
        assert MissedAt(run, t - 1, req, run.states[t].requests[req]);
      }
    }
  }

  /** So one node stamps a row twice within the TTL only if the second request had missed the cache
      before the first was accepted, or the entry was dropped, or the wall clock reached its deadline,
      or the second request presented another MAC. */
  lemma SecondStampHasCause(capacity: nat, run: Run, i: int, j: int, node: NodeId, id: Uuid)
    requires Valid(capacity, run) && Stamps(run, i, node, id) && Stamps(run, j, node, id) && i < j
    requires forall k :: i < k < j ==> !Stamps(run, k, node, id)
    requires run.states[j].tick < run.states[i].tick + Cache.MAX_TTL
    ensures var rec := run.states[i].requests[run.acts[i].req].phase.record;
      exists g :: g < j && MissedAt(run, g, run.acts[j].req, run.states[j].requests[run.acts[j].req])
        && (|| g < i
            || (exists k :: i < k < g && Drops(run.states[k], run.acts[k], node, id))
            || run.acts[g].wall >= run.acts[i].wall + Cache.MAX_TTL
            || (rec.expiresAt.Some? && run.acts[g].wall >= rec.expiresAt.value)
            || run.states[j].requests[run.acts[j].req].mac != rec.secretMac)
  {
    var req := run.acts[j].req;
    WasLookedUp(capacity, run, j, req);
    var g :| g < j && MissedAt(run, g, req, run.states[j].requests[req]);
    assert g != i;
    if i < g {
      MissesAgainIff(capacity, run, i, g, node, id);
      TicksGrow(capacity, run, g, j);
    }
  }

  // ---- Two stamps at once --------------------------------------------------------------

  lemma Extended(capacity: nat, run: Run, a: Action) returns (longer: Run)
    requires Valid(capacity, run) && Enabled(capacity, run.states[|run.acts|], a)
    ensures Valid(capacity, longer) && longer.acts == run.acts + [a]
    ensures longer.states == run.states + [Next(run.states[|run.acts|], a)]
    ensures |longer.states| == |longer.acts| + 1
  {
    longer := Run(run.states + [Next(run.states[|run.acts|], a)], run.acts + [a]);
    hide Enabled, Next, Initial;
    forall i | 0 <= i < |longer.acts|
      ensures Enabled(capacity, longer.states[i], longer.acts[i]) &&
          longer.states[i + 1] == Next(longer.states[i], longer.acts[i])
    {
      if i < |run.acts| {
        assert longer.states[i] == run.states[i] && longer.states[i + 1] == run.states[i + 1] &&
          longer.acts[i] == run.acts[i];
      }
    }
  }

  function Twin(id: Uuid, phase: Phase): Request {
    Request(0, id, WITNESS_MAC, 0, 0, phase)
  }

  function TwinState(id: Uuid, entries: Entries, requests: map<RequestId, Request>, used: set<RequestId>): State {
    State(0, map[id := ActiveRow(id)], map[0 := entries], requests, used)
  }

  /** Two requests for one credential have both missed. */
  lemma TwinsMiss(capacity: nat, id: Uuid) returns (run: Run)
    ensures Valid(capacity, run) && |run.acts| == 4
    ensures run.states[4] == TwinState(id, map[], map[0 := Twin(id, Missed), 1 := Twin(id, Missed)], {0, 1})
  {
    hide ActiveRow, Judge, Validate;
    run := Run([TwinState(id, map[], map[], {})], []);
    run := Extended(capacity, run, Begin(0, 0, id, WITNESS_MAC, 0));
    assert run.states[1] == TwinState(id, map[], map[0 := Twin(id, Looking)], {0});
    run := Extended(capacity, run, Begin(1, 0, id, WITNESS_MAC, 0));
    assert run.states[2] == TwinState(id, map[], map[0 := Twin(id, Looking), 1 := Twin(id, Looking)], {0, 1});
    run := Extended(capacity, run, LookUp(0, 0));
    assert run.states[3] == TwinState(id, map[], map[0 := Twin(id, Missed), 1 := Twin(id, Looking)], {0, 1});
    run := Extended(capacity, run, LookUp(1, 0));
    assert run.states[4] == TwinState(id, map[], map[0 := Twin(id, Missed), 1 := Twin(id, Missed)], {0, 1});
  }

  /** Both have fetched. */
  lemma TwinsFetch(capacity: nat, id: Uuid) returns (run: Run)
    ensures Valid(capacity, run) && |run.acts| == 6 && |run.states| == 7
    ensures var holding := Twin(id, Holding(ActiveRecord(id), false));
      run.states[6] == TwinState(id, map[], map[0 := holding, 1 := holding], {0, 1})
  {
    WitnessRows(id);
    hide ActiveRow, Judge, Validate, RevokedRows, ActiveRecord;
    var holding := Twin(id, Holding(ActiveRecord(id), false));
    run := TwinsMiss(capacity, id);
    run := Extended(capacity, run, FetchRow(0));
    assert run.states[5] == TwinState(id, map[], map[0 := holding, 1 := Twin(id, Missed)], {0, 1});
    run := Extended(capacity, run, FetchRow(1));
    assert run.states[6] == TwinState(id, map[], map[0 := holding, 1 := holding], {0, 1});
  }

  lemma TwinAdmitted(id: Uuid, s: State, req: RequestId)
    requires req in s.requests && s.requests[req] == Twin(id, Holding(ActiveRecord(id), false))
    ensures Admits(s, req)
  {
  }

  /** While the cache is empty or holds the id already, an insert drops nothing. */
  lemma TwinStamps(capacity: nat, id: Uuid, s: State, req: RequestId)
    requires capacity >= 1 && req in s.requests && s.requests[req] == Twin(id, Holding(ActiveRecord(id), false))
    requires 0 in s.caches && (s.caches[0] == map[] || id in s.caches[0])
    ensures Enabled(capacity, s, Finish(req, 0, {}))
    ensures var s' := Next(s, Finish(req, 0, {}));
      s'.tick == s.tick && s'.requests == s.requests - {req} && 0 in s'.caches && id in s'.caches[0]
  {
    TwinAdmitted(id, s, req);
    hide ActiveRecord, Admits;
  }

  /** One node, a cache of any size: the row is stamped twice in one tick, in successive steps. */
  lemma StampedTwice(capacity: nat, id: Uuid) returns (run: Run)
    requires capacity >= 1
    ensures Valid(capacity, run) && |run.acts| == 8 && Stamps(run, 6, 0, id) && Stamps(run, 7, 0, id)
    ensures run.states[6].tick == run.states[7].tick
  {
    hide ActiveRow, ActiveRecord, Judge, Validate, Valid, Enabled, Next, Admits;
    var holding := Twin(id, Holding(ActiveRecord(id), false));
    run := TwinsFetch(capacity, id);
    TwinAdmitted(id, run.states[6], 0);
    TwinStamps(capacity, id, run.states[6], 0);
    run := Extended(capacity, run, Finish(0, 0, {}));
    var s := run.states[7];
    assert s.requests == map[1 := holding];
    TwinAdmitted(id, s, 1);
    TwinStamps(capacity, id, s, 1);
    run := Extended(capacity, run, Finish(1, 0, {}));
  }

  // ---- When a revocation takes effect at once ------------------------------------------

  ghost predicate Continues(capacity: nat, run: Run, more: Run) {
    Valid(capacity, more) && run.states <= more.states && run.acts <= more.acts
  }

  /** Whatever happens next, as long as the row stays withdrawn no request that has yet to arrive is
      accepted for `id` on `node`. */
  ghost predicate StopsAtOnce(capacity: nat, run: Run, node: NodeId, id: Uuid)
    requires |run.states| == |run.acts| + 1
  {
    forall more, t ::
      Continues(capacity, run, more) && WithdrawnFrom(more, |run.acts|, id) && Accepts(more, t, id)
      && more.states[t].requests[more.acts[t].req].node == node ==>
        more.acts[t].req in run.states[|run.acts|].used
  }

  /** A request for `id` on `node` holds a fetched record and will be accepted with it. */
  ghost predicate InFlight(s: State, req: RequestId, node: NodeId, id: Uuid) {
    Admits(s, req) && s.requests[req].node == node && s.requests[req].id == id
  }

  /** The node has nothing left to accept `id` with, but what a request numbered in `used` found in
      the cache. */
  ghost predicate Spent(s: State, used: set<RequestId>, node: NodeId, id: Uuid) {
    && node in s.caches && id !in s.caches[node]
    && forall req :: req in s.requests && s.requests[req].node == node && s.requests[req].id == id ==>
         !Admits(s, req) && (req !in used ==> !(s.requests[req].phase.Holding? && s.requests[req].phase.fromCache))
  }

  lemma FetchedWithdrawn(s: State, a: Action, req: RequestId, s': State)
    requires req in s'.requests && Withdrawn(s.rows, s'.requests[req].id)
    requires FoundInRegistry(s, a, req, s'.requests[req])
    ensures !Admits(s', req)
  {
  }

  lemma StaysSpent(s: State, a: Action, used: set<RequestId>, node: NodeId, id: Uuid)
    requires Spent(s, used, node, id) && Withdrawn(s.rows, id)
    ensures Spent(Next(s, a), used, node, id)
  {
    var s' := Next(s, a);
    StepKeepsEntry(s, a, node, id);
    forall req | req in s'.requests && s'.requests[req].node == node && s'.requests[req].id == id
      ensures !Admits(s', req)
      ensures req !in used ==> !(s'.requests[req].phase.Holding? && s'.requests[req].phase.fromCache)
    {
      RequestOrigin(s, a, req);
      hide Next, Withdrawn, Judge, Validate;
      var q' := s'.requests[req];
      if req in s.requests && s.requests[req] == q' {
        assert Admits(s', req) ==> Admits(s, req);
      } else if FoundInCache(s, a, req, q') {
        HitEntry(s, a, req, q');
      } else if FoundInRegistry(s, a, req, q') {
        FetchedWithdrawn(s, a, req, s');
      }
    }
  }

  lemma {:induction false} RunStaysSpent(capacity: nat, run: Run, n: int, t: int, used: set<RequestId>, node: NodeId,
                                         id: Uuid)
    requires Valid(capacity, run) && WithdrawnFrom(run, n, id) && n <= t < |run.states|
    requires Spent(run.states[n], used, node, id)
    ensures Spent(run.states[t], used, node, id)
    decreases t
  {
    hide Spent, Next, Enabled, Withdrawn;
    if n < t {
      RunStaysSpent(capacity, run, n, t - 1, used, node, id);
      StaysSpent(run.states[t - 1], run.acts[t - 1], used, node, id);
    }
  }

  lemma {:induction false} Unused(used: set<RequestId>) returns (req: RequestId)
    ensures forall k :: k in used ==> k < req
    decreases used
  {
    req := 0;
    if used != {} {
      var k :| k in used;
      assert forall j :: j in used ==> j == k || j in used - {k};
      var above := Unused(used - {k});
      req := if k < above then above else k + 1;
    }
  }

  /** The request in flight is accepted, and its record is cached alive for some wall clock. */
  lemma LateInsert(capacity: nat, s: State, req: RequestId, node: NodeId, id: Uuid)
    returns (dropped: set<Uuid>, wall: int)
    requires capacity >= 1 && InFlight(s, req, node, id) && node in s.caches
    ensures Enabled(capacity, s, Finish(req, 0, dropped))
    ensures var s', q := Next(s, Finish(req, 0, dropped)), s.requests[req];
      && (s'.tick, s'.rows, s'.used) == (s.tick, s.rows, s.used) && node in s'.caches
      && FromCache(s'.caches[node], id, q.mac, Cache.Reading(s'.tick, wall)) == Some(q.phase.record)
  {
    var q := s.requests[req];
    dropped := Cache.SomeEviction(s.caches[node], capacity, id, Cache.Reading(s.tick, 0));
    wall := Cache.WallDeadline(0, Cache.MAX_TTL, q.phase.record.CacheBound()) - 1;
    hide Cache.Evicts, Validate;
  }

  /** A new request with the same secret is then served from the cache. */
  lemma LateHit(capacity: nat, s: State, req: RequestId, q: Request, wall: int)
    requires req !in s.used && q.node in s.caches && q.phase.Holding?
    requires Judge(q.phase.record, q.mac, q.at).Authenticated?
    requires FromCache(s.caches[q.node], q.id, q.mac, Cache.Reading(s.tick, wall)) == Some(q.phase.record)
    ensures var s1 := Next(s, Begin(req, q.node, q.id, q.mac, q.at));
      var s2 := Next(s1, LookUp(req, wall));
      && Enabled(capacity, s, Begin(req, q.node, q.id, q.mac, q.at)) && Enabled(capacity, s1, LookUp(req, wall))
      && Enabled(capacity, s2, Finish(req, 0, {})) && s1.rows == s2.rows == s.rows
      && req in s2.requests && s2.requests[req].node == q.node && s2.requests[req].id == q.id
      && Verdict(s2, Finish(req, 0, {})) == Some(Judge(q.phase.record, q.mac, q.at))
  {
    hide Judge, FromCache, Cache.Looked, Cache.Evicts;
  }

  /** Four steps from a request in flight to the acceptance of one that has yet to arrive. */
  lemma InFlightGetsThrough(capacity: nat, run: Run, req: RequestId, node: NodeId, id: Uuid)
    requires capacity >= 1 && Valid(capacity, run) && InFlight(run.states[|run.acts|], req, node, id)
    requires node in run.states[|run.acts|].caches && Withdrawn(run.states[|run.acts|].rows, id)
    ensures !StopsAtOnce(capacity, run, node, id)
  {
    var n := |run.acts|;
    var s := run.states[n];
    var q := s.requests[req];
    var dropped, wall := LateInsert(capacity, s, req, node, id);
    var new_ := Unused(s.used);
    LateHit(capacity, Next(s, Finish(req, 0, dropped)), new_, q, wall);
    var s3 := Next(Next(Next(s, Finish(req, 0, dropped)), Begin(new_, node, id, q.mac, q.at)), LookUp(new_, wall));
    FinishKeepsRows(s3, Finish(new_, 0, {}));
    assert Verdict(s3, Finish(new_, 0, {})).value.Authenticated?;
    hide Enabled, Next, Judge, Verdict, Withdrawn, FromCache, Admits, Valid;
    var more := FourMore(capacity, run, Finish(req, 0, dropped), Begin(new_, node, id, q.mac, q.at),
                         LookUp(new_, wall), Finish(new_, 0, {}));
    assert more.states[n + 3] == s3;
    assert Accepts(more, n + 3, id);
    assert WithdrawnFrom(more, n, id);
  }

  lemma FourMore(capacity: nat, run: Run, a: Action, b: Action, c: Action, d: Action) returns (more: Run)
    requires Valid(capacity, run)
    requires var s := run.states[|run.acts|];
      && Enabled(capacity, s, a) && Enabled(capacity, Next(s, a), b) && Enabled(capacity, Next(Next(s, a), b), c)
      && Enabled(capacity, Next(Next(Next(s, a), b), c), d)
    ensures Continues(capacity, run, more) && more.acts == run.acts + [a, b, c, d]
    ensures var s1 := Next(run.states[|run.acts|], a);
      more.states == run.states + [s1, Next(s1, b), Next(Next(s1, b), c), Next(Next(Next(s1, b), c), d)]
    ensures |more.states| == |more.acts| + 1 == |run.acts| + 5
  {
    assert |run.states| == |run.acts| + 1;
    hide Enabled, Next, Valid;
    more := Extended(capacity, run, a);
    more := Extended(capacity, more, b);
    more := Extended(capacity, more, c);
    more := Extended(capacity, more, d);
  }

  lemma FinishKeepsRows(s: State, a: Action)
    requires a.Finish?
    ensures Next(s, a).rows == s.rows
  {
  }

  /** Once the row is withdrawn and the entry dropped, no request that arrives later is accepted on
      that node if and only if none was in flight there: one that had fetched the row before, and
      was yet to cache it. */
  lemma StopsAtOnceIff(capacity: nat, run: Run, node: NodeId, id: Uuid)
    requires capacity >= 1 && Valid(capacity, run)
    requires var s := run.states[|run.acts|];
      node in s.caches && id !in s.caches[node] && Withdrawn(s.rows, id)
    ensures StopsAtOnce(capacity, run, node, id) <==> !exists req :: InFlight(run.states[|run.acts|], req, node, id)
  {
    var n := |run.acts|;
    var s := run.states[n];
    if exists req :: InFlight(s, req, node, id) {
      var req :| InFlight(s, req, node, id);
      InFlightGetsThrough(capacity, run, req, node, id);
    } else {
      forall more, t | Continues(capacity, run, more) && WithdrawnFrom(more, n, id) && Accepts(more, t, id)
          && more.states[t].requests[more.acts[t].req].node == node
        ensures more.acts[t].req in s.used
      {
        hide Enabled, Next, Judge, Validate, Withdrawn;
        UsedGrows(capacity, run, n, n);
        assert forall req :: req in s.requests ==> req in s.used && !InFlight(s, req, node, id);
        assert Spent(s, s.used, node, id);
        assert more.states[n] == s;
        if t < n {
          UsedGrows(capacity, more, t, t);
          UsedGrows(capacity, more, t, n);
        } else {
          RunStaysSpent(capacity, more, n, t, s.used, node, id);
        }
      }
    }
  }
}
