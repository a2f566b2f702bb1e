/** Credential authentication: parse, MAC, cache, fetch, verify, check, write
    (src/credentials/mod.rs).

    The keyed MAC is an arbitrary function of the secret.  Clock readings and the database's
    failures are arguments of each request. */
module Authenticator {
  import opened Common
  import Cache
  import Secret
  import Scope
  import opened Store

  type Mac = seq<Byte>

  datatype FailureReason =
    Malformed | UnknownCredential | BadSecret | RevokedCredential | Expired | Inactive | Corrupt | Backend

  datatype Context = Context(credentialId: Uuid, tenantId: TenantId, principalId: string, scopes: Scope.ScopeSet,
                             mode: Mode)

  datatype Outcome = Authenticated(context: Context) | Rejected(reason: FailureReason)

  datatype Audit = Audit(at: int, outcome: Outcome, credentialId: Option<Uuid>, tenantId: Option<TenantId>,
                         principalId: Option<string>)

  /** What a request does that takes time or leaves a trace. */
  datatype Effect = PresentedMac | CacheLookup | Fetch(completed: bool) | Decoy | CacheInsert | RowWrite

  type Entries = Cache.Entries<Record>

  // ---- The decision --------------------------------------------------------------------

  function ContextOf(rec: Record): Context {
    Context(rec.id, rec.tenantId, rec.principalId, rec.scopes, rec.mode)
  }

  /** The verdict on a loaded record: the secret first, then status and expiry. */
  function Judge(rec: Record, mac: Mac, at: int): Outcome {
    if mac != rec.secretMac then Rejected(BadSecret)
    else if !rec.IsUsableAt(at) then
      Rejected(match rec.status case Revoked => RevokedCredential case Disabled => Inactive case Active => Expired)
    else Authenticated(ContextOf(rec))
  }

  /** A check that knows no cache: look the row up and judge it. */
  function Cacheless(rows: Rows, id: Uuid, mac: Mac, at: int): Outcome {
    if id !in rows then Rejected(UnknownCredential)
    else match Validate(rows[id])
      case Err(_) => Rejected(Corrupt)
      case Ok(rec) => Judge(rec, mac, at)
  }

  /** The record the cache may answer with: a live one that corroborates the secret. */
  function FromCache(es: Entries, id: Uuid, mac: Mac, now: Cache.Reading): Option<Record> {
    match Cache.Looked(es, id, now).1
    case Some(rec) => if mac == rec.secretMac then Some(rec) else None
    case None => None
  }

  /** Clock readings of one request, in the order they are taken. */
  datatype Clock = Clock(at: int, lookup: Cache.Reading, insert: Cache.Reading)

  /** Whether the fetch and the best-effort write fail, and whether some other thread poisons the
      cache between the lookup and the insert. */
  datatype Weather = Weather(fetchFails: bool, touchFails: bool, poisonedMeanwhile: bool)

  function Decide(es: Entries, poisoned: bool, rows: Rows, w: Weather, id: Uuid, mac: Mac, clock: Clock): Outcome {
    if poisoned then Rejected(Backend)
    else match FromCache(es, id, mac, clock.lookup)
      case Some(rec) => Judge(rec, mac, clock.at)
      case None =>
        if w.fetchFails then Rejected(Backend)
        else if w.poisonedMeanwhile && Cacheless(rows, id, mac, clock.at).Authenticated? then Rejected(Backend)
        else Cacheless(rows, id, mac, clock.at)
  }

  /** The request reached the registry and was accepted there, and the cache took the record. */
  predicate AcceptedFresh(es: Entries, poisoned: bool, rows: Rows, w: Weather, id: Uuid, mac: Mac, clock: Clock) {
    && !poisoned && FromCache(es, id, mac, clock.lookup).None? && !w.fetchFails
    && Cacheless(rows, id, mac, clock.at).Authenticated? && !w.poisonedMeanwhile
  }

  /** What loading does: a cache answer costs nothing more, a completed fetch is charged a decoy. */
  function LoadEffects(es: Entries, poisoned: bool, rows: Rows, fetchFails: bool, id: Uuid, mac: Mac,
                       lookup: Cache.Reading): seq<Effect>
  {
    if poisoned || FromCache(es, id, mac, lookup).Some? then [CacheLookup]
    else if fetchFails || (id in rows && Validate(rows[id]).Err?) then [CacheLookup, Fetch(false)]
    else [CacheLookup, Fetch(true), Decoy]
  }

  function Effects(es: Entries, poisoned: bool, rows: Rows, w: Weather, id: Uuid, mac: Mac, clock: Clock): seq<Effect> {
    [PresentedMac] + LoadEffects(es, poisoned, rows, w.fetchFails, id, mac, clock.lookup)
    + (if AcceptedFresh(es, poisoned, rows, w, id, mac, clock) then [CacheInsert, RowWrite] else [])
  }

  /** What a request leaves in the cache and the registry: after an acceptance by the registry, the
      record stored in place of what had to go, and the row stamped; else the cache as the lookup
      left it and the registry untouched. */
  ghost predicate Leaves(es: Entries, poisoned: bool, rows: Rows, w: Weather, id: Uuid, mac: Mac, clock: Clock,
                         capacity: nat, ttl: nat, dropped: set<Uuid>, es': Entries, rows': Rows)
  {
    var admitted := AcceptedFresh(es, poisoned, rows, w, id, mac, clock);
    var looked := if poisoned then es else Cache.Looked(es, id, clock.lookup).0;
    && rows' == (if admitted && !w.touchFails then AfterTouch(rows, id, clock.at) else rows)
    && (!admitted ==> es' == looked)
    && (admitted ==>
          && Validate(rows[id]).Ok?
          && Cache.Evicts(looked, capacity, id, clock.insert, dropped)
          && var rec := Validate(rows[id]).value;
          && es' == Cache.Stored(looked, ttl, id, rec, rec.CacheBound(), clock.insert, dropped))
  }

  function AuditOf(at: int, outcome: Outcome, id: Option<Uuid>): Audit {
    match outcome
    case Authenticated(c) => Audit(at, outcome, Some(c.credentialId), Some(c.tenantId), Some(c.principalId))
    case Rejected(_) => Audit(at, outcome, id, None, None)
  }

  function Count(trace: seq<Effect>, e: Effect): nat {
    multiset(trace)[e]
  }

  // ---- The imperative authenticator ----------------------------------------------------

  datatype Loaded = Loaded(record: Record, fromCache: bool)

  class Authenticator {
    const macOf: seq<Byte> -> Mac
    const cache: Cache.BoundedTtlCache<Record>
    const registry: Registry
    var dummyMacs: nat
    ghost var trace: seq<Effect>

    ghost predicate Valid()
      reads this, cache, registry
    {
      cache.Valid() && registry.Valid() && Tallied()
    }

    /** One decoy per completed fetch, and the counter counts them. */
    ghost predicate Tallied()
      reads this
    {
      dummyMacs == Count(trace, Decoy) == Count(trace, Fetch(true))
    }

    /** Note effects other than a completed fetch and its decoy. */
    ghost method Note(effects: seq<Effect>)
      requires Tallied() && Decoy !in effects && Fetch(true) !in effects
      modifies this`trace
      ensures Tallied() && trace == old(trace) + effects
    {
      CountAppend(trace, effects);
      trace := trace + effects;
    }

    constructor (macOf: seq<Byte> -> Mac, registry: Registry, capacity: nat)
      requires registry.Valid()
      ensures Valid() && fresh(cache) && this.registry == registry && this.macOf == macOf
      ensures cache.entries == map[] && !cache.poisoned && cache.ttl == Cache.MAX_TTL
      ensures dummyMacs == 0 && trace == []
    {
      var c := new Cache.BoundedTtlCache<Record>(capacity, Cache.MAX_TTL);
      this.macOf := macOf;
      this.cache := c;
      this.registry := registry;
      dummyMacs := 0;
      trace := [];
    }

    /** The decoy MAC of a completed fetch. */
    method ChargeDecoy()
      requires Tallied()
      modifies this`dummyMacs, this`trace
      ensures Tallied() && trace == old(trace) + [Fetch(true), Decoy]
    {
      CountAppend(trace, [Fetch(true), Decoy]);
      dummyMacs := dummyMacs + 1;
      trace := trace + [Fetch(true), Decoy];
    }

    /** Cache first, then one fetch; writes nothing but the removal of a dead entry. */
    method Load(id: Uuid, mac: Mac, lookup: Cache.Reading, fetchFails: bool)
      returns (r: Result<Option<Loaded>, FailureReason>)
      requires cache.Valid() && Tallied()
      modifies this`dummyMacs, this`trace, cache`entries, cache`history
      ensures cache.Valid() && Tallied()
      ensures cache.entries
           == if cache.poisoned then old(cache.entries) else Cache.Looked(old(cache.entries), id, lookup).0
      ensures var hit := FromCache(old(cache.entries), id, mac, lookup);
        r == if cache.poisoned then Err(Backend)
             else if hit.Some? then Ok(Some(Loaded(hit.value, true)))
             else if fetchFails then Err(Backend)
             else if id !in registry.rows then Ok(None)
             else match Validate(registry.rows[id])
                  case Err(_) => Err(Corrupt)
                  case Ok(rec) => Ok(Some(Loaded(rec, false)))
      ensures trace
           == old(trace) + LoadEffects(old(cache.entries), cache.poisoned, registry.rows, fetchFails, id, mac, lookup)
    {
      hide Validate, Count;
      Note([CacheLookup]);
      var got := cache.Get(id, lookup);
      match got {
        case Err(_) => return Err(Backend);
        case Ok(Some(record)) =>
          if mac == record.secretMac { return Ok(Some(Loaded(record, true))); }
        case Ok(None) =>
      }
      if fetchFails {
        Note([Fetch(false)]);
        return Err(Backend);
      }
      if id in registry.rows && Validate(registry.rows[id]).Err? {
        Note([Fetch(false)]);
        return Err(Corrupt);
      }
      ChargeDecoy();
      if id !in registry.rows { return Ok(None); }
      r := Ok(Some(Loaded(Validate(registry.rows[id]).value, false)));
    }

    /** Verify what a parsed request presented. */
    method Verify(p: Secret.Presented, clock: Clock, w: Weather) returns (outcome: Outcome, ghost dropped: set<Uuid>)
      requires Valid()
      modifies this`dummyMacs, this`trace, cache, registry
      ensures Valid() && cache.poisoned == (old(cache.poisoned) || w.poisonedMeanwhile)
      ensures outcome
           == Decide(old(cache.entries), old(cache.poisoned), old(registry.rows), w, p.id, macOf(p.secret), clock)
      ensures trace
           == old(trace)
              + Effects(old(cache.entries), old(cache.poisoned), old(registry.rows), w, p.id, macOf(p.secret), clock)
      ensures Leaves(old(cache.entries), old(cache.poisoned), old(registry.rows), w, p.id, macOf(p.secret), clock,
                     cache.capacity, cache.ttl, dropped, cache.entries, registry.rows)
    {
      hide Cache.Evicts, Cache.Stored, Cache.Looked, Validate, AfterTouch, Count;
      dropped := {};
      var mac := macOf(p.secret);
      Note([PresentedMac]);
      var r := Load(p.id, mac, clock.lookup, w.fetchFails);
      if w.poisonedMeanwhile { cache.Poison(); }
      match r {
        case Err(reason) => return Rejected(reason), {};
        case Ok(None) => return Rejected(UnknownCredential), {};
        case Ok(Some(loaded)) =>
          outcome := Judge(loaded.record, mac, clock.at);
          if outcome.Authenticated? && !loaded.fromCache {
            var inserted;
            inserted, dropped := Admit(p.id, loaded.record, clock, w);
            if !inserted { outcome := Rejected(Backend); }
          }
      }
    }

    /** Only after full success: cache the record, stamp the row.  Without the cache, neither. */
    method Admit(id: Uuid, rec: Record, clock: Clock, w: Weather) returns (inserted: bool, ghost dropped: set<Uuid>)
      requires Valid()
      modifies this`trace, cache`entries, cache`history, registry
      ensures Valid() && inserted == !cache.poisoned
      ensures !inserted ==>
        trace == old(trace) && cache.entries == old(cache.entries) && registry.rows == old(registry.rows)
      ensures inserted ==>
        && trace == old(trace) + [CacheInsert, RowWrite]
        && Cache.Evicts(old(cache.entries), cache.capacity, id, clock.insert, dropped)
        && cache.entries
           == Cache.Stored(old(cache.entries), cache.ttl, id, rec, rec.CacheBound(), clock.insert, dropped)
        && registry.rows == if w.touchFails then old(registry.rows) else AfterTouch(old(registry.rows), id, clock.at)
    {
      var stored;
      stored, dropped := cache.Insert(id, rec, rec.CacheBound(), clock.insert);
      inserted := stored.Ok?;
      if !inserted { return; }
      Note([CacheInsert, RowWrite]);
      if !w.touchFails {
        registry.TouchLastUsed(id, clock.at);
      }
    }

    method Authenticate(presented: Secret.Bytes, clock: Clock, w: Weather)
      returns (outcome: Outcome, audit: Audit, ghost dropped: set<Uuid>)
      requires Valid()
      modifies this`dummyMacs, this`trace, cache, registry
      ensures Valid()
      ensures match Secret.ParsePresented(presented)
        case Err(_) =>
          && outcome == Rejected(Malformed) && audit == AuditOf(clock.at, outcome, None)
          && trace == old(trace) && registry.rows == old(registry.rows)
          && cache.entries == old(cache.entries) && cache.poisoned == old(cache.poisoned)
        case Ok(p) =>
          && outcome
             == Decide(old(cache.entries), old(cache.poisoned), old(registry.rows), w, p.id, macOf(p.secret), clock)
          && cache.poisoned == (old(cache.poisoned) || w.poisonedMeanwhile)
          && audit == AuditOf(clock.at, outcome, Some(p.id))
          && trace == old(trace)
            + Effects(old(cache.entries), old(cache.poisoned), old(registry.rows), w, p.id, macOf(p.secret), clock)
          && Leaves(old(cache.entries), old(cache.poisoned), old(registry.rows), w, p.id, macOf(p.secret), clock,
                    cache.capacity, cache.ttl, dropped, cache.entries, registry.rows)
    {
      dropped := {};
      match Secret.ParsePresented(presented) {
        case Err(_) =>
          outcome := Rejected(Malformed);
          audit := AuditOf(clock.at, outcome, None);
        case Ok(p) =>
          outcome, dropped := Verify(p, clock, w);
          audit := AuditOf(clock.at, outcome, Some(p.id));
      }
    }

    /** Mint a credential from a fresh id and secret, and store its MAC. */
    method Issue(spec: IssueSpec, id: Uuid, secret: seq<Byte>, now: int) returns (presented: Option<Secret.Bytes>)
      requires Valid() && |secret| == Secret.SECRET_BYTES
      modifies registry
      ensures Valid()
      ensures var new_ := NewOf(spec, id, macOf(secret));
        && presented == (if Insertable(old(registry.rows), new_, now)
                         then Some(Secret.Format(Secret.Presented(id, secret)))
                         else None)
        && registry.rows == AfterInsert(old(registry.rows), new_, now)
    {
      var inserted := registry.Insert(NewOf(spec, id, macOf(secret)), now);
      presented := if inserted then Some(Secret.Format(Secret.Presented(id, secret))) else None;
    }

    /** Revoke in the registry, then drop the local entry. */
    method RevokeCredential(id: Uuid, at: int) returns (changed: bool)
      requires Valid()
      modifies registry, cache`entries, cache`history
      ensures Valid()
      ensures registry.rows == AfterRevoke(old(registry.rows), id, at)
      ensures changed <==> id in old(registry.rows) && old(registry.rows)[id].status != "revoked"
      ensures registry.rows
           == if changed
              then old(registry.rows)[id := old(registry.rows)[id].(status := "revoked", revokedAt := Some(at))]
              else old(registry.rows)
      ensures cache.entries == if cache.poisoned then old(cache.entries) else old(cache.entries) - {id}
    {
      changed := registry.Revoke(id, at);
      var _ := cache.Invalidate(id);
    }
  }

  datatype IssueSpec = IssueSpec(tenantId: TenantId, principalId: string, mode: Mode, scopes: Scope.ScopeSet,
                                 tenantWide: bool, expiresAt: Option<int>)

  function NewOf(spec: IssueSpec, id: Uuid, mac: Mac): NewCredential {
    NewCredential(id, spec.tenantId, spec.principalId, mac, spec.mode, spec.scopes, spec.tenantWide, spec.expiresAt)
  }

  lemma CountAppend(trace: seq<Effect>, more: seq<Effect>)
    ensures forall e :: Count(trace + more, e) == Count(trace, e) + Count(more, e)
  {
    assert multiset(trace + more) == multiset(trace) + multiset(more);
  }

  // ---- What the decisions mean ---------------------------------------------------------

  /** A row that can be used at `at`. */
  predicate CanUse(row: Row, at: int) {
    row.status == "active" && row.revokedAt.None? && (row.expiresAt.Some? ==> at < row.expiresAt.value)
  }

  /** What the row says is what the caller gets: the one verdict its columns call for, and the row's
      own tenant, principal, scopes and mode. */
  lemma CachelessIff(rows: Rows, id: Uuid, mac: Mac, at: int)
    ensures var verdict := Cacheless(rows, id, mac, at);
      && (verdict == Rejected(UnknownCredential) <==> id !in rows)
      && (verdict == Rejected(Corrupt) <==> id in rows && !Readable(rows[id]))
      && (id in rows && Readable(rows[id]) ==>
            var row := rows[id];
            && (verdict == Rejected(BadSecret) <==> mac != row.secretMac)
            && (verdict == Rejected(RevokedCredential) <==> mac == row.secretMac && row.status == "revoked")
            && (verdict == Rejected(Inactive) <==> mac == row.secretMac && row.status == "disabled")
            && (verdict == Rejected(Expired) <==>
                  mac == row.secretMac && row.status == "active" && !CanUse(row, at))
            && (verdict.Authenticated? <==> mac == row.secretMac && CanUse(row, at))
            && (verdict.Authenticated? ==> var c := verdict.context;
                  && (c.credentialId, c.tenantId, c.principalId) == (row.id, row.tenantId, row.principalId)
                  && (c.mode == V2Required <==> row.mode == "v2_required")
                  && forall s: Scope.Scope :: s in c.scopes <==> s.AsStr() in row.scopes))
  {
    if id in rows {
      ValidateIff(rows[id]);
      hide Validate;
      var row := rows[id];
      assert row.status == "active" ==> row.status != "revoked" && row.status != "disabled" by { StatusNamesDiffer(); }
      assert row.status == "revoked" ==> row.status != "disabled" by { StatusNamesDiffer(); }
    }
  }

  /** The audit record names the credential, and only after acceptance whose it is. */
  lemma AuditNames(at: int, outcome: Outcome, id: Option<Uuid>)
    ensures var audit := AuditOf(at, outcome, id);
      && audit.at == at && audit.outcome == outcome
      && (outcome.Authenticated? ==> var c := outcome.context;
            (audit.credentialId, audit.tenantId, audit.principalId)
            == (Some(c.credentialId), Some(c.tenantId), Some(c.principalId)))
      && (outcome.Rejected? ==> (audit.credentialId, audit.tenantId, audit.principalId) == (id, None, None))
  {
  }

  /** The cost of every request: the only one that skips the database is served from the cache, the
      only ones that write are accepted, and a completed fetch always pays its decoy. */
  lemma EveryRequestCosts(es: Entries, poisoned: bool, rows: Rows, w: Weather, id: Uuid, mac: Mac, clock: Clock)
    ensures var served := id in es && Cache.Live(es[id], clock.lookup) && mac == es[id].value.secretMac;
      var unreadable := id in rows && !Readable(rows[id]);
      var accepted := id in rows && Readable(rows[id]) && mac == rows[id].secretMac && CanUse(rows[id], clock.at);
      Effects(es, poisoned, rows, w, id, mac, clock) ==
        if poisoned || served then [PresentedMac, CacheLookup]
        else if w.fetchFails || unreadable then [PresentedMac, CacheLookup, Fetch(false)]
        else if accepted && !w.poisonedMeanwhile
        then [PresentedMac, CacheLookup, Fetch(true), Decoy, CacheInsert, RowWrite]
        else [PresentedMac, CacheLookup, Fetch(true), Decoy]
  {
    CachelessIff(rows, id, mac, clock.at);
    if id in rows { ValidateIff(rows[id]); }
    hide Validate, Cacheless;
  }

  /** What an acceptance by the registry leaves: the record under both deadlines and its credential's
      own expiry, and the row stamped, if that write succeeds, and otherwise as it was. */
  lemma AcceptanceWrites(es: Entries, rows: Rows, w: Weather, id: Uuid, mac: Mac, clock: Clock, capacity: nat,
                         ttl: nat, dropped: set<Uuid>, es': Entries, rows': Rows)
    requires AcceptedFresh(es, false, rows, w, id, mac, clock)
    requires Leaves(es, false, rows, w, id, mac, clock, capacity, ttl, dropped, es', rows')
    ensures id in es' && Validate(rows[id]) == Ok(es'[id].value)
    ensures forall now: Cache.Reading :: Cache.Live(es'[id], now) <==>
      && now.tick < clock.insert.tick + ttl && now.wall < clock.insert.wall + ttl
      && (rows[id].expiresAt.Some? ==> now.wall < rows[id].expiresAt.value)
    ensures rows'.Keys == rows.Keys && forall k :: k in rows ==>
      rows'[k] == if k == id && !w.touchFails then rows[k].(lastUsedAt := Some(clock.at)) else rows[k]
  {
    ValidateIff(rows[id]);
    hide Validate;
  }

  /** The MAC is not the one a live cache entry for the id, or its row, holds. */
  predicate Foreign(es: Entries, rows: Rows, id: Uuid, mac: Mac, lookup: Cache.Reading) {
    && (id in es && Cache.Live(es[id], lookup) ==> mac != es[id].value.secretMac)
    && (id in rows ==> mac != rows[id].secretMac)
  }

  /** What every outcome open to someone without the secret is meant to cost. */
  const MISS: seq<Effect> := [PresentedMac, CacheLookup, Fetch(true), Decoy]

  /** Without the secret, an unknown id, a cold entry and a warm one cost the same, except that a
      row this build cannot read is charged no decoy.  Nothing is inserted or written, and live
      entries stay as they are. */
  lemma MissesLookAlikeIff(es: Entries, rows: Rows, w: Weather, id: Uuid, mac: Mac, clock: Clock)
    requires Foreign(es, rows, id, mac, clock.lookup) && !w.fetchFails
    ensures Effects(es, false, rows, w, id, mac, clock) == MISS <==> !(id in rows && Validate(rows[id]).Err?)
    ensures id in rows && Validate(rows[id]).Err? ==>
      && Effects(es, false, rows, w, id, mac, clock) == [PresentedMac, CacheLookup, Fetch(false)]
      && Decide(es, false, rows, w, id, mac, clock) == Rejected(Corrupt)
    ensures !(id in rows && Validate(rows[id]).Err?) ==>
      Decide(es, false, rows, w, id, mac, clock) == Rejected(if id in rows then BadSecret else UnknownCredential)
    ensures !AcceptedFresh(es, false, rows, w, id, mac, clock)
    ensures forall k :: k in es && Cache.Live(es[k], clock.lookup) ==>
      k in Cache.Looked(es, id, clock.lookup).0 && Cache.Looked(es, id, clock.lookup).0[k] == es[k]
  {
    if id in rows && Validate(rows[id]).Err? {
      assert |Effects(es, false, rows, w, id, mac, clock)| == 3;
    }
  }

  /** Under the table's constraints, the ids that stand out are those of rows that repeat a scope. */
  lemma OnlyRepeatedScopesStandOut(es: Entries, rows: Rows, w: Weather, id: Uuid, mac: Mac, clock: Clock)
    requires Sound(rows) && Foreign(es, rows, id, mac, clock.lookup) && !w.fetchFails
    ensures Effects(es, false, rows, w, id, mac, clock) == MISS <==> (id in rows ==> Distinct(rows[id].scopes))
  {
    MissesLookAlikeIff(es, rows, w, id, mac, clock);
    if id in rows {
      CorruptIffRepeatedScope(rows[id]);
    }
  }

  /** Such a row exists, and a stranger's request for it leaves a trace of its own. */
  lemma CorruptRowStandsOut(id: Uuid, other: Uuid, mac: Mac, clock: Clock)
    requires id != other && mac != REPEATED_SCOPE_MAC
    ensures var rows := map[id := RepeatedScopeRow(id)];
      && Sound(rows)
      && Effects(map[], false, rows, Weather(false, false, false), other, mac, clock) == MISS
      && Effects(map[], false, rows, Weather(false, false, false), id, mac, clock) != MISS
  {
    RepeatedScopeIsCounted(id);
    var rows := map[id := RepeatedScopeRow(id)];
    MissesLookAlikeIff(map[], rows, Weather(false, false, false), id, mac, clock);
    MissesLookAlikeIff(map[], rows, Weather(false, false, false), other, mac, clock);
  }

  /** A poisoned cache can make a request fail, never succeed; nor can a failing fetch.  A request
      accepted by the registry fails if the cache is poisoned before it is inserted. */
  lemma FailuresFailClosed(es: Entries, poisoned: bool, rows: Rows, w: Weather, id: Uuid, mac: Mac, clock: Clock)
    ensures poisoned || (FromCache(es, id, mac, clock.lookup).None? && w.fetchFails) ==>
      Decide(es, poisoned, rows, w, id, mac, clock) == Rejected(Backend)
    ensures Decide(es, poisoned, rows, w, id, mac, clock).Authenticated? ==>
      && !poisoned
      && (w.poisonedMeanwhile ==> FromCache(es, id, mac, clock.lookup).Some?)
      && (exists rec: Record ::
            && Judge(rec, mac, clock.at) == Decide(es, poisoned, rows, w, id, mac, clock)
            && (Reads(rows, id, rec) || (id in es && es[id].value == rec && Cache.Live(es[id], clock.lookup))))
  {
    if Decide(es, poisoned, rows, w, id, mac, clock).Authenticated? {
      var rec := if FromCache(es, id, mac, clock.lookup).Some? then FromCache(es, id, mac, clock.lookup).value
        else Validate(rows[id]).value;
      assert Judge(rec, mac, clock.at) == Decide(es, poisoned, rows, w, id, mac, clock);
    }
  }

  /** Rows that differ only in `last_used_at` authenticate alike. */
  lemma TouchIsInert(rows: Rows, id: Uuid, mac: Mac, at: int, touched: Uuid, when: int)
    ensures Cacheless(AfterTouch(rows, touched, when), id, mac, at) == Cacheless(rows, id, mac, at)
  {
  }

  /** The cache holds nothing for the id but what its row says, but for the time of last use. */
  ghost predicate Mirrors(es: Entries, rows: Rows, id: Uuid) {
    id in es ==>
      && id in rows && Validate(rows[id]).Ok?
      && es[id].value == Validate(rows[id]).value.(lastUsedAt := es[id].value.lastUsedAt)
  }

  /** Behind such a cache every decision on the id is the cacheless one, unless the cache is poisoned
      before an accepted record gets into it. */
  lemma MirrorDecides(es: Entries, rows: Rows, w: Weather, id: Uuid, mac: Mac, clock: Clock)
    requires Mirrors(es, rows, id) && !w.fetchFails
    ensures var verdict := Cacheless(rows, id, mac, clock.at);
      Decide(es, false, rows, w, id, mac, clock) ==
        if w.poisonedMeanwhile && FromCache(es, id, mac, clock.lookup).None? && verdict.Authenticated?
        then Rejected(Backend) else verdict
  {
  }

  /** Whatever a request leaves of a cache and a registry, and whether or not the row is stamped: if
      the registry accepted it the cache is such a one, and if not it is if it was. */
  lemma AcceptanceMirrors(es: Entries, rows: Rows, w: Weather, id: Uuid, mac: Mac, clock: Clock, capacity: nat,
                          ttl: nat, dropped: set<Uuid>, es': Entries, rows': Rows)
    requires Leaves(es, false, rows, w, id, mac, clock, capacity, ttl, dropped, es', rows')
    requires AcceptedFresh(es, false, rows, w, id, mac, clock) || Mirrors(es, rows, id)
    ensures Mirrors(es', rows', id)
  {
  }

  /** An issued credential authenticates, as printed, with exactly what was issued, from the moment
      of issue until it expires, whatever else is written about last use, and whether or not the
      cache answers; unless the cache is poisoned before the record gets into it. */
  lemma IssueThenAuthenticate(macOf: seq<Byte> -> Mac, rows: Rows, spec: IssueSpec, id: Uuid, secret: seq<Byte>,
                              now: int, used: int, es: Entries, w: Weather, clock: Clock)
    requires |secret| == Secret.SECRET_BYTES && Insertable(rows, NewOf(spec, id, macOf(secret)), now)
    requires var rows' := AfterTouch(rows[id := Completed(NewOf(spec, id, macOf(secret)), now)], id, used);
      Mirrors(es, rows', id) && !w.fetchFails
    ensures var p := Secret.Presented(id, secret);
      && Secret.ParsePresented(Secret.Format(p)) == Ok(p)
      && var rows' := AfterTouch(rows[id := Completed(NewOf(spec, id, macOf(secret)), now)], id, used);
      && Decide(es, false, rows', w, id, macOf(secret), clock) ==
           if spec.expiresAt.Some? && spec.expiresAt.value <= clock.at then Rejected(Expired)
           else if w.poisonedMeanwhile && FromCache(es, id, macOf(secret), clock.lookup).None? then Rejected(Backend)
           else Authenticated(Context(id, spec.tenantId, spec.principalId, spec.scopes, spec.mode))
  {
    hide Completed, Validate, Secret.ParsePresented, Secret.Format, Decide, Mirrors;
    var new_ := NewOf(spec, id, macOf(secret));
    var rows1 := rows[id := Completed(new_, now)];
    Secret.FormatRoundTrip(Secret.Presented(id, secret));
    CompletedIsSound(new_, now);
    MirrorDecides(es, AfterTouch(rows1, id, used), w, id, macOf(secret), clock);
    TouchIsInert(rows1, id, macOf(secret), clock.at, id, used);
  }

  /** Once revoked, the registry alone accepts the credential at no time and with no secret. */
  lemma RevokedIsRefused(rows: Rows, id: Uuid, mac: Mac, when: int, at: int)
    requires Sound(rows)
    ensures !Cacheless(AfterRevoke(rows, id, when), id, mac, at).Authenticated?
  {
    var after := AfterRevoke(rows, id, when);
    if id in after && Validate(after[id]).Ok? {
      assert after[id].status == Revoked.AsStr() && after[id].revokedAt.Some?;
      assert Validate(after[id]).value.revokedAt.Some?;
    }
  }
}
