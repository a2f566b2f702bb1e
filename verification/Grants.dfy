/** Which agents a credential may act for (src/credentials/grants.rs), over the keys, foreign keys
    and triggers that src/credentials/store.rs:619-660 and 881-900 pin.  One statement at a time;
    GrantLocking has them overlap. */
module Grants {
  import opened Common
  import opened Store

  type CredentialId = nat
  type AgentId = nat

  datatype Credential = Credential(tenant: TenantId, tenantWide: bool, status: Status, revokedAt: Option<int>,
                                   lastUsedAt: Option<int>)

  datatype Key = Key(credential: CredentialId, agent: AgentId)

  /** An agent whose tenant is None is not mapped to any tenant yet. */
  datatype Tables = Tables(credentials: map<CredentialId, Credential>, agents: map<AgentId, Option<TenantId>>,
                           grants: map<Key, TenantId>)

  datatype Triggers = Triggers(onGrants: bool, onCredentials: bool)

  const ARMED := Triggers(true, true)

  datatype Statement =
    | InsertCredential(id: CredentialId, row: Credential)
    | UpdateCredential(id: CredentialId, row: Credential)
    | DeleteCredential(id: CredentialId)
    | InsertAgent(agent: AgentId, mapped: Option<TenantId>)
    | MoveAgent(agent: AgentId, mapped: Option<TenantId>)
    | DeleteAgent(agent: AgentId)
    | GrantAgent(id: CredentialId, tenant: TenantId, agent: AgentId)
    | RevokeGrant(id: CredentialId, agent: AgentId)

  datatype Refusal = DuplicateKey | RevokedCheck | MutuallyExclusive | CredentialKeyInUse | AgentKeyInUse
      | NoSuchCredential | NoSuchAgent

  // ---- The database --------------------------------------------------------------------

  predicate HoldsGrants(db: Tables, c: CredentialId) {
    exists k :: k in db.grants && k.credential == c
  }

  predicate Named(db: Tables, a: AgentId) {
    exists k :: k in db.grants && k.agent == a
  }

  /** credentials_revoked_ck */
  predicate RevokedCoherently(row: Credential) {
    row.status.Revoked? <==> row.revokedAt.Some?
  }

  function Insert(db: Tables, triggers: Triggers, c: CredentialId, row: Credential): Result<Tables, Refusal> {
    if triggers.onCredentials && row.tenantWide && HoldsGrants(db, c) then Err(MutuallyExclusive)
    else if !RevokedCoherently(row) then Err(RevokedCheck)
    else if c in db.credentials then Err(DuplicateKey)
    else Ok(db.(credentials := db.credentials[c := row]))
  }

  /** The trigger refuses only a transition into `tenant_wide`; the foreign key, only a change of
      the tenant that grants refer to. */
  function Update(db: Tables, triggers: Triggers, c: CredentialId, row: Credential): Result<Tables, Refusal> {
    if c !in db.credentials then Ok(db)
    else if triggers.onCredentials && row.tenantWide && !db.credentials[c].tenantWide && HoldsGrants(db, c) then
      Err(MutuallyExclusive)
    else if !RevokedCoherently(row) then Err(RevokedCheck)
    else if row.tenant != db.credentials[c].tenant && HoldsGrants(db, c) then Err(CredentialKeyInUse)
    else Ok(db.(credentials := db.credentials[c := row]))
  }

  function Granted(db: Tables, triggers: Triggers, c: CredentialId, tenant: TenantId, a: AgentId)
    : Result<Tables, Refusal>
  {
    if triggers.onGrants && c in db.credentials && db.credentials[c].tenantWide then Err(MutuallyExclusive)
    else if Key(c, a) in db.grants then Err(DuplicateKey)
    else if c !in db.credentials || db.credentials[c].tenant != tenant then Err(NoSuchCredential)
    else if a !in db.agents || db.agents[a] != Some(tenant) then Err(NoSuchAgent)
    else Ok(db.(grants := db.grants[Key(c, a) := tenant]))
  }

  function Without(db: Tables, c: CredentialId, a: AgentId): Tables {
    db.(grants := db.grants - {Key(c, a)})
  }

  /** A refused statement changes nothing; one that matches no row succeeds and changes nothing. */
  function Execute(db: Tables, triggers: Triggers, st: Statement): Result<Tables, Refusal> {
    match st
    case InsertCredential(c, row) => Insert(db, triggers, c, row)
    case UpdateCredential(c, row) => Update(db, triggers, c, row)
    case DeleteCredential(c) =>
      Ok(Tables(db.credentials - {c}, db.agents, map k | k in db.grants && k.credential != c :: db.grants[k]))
    case InsertAgent(a, mapped) =>
      if a in db.agents then Err(DuplicateKey) else Ok(db.(agents := db.agents[a := mapped]))
    case MoveAgent(a, mapped) =>
      if a !in db.agents then Ok(db)
      else if mapped != db.agents[a] && Named(db, a) then Err(AgentKeyInUse)
      else Ok(db.(agents := db.agents[a := mapped]))
    case DeleteAgent(a) =>
      Ok(Tables(db.credentials, db.agents - {a}, map k | k in db.grants && k.agent != a :: db.grants[k]))
    case GrantAgent(c, tenant, a) => Granted(db, triggers, c, tenant, a)
    case RevokeGrant(c, a) => Ok(Without(db, c, a))
  }

  function After(db: Tables, triggers: Triggers, st: Statement): Tables {
    match Execute(db, triggers, st)
    case Ok(db') => db'
    case Err(_) => db
  }

  /** A run: each statement with the triggers that were enabled when it ran. */
  ghost predicate Run(states: seq<Tables>, triggers: seq<Triggers>, statements: seq<Statement>) {
    && |states| == |statements| + 1 && |triggers| == |statements|
    && states[0] == Tables(map[], map[], map[])
    && forall i :: 0 <= i < |statements| ==> states[i + 1] == After(states[i], triggers[i], statements[i])
  }

  // ---- What every statement keeps ------------------------------------------------------

  /** Each grant is in its credential's tenant and in its agent's. */
  ghost predicate Contained(db: Tables) {
    forall k :: k in db.grants ==>
      && k.credential in db.credentials && db.credentials[k.credential].tenant == db.grants[k]
      && k.agent in db.agents && db.agents[k.agent] == Some(db.grants[k])
  }

  predicate Contradictory(db: Tables, c: CredentialId) {
    c in db.credentials && db.credentials[c].tenantWide && HoldsGrants(db, c)
  }

  lemma StepContains(db: Tables, triggers: Triggers, st: Statement)
    requires Contained(db)
    ensures Contained(After(db, triggers, st))
  {
    var db' := After(db, triggers, st);
    forall k | k in db'.grants
      ensures && k.credential in db'.credentials && db'.credentials[k.credential].tenant == db'.grants[k]
              && k.agent in db'.agents && db'.agents[k.agent] == Some(db'.grants[k])
    {
      if k in db.grants {
        assert db'.grants[k] == db.grants[k];
      } else {
        assert st.GrantAgent? && k == Key(st.id, st.agent);
      }
    }
  }

  /** Containment needs no trigger: it holds through any drift. */
  lemma {:induction false} TenantsAreContained(states: seq<Tables>, triggers: seq<Triggers>,
                                               statements: seq<Statement>, i: nat)
    requires Run(states, triggers, statements) && i < |states|
    ensures Contained(states[i])
  {
    if i > 0 {
      TenantsAreContained(states, triggers, statements, i - 1);
      StepContains(states[i - 1], triggers[i - 1], statements[i - 1]);
    }
  }

  /** With both triggers enabled no statement makes a credential contradictory that was not. */
  lemma ArmedAddsNoContradiction(db: Tables, st: Statement, c: CredentialId)
    requires Contained(db) && Contradictory(After(db, ARMED, st), c)
    ensures Contradictory(db, c)
  {
    var db' := After(db, ARMED, st);
    var k :| k in db'.grants && k.credential == c;
    if k !in db.grants {
      assert false;
    }
  }

  /** So contradictions exist only where a trigger was off. */
  lemma {:induction false} ArmedRunsAreExclusive(states: seq<Tables>, triggers: seq<Triggers>,
                                                 statements: seq<Statement>, i: nat, c: CredentialId)
    requires Run(states, triggers, statements) && i < |states|
    requires forall j :: 0 <= j < i ==> triggers[j] == ARMED
    ensures !Contradictory(states[i], c)
  {
    if i > 0 && Contradictory(states[i], c) {
      TenantsAreContained(states, triggers, statements, i - 1);
      ArmedAddsNoContradiction(states[i - 1], statements[i - 1], c);
      ArmedRunsAreExclusive(states, triggers, statements, i - 1, c);
    }
  }

  // ---- The decision --------------------------------------------------------------------

  datatype Basis = ExplicitGrant | TenantWide

  datatype Reason = NoGrant | AgentOutsideTenant | ContradictoryMode | CredentialNotFound

  datatype Decision = Allowed(basis: Basis) | Denied(reason: Reason)

  /** The query's four columns, or None if no row matched. */
  function Consult(db: Tables, c: CredentialId, tenant: TenantId, a: AgentId): Option<(bool, bool, bool, bool)> {
    if c !in db.credentials || db.credentials[c].tenant != tenant then None
    else Some((db.credentials[c].tenantWide, HoldsGrants(db, c),
               Key(c, a) in db.grants && db.grants[Key(c, a)] == tenant,
               a in db.agents && db.agents[a] == Some(tenant)))
  }

  function Authorize(db: Tables, c: CredentialId, tenant: TenantId, a: AgentId): Decision {
    match Consult(db, c, tenant, a)
    case None => Denied(CredentialNotFound)
    case Some((tenantWide, hasAnyGrant, grantsAgent, agentInTenant)) =>
      if tenantWide && hasAnyGrant then Denied(ContradictoryMode)
      else if !agentInTenant then Denied(AgentOutsideTenant)
      else if tenantWide then Allowed(TenantWide)
      else if grantsAgent then Allowed(ExplicitGrant)
      else Denied(NoGrant)
  }

  predicate InTenant(db: Tables, c: CredentialId, tenant: TenantId) {
    c in db.credentials && db.credentials[c].tenant == tenant
  }

  /** Exactly two modes grant.  A grant row alone decides the restricted one: that its agent and
      its tenant are the caller's follows from containment. */
  lemma AuthorizeIff(db: Tables, c: CredentialId, tenant: TenantId, a: AgentId)
    requires Contained(db)
    ensures Authorize(db, c, tenant, a) == Allowed(ExplicitGrant) <==>
      InTenant(db, c, tenant) && !db.credentials[c].tenantWide && Key(c, a) in db.grants
    ensures Authorize(db, c, tenant, a) == Allowed(TenantWide) <==>
      InTenant(db, c, tenant) && db.credentials[c].tenantWide && !HoldsGrants(db, c) && a in db.agents &&
        db.agents[a] == Some(tenant)
    ensures Authorize(db, c, tenant, a) == Denied(ContradictoryMode) <==>
        InTenant(db, c, tenant) && Contradictory(db, c)
    ensures Authorize(db, c, tenant, a) == Denied(CredentialNotFound) <==> !InTenant(db, c, tenant)
    ensures Authorize(db, c, tenant, a) == Denied(AgentOutsideTenant) <==>
      InTenant(db, c, tenant) && !Contradictory(db, c) && !(a in db.agents && db.agents[a] == Some(tenant))
    ensures Authorize(db, c, tenant, a) == Denied(NoGrant) <==>
      && InTenant(db, c, tenant) && !db.credentials[c].tenantWide && Key(c, a) !in db.grants
      && a in db.agents && db.agents[a] == Some(tenant)
    ensures Authorize(db, c, tenant, a).Allowed? ==> a in db.agents && db.agents[a] == Some(tenant)
  {
    if Key(c, a) in db.grants {
      assert Key(c, a).credential == c;
    }
  }

  /** In every run, whatever was disabled, no decision reaches across tenants or resolves a
      contradiction. */
  lemma DecisionsStayInTenant(states: seq<Tables>, triggers: seq<Triggers>, statements: seq<Statement>, i: nat,
                              c: CredentialId, tenant: TenantId, a: AgentId)
    requires Run(states, triggers, statements) && i < |states| && Authorize(states[i], c, tenant, a).Allowed?
    ensures InTenant(states[i], c, tenant) && a in states[i].agents && states[i].agents[a] == Some(tenant)
    ensures states[i].credentials[c].tenantWide <==> !HoldsGrants(states[i], c)
    ensures HoldsGrants(states[i], c) ==> Key(c, a) in states[i].grants
  {
    TenantsAreContained(states, triggers, statements, i);
    AuthorizeIff(states[i], c, tenant, a);
    if Key(c, a) in states[i].grants {
      assert HoldsGrants(states[i], c);
    }
  }

  // ---- What statements change ----------------------------------------------------------

  /** A grant appears by being granted, and goes by being revoked or with its credential or its agent;
      while it exists it keeps its tenant. */
  lemma GrantsComeAndGo(db: Tables, triggers: Triggers, st: Statement, k: Key)
    ensures var db' := After(db, triggers, st);
      && (k in db'.grants && k !in db.grants ==> st == GrantAgent(k.credential, db'.grants[k], k.agent))
      && (k in db.grants && k !in db'.grants <==>
            k in db.grants && st in {RevokeGrant(k.credential, k.agent), DeleteCredential(k.credential),
                                     DeleteAgent(k.agent)})
      && (k in db.grants && k in db'.grants ==> db'.grants[k] == db.grants[k])
  {
  }

  /** A credential's row is what it was inserted or last updated to; an agent's tenant likewise. */
  lemma RowsComeAndGo(db: Tables, triggers: Triggers, st: Statement)
    ensures var db' := After(db, triggers, st);
      var done := Execute(db, triggers, st).Ok?;
      && (forall c :: c in db'.credentials <==>
            (c in db.credentials && st != DeleteCredential(c)) || (done && st.InsertCredential? && st.id == c))
      && (forall c :: c in db'.credentials ==>
            var written := done && (st.InsertCredential? || st.UpdateCredential?) && st.id == c;
            db'.credentials[c] == if written then st.row else db.credentials[c])
      && (forall a :: a in db'.agents <==>
            (a in db.agents && st != DeleteAgent(a)) || (done && st.InsertAgent? && st.agent == a))
      && (forall a :: a in db'.agents ==>
            var written := done && (st.InsertAgent? || st.MoveAgent?) && st.agent == a;
            db'.agents[a] == if written then st.mapped else db.agents[a])
  {
  }

  /** With both triggers enabled: what refuses each statement. */
  lemma RefusedIff(db: Tables, st: Statement)
    ensures Execute(db, ARMED, st).Err? <==> match st
      case InsertCredential(c, row) =>
        c in db.credentials || !RevokedCoherently(row) || (row.tenantWide && HoldsGrants(db, c))
      case UpdateCredential(c, row) =>
        c in db.credentials &&
        (|| !RevokedCoherently(row)
         || (HoldsGrants(db, c) && (row.tenant != db.credentials[c].tenant
                                    || (row.tenantWide && !db.credentials[c].tenantWide))))
      case InsertAgent(a, _) => a in db.agents
      case MoveAgent(a, mapped) => a in db.agents && mapped != db.agents[a] && Named(db, a)
      case GrantAgent(c, tenant, a) =>
        || c !in db.credentials || db.credentials[c].tenantWide || db.credentials[c].tenant != tenant
        || a !in db.agents || db.agents[a] != Some(tenant) || Key(c, a) in db.grants
      case _ => false
  {
  }

  // ---- What granting and withdrawing change --------------------------------------------

  /** A grant is accepted exactly for a restricted credential and an agent of its tenant not yet
      granted, whatever tenant value the caller proposes. */
  lemma GrantedIff(db: Tables, c: CredentialId, tenant: TenantId, a: AgentId)
    requires Contained(db)
    ensures Granted(db, ARMED, c, tenant, a).Ok? <==> Authorize(db, c, tenant, a) == Denied(NoGrant)
  {
  }

  /** It then changes the decision for that one pair, and no other. */
  lemma GrantAddsOnePair(db: Tables, c: CredentialId, tenant: TenantId, a: AgentId, d: CredentialId, u: TenantId,
                         b: AgentId)
    requires Contained(db) && Granted(db, ARMED, c, tenant, a).Ok?
    ensures var db' := Granted(db, ARMED, c, tenant, a).value;
      Authorize(db', d, u, b)
      == if d == c && b == a && u == tenant then Allowed(ExplicitGrant) else Authorize(db, d, u, b)
  {
    var db' := Granted(db, ARMED, c, tenant, a).value;
    assert forall k :: k in db.grants ==> k in db'.grants;
    assert forall k :: k in db'.grants && k.credential == d && d != c ==> k in db.grants;
    assert HoldsGrants(db, d) ==> HoldsGrants(db', d);
  }

  /** Withdrawing undoes granting, and granting again undoes withdrawing. */
  lemma WithdrawUndoesGrant(db: Tables, c: CredentialId, tenant: TenantId, a: AgentId)
    ensures Granted(db, ARMED, c, tenant, a).Ok? ==> Without(Granted(db, ARMED, c, tenant, a).value, c, a) == db
    ensures Contained(db) && !Contradictory(db, c) && Key(c, a) in db.grants ==>
      Granted(Without(db, c, a), ARMED, c, db.grants[Key(c, a)], a) == Ok(db)
  {
    if Granted(db, ARMED, c, tenant, a).Ok? {
      assert Without(Granted(db, ARMED, c, tenant, a).value, c, a).grants == db.grants;
    }
    if Contained(db) && !Contradictory(db, c) && Key(c, a) in db.grants {
      assert Key(c, a).credential == c;
      assert Without(db, c, a).grants[Key(c, a) := db.grants[Key(c, a)]] == db.grants;
    }
  }

  /** Withdrawing a grant takes authority away, with one exception: the last grant of a
      contradictory credential, whose withdrawal leaves it tenant-wide. */
  lemma WithdrawalWidensIff(db: Tables, c: CredentialId, a: AgentId)
    requires Contained(db)
    ensures (exists d, u, b :: Authorize(Without(db, c, a), d, u, b).Allowed? && !Authorize(db, d, u, b).Allowed?)
       <==> Contradictory(db, c) && forall k :: k in db.grants && k.credential == c ==> k.agent == a
  {
    var db' := Without(db, c, a);
    StepContains(db, ARMED, RevokeGrant(c, a));
    if Contradictory(db, c) && forall k :: k in db.grants && k.credential == c ==> k.agent == a {
      var k :| k in db.grants && k.credential == c;
      var u := db.grants[k];
      AuthorizeIff(db, c, u, a);
      AuthorizeIff(db', c, u, a);
      assert Authorize(db', c, u, a).Allowed? && !Authorize(db, c, u, a).Allowed?;
    }
    forall d, u, b | Authorize(db', d, u, b).Allowed? && !Authorize(db, d, u, b).Allowed?
      ensures Contradictory(db, c) && forall k :: k in db.grants && k.credential == c ==> k.agent == a
    {
      AuthorizeIff(db, d, u, b);
      AuthorizeIff(db', d, u, b);
      assert HoldsGrants(db, d) && !HoldsGrants(db', d);
      var k :| k in db.grants && k.credential == d;
      assert k == Key(c, a);
      assert forall k :: k in db.grants && k.credential == c && k.agent != a ==> k in db'.grants;
    }
  }

  // ---- A drifted database --------------------------------------------------------------

  /** A contradictory credential is denied every agent, yet nothing stands in the way of
      maintaining, disabling or revoking it, whether or not the same update repairs it. */
  lemma ContradictionIsServiceable(db: Tables, c: CredentialId, a: AgentId, row: Credential)
    requires Contained(db) && Contradictory(db, c)
    ensures Authorize(db, c, db.credentials[c].tenant, a) == Denied(ContradictoryMode)
    ensures Update(db, ARMED, c, row).Ok? <==> row.tenant == db.credentials[c].tenant && RevokedCoherently(row)
  {
  }

  /** Clearing `tenant_wide` restores exactly the authority the grants describe, and the flag
      cannot be set again while they exist. */
  lemma ClearingRepairs(db: Tables, c: CredentialId, a: AgentId)
    requires Contained(db) && Contradictory(db, c) && RevokedCoherently(db.credentials[c])
    ensures var row := db.credentials[c];
      var result := Update(db, ARMED, c, row.(tenantWide := false));
      && result.Ok? && Contained(result.value) && !Contradictory(result.value, c)
      && Authorize(result.value, c, row.tenant, a)
         == (if Key(c, a) in db.grants then Allowed(ExplicitGrant)
             else if a in db.agents && db.agents[a] == Some(row.tenant) then Denied(NoGrant)
             else Denied(AgentOutsideTenant))
      && Update(result.value, ARMED, c, row) == Err(MutuallyExclusive)
  {
    var row := db.credentials[c];
    var fixed := row.(tenantWide := false);
    StepContains(db, ARMED, UpdateCredential(c, fixed));
    var db' := Update(db, ARMED, c, fixed).value;
    assert db'.grants == db.grants;
    var k :| k in db.grants && k.credential == c;
    assert HoldsGrants(db', c);
  }

  // ---- The operations ------------------------------------------------------------------

  class Database {
    var tables: Tables
    var triggers: Triggers

    constructor ()
      ensures tables == Tables(map[], map[], map[]) && triggers == ARMED
    {
      tables, triggers := Tables(map[], map[], map[]), ARMED;
    }

    /** Not idempotent: a duplicate is an error. */
    method Grant(c: CredentialId, tenant: TenantId, a: AgentId) returns (refusal: Option<Refusal>)
      requires Contained(tables)
      modifies this`tables
      ensures tables == After(old(tables), triggers, GrantAgent(c, tenant, a)) && Contained(tables)
      ensures refusal.None? ==> Key(c, a) !in old(tables).grants
      ensures refusal.None? ==> tables == old(tables).(grants := old(tables).grants[Key(c, a) := tenant])
      ensures refusal.Some? ==> tables == old(tables)
      ensures triggers == ARMED ==> (refusal.None? <==> Authorize(old(tables), c, tenant, a) == Denied(NoGrant))
    {
      StepContains(tables, triggers, GrantAgent(c, tenant, a));
      GrantedIff(tables, c, tenant, a);
      match Granted(tables, triggers, c, tenant, a)
      case Ok(db) => tables, refusal := db, None;
      case Err(e) => refusal := Some(e);
    }

    /** Tells whether a row was removed. */
    method Withdraw(c: CredentialId, a: AgentId) returns (removed: bool)
      requires Contained(tables)
      modifies this`tables
      ensures tables == After(old(tables), triggers, RevokeGrant(c, a)) && Contained(tables)
      ensures tables == old(tables).(grants := old(tables).grants - {Key(c, a)})
      ensures removed <==> Key(c, a) in old(tables).grants
      ensures removed <==> |tables.grants| < |old(tables).grants|
      ensures removed <==> tables != old(tables)
    {
      StepContains(tables, triggers, RevokeGrant(c, a));
      ghost var was := tables.grants;
      removed := Key(c, a) in tables.grants;
      tables := tables.(grants := tables.grants - {Key(c, a)});
      if removed {
        assert tables.grants.Keys == was.Keys - {Key(c, a)};
        assert |tables.grants.Keys| == |was.Keys| - 1;
      } else {
        assert tables.grants == was;
      }
    }
  }
}
