/** The mutual exclusion of `tenant_wide` and per-agent grants as a protocol between concurrent
    transactions (the trigger bodies and their volatility, src/credentials/store.rs:881-900 and
    996-1012; the race of src/credentials/grants.rs:1348-1465).

    Transactions run at READ COMMITTED and interleave step by step.  A grant is inserted in two
    steps, its trigger's locking read and its foreign-key check; an update of a credential in
    three, its start, its wait for the row lock, and its trigger. */
module GrantLocking {
  type CredentialId = nat
  type AgentId = nat
  type TxnId = nat

  datatype Grant = Grant(credential: CredentialId, agent: AgentId)

  /** What a transaction is in the middle of.  `seen` is the snapshot its statement started from. */
  datatype Statement = Idle | Updating(credential: CredentialId, seen: set<Grant>) | Granting(grant: Grant)

  /** Row locks held, and writes not yet committed. */
  datatype Txn = Txn(shared: set<CredentialId>, exclusive: set<CredentialId>, wide: map<CredentialId, bool>,
                     added: set<Grant>, removed: set<Grant>, statement: Statement)

  /** The committed tables, and the open transactions. */
  datatype State = State(wide: map<CredentialId, bool>, grants: set<Grant>, txns: map<TxnId, Txn>)

  datatype Action =
    | Begin(t: TxnId)
    | InsertCredential(t: TxnId, credential: CredentialId, tenantWide: bool)
    | StartUpdate(t: TxnId, credential: CredentialId)
    | LockRow(t: TxnId)
    | ApplyUpdate(t: TxnId, tenantWide: bool)
    | TriggerRead(t: TxnId, grant: Grant)
    | ForeignKey(t: TxnId)
    | RemoveGrant(t: TxnId, grant: Grant)
    | Commit(t: TxnId)
    | Abort(t: TxnId)

  // ---- What a transaction sees ---------------------------------------------------------

  predicate RowVisible(s: State, x: Txn, c: CredentialId) {
    c in x.wide || c in s.wide
  }

  /** Its own version of a row, else the committed one. */
  predicate IsWide(s: State, x: Txn, c: CredentialId) {
    if c in x.wide then x.wide[c] else c in s.wide && s.wide[c]
  }

  function GrantsSeen(committed: set<Grant>, x: Txn): set<Grant> {
    (committed - x.removed) + x.added
  }

  predicate HoldsGrants(gs: set<Grant>, c: CredentialId) {
    exists g :: g in gs && g.credential == c
  }

  predicate LockedByOther(s: State, t: TxnId, c: CredentialId) {
    exists u :: u in s.txns && u != t && (c in s.txns[u].exclusive || c in s.txns[u].shared)
  }

  predicate WrittenByOther(s: State, t: TxnId, c: CredentialId) {
    exists u :: u in s.txns && u != t && c in s.txns[u].exclusive
  }

  /** The grants the update's trigger looks at: a fresh snapshot if the function is VOLATILE, the
      one its statement started from if it is STABLE. */
  function Consulted(volatile: bool, s: State, x: Txn): set<Grant>
    requires x.statement.Updating?
  {
    GrantsSeen(if volatile then s.grants else x.statement.seen, x)
  }

  // ---- Steps ---------------------------------------------------------------------------

  predicate Enabled(s: State, a: Action) {
    (a.Begin? <==> a.t !in s.txns) && (a.t in s.txns ==> MayStep(s, s.txns[a.t], a))
  }

  predicate MayStep(s: State, x: Txn, a: Action) {
    match a
    case InsertCredential(t, c, _) => x.statement.Idle? && !RowVisible(s, x, c) && !WrittenByOther(s, t, c)
    case StartUpdate(_, c) => x.statement.Idle? && RowVisible(s, x, c)
    case LockRow(t) => x.statement.Updating? && !LockedByOther(s, t, x.statement.credential)
    case ApplyUpdate(_, _) => x.statement.Updating? && x.statement.credential in x.exclusive
    case TriggerRead(t, g) => x.statement.Idle? &&
      (RowVisible(s, x, g.credential) ==> !WrittenByOther(s, t, g.credential))
    case ForeignKey(_) => x.statement.Granting?
    case RemoveGrant(_, _) => x.statement.Idle?
    case Commit(_) => x.statement.Idle?
    case Abort(_) => true
    case Begin(_) => true
  }

  function Rollback(s: State, t: TxnId): State {
    s.(txns := s.txns - {t})
  }

  function With(s: State, t: TxnId, x: Txn): State {
    s.(txns := s.txns[t := x])
  }

  /** A raised exception aborts the whole transaction. */
  function Next(volatile: bool, s: State, a: Action): State
    requires Enabled(s, a)
  {
    if a.Begin? then With(s, a.t, Txn({}, {}, map[], {}, {}, Idle))
    else
      var x := s.txns[a.t];
      match a
      case InsertCredential(t, c, w) =>
        if w && HoldsGrants(GrantsSeen(s.grants, x), c) then Rollback(s, t)
        else With(s, t, x.(wide := x.wide[c := w], exclusive := x.exclusive + {c}))
      case StartUpdate(t, c) => With(s, t, x.(statement := Updating(c, s.grants)))
      case LockRow(t) => With(s, t, x.(exclusive := x.exclusive + {x.statement.credential}))
      case ApplyUpdate(t, w) =>
        var c := x.statement.credential;
        if w && !IsWide(s, x, c) && HoldsGrants(Consulted(volatile, s, x), c) then Rollback(s, t)
        else With(s, t, x.(wide := x.wide[c := w], statement := Idle))
      case TriggerRead(t, g) =>
        if !RowVisible(s, x, g.credential) then With(s, t, x.(statement := Granting(g)))
        else if IsWide(s, x, g.credential) then Rollback(s, t)
        else With(s, t, x.(shared := x.shared + {g.credential}, statement := Granting(g)))
      case ForeignKey(t) =>
        if !RowVisible(s, x, x.statement.grant.credential) then Rollback(s, t)
        else With(s, t,
                  x.(added := x.added + {x.statement.grant}, removed := x.removed - {x.statement.grant},
                     statement := Idle))
      case RemoveGrant(t, g) => With(s, t, x.(added := x.added - {g}, removed := x.removed + {g}))
      case Commit(t) => State(s.wide + x.wide, GrantsSeen(s.grants, x), s.txns - {t})
      case Abort(t) => Rollback(s, t)
      case Begin(_) => s
  }

  /** The grant trigger's SELECT ... FOR SHARE finds the credential it is to lock. */
  predicate FindsRow(s: State, a: Action) {
    a.TriggerRead? && a.t in s.txns ==> RowVisible(s, s.txns[a.t], a.grant.credential)
  }

  ghost predicate AllFound(states: seq<State>, acts: seq<Action>)
    requires |states| == |acts| + 1
  {
    forall j :: 0 <= j < |acts| ==> FindsRow(states[j], acts[j])
  }

  ghost predicate Run(volatile: bool, states: seq<State>, acts: seq<Action>) {
    && |states| == |acts| + 1 && states[0] == State(map[], {}, map[])
    && forall i :: 0 <= i < |acts| ==>
         Enabled(states[i], acts[i]) && states[i + 1] == Next(volatile, states[i], acts[i])
  }

  /** No committed credential is tenant-wide and holds grants. */
  ghost predicate Exclusive(s: State) {
    forall c :: c in s.wide && s.wide[c] ==> !HoldsGrants(s.grants, c)
  }

  // ---- The invariant -------------------------------------------------------------------

  ghost predicate LocksCompatible(s: State) {
    forall t, u, c :: t in s.txns && u in s.txns && t != u && c in s.txns[t].exclusive ==>
      c !in s.txns[u].exclusive && c !in s.txns[u].shared
  }

  /** A grant a transaction is adding is under its share lock, on a row it sees as restricted. */
  ghost predicate Safe(s: State, x: Txn, g: Grant) {
    g.credential in x.shared && RowVisible(s, x, g.credential) && !IsWide(s, x, g.credential)
  }

  ghost predicate TxnSound(s: State, x: Txn) {
    && (forall c :: c in x.wide ==> c in x.exclusive)
    && (forall c :: c in x.exclusive || c in x.shared ==> RowVisible(s, x, c))
    && (forall g :: g in x.added ==> Safe(s, x, g))
    && (x.statement.Granting? ==> Safe(s, x, x.statement.grant))
    && (x.statement.Updating? ==> RowVisible(s, x, x.statement.credential))
    && (forall c :: c in x.wide && x.wide[c] ==> !HoldsGrants(GrantsSeen(s.grants, x), c))
  }

  ghost predicate Inv(s: State) {
    && Exclusive(s) && LocksCompatible(s)
    && (forall g :: g in s.grants ==> g.credential in s.wide)
    && (forall t :: t in s.txns ==> TxnSound(s, s.txns[t]))
  }

  lemma RollbackKeepsInv(s: State, t: TxnId)
    requires Inv(s)
    ensures Inv(Rollback(s, t))
  {
    var s' := Rollback(s, t);
    forall u | u in s'.txns ensures TxnSound(s', s'.txns[u]) {
      assert TxnSound(s, s.txns[u]);
    }
  }

  /** A transaction's own step: the others see no difference. */
  lemma OwnStepKeepsInv(s: State, t: TxnId, x: Txn)
    requires Inv(s)
    requires TxnSound(With(s, t, x), x)
    requires forall u, c :: u in s.txns && u != t && c in x.exclusive ==>
        c !in s.txns[u].exclusive && c !in s.txns[u].shared
    requires forall u, c :: u in s.txns && u != t && c in x.shared ==> c !in s.txns[u].exclusive
    ensures Inv(With(s, t, x))
  {
    var s' := With(s, t, x);
    forall u | u in s'.txns ensures TxnSound(s', s'.txns[u]) {
      if u != t { assert TxnSound(s, s.txns[u]); }
    }
  }

  /** Committing changes no row another transaction has locked, and adds no grant to one it wrote. */
  lemma CommitKeepsOthers(s: State, t: TxnId, u: TxnId)
    requires Inv(s) && t in s.txns && u in s.txns && t != u
    ensures var x := s.txns[t];
      TxnSound(State(s.wide + x.wide, GrantsSeen(s.grants, x), s.txns - {t}), s.txns[u])
  {
    var x, y := s.txns[t], s.txns[u];
    var s' := State(s.wide + x.wide, GrantsSeen(s.grants, x), s.txns - {t});
    assert TxnSound(s, x) && TxnSound(s, y);
    forall c | c in y.exclusive || c in y.shared ensures c !in x.wide && IsWide(s', y, c) == IsWide(s, y, c) {
    }
    forall c | c in y.wide && y.wide[c] ensures !HoldsGrants(GrantsSeen(s'.grants, y), c) {
      forall g | g in GrantsSeen(s'.grants, y) ensures g.credential != c {
        if g in x.added {
          assert Safe(s, x, g);
        } else {
          assert g in GrantsSeen(s.grants, y);
        }
      }
    }
    forall g | g in y.added ensures Safe(s', y, g) {
      assert Safe(s, y, g);
    }
  }

  lemma CommitKeepsInv(s: State, t: TxnId)
    requires Inv(s) && t in s.txns
    ensures var x := s.txns[t]; Inv(State(s.wide + x.wide, GrantsSeen(s.grants, x), s.txns - {t}))
  {
    var x := s.txns[t];
    var s' := State(s.wide + x.wide, GrantsSeen(s.grants, x), s.txns - {t});
    assert TxnSound(s, x);
    forall g | g in x.added ensures g.credential in s'.wide { assert Safe(s, x, g); }
    forall c | c in s'.wide && s'.wide[c] ensures !HoldsGrants(s'.grants, c) {
      if c !in x.wide {
        forall g | g in s'.grants ensures g.credential != c {
          if g in x.added { assert Safe(s, x, g); }
        }
      }
    }
    forall u | u in s'.txns ensures TxnSound(s', s'.txns[u]) {
      CommitKeepsOthers(s, t, u);
    }
  }

  lemma CredentialStepKeepsInv(s: State, a: Action)
    requires Inv(s) && Enabled(s, a) && (a.InsertCredential? || a.LockRow? || a.ApplyUpdate? || a.StartUpdate?)
    ensures Inv(Next(true, s, a))
  {
    var x := s.txns[a.t];
    var s' := Next(true, s, a);
    assert TxnSound(s, x);
    if a.t in s'.txns {
      var x' := s'.txns[a.t];
      if a.InsertCredential? {
        forall u | u in s.txns && u != a.t
          ensures a.credential !in s.txns[u].shared && a.credential !in s.txns[u].exclusive
        {
          assert TxnSound(s, s.txns[u]);
        }
      }
      forall g | g in x'.added ensures Safe(s', x', g) {
        assert Safe(s, x, g);
      }
      forall c | c in x'.wide && x'.wide[c] ensures !HoldsGrants(GrantsSeen(s'.grants, x'), c) {
        if a.ApplyUpdate? && c == x.statement.credential && IsWide(s, x, c) {
          forall g | g in GrantsSeen(s.grants, x) ensures g.credential != c {
            if g in x.added { assert Safe(s, x, g); }
          }
        }
      }
      OwnStepKeepsInv(s, a.t, x');
    } else {
      RollbackKeepsInv(s, a.t);
    }
  }

  lemma GrantStepKeepsInv(s: State, a: Action)
    requires Inv(s) && Enabled(s, a) && FindsRow(s, a) && (a.TriggerRead? || a.ForeignKey? || a.RemoveGrant?)
    ensures Inv(Next(true, s, a))
  {
    var x := s.txns[a.t];
    var s' := Next(true, s, a);
    assert TxnSound(s, x);
    if a.t in s'.txns {
      var x' := s'.txns[a.t];
      forall g | g in x'.added ensures Safe(s', x', g) {
        if g in x.added { assert Safe(s, x, g); }
      }
      forall c | c in x'.wide && x'.wide[c] ensures !HoldsGrants(GrantsSeen(s'.grants, x'), c) {
        forall g | g in GrantsSeen(s'.grants, x') ensures g.credential != c {
          if g !in x'.added { assert g in GrantsSeen(s.grants, x); }
        }
      }
      OwnStepKeepsInv(s, a.t, x');
    } else {
      RollbackKeepsInv(s, a.t);
    }
  }

  lemma StepKeepsInv(s: State, a: Action)
    requires Inv(s) && Enabled(s, a) && FindsRow(s, a)
    ensures Inv(Next(true, s, a))
  {
    match a {
      case Begin(t) => OwnStepKeepsInv(s, t, Txn({}, {}, map[], {}, {}, Idle));
      case Commit(t) => CommitKeepsInv(s, t);
      case Abort(t) => RollbackKeepsInv(s, t);
      case TriggerRead(_, _) => GrantStepKeepsInv(s, a);
      case ForeignKey(_) => GrantStepKeepsInv(s, a);
      case RemoveGrant(_, _) => GrantStepKeepsInv(s, a);
      case _ => CredentialStepKeepsInv(s, a);
    }
  }

  lemma {:induction false} InvHolds(states: seq<State>, acts: seq<Action>, i: nat)
    requires Run(true, states, acts) && i < |states|
    requires AllFound(states, acts)
    ensures Inv(states[i])
  {
    if i > 0 {
      InvHolds(states, acts, i - 1);
      StepKeepsInv(states[i - 1], acts[i - 1]);
    }
  }

  /** With VOLATILE trigger functions, no interleaving commits a credential that is tenant-wide
      and holds grants, so long as every grant's trigger finds the row it is to lock. */
  lemma GrantsAreExclusive(states: seq<State>, acts: seq<Action>, i: nat)
    requires Run(true, states, acts) && i < |states|
    requires AllFound(states, acts)
    ensures Exclusive(states[i])
  {
    InvHolds(states, acts, i);
  }

  // ---- Both conditions are needed ------------------------------------------------------

  /** No run commits the contradiction, among all runs or (`found`) among those whose grant
      triggers always find their row. */
  ghost predicate NeverContradictory(volatile: bool, found: bool) {
    forall states, acts :: Run(volatile, states, acts) && (found ==> AllFound(states, acts)) ==> AllExclusive(states)
  }

  ghost predicate AllExclusive(states: seq<State>) {
    forall i :: 0 <= i < |states| ==> Exclusive(states[i])
  }

  lemma Extend(volatile: bool, states: seq<State>, acts: seq<Action>, a: Action)
    returns (states': seq<State>, acts': seq<Action>)
    requires Run(volatile, states, acts) && Enabled(states[|acts|], a)
    ensures Run(volatile, states', acts') && |acts'| == |acts| + 1
    ensures AllFound(states, acts) && FindsRow(states[|acts|], a) ==> AllFound(states', acts')
    ensures states'[|acts'|] == Next(volatile, states[|acts|], a)
  {
    states', acts' := states + [Next(volatile, states[|acts|], a)], acts + [a];
    forall j | 0 <= j < |acts'|
      ensures Enabled(states'[j], acts'[j]) && states'[j + 1] == Next(volatile, states'[j], acts'[j])
      ensures AllFound(states, acts) && FindsRow(states[|acts|], a) ==> FindsRow(states'[j], acts'[j])
    {
      if j < |acts| {
        assert states'[j] == states[j] && states'[j + 1] == states[j + 1] && acts'[j] == acts[j];
      }
    }
  }

  function Tables(wide: bool, grants: set<Grant>, txns: map<TxnId, Txn>): State {
    State(map[0 := wide], grants, txns)
  }

  const EMPTY := Txn({}, {}, map[], {}, {}, Idle)
  const RACER := Grant(0, 0)

  /** Credential 0 is committed, restricted and without grants. */
  lemma CredentialCommitted(volatile: bool) returns (states: seq<State>, acts: seq<Action>)
    ensures Run(volatile, states, acts) && AllFound(states, acts)
    ensures states[|acts|] == Tables(false, {}, map[])
  {
    states, acts := [State(map[], {}, map[])], [];
    states, acts := Extend(volatile, states, acts, Begin(0));
    assert states[|acts|] == State(map[], {}, map[0 := EMPTY]);
    states, acts := Extend(volatile, states, acts, InsertCredential(0, 0, false));
    assert EMPTY.exclusive + {0} == {0} && EMPTY.wide[0 := false] == map[0 := false];
    assert states[|acts|] == State(map[], {}, map[0 := Txn({}, {0}, map[0 := false], {}, {}, Idle)]);
    states, acts := Extend(volatile, states, acts, Commit(0));
    assert states[|acts|] == Tables(false, {}, map[]);
  }

  const GRANTING := EMPTY.(shared := {0}, statement := Granting(RACER))
  const WAITING := EMPTY.(statement := Updating(0, {}))

  /** A grant takes its share lock on the row. */
  lemma GrantBegun(volatile: bool) returns (states: seq<State>, acts: seq<Action>)
    ensures Run(volatile, states, acts) && AllFound(states, acts)
    ensures states[|acts|] == Tables(false, {}, map[1 := GRANTING])
  {
    states, acts := CredentialCommitted(volatile);
    hide Run, AllFound;
    states, acts := Extend(volatile, states, acts, Begin(1));
    assert states[|acts|] == Tables(false, {}, map[1 := EMPTY]);
    states, acts := Extend(volatile, states, acts, TriggerRead(1, RACER));
    assert EMPTY.shared + {0} == {0};
    assert states[|acts|] == Tables(false, {}, map[1 := GRANTING]);
  }

  /** An update that would make the credential tenant-wide starts, and waits for the lock. */
  lemma UpdateWaits(volatile: bool) returns (states: seq<State>, acts: seq<Action>)
    ensures Run(volatile, states, acts) && AllFound(states, acts)
    ensures states[|acts|] == Tables(false, {}, map[1 := GRANTING, 2 := WAITING])
    ensures !Enabled(states[|acts|], LockRow(2))
  {
    states, acts := GrantBegun(volatile);
    hide Run, AllFound;
    states, acts := Extend(volatile, states, acts, Begin(2));
    assert states[|acts|] == Tables(false, {}, map[1 := GRANTING, 2 := EMPTY]);
    states, acts := Extend(volatile, states, acts, StartUpdate(2, 0));
    assert states[|acts|] == Tables(false, {}, map[1 := GRANTING, 2 := WAITING]);
    assert 0 in states[|acts|].txns[1].shared;
  }

  /** The grant commits. */
  lemma GrantCommitted(volatile: bool) returns (states: seq<State>, acts: seq<Action>)
    ensures Run(volatile, states, acts) && AllFound(states, acts)
    ensures states[|acts|] == Tables(false, {RACER}, map[2 := WAITING])
  {
    states, acts := UpdateWaits(volatile);
    hide Run, AllFound;
    states, acts := Extend(volatile, states, acts, ForeignKey(1));
    assert EMPTY.added + {RACER} == {RACER} && EMPTY.removed - {RACER} == {};
    assert states[|acts|] == Tables(false, {}, map[1 := EMPTY.(shared := {0}, added := {RACER}), 2 := WAITING]);
    states, acts := Extend(volatile, states, acts, Commit(1));
    assert states[|acts|] == Tables(false, {RACER}, map[2 := WAITING]);
  }

  /** With a STABLE function the waiting update then misses the committed grant; with a VOLATILE
      one it is refused. */
  lemma RaceDecided(volatile: bool) returns (states: seq<State>, acts: seq<Action>)
    ensures Run(volatile, states, acts) && AllFound(states, acts)
    ensures volatile ==> states[|acts|] == Tables(false, {RACER}, map[])
    ensures !volatile ==> states[|acts|] == Tables(true, {RACER}, map[])
  {
    states, acts := GrantCommitted(volatile);
    hide Run, AllFound;
    states, acts := Extend(volatile, states, acts, LockRow(2));
    assert EMPTY.exclusive + {0} == {0};
    assert states[|acts|] == Tables(false, {RACER}, map[2 := WAITING.(exclusive := {0})]);
    states, acts := Extend(volatile, states, acts, ApplyUpdate(2, true));
    if volatile {
      assert RACER in GrantsSeen({RACER}, WAITING.(exclusive := {0}));
      assert states[|acts|] == Tables(false, {RACER}, map[]);
    } else {
      assert states[|acts|] == Tables(false, {RACER}, map[2 := EMPTY.(exclusive := {0}, wide := map[0 := true])]);
      states, acts := Extend(volatile, states, acts, Commit(2));
    }
  }

  /** A grant whose trigger runs before its credential is committed finds nothing to lock, and
      passes; the foreign key, checked later, finds the credential, tenant-wide. */
  lemma GrantOvertakesCredential(volatile: bool) returns (states: seq<State>, acts: seq<Action>)
    ensures Run(volatile, states, acts)
    ensures states[|acts|] == Tables(true, {RACER}, map[])
  {
    states, acts := [State(map[], {}, map[])], [];
    states, acts := Extend(volatile, states, acts, Begin(1));
    assert states[|acts|] == State(map[], {}, map[1 := EMPTY]);
    states, acts := Extend(volatile, states, acts, TriggerRead(1, RACER));
    var granting := EMPTY.(statement := Granting(RACER));
    assert states[|acts|] == State(map[], {}, map[1 := granting]);
    states, acts := WideCredential(volatile, states, acts, granting);
    hide Run, AllFound;
    states, acts := Extend(volatile, states, acts, ForeignKey(1));
    assert EMPTY.added + {RACER} == {RACER} && EMPTY.removed - {RACER} == {};
    assert states[|acts|] == Tables(true, {}, map[1 := EMPTY.(added := {RACER})]);
    states, acts := Extend(volatile, states, acts, Commit(1));
    assert states[|acts|] == Tables(true, {RACER}, map[]);
  }

  /** Another transaction inserts credential 0 as tenant-wide and commits. */
  lemma WideCredential(volatile: bool, states: seq<State>, acts: seq<Action>, granting: Txn)
    returns (states': seq<State>, acts': seq<Action>)
    requires Run(volatile, states, acts) && states[|acts|] == State(map[], {}, map[1 := granting])
    requires granting.exclusive == {}
    ensures Run(volatile, states', acts') && states'[|acts'|] == Tables(true, {}, map[1 := granting])
  {
    hide Run, AllFound;
    states', acts' := Extend(volatile, states, acts, Begin(0));
    assert states'[|acts'|] == State(map[], {}, map[1 := granting, 0 := EMPTY]);
    states', acts' := Extend(volatile, states', acts', InsertCredential(0, 0, true));
    assert EMPTY.exclusive + {0} == {0} && EMPTY.wide[0 := true] == map[0 := true];
    assert states'[|acts'|]
      == State(map[], {}, map[1 := granting, 0 := EMPTY.(exclusive := {0}, wide := map[0 := true])]);
    states', acts' := Extend(volatile, states', acts', Commit(0));
    assert states'[|acts'|] == Tables(true, {}, map[1 := granting]);
  }

  /** Exclusion holds over every run exactly when the functions are VOLATILE and grants whose
      credential is not yet visible are left out of account. */
  lemma NeverContradictoryIff(volatile: bool, found: bool)
    ensures NeverContradictory(volatile, found) <==> volatile && found
  {
    hide AllFound, FindsRow, Enabled, Next;
    if volatile && found {
      forall states, acts | Run(volatile, states, acts) && AllFound(states, acts) ensures AllExclusive(states) {
        forall i | 0 <= i < |states| ensures Exclusive(states[i]) {
          GrantsAreExclusive(states, acts, i);
        }
      }
    } else {
      var states, acts;
      if !volatile {
        states, acts := RaceDecided(volatile);
      } else {
        states, acts := GrantOvertakesCredential(volatile);
      }
      var s := states[|acts|];
      assert RACER in s.grants && s.wide[0];
      assert !Exclusive(s);
      assert !AllExclusive(states);
    }
  }

  // ---- What each step does -------------------------------------------------------------

  /** No step shows to others before it is committed, and a commit shows exactly what was written. */
  lemma OnlyCommitsShow(volatile: bool, s: State, a: Action)
    requires Enabled(s, a)
    ensures var s' := Next(volatile, s, a);
      && (forall u :: u != a.t ==> (u in s'.txns <==> u in s.txns) && (u in s.txns ==> s'.txns[u] == s.txns[u]))
      && (!a.Commit? ==> s'.wide == s.wide && s'.grants == s.grants)
      && (a.Commit? ==> var x := s.txns[a.t];
            && a.t !in s'.txns && s'.grants == (s.grants - x.removed) + x.added
            && (forall c :: c in s'.wide <==> c in s.wide || c in x.wide)
            && (forall c :: c in s'.wide ==> s'.wide[c] == if c in x.wide then x.wide[c] else s.wide[c]))
  {
  }

  /** What a transaction sees of the grants. */
  function OwnView(s: State, t: TxnId): set<Grant>
    requires t in s.txns
  {
    (s.grants - s.txns[t].removed) + s.txns[t].added
  }

  /** A transaction reads its own writes: the grant it added, not the one it removed, and the mode it
      gave a credential. */
  lemma OwnWritesAreRead(volatile: bool, s: State, a: Action)
    requires Enabled(s, a) && a.t in s.txns && a.t in Next(volatile, s, a).txns
    ensures var s', x := Next(volatile, s, a), s.txns[a.t];
      && (a.ForeignKey? ==> OwnView(s', a.t) == OwnView(s, a.t) + {x.statement.grant})
      && (a.RemoveGrant? ==> OwnView(s', a.t) == OwnView(s, a.t) - {a.grant})
      && (!a.ForeignKey? && !a.RemoveGrant? ==> OwnView(s', a.t) == OwnView(s, a.t))
      && (a.InsertCredential? ==> IsWide(s', s'.txns[a.t], a.credential) == a.tenantWide)
      && (a.ApplyUpdate? ==> IsWide(s', s'.txns[a.t], x.statement.credential) == a.tenantWide)
  {
  }

  /** What is refused, and rolls its transaction back: making a credential tenant-wide that holds grants,
      as far as the trigger sees them; granting one that is; a grant whose credential is not there. */
  lemma RolledBackIff(volatile: bool, s: State, a: Action)
    requires Enabled(s, a) && a.t in s.txns && !a.Commit? && !a.Abort?
    ensures var x := s.txns[a.t];
      a.t !in Next(volatile, s, a).txns <==> match a
        case InsertCredential(t, c, w) => w && exists g :: g in OwnView(s, t) && g.credential == c
        case ApplyUpdate(t, w) =>
          && w && !IsWide(s, x, x.statement.credential)
          && exists g: Grant :: g.credential == x.statement.credential
               && g in ((if volatile then s.grants else x.statement.seen) - x.removed) + x.added
        case TriggerRead(_, g) => RowVisible(s, x, g.credential) && IsWide(s, x, g.credential)
        case ForeignKey(_) => !RowVisible(s, x, x.statement.grant.credential)
        case _ => false
  {
  }
}
