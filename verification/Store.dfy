/** The credential registry (src/credentials/store.rs), under the CHECK constraints of the
    `credentials` table that start-up verifies. */
module Store {
  import opened Common
  import opened Scope

  const MAC_BYTES: nat := 32

  datatype Status = Active | Revoked | Disabled {
    function AsStr(): string {
      match this
      case Active => "active"
      case Revoked => "revoked"
      case Disabled => "disabled"
    }
  }

  datatype Mode = LegacyOnly | V2Required {
    function AsStr(): string {
      match this
      case LegacyOnly => "legacy_only"
      case V2Required => "v2_required"
    }
  }

  datatype RecordError = BadStatus(raw: string) | BadMode(raw: string) | BadScopes(error: ScopeError)

  function ParseStatus(raw: string): Result<Status, RecordError> {
    if raw == Active.AsStr() then Ok(Active)
    else if raw == Revoked.AsStr() then Ok(Revoked)
    else if raw == Disabled.AsStr() then Ok(Disabled)
    else Err(BadStatus(raw))
  }

  function ParseMode(raw: string): Result<Mode, RecordError> {
    if raw == LegacyOnly.AsStr() then Ok(LegacyOnly)
    else if raw == V2Required.AsStr() then Ok(V2Required)
    else Err(BadMode(raw))
  }

  type TenantId = nat

  /** A row as stored. */
  datatype Row = Row(id: Uuid, tenantId: TenantId, principalId: string, secretMac: seq<Byte>, mode: string,
                     scopes: seq<string>, tenantWide: bool, status: string, createdAt: int,
                     lastUsedAt: Option<int>, revokedAt: Option<int>, expiresAt: Option<int>)

  /** A row this build understands. */
  datatype Record = Record(id: Uuid, tenantId: TenantId, principalId: string, secretMac: seq<Byte>, mode: Mode,
                           scopes: ScopeSet, tenantWide: bool, status: Status, createdAt: int,
                           lastUsedAt: Option<int>, revokedAt: Option<int>, expiresAt: Option<int>) {
    predicate IsUsableAt(now: int) {
      && status == Active
      && revokedAt.None?
      && (expiresAt.None? || now < expiresAt.value)
    }

    function CacheBound(): Option<int> {
      expiresAt
    }
  }

  function Validate(row: Row): Result<Record, RecordError> {
    match ParseMode(row.mode)
    case Err(e) => Err(e)
    case Ok(mode) =>
      match Parsed(row.scopes)
      case Err(e) => Err(BadScopes(e))
      case Ok(scopes) =>
        match ParseStatus(row.status)
        case Err(e) => Err(e)
        case Ok(status) =>
          Ok(Record(row.id, row.tenantId, row.principalId, row.secretMac, mode, scopes, row.tenantWide, status,
                    row.createdAt, row.lastUsedAt, row.revokedAt, row.expiresAt))
  }

  /** The table's CHECK constraints. */
  ghost predicate Checks(row: Row) {
    && row.mode in {LegacyOnly.AsStr(), V2Required.AsStr()}
    && row.status in {Active.AsStr(), Revoked.AsStr(), Disabled.AsStr()}
    && |row.secretMac| == MAC_BYTES
    && 1 <= |row.principalId| <= 255
    && (row.status == Revoked.AsStr() <==> row.revokedAt.Some?)
    && (row.expiresAt.Some? ==> row.expiresAt.value > row.createdAt)
    && Canonical(row.scopes)
  }

  /** Under the constraints, the one thing that makes a row unusable is a repeated scope. */
  lemma CorruptIffRepeatedScope(row: Row)
    requires Checks(row)
    ensures Validate(row).Ok? <==> Distinct(row.scopes)
    ensures Validate(row).Err? ==> Validate(row).error.BadScopes?
  {
    ParsedIff(row.scopes);
  }

  /** What this build can read, in the table's own words. */
  ghost predicate Readable(row: Row) {
    && row.mode in {"legacy_only", "v2_required"} && row.status in {"active", "revoked", "disabled"}
    && Distinct(row.scopes) && Canonical(row.scopes)
  }

  /** Validation accepts exactly the readable rows, and changes no column. */
  lemma ValidateIff(row: Row)
    ensures Validate(row).Ok? <==> Readable(row)
    ensures Validate(row).Ok? ==> var rec := Validate(row).value;
      && rec.id == row.id && rec.tenantId == row.tenantId && rec.principalId == row.principalId
      && rec.secretMac == row.secretMac && rec.tenantWide == row.tenantWide && rec.createdAt == row.createdAt
      && rec.lastUsedAt == row.lastUsedAt && rec.revokedAt == row.revokedAt && rec.expiresAt == row.expiresAt
      && (rec.mode == V2Required <==> row.mode == "v2_required")
      && (rec.status == Active <==> row.status == "active")
      && (rec.status == Revoked <==> row.status == "revoked")
      && (forall s: Scope :: s in rec.scopes <==> s.AsStr() in row.scopes)
  {
    ParsedIff(row.scopes);
    StatusNamesDiffer();
    assert "legacy_only"[0] != "v2_required"[0];
    hide Parsed;
  }

  // ---- The registry --------------------------------------------------------------------

  type Rows = map<Uuid, Row>

  ghost predicate Sound(rows: Rows) {
    forall id :: id in rows ==> rows[id].id == id && Checks(rows[id])
  }

  /** A record read from the row of that id. */
  predicate Reads(rows: Rows, id: Uuid, rec: Record) {
    id in rows && Validate(rows[id]) == Ok(rec)
  }

  datatype NewCredential = NewCredential(id: Uuid, tenantId: TenantId, principalId: string, secretMac: seq<Byte>,
                                         mode: Mode, scopes: ScopeSet, tenantWide: bool, expiresAt: Option<int>)

  /** The completed row of an INSERT, `created_at` filled in by its default. */
  function Completed(new_: NewCredential, now: int): Row {
    Row(new_.id, new_.tenantId, new_.principalId, new_.secretMac, new_.mode.AsStr(), ToWire(new_.scopes),
        new_.tenantWide, Active.AsStr(), now, None, None, new_.expiresAt)
  }

  predicate Insertable(rows: Rows, new_: NewCredential, now: int) {
    && new_.id !in rows
    && |new_.secretMac| == MAC_BYTES
    && 1 <= |new_.principalId| <= 255
    && (new_.expiresAt.Some? ==> new_.expiresAt.value > now)
  }

  /** One statement, so a refused insert leaves nothing behind. */
  function AfterInsert(rows: Rows, new_: NewCredential, now: int): Rows {
    if Insertable(rows, new_, now) then rows[new_.id := Completed(new_, now)] else rows
  }

  function AfterRevoke(rows: Rows, id: Uuid, at: int): Rows {
    if id in rows && rows[id].status != Revoked.AsStr()
    then rows[id := rows[id].(status := Revoked.AsStr(), revokedAt := Some(at))]
    else rows
  }

  function AfterTouch(rows: Rows, id: Uuid, at: int): Rows {
    if id in rows then rows[id := rows[id].(lastUsedAt := Some(at))] else rows
  }

  /** An insert is refused for a known id, or a row the constraints do not admit, and nothing else. */
  lemma InsertableIff(rows: Rows, new_: NewCredential, now: int)
    ensures Insertable(rows, new_, now) <==> new_.id !in rows && Checks(Completed(new_, now))
  {
    if Insertable(rows, new_, now) { CompletedIsSound(new_, now); }
    hide ToWire;
  }

  /** Revoking takes effect whatever the row was, active or disabled, on that row and no other; it
      changes nothing only where there is no row or it is revoked already. */
  lemma RevokedWhateverItWas(rows: Rows, id: Uuid, at: int)
    ensures var rows' := AfterRevoke(rows, id, at);
      && rows'.Keys == rows.Keys && (forall k :: k in rows && k != id ==> rows'[k] == rows[k])
      && (id in rows ==> rows'[id].status == "revoked")
      && (id in rows && rows[id].status != "revoked" ==>
            rows'[id] == rows[id].(status := "revoked", revokedAt := Some(at)))
      && (rows' == rows <==> id in rows ==> rows[id].status == "revoked")
  {
    if id in rows && rows[id].status != "revoked" {
      assert AfterRevoke(rows, id, at)[id].status != rows[id].status;
    }
  }

  /** `SELECT COUNT(*) WHERE status = 'active' AND (expires_at IS NULL OR expires_at > now)`. */
  function Counted(rows: Rows, now: int): set<Uuid> {
    set id | id in rows && rows[id].status == Active.AsStr()
             && (rows[id].expiresAt.None? || rows[id].expiresAt.value > now)
  }

  /** The credentials that could authenticate someone at `now`. */
  function Usable(rows: Rows, now: int): set<Uuid> {
    set id | id in rows && Validate(rows[id]).Ok? && Validate(rows[id]).value.IsUsableAt(now)
  }

  class Registry {
    var rows: Rows

    ghost predicate Valid()
      reads this
    {
      Sound(rows)
    }

    method Insert(new_: NewCredential, now: int) returns (inserted: bool)
      requires Valid()
      modifies this
      ensures Valid()
      ensures inserted == Insertable(old(rows), new_, now)
      ensures rows == AfterInsert(old(rows), new_, now)
    {
      inserted := Insertable(rows, new_, now);
      if inserted {
        CompletedIsSound(new_, now);
        rows := rows[new_.id := Completed(new_, now)];
      }
    }

    method Revoke(id: Uuid, at: int) returns (changed: bool)
      requires Valid()
      modifies this
      ensures Valid()
      ensures rows == AfterRevoke(old(rows), id, at)
      ensures changed <==> id in old(rows) && old(rows)[id].status != "revoked"
      ensures rows == if changed then old(rows)[id := old(rows)[id].(status := "revoked", revokedAt := Some(at))]
                      else old(rows)
    {
      changed := id in rows && rows[id].status != Revoked.AsStr();
      if changed {
        rows := rows[id := rows[id].(status := Revoked.AsStr(), revokedAt := Some(at))];
        assert rows[id].status == Revoked.AsStr();
      }
    }

    method TouchLastUsed(id: Uuid, at: int)
      requires Valid()
      modifies this
      ensures Valid()
      ensures rows == AfterTouch(old(rows), id, at)
      ensures rows.Keys == old(rows).Keys && forall k :: k in rows ==>
        rows[k] == if k == id then old(rows)[k].(lastUsedAt := Some(at)) else old(rows)[k]
    {
      if id in rows {
        rows := rows[id := rows[id].(lastUsedAt := Some(at))];
      }
    }
  }

  /** What is inserted satisfies the constraints and reads back as it was given. */
  lemma CompletedIsSound(new_: NewCredential, now: int)
    requires |new_.secretMac| == MAC_BYTES && 1 <= |new_.principalId| <= 255
    requires new_.expiresAt.Some? ==> new_.expiresAt.value > now
    ensures Checks(Completed(new_, now))
    ensures Validate(Completed(new_, now)) ==
      Ok(Record(new_.id, new_.tenantId, new_.principalId, new_.secretMac, new_.mode, new_.scopes, new_.tenantWide,
                Active, now, None, None, new_.expiresAt))
  {
    hide ToWire, Parsed;
    WireRoundTrip(new_.scopes);
    ParsedIff(ToWire(new_.scopes));
    assert |LegacyOnly.AsStr()| == |V2Required.AsStr()| && LegacyOnly.AsStr()[0] != V2Required.AsStr()[0];
  }

  /** What the registry can be asked to do. */
  datatype Operation =
    | Inserting(new_: NewCredential, now: int)
    | Revoking(id: Uuid, at: int)
    | Touching(id: Uuid, at: int)

  function Performing(rows: Rows, op: Operation): Rows {
    match op
    case Inserting(new_, now) => AfterInsert(rows, new_, now)
    case Revoking(id, at) => AfterRevoke(rows, id, at)
    case Touching(id, at) => AfterTouch(rows, id, at)
  }

  function Performed(rows: Rows, ops: seq<Operation>): Rows
    decreases |ops|
  {
    if ops == [] then rows else Performed(Performing(rows, ops[0]), ops[1..])
  }

  lemma OperationKeeps(rows: Rows, op: Operation)
    requires Sound(rows)
    ensures Sound(Performing(rows, op)) && rows.Keys <= Performing(rows, op).Keys
    ensures forall id :: id in rows && rows[id].status == Revoked.AsStr() ==>
      rows[id] == Performing(rows, op)[id].(lastUsedAt := rows[id].lastUsedAt)
  {
    hide Validate;
    StatusNamesDiffer();
    if op.Inserting? && Insertable(rows, op.new_, op.now) {
      CompletedIsSound(op.new_, op.now);
    }
  }

  /** Revocation is final: whatever the registry is asked to do afterwards, the row stays as it was
      revoked, but for its time of last use, and is usable at no time.  Revoking again changes
      nothing. */
  lemma {:induction false} RevokedStaysRevoked(rows: Rows, id: Uuid, ops: seq<Operation>, now: int, at: int)
    requires Sound(rows) && id in rows && rows[id].status == Revoked.AsStr()
    ensures var rows' := Performed(rows, ops);
      && id in rows' && rows[id] == rows'[id].(lastUsedAt := rows[id].lastUsedAt)
      && id !in Usable(rows', now) && AfterRevoke(rows', id, at) == rows'
    decreases |ops|
  {
    if ops == [] {
      if Validate(rows[id]).Ok? { assert Validate(rows[id]).value.revokedAt.Some?; }
    } else {
      OperationKeeps(rows, ops[0]);
      RevokedStaysRevoked(Performing(rows, ops[0]), id, ops[1..], now, at);
    }
  }

  /** The start-up count is the number of credentials that could authenticate someone if and only
      if no counted row lists a scope twice, which no CHECK constraint forbids. */
  lemma ActiveCountIff(rows: Rows, now: int)
    requires Sound(rows)
    ensures |Counted(rows, now)| == |Usable(rows, now)| <==>
      forall id :: id in Counted(rows, now) ==> Distinct(rows[id].scopes)
    ensures |Usable(rows, now)| <= |Counted(rows, now)|
  {
    hide Checks, Validate;
    var counted, usable := Counted(rows, now), Usable(rows, now);
    forall id | id in rows ensures id in usable <==> id in counted && Distinct(rows[id].scopes) {
      UsableIff(rows, now, id);
    }
    assert counted == usable + (counted - usable);
    if |counted| == |usable| {
      assert counted - usable == {};
    }
    if forall id :: id in counted ==> id in rows && Distinct(rows[id].scopes) {
      assert counted == usable;
    }
  }

  lemma UsableIff(rows: Rows, now: int, id: Uuid)
    requires Sound(rows)
    ensures id in Usable(rows, now) <==> id in Counted(rows, now) && Distinct(rows[id].scopes)
    ensures id in Counted(rows, now) ==> id in rows
  {
    if id in rows {
      CorruptIffRepeatedScope(rows[id]);
      StatusNamesDiffer();
    }
  }

  lemma StatusNamesDiffer()
    ensures Active.AsStr() != Revoked.AsStr() && Active.AsStr() != Disabled.AsStr() &&
        Revoked.AsStr() != Disabled.AsStr()
  {
    assert |Active.AsStr()| != |Revoked.AsStr()| && |Revoked.AsStr()| != |Disabled.AsStr()|;
  }

  const REPEATED_SCOPE_MAC: seq<Byte> := [0, 0, 0, 0, 0, 0, 0, 0, 0, 0, 0, 0, 0, 0, 0, 0,
                                          0, 0, 0, 0, 0, 0, 0, 0, 0, 0, 0, 0, 0, 0, 0, 0]

  function RepeatedScopeRow(id: Uuid): Row {
    Row(id, 0, "p", REPEATED_SCOPE_MAC, V2Required.AsStr(), [Admin.AsStr(), Admin.AsStr()], false,
        Active.AsStr(), 0, None, None, None)
  }

  /** A row an operator can write: every constraint holds, it is counted, and nobody can use it. */
  lemma RepeatedScopeIsCounted(id: Uuid)
    ensures var row := RepeatedScopeRow(id);
      && Checks(row) && Validate(row).Err?
      && Counted(map[id := row], 1) == {id} && Usable(map[id := row], 1) == {}
  {
    var row := RepeatedScopeRow(id);
    StatusNamesDiffer();
    assert IsToken(Admin.AsStr());
    assert row.scopes[0] == row.scopes[1];
    CorruptIffRepeatedScope(row);
  }
}
