/** Canonical credential scopes and sets of them (src/credentials/scope.rs). */
module Scope {
  import opened Common
  import Sorting

  datatype Scope = RecallV2 | MemoryRead | MemoryWrite | MemoryExport | MemoryHistory | Admin | ProxyChat {
    function AsStr(): string {
      match this
      case RecallV2 => "recall:v2"
      case MemoryRead => "memory:read"
      case MemoryWrite => "memory:write"
      case MemoryExport => "memory:export"
      case MemoryHistory => "memory:history"
      case Admin => "admin"
      case ProxyChat => "proxy:chat"
    }
  }

  const CANONICAL_SCOPES: seq<Scope> :=
    [RecallV2, MemoryRead, MemoryWrite, MemoryExport, MemoryHistory, Admin, ProxyChat]

  /** The position of a scope in the enumeration, which is its `Ord`. */
  function Rank(s: Scope): nat {
    match s
    case RecallV2 => 0 case MemoryRead => 1 case MemoryWrite => 2 case MemoryExport => 3
    case MemoryHistory => 4 case Admin => 5 case ProxyChat => 6
  }

  lemma RankIsIndex(s: Scope)
    ensures Rank(s) < |CANONICAL_SCOPES| && CANONICAL_SCOPES[Rank(s)] == s
  {
  }

  lemma IndexIsRank(i: nat)
    requires i < |CANONICAL_SCOPES|
    ensures Rank(CANONICAL_SCOPES[i]) == i
  {
  }

  datatype ScopeError = Unknown(raw: string) | Duplicate(raw: string) | Malformed(raw: string, why: string)

  type ScopeSet = set<Scope>

  // ---- One token -----------------------------------------------------------------------

  predicate IsPadded(raw: string) {
    raw != "" && (IsWhitespace(raw[0]) || IsWhitespace(raw[|raw| - 1]))
  }

  predicate HasCapital(raw: string) {
    exists i :: 0 <= i < |raw| && 'A' <= raw[i] <= 'Z'
  }

  predicate IsSegment(s: string) {
    s != "" && forall i :: 0 <= i < |s| ==> 'a' <= s[i] <= 'z' || '0' <= s[i] <= '9'
  }

  /** `<resource>` or `<resource>:<action>`. */
  predicate IsWellFormed(raw: string) {
    IsSegment(raw) || exists i :: 0 <= i < |raw| && raw[i] == ':' && IsSegment(raw[..i]) && IsSegment(raw[i + 1..])
  }

  function Find(raw: string, i: nat): Option<Scope>
    requires i <= |CANONICAL_SCOPES|
    decreases |CANONICAL_SCOPES| - i
  {
    if i == |CANONICAL_SCOPES| then None
    else if CANONICAL_SCOPES[i].AsStr() == raw then Some(CANONICAL_SCOPES[i])
    else Find(raw, i + 1)
  }

  function Parse(raw: string): Result<Scope, ScopeError> {
    if raw == "" then Err(Malformed(raw, "empty"))
    else if IsPadded(raw) then Err(Malformed(raw, "surrounding whitespace"))
    else if HasCapital(raw) then Err(Malformed(raw, "scopes are lowercase"))
    else if !IsWellFormed(raw) then Err(Malformed(raw, "expected `<resource>` or `<resource>:<action>` of [a-z0-9]"))
    else match Find(raw, 0) case Some(s) => Ok(s) case None => Err(Unknown(raw))
  }

  lemma {:induction false} FindFinds(raw: string, i: nat)
    requires i <= |CANONICAL_SCOPES|
    ensures Find(raw, i).Some? ==> Find(raw, i).value.AsStr() == raw
    ensures forall j :: i <= j < |CANONICAL_SCOPES| && CANONICAL_SCOPES[j].AsStr() == raw ==> Find(raw, i).Some?
    decreases |CANONICAL_SCOPES| - i
  {
    if i < |CANONICAL_SCOPES| {
      FindFinds(raw, i + 1);
    }
  }

  lemma SegmentsAreClean(resource: string, action: string)
    requires IsSegment(resource) && IsSegment(action)
    ensures var raw := resource + ":" + action;
      raw != "" && !IsPadded(raw) && IsWellFormed(raw) && !HasCapital(raw)
  {
    var raw := resource + ":" + action;
    var colon := |resource|;
    assert raw[colon] == ':' && raw[..colon] == resource && raw[colon + 1..] == action;
    assert raw[0] == resource[0] && raw[|raw| - 1] == action[|action| - 1];
    forall i | 0 <= i < |raw| ensures !('A' <= raw[i] <= 'Z') {
      assert i < colon ==> raw[i] == resource[i];
      assert i > colon ==> raw[i] == action[i - colon - 1];
    }
  }

  function Resource(s: Scope): string {
    match s
    case RecallV2 => "recall"
    case Admin => "admin"
    case ProxyChat => "proxy"
    case _ => "memory"
  }

  function Action(s: Scope): string {
    match s
    case RecallV2 => "v2"
    case MemoryRead => "read"
    case MemoryWrite => "write"
    case MemoryExport => "export"
    case MemoryHistory => "history"
    case Admin => ""
    case ProxyChat => "chat"
  }

  lemma ResourcesAreSegments(s: Scope)
    ensures IsSegment(Resource(s))
  {
  }

  lemma ActionsAreSegments(s: Scope)
    requires !s.Admin?
    ensures IsSegment(Action(s))
  {
  }

  lemma TokensSplit(s: Scope)
    ensures s.Admin? ==> s.AsStr() == Resource(s)
    ensures !s.Admin? ==> s.AsStr() == Resource(s) + ":" + Action(s)
  {
  }

  /** Every canonical token passes the checks that precede the lookup. */
  lemma CanonicalIsWellFormed(s: Scope)
    ensures var raw := s.AsStr();
      raw != "" && !IsPadded(raw) && IsWellFormed(raw) && !HasCapital(raw)
  {
    hide Scope.AsStr, Resource, Action;
    TokensSplit(s);
    ResourcesAreSegments(s);
    if !s.Admin? {
      ActionsAreSegments(s);
      SegmentsAreClean(Resource(s), Action(s));
    }
  }

  /** Parsing accepts exactly the canonical tokens, each as its own scope. */
  lemma ParseIff(raw: string, s: Scope)
    ensures Parse(raw) == Ok(s) <==> raw == s.AsStr()
  {
    hide Scope.AsStr;
    FindFinds(raw, 0);
    if raw == s.AsStr() {
      CanonicalIsWellFormed(s);
      RankIsIndex(s);
      assert Find(raw, 0).Some?;
      TokensAreDistinct(Find(raw, 0).value, s);
    }
  }

  lemma TokensAreDistinct(s: Scope, t: Scope)
    requires s.AsStr() == t.AsStr()
    ensures s == t
  {
    assert |s.AsStr()| == |t.AsStr()|;
  }

  // ---- Lists and sets ------------------------------------------------------------------

  /** The first error in list order, or the set. */
  function Parsed(raw: seq<string>): Result<ScopeSet, ScopeError> {
    if raw == [] then Ok({}) else
      var n := |raw| - 1;
      match Parsed(raw[..n])
      case Err(e) => Err(e)
      case Ok(seen) =>
        match Parse(raw[n])
        case Err(e) => Err(e)
        case Ok(s) => if s in seen then Err(Duplicate(raw[n])) else Ok(seen + {s})
  }

  method ParseList(raw: seq<string>) returns (r: Result<ScopeSet, ScopeError>)
    ensures r == Parsed(raw)
  {
    var seen: ScopeSet := {};
    for i := 0 to |raw|
      invariant Parsed(raw[..i]) == Ok(seen)
    {
      assert raw[..i + 1][..i] == raw[..i];
      match Parse(raw[i]) {
        case Err(e) =>
          ErrorsStick(raw, i + 1);
          return Err(e);
        case Ok(s) =>
          if s in seen {
            ErrorsStick(raw, i + 1);
            return Err(Duplicate(raw[i]));
          }
          seen := seen + {s};
      }
    }
    assert raw[..|raw|] == raw;
    r := Ok(seen);
  }

  lemma {:induction false} ErrorsStick(raw: seq<string>, i: nat)
    requires i <= |raw| && Parsed(raw[..i]).Err?
    ensures Parsed(raw) == Parsed(raw[..i])
    decreases |raw|
  {
    if i < |raw| {
      assert raw[..|raw| - 1][..i] == raw[..i];
      ErrorsStick(raw[..|raw| - 1], i);
    } else {
      assert raw[..i] == raw;
    }
  }

  /** The members of rank `i` and up, as an ordered set iterates them. */
  function InOrder(scopes: ScopeSet, i: nat): seq<Scope>
    requires i <= |CANONICAL_SCOPES|
    decreases |CANONICAL_SCOPES| - i
  {
    if i == |CANONICAL_SCOPES| then []
    else (if CANONICAL_SCOPES[i] in scopes then [CANONICAL_SCOPES[i]] else []) + InOrder(scopes, i + 1)
  }

  function Names(list: seq<Scope>): seq<string> {
    seq(|list|, i requires 0 <= i < |list| => list[i].AsStr())
  }

  function ToWire(scopes: ScopeSet): seq<string> {
    Names(InOrder(scopes, 0))
  }

  ghost predicate IsToken(raw: string) {
    exists s: Scope :: s.AsStr() == raw
  }

  ghost predicate Canonical(raw: seq<string>) {
    forall i :: 0 <= i < |raw| ==> IsToken(raw[i])
  }

  /** A list parses if and only if it is a duplicate-free list of canonical tokens, and then to
      exactly the scopes its tokens name. */
  lemma {:induction false} ParsedIff(raw: seq<string>)
    ensures Parsed(raw).Ok? <==> Distinct(raw) && Canonical(raw)
    ensures Parsed(raw).Ok? ==> forall s: Scope :: s in Parsed(raw).value <==> s.AsStr() in raw
  {
    if raw != [] {
      var n := |raw| - 1;
      ParsedIff(raw[..n]);
      assert raw == raw[..n] + [raw[n]];
      forall s ensures Parse(raw[n]) == Ok(s) <==> raw[n] == s.AsStr() { ParseIff(raw[n], s); }
      if Distinct(raw) && Canonical(raw) {
        assert Distinct(raw[..n]) && Canonical(raw[..n]);
        var s: Scope :| s.AsStr() == raw[n];
        assert s.AsStr() !in raw[..n];
      }
      if Parsed(raw).Ok? {
        var s := Parse(raw[n]).value;
        assert raw[n] == s.AsStr() && raw[n] !in raw[..n];
        forall t ensures t in Parsed(raw).value <==> t.AsStr() in raw {
          if t.AsStr() == s.AsStr() { TokensAreDistinct(s, t); }
        }
        forall i | 0 <= i < |raw| ensures IsToken(raw[i]) {
          if i < n { assert raw[i] == raw[..n][i]; } else { assert s.AsStr() == raw[i]; }
        }
      }
    }
  }

  ghost predicate Ascending(list: seq<Scope>) {
    forall i, j :: 0 <= i < j < |list| ==> Rank(list[i]) < Rank(list[j])
  }

  lemma {:induction false} InOrderMembers(scopes: ScopeSet, i: nat, s: Scope)
    requires i <= |CANONICAL_SCOPES|
    ensures s in InOrder(scopes, i) <==> s in scopes && Rank(s) >= i
    decreases |CANONICAL_SCOPES| - i
  {
    RankIsIndex(s);
    if i < |CANONICAL_SCOPES| {
      IndexIsRank(i);
      InOrderMembers(scopes, i + 1, s);
    }
  }

  /** Iteration yields each member once, in ascending order. */
  lemma {:induction false} InOrderAscends(scopes: ScopeSet, i: nat)
    requires i <= |CANONICAL_SCOPES|
    ensures Ascending(InOrder(scopes, i))
    decreases |CANONICAL_SCOPES| - i
  {
    hide Rank;
    if i < |CANONICAL_SCOPES| {
      InOrderAscends(scopes, i + 1);
      IndexIsRank(i);
      var rest := InOrder(scopes, i + 1);
      forall k | 0 <= k < |rest| ensures Rank(rest[k]) > i {
        InOrderMembers(scopes, i + 1, rest[k]);
      }
    }
  }

  lemma NamesAreDistinct(list: seq<Scope>)
    requires Ascending(list)
    ensures Distinct(Names(list)) && Canonical(Names(list))
    ensures forall s: Scope :: s.AsStr() in Names(list) <==> s in list
  {
    hide Scope.AsStr;
    forall i, j | 0 <= i < j < |list| ensures Names(list)[i] != Names(list)[j] {
      if list[i].AsStr() == list[j].AsStr() { TokensAreDistinct(list[i], list[j]); }
    }
    forall i | 0 <= i < |list| ensures IsToken(Names(list)[i]) {
      assert list[i].AsStr() == Names(list)[i];
    }
    forall s: Scope ensures s.AsStr() in Names(list) <==> s in list {
      if s in list {
        var i :| 0 <= i < |list| && list[i] == s;
        assert Names(list)[i] == s.AsStr();
      }
      if s.AsStr() in Names(list) {
        var i :| 0 <= i < |list| && Names(list)[i] == s.AsStr();
        TokensAreDistinct(list[i], s);
      }
    }
  }

  /** What is stored reads back as the same set, and is in ascending order. */
  lemma WireRoundTrip(scopes: ScopeSet)
    ensures Parsed(ToWire(scopes)) == Ok(scopes)
    ensures exists list :: ToWire(scopes) == Names(list) && Ascending(list)
  {
    hide Scope.AsStr, Parsed, InOrder;
    var list := InOrder(scopes, 0);
    InOrderAscends(scopes, 0);
    NamesAreDistinct(list);
    ParsedIff(Names(list));
    forall s: Scope ensures s in Parsed(Names(list)).value <==> s in scopes {
      InOrderMembers(scopes, 0, s);
      assert s.AsStr() in Names(list) <==> s in list;
    }
    assert Parsed(Names(list)).value == scopes;
  }

  /** Writing back an accepted list yields the same tokens, in ascending order. */
  lemma ParseThenWireSorts(raw: seq<string>)
    requires Parsed(raw).Ok?
    ensures multiset(ToWire(Parsed(raw).value)) == multiset(raw)
    ensures exists list :: ToWire(Parsed(raw).value) == Names(list) && Ascending(list)
  {
    hide Scope.AsStr, Parsed, InOrder;
    var scopes := Parsed(raw).value;
    var list := InOrder(scopes, 0);
    ParsedIff(raw);
    InOrderAscends(scopes, 0);
    NamesAreDistinct(list);
    forall t ensures t in raw <==> t in Names(list) {
      if t in raw {
        var i :| 0 <= i < |raw| && raw[i] == t;
        assert IsToken(raw[i]);
        var s: Scope :| s.AsStr() == t;
        InOrderMembers(scopes, 0, s);
      }
      if t in Names(list) {
        var i :| 0 <= i < |list| && Names(list)[i] == t;
        InOrderMembers(scopes, 0, list[i]);
        assert list[i] in scopes && list[i].AsStr() == t;
      }
    }
    Sorting.SameMultiset(Names(list), raw);
  }

  // ---- The tokens ----------------------------------------------------------------------

  /** The seven tokens and what they mean. */
  lemma TokensMean()
    ensures Parse("recall:v2") == Ok(RecallV2) && Parse("memory:read") == Ok(MemoryRead)
    ensures Parse("memory:write") == Ok(MemoryWrite) && Parse("memory:export") == Ok(MemoryExport)
    ensures Parse("memory:history") == Ok(MemoryHistory) && Parse("admin") == Ok(Admin)
    ensures Parse("proxy:chat") == Ok(ProxyChat)
  {
    hide Parse;
    ParseIff("recall:v2", RecallV2);
    ParseIff("memory:read", MemoryRead);
    ParseIff("memory:write", MemoryWrite);
    ParseIff("memory:export", MemoryExport);
    ParseIff("memory:history", MemoryHistory);
    ParseIff("admin", Admin);
    ParseIff("proxy:chat", ProxyChat);
  }

  /** The order in which a set is written. */
  lemma WireOrder()
    ensures forall s: Scope, t: Scope ::
      Rank(s) < Rank(t) <==> Precedence(s) < Precedence(t)
  {
  }

  /** The place of a scope's token in "recall:v2", "memory:read", "memory:write", "memory:export",
      "memory:history", "admin", "proxy:chat". */
  function Precedence(s: Scope): nat {
    var token := s.AsStr();
    if token == "recall:v2" then 0 else if token == "memory:read" then 1 else if token == "memory:write" then 2
    else if token == "memory:export" then 3 else if token == "memory:history" then 4 else if token == "admin" then 5
    else 6
  }

  lemma ShapeIff(raw: string)
    ensures IsWellFormed(raw) <==>
      IsSegment(raw) || exists r, a :: IsSegment(r) && IsSegment(a) && raw == r + ":" + a
  {
    if i :| 0 <= i < |raw| && raw[i] == ':' && IsSegment(raw[..i]) && IsSegment(raw[i + 1..]) {
      assert raw == raw[..i] + ":" + raw[i + 1..];
    }
    if r, a :| IsSegment(r) && IsSegment(a) && raw == r + ":" + a {
      SegmentsAreClean(r, a);
    }
  }

  lemma WellFormedIsClean(raw: string)
    requires IsWellFormed(raw)
    ensures raw != "" && !IsPadded(raw) && !HasCapital(raw)
  {
    if i :| 0 <= i < |raw| && raw[i] == ':' && IsSegment(raw[..i]) && IsSegment(raw[i + 1..]) {
      assert raw == raw[..i] + ":" + raw[i + 1..];
      SegmentsAreClean(raw[..i], raw[i + 1..]);
    }
  }

  /** A token is unknown, and not malformed, exactly if it is one or two segments of lower-case letters
      and digits, with a colon between, and names no scope. */
  lemma UnknownIff(raw: string)
    ensures Parse(raw) == Err(Unknown(raw)) <==>
      && (IsSegment(raw) || exists r, a :: IsSegment(r) && IsSegment(a) && raw == r + ":" + a)
      && !IsToken(raw)
  {
    ShapeIff(raw);
    if IsWellFormed(raw) { WellFormedIsClean(raw); }
    FindFinds(raw, 0);
    hide Scope.AsStr, Find, IsWellFormed, IsPadded, HasCapital, IsSegment;
    if s: Scope :| s.AsStr() == raw { ParseIff(raw, s); }
  }
}
