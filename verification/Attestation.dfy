/** The signed bytes of an evidence payload (src/attestation.rs:23-58 and 140-148): compact JSON as
    serde_json writes it, strings by section 7 of RFC 8259, and that it can be read in one way only. */
module Attestation {
  import opened Common
  import opened Sorting
  import Secret
  import Utf8
  import opened CanonicalJson

  // ---- The compact encoding ------------------------------------------------------------

  function EscapeChar(c: char): (r: string)
    ensures r != "" && r[0] != '\"'
  {
    if c == '\"' then "\\\""
    else if c == '\\' then "\\\\"
    else if c == '\U{08}' then "\\b"
    else if c == '\t' then "\\t"
    else if c == '\n' then "\\n"
    else if c == '\U{0C}' then "\\f"
    else if c == '\r' then "\\r"
    else if c < ' ' then "\\u00" + [Secret.HexDigit(c as int / 16) as char, Secret.HexDigit(c as int % 16) as char]
    else [c]
  }

  function Escape(s: string): string {
    if s == "" then "" else EscapeChar(s[0]) + Escape(s[1..])
  }

  function Quote(s: string): string {
    "\"" + Escape(s) + "\""
  }

  function Encode(j: Json): string {
    match j
    case Null => "null"
    case Bool(b) => if b then "true" else "false"
    case Number(text) => text
    case String(chars) => Quote(chars)
    case Array(items) => "[" + EncodeItems(items, true) + "]"
    case Object(entries) => "{" + EncodeEntries(entries, true) + "}"
  }

  function Comma(first: bool): string {
    if first then "" else ","
  }

  function EncodeItems(items: seq<Json>, first: bool): string {
    if items == [] then "" else Comma(first) + Encode(items[0]) + EncodeItems(items[1..], false)
  }

  function EncodeEntries(entries: seq<Entry>, first: bool): string {
    if entries == [] then ""
    else Comma(first) + Quote(entries[0].key) + ":" + Encode(entries[0].value) + EncodeEntries(entries[1..], false)
  }

  // ---- It can be read in one way only --------------------------------------------------

  lemma SplitAt(a: string, s: string, b: string, t: string)
    requires a + s == b + t && |a| == |b|
    ensures a == b && s == t
  {
    assert a == (a + s)[..|a|] && s == (a + s)[|a|..];
    assert b == (b + t)[..|b|] && t == (b + t)[|b|..];
  }

  lemma EscapedCharIsReadable(c: char, s: string, d: char, t: string)
    requires EscapeChar(c) + s == EscapeChar(d) + t
    ensures c == d && s == t
  {
    var a, b := EscapeChar(c), EscapeChar(d);
    assert a[0] == (a + s)[0] == b[0];
    if a[0] == '\\' {
      assert a[1] == (a + s)[1] == b[1];
    }
    assert |a| == |b|;
    SplitAt(a, s, b, t);
    if |a| == 6 {
      assert a[4] == b[4] && a[5] == b[5];
    }
  }

  lemma EscapeUnfolds(a: string, s: string)
    requires a != ""
    ensures Escape(a) + "\"" + s == EscapeChar(a[0]) + (Escape(a[1..]) + "\"" + s)
    ensures (Escape(a) + "\"" + s)[0] != '\"'
  {
    hide EscapeChar;
    RegroupQuote(EscapeChar(a[0]), Escape(a[1..]), s);
  }

  lemma RegroupQuote(x: string, y: string, s: string)
    requires x != ""
    ensures (x + y) + "\"" + s == x + (y + "\"" + s) && (x + (y + "\"" + s))[0] == x[0]
  {
    Regrouped(x + y, "\"", s);
    Regrouped(x, y, "\"" + s);
    Regrouped(y, "\"", s);
  }

  lemma {:induction false} EscapedIsReadable(a: string, s: string, b: string, t: string)
    requires Escape(a) + "\"" + s == Escape(b) + "\"" + t
    ensures a == b && s == t
  {
    if a != "" { EscapeUnfolds(a, s); }
    if b != "" { EscapeUnfolds(b, t); }
    if a == "" || b == "" {
      assert "" + "\"" + s == "\"" + s && "" + "\"" + t == "\"" + t;
      SplitAt("\"", s, "\"", t);
    } else {
      hide Escape, EscapeChar;
      EscapedCharIsReadable(a[0], Escape(a[1..]) + "\"" + s, b[0], Escape(b[1..]) + "\"" + t);
      EscapedIsReadable(a[1..], s, b[1..], t);
      assert a == [a[0]] + a[1..] && b == [b[0]] + b[1..];
    }
  }

  lemma RegroupQuoted(x: string, s: string)
    ensures ("\"" + x + "\"") + s == "\"" + (x + "\"" + s)
  {
    Regrouped("\"" + x, "\"", s);
    Regrouped("\"", x, "\"" + s);
    Regrouped(x, "\"", s);
  }

  lemma QuotedIsReadable(a: string, s: string, b: string, t: string)
    requires Quote(a) + s == Quote(b) + t
    ensures a == b && s == t
  {
    hide Escape;
    RegroupQuoted(Escape(a), s);
    RegroupQuoted(Escape(b), t);
    SplitAt("\"", Escape(a) + "\"" + s, "\"", Escape(b) + "\"" + t);
    EscapedIsReadable(a, s, b, t);
  }

  /** A number does not run on into what follows it. */
  predicate Stops(s: string) {
    s == "" || !NumberChar(s[0])
  }

  lemma RunsOn(a: string, s: string)
    requires a != "" && NumberChar(a[0])
    ensures !Stops(a + s)
  {
  }

  lemma {:induction false} NumberIsReadable(a: string, s: string, b: string, t: string)
    requires (forall c :: c in a ==> NumberChar(c)) && (forall c :: c in b ==> NumberChar(c))
    requires Stops(s) && Stops(t) && a + s == b + t
    ensures a == b && s == t
    decreases |a|
  {
    if a != "" { RunsOn(a, s); }
    if b != "" { RunsOn(b, t); }
    if a == "" || b == "" {
      assert "" + s == s && "" + t == t;
    } else {
      assert (a + s)[0] == a[0] && (b + t)[0] == b[0];
      assert (a + s)[1..] == a[1..] + s && (b + t)[1..] == b[1..] + t;
      NumberIsReadable(a[1..], s, b[1..], t);
      assert a == [a[0]] + a[1..] && b == [b[0]] + b[1..];
    }
  }

  /** The first character of a text tells what kind of value it is. */
  predicate Starts(c: char, j: Json) {
    match j
    case Null => c == 'n'
    case Bool(b) => c == if b then 't' else 'f'
    case Number(_) => NumberStart(c)
    case String(_) => c == '\"'
    case Array(_) => c == '['
    case Object(_) => c == '{'
  }

  lemma TextStarts(j: Json, s: string)
    requires WellFormed(j)
    ensures Encode(j) + s != "" && Starts((Encode(j) + s)[0], j)
  {
    if j.Number? { NumberChars(j.text); }
  }

  /** A text followed by something determines the value and what follows. */
  lemma {:induction false} IsReadable(a: Json, s: string, b: Json, t: string)
    requires WellFormed(a) && WellFormed(b) && Stops(s) && Stops(t) && Encode(a) + s == Encode(b) + t
    ensures a == b && s == t
    decreases a
  {
    TextStarts(a, s);
    TextStarts(b, t);
    match a {
      case Null => SplitAt("null", s, "null", t);
      case Bool(_) => SplitAt(Encode(a), s, Encode(b), t);
      case Number(text) =>
        NumberChars(text);
        NumberChars(b.text);
        NumberIsReadable(text, s, b.text, t);
      case String(chars) => QuotedIsReadable(chars, s, b.chars, t);
      case Array(items) =>
        Enclosed("[", EncodeItems(items, true), "]", s, EncodeItems(b.items, true), t);
        ItemsAreReadable(items, s, b.items, t, true);
      case Object(entries) =>
        Enclosed("{", EncodeEntries(entries, true), "}", s, EncodeEntries(b.entries, true), t);
        EntriesAreReadable(entries, s, b.entries, t, true);
    }
  }

  lemma Enclosed(open: string, x: string, close: string, s: string, y: string, t: string)
    requires (open + x + close) + s == (open + y + close) + t
    ensures x + close + s == y + close + t
  {
    assert (open + x + close) + s == open + (x + close + s);
    assert (open + y + close) + t == open + (y + close + t);
    SplitAt(open, x + close + s, open, y + close + t);
  }

  /** What follows an item: the items after it, and the bracket. */
  function MoreItems(items: seq<Json>, s: string): string
    requires items != []
  {
    EncodeItems(items[1..], false) + "]" + s
  }

  lemma ItemsUnfold(items: seq<Json>, s: string, first: bool)
    requires items != [] && WellFormed(items[0])
    ensures EncodeItems(items, first) + "]" + s == Comma(first) + (Encode(items[0]) + MoreItems(items, s))
    ensures Stops(MoreItems(items, s))
    ensures (EncodeItems(items, first) + "]" + s)[0] != ']'
  {
    MoreItemsStop(items[1..], s);
    TextStarts(items[0], MoreItems(items, s));
    assert EncodeItems(items, first) == Comma(first) + Encode(items[0]) + EncodeItems(items[1..], false);
    hide EncodeItems, Encode, WellFormed;
    RegroupItems(Comma(first), Encode(items[0]), EncodeItems(items[1..], false), s);
  }

  lemma MoreItemsStop(items: seq<Json>, s: string)
    ensures Stops(EncodeItems(items, false) + "]" + s)
  {
  }

  lemma RegroupItems(comma: string, head: string, more: string, s: string)
    ensures (comma + head + more) + "]" + s == comma + (head + (more + "]" + s))
  {
  }

  lemma {:induction false} ItemsAreReadable(xs: seq<Json>, s: string, ys: seq<Json>, t: string, first: bool)
    requires (forall i :: 0 <= i < |xs| ==> WellFormed(xs[i])) && (forall i :: 0 <= i < |ys| ==> WellFormed(ys[i]))
    requires EncodeItems(xs, first) + "]" + s == EncodeItems(ys, first) + "]" + t
    ensures xs == ys && s == t
    decreases xs
  {
    if xs != [] { ItemsUnfold(xs, s, first); }
    if ys != [] { ItemsUnfold(ys, t, first); }
    if xs == [] || ys == [] {
      assert xs == [] ==> (EncodeItems(xs, first) + "]" + s)[0] == ']';
      assert ys == [] ==> (EncodeItems(ys, first) + "]" + t)[0] == ']';
      assert "" + "]" + s == "]" + s && "" + "]" + t == "]" + t;
      SplitAt("]", s, "]", t);
    } else {
      hide EncodeItems, Encode, WellFormed, Stops;
      SplitAt(Comma(first), Encode(xs[0]) + MoreItems(xs, s), Comma(first), Encode(ys[0]) + MoreItems(ys, t));
      IsReadable(xs[0], MoreItems(xs, s), ys[0], MoreItems(ys, t));
      ItemsAreReadable(xs[1..], s, ys[1..], t, false);
      assert xs == [xs[0]] + xs[1..] && ys == [ys[0]] + ys[1..];
    }
  }

  function MoreEntries(entries: seq<Entry>, s: string): string
    requires entries != []
  {
    EncodeEntries(entries[1..], false) + "}" + s
  }

  lemma EntriesUnfold(entries: seq<Entry>, s: string, first: bool)
    requires entries != []
    ensures EncodeEntries(entries, first) + "}" + s
         == Comma(first) + (Quote(entries[0].key) + (":" + (Encode(entries[0].value) + MoreEntries(entries, s))))
    ensures Stops(MoreEntries(entries, s))
    ensures (EncodeEntries(entries, first) + "}" + s)[0] != '}'
  {
    var key, head, more := Quote(entries[0].key), Encode(entries[0].value), EncodeEntries(entries[1..], false);
    assert EncodeEntries(entries, first) == Comma(first) + key + ":" + head + more;
    hide EncodeEntries, Encode;
    Regroup(Comma(first), key, head, more, s);
  }

  lemma Regroup(comma: string, key: string, head: string, more: string, s: string)
    ensures (comma + key + ":" + head + more) + "}" + s == comma + (key + (":" + (head + (more + "}" + s))))
  {
    assert (comma + key + ":" + head + more) + "}" + s == (comma + key + ":") + (head + (more + "}" + s));
    assert (comma + key + ":") + (head + (more + "}" + s)) == comma + (key + (":" + (head + (more + "}" + s))));
  }

  lemma {:induction false} EntriesAreReadable(xs: seq<Entry>, s: string, ys: seq<Entry>, t: string, first: bool)
    requires (forall i :: 0 <= i < |xs| ==> WellFormed(xs[i].value)) &&
        (forall i :: 0 <= i < |ys| ==> WellFormed(ys[i].value))
    requires EncodeEntries(xs, first) + "}" + s == EncodeEntries(ys, first) + "}" + t
    ensures xs == ys && s == t
    decreases xs
  {
    if xs == [] || ys == [] {
      NoEntries(xs, s, ys, t, first);
    } else {
      EntriesUnfold(xs, s, first);
      EntriesUnfold(ys, t, first);
      hide EncodeEntries, Encode, Quote, WellFormed, Stops;
      EntryIsReadable(first, xs[0], MoreEntries(xs, s), ys[0], MoreEntries(ys, t));
      IsReadable(xs[0].value, MoreEntries(xs, s), ys[0].value, MoreEntries(ys, t));
      EntriesAreReadable(xs[1..], s, ys[1..], t, false);
      assert xs == [xs[0]] + xs[1..] && ys == [ys[0]] + ys[1..];
    }
  }

  lemma NoEntries(xs: seq<Entry>, s: string, ys: seq<Entry>, t: string, first: bool)
    requires xs == [] || ys == []
    requires EncodeEntries(xs, first) + "}" + s == EncodeEntries(ys, first) + "}" + t
    ensures xs == ys && s == t
  {
    if xs != [] { EntriesUnfold(xs, s, first); }
    if ys != [] { EntriesUnfold(ys, t, first); }
    assert "" + "}" + s == "}" + s && "" + "}" + t == "}" + t;
    SplitAt("}", s, "}", t);
  }

  lemma EntryIsReadable(first: bool, x: Entry, s: string, y: Entry, t: string)
    requires Comma(first) + (Quote(x.key) + (":" + (Encode(x.value) + s)))
        == Comma(first) + (Quote(y.key) + (":" + (Encode(y.value) + t)))
    ensures x.key == y.key && Encode(x.value) + s == Encode(y.value) + t
  {
    hide Encode, Quote;
    var u, v := Encode(x.value) + s, Encode(y.value) + t;
    SplitAt(Comma(first), Quote(x.key) + (":" + u), Comma(first), Quote(y.key) + (":" + v));
    QuotedIsReadable(x.key, ":" + u, y.key, ":" + v);
    SplitAt(":", u, ":", v);
  }

  // ---- Canonical bytes -----------------------------------------------------------------

  function CanonicalText(j: Json): string {
    Encode(Canon(j))
  }

  function CanonicalBytes(j: Json): Utf8.Bytes {
    Utf8.Encode(CanonicalText(j))
  }

  lemma TextsAgreeIff(a: Json, b: Json)
    requires WellFormed(a) && WellFormed(b)
    ensures CanonicalText(a) == CanonicalText(b) <==> Denote(a) == Denote(b)
  {
    CanonEqualIff(a, b);
    CanonIsSorted(a);
    CanonIsSorted(b);
    if CanonicalText(a) == CanonicalText(b) {
      assert Encode(Canon(a)) + "" == Encode(Canon(b)) + "";
      IsReadable(Canon(a), "", Canon(b), "");
    }
  }

  /** Canonical bytes agree exactly when the logical values do. */
  lemma BytesAgreeIff(a: Json, b: Json)
    requires WellFormed(a) && WellFormed(b)
    ensures CanonicalBytes(a) == CanonicalBytes(b) <==> Denote(a) == Denote(b)
  {
    TextsAgreeIff(a, b);
    Utf8.EncodeIsInjective(CanonicalText(a), CanonicalText(b));
  }

  // ---- What strings say ----------------------------------------------------------------

  /** A hexadecimal digit in lower case. */
  function DigitOf(c: char): int {
    if '0' <= c <= '9' then c as int - 48 else c as int - 87
  }

  /** Escapes read as section 7 of RFC 8259 says. */
  function Unescape(s: string): string {
    if s == "" then ""
    else if s[0] != '\\' || |s| == 1 then [s[0]] + Unescape(s[1..])
    else if s[1] == 'u' && |s| >= 6 && 0 <= DigitOf(s[4]) < 16 && 0 <= DigitOf(s[5]) < 16 then
      [(16 * DigitOf(s[4]) + DigitOf(s[5])) as char] + Unescape(s[6..])
    else
      [match s[1] case 'b' => '\U{08}' case 't' => '\t' case 'n' => '\n' case 'f' => '\U{0C}' case 'r' => '\r'
         case c => c] + Unescape(s[2..])
  }

  lemma UnescapeHead(c: char, rest: string)
    ensures Unescape(EscapeChar(c) + rest) == [c] + Unescape(rest)
  {
    var e := EscapeChar(c);
    var s := e + rest;
    if |e| == 1 {
      assert s[1..] == rest && s[0] == c;
    } else if |e| == 2 {
      assert s[0] == '\\' && s[1] == e[1] && s[2..] == rest;
    } else {
      assert s[0] == '\\' && s[1] == 'u' && s[4] == e[4] && s[5] == e[5] && s[6..] == rest;
    }
  }

  predicate IsPlain(s: string) {
    forall i :: 0 <= i < |s| ==> s[i] >= ' ' && s[i] != '\"' && s[i] != '\\'
  }

  /** A quoted string says what was quoted, and only a quote, a backslash and control characters are
      escaped. */
  lemma {:induction false} QuotesSay(s: string)
    ensures Quote(s)[0] == '\"' == Quote(s)[|Quote(s)| - 1] && Unescape(Quote(s)[1..|Quote(s)| - 1]) == s
    ensures IsPlain(s) ==> Quote(s) == "\"" + s + "\""
  {
    EscapeSays(s);
    assert Quote(s)[1..|Quote(s)| - 1] == Escape(s);
  }

  lemma {:induction false} EscapeSays(s: string)
    ensures Unescape(Escape(s)) == s
    ensures IsPlain(s) ==> Escape(s) == s
  {
    if s != "" {
      UnescapeHead(s[0], Escape(s[1..]));
      EscapeSays(s[1..]);
      assert IsPlain(s) ==> EscapeChar(s[0]) == [s[0]] && IsPlain(s[1..]);
      hide EscapeChar, Unescape, IsPlain;
      assert s == [s[0]] + s[1..];
    }
  }

  // ---- The payload ---------------------------------------------------------------------

  const EVIDENCE_SIG_VERSION: string := "aeon-evidence-sig-v1"

  datatype Payload = Payload(version: string, agentId: string, sessionId: Option<string>,
                             hitIds: seq<string>, hitContentDigests: seq<string>)

  datatype Hit = Hit(id: string, content: string)

  /** `digest` is the hash of a hit's content. */
  function NewPayload(digest: string -> string, agentId: string, sessionId: Option<string>, hits: seq<Hit>): Payload {
    Payload(EVIDENCE_SIG_VERSION, agentId, sessionId,
            seq(|hits|, i requires 0 <= i < |hits| => hits[i].id),
            seq(|hits|, i requires 0 <= i < |hits| => digest(hits[i].content)))
  }

  function Strings(list: seq<string>): Json {
    Array(seq(|list|, i requires 0 <= i < |list| => String(list[i])))
  }

  /** The fields in their declared order; an absent session is null. */
  function ToJson(p: Payload): Json {
    Object([Entry("version", String(p.version)),
            Entry("agent_id", String(p.agentId)),
            Entry("session_id", if p.sessionId.Some? then String(p.sessionId.value) else Null),
            Entry("hit_ids", Strings(p.hitIds)),
            Entry("hit_content_digests", Strings(p.hitContentDigests))])
  }

  lemma PayloadIsWellFormed(p: Payload)
    ensures WellFormed(ToJson(p))
  {
    assert |"version"| == 7 && |"agent_id"| == 8 && |"session_id"| == 10 && |"hit_ids"| == 7 &&
      |"hit_content_digests"| == 19;
    assert "version"[0] == 'v' && "hit_ids"[0] == 'h';
    assert forall i :: 0 <= i < |p.hitIds| ==> WellFormed(Strings(p.hitIds).items[i]);
    assert forall i :: 0 <= i < |p.hitContentDigests| ==> WellFormed(Strings(p.hitContentDigests).items[i]);
  }

  lemma StringsDenote(a: seq<string>, b: seq<string>)
    requires WellFormed(Strings(a)) && WellFormed(Strings(b)) && Denote(Strings(a)) == Denote(Strings(b))
    ensures a == b
  {
    assert |Denote(Strings(a)).items| == |a| && |Denote(Strings(b)).items| == |b|;
    forall i | 0 <= i < |a| ensures a[i] == b[i] {
      assert Denote(Strings(a)).items[i] == StringValue(a[i]);
      assert Denote(Strings(b)).items[i] == StringValue(b[i]);
    }
  }

  lemma FieldsAgree(p: Payload, q: Payload, i: nat)
    requires i < 5 && WellFormed(ToJson(p)) && WellFormed(ToJson(q)) && Denote(ToJson(p)) == Denote(ToJson(q))
    ensures var x, y := ToJson(p).entries[i].value, ToJson(q).entries[i].value;
      WellFormed(x) && WellFormed(y) && Denote(x) == Denote(y)
  {
    var es, fs := ToJson(p).entries, ToJson(q).entries;
    assert es[i].key == fs[i].key;
    EntryDenotes(es, i);
    EntryDenotes(fs, i);
  }

  lemma EntryDenotes(es: seq<Entry>, i: nat)
    requires WellFormed(Object(es)) && i < |es|
    ensures var fields := Denote(Object(es)).fields;
      WellFormed(es[i].value) && es[i].key in fields && fields[es[i].key] == Denote(es[i].value)
  {
    FieldsOf(es);
    assert es[i] in es;
  }

  /** Two payloads have the same signed bytes only if they are the same payload. */
  lemma PayloadsAreBound(p: Payload, q: Payload)
    ensures CanonicalBytes(ToJson(p)) == CanonicalBytes(ToJson(q)) <==> p == q
  {
    PayloadIsWellFormed(p);
    PayloadIsWellFormed(q);
    BytesAgreeIff(ToJson(p), ToJson(q));
    if Denote(ToJson(p)) == Denote(ToJson(q)) {
      FieldsAgree(p, q, 0);
      FieldsAgree(p, q, 1);
      FieldsAgree(p, q, 2);
      FieldsAgree(p, q, 3);
      FieldsAgree(p, q, 4);
      StringsDenote(p.hitIds, q.hitIds);
      StringsDenote(p.hitContentDigests, q.hitContentDigests);
    }
  }

  /** So the signed bytes speak for one agent, one session filter, and one list of hits with their
      contents, as far as the digest tells contents apart. */
  lemma EvidenceIsBound(digest: string -> string, agent: string, session: Option<string>, hits: seq<Hit>,
                        agent': string, session': Option<string>, hits': seq<Hit>)
    requires forall h, h' :: h in hits && h' in hits' && digest(h.content) == digest(h'.content) ==>
        h.content == h'.content
    ensures CanonicalBytes(ToJson(NewPayload(digest, agent, session, hits)))
         == CanonicalBytes(ToJson(NewPayload(digest, agent', session', hits')))
       <==> agent == agent' && session == session' && hits == hits'
  {
    var p, q := NewPayload(digest, agent, session, hits), NewPayload(digest, agent', session', hits');
    PayloadsAreBound(p, q);
    if p == q {
      assert |hits| == |p.hitIds| && |hits'| == |q.hitIds|;
      forall i | 0 <= i < |hits| ensures hits[i] == hits'[i] {
        assert p.hitIds[i] == q.hitIds[i] && p.hitContentDigests[i] == q.hitContentDigests[i];
        assert hits[i] in hits && hits'[i] in hits';
      }
    }
  }

  // ---- The very text -------------------------------------------------------------------

  /** The texts of these items. */
  function ItemTexts(items: seq<Json>): seq<string> {
    seq(|items|, i requires 0 <= i < |items| => Encode(items[i]))
  }

  /** The texts of these members. */
  function MemberTexts(entries: seq<Entry>): seq<string> {
    seq(|entries|, i requires 0 <= i < |entries| => Quote(entries[i].key) + ":" + Encode(entries[i].value))
  }

  lemma CommaFirst(text: string, rest: string)
    ensures text + ("," + rest) == text + "," + rest
    ensures "," + text + ("," + rest) == "," + (text + "," + rest)
  {
  }

  lemma ItemsSpelt(items: seq<Json>)
    requires items != []
    ensures EncodeItems(items, true) == ItemTexts(items)[0] + EncodeItems(items[1..], false)
    ensures EncodeItems(items, false) == "," + ItemTexts(items)[0] + EncodeItems(items[1..], false)
    ensures ItemTexts(items)[1..] == ItemTexts(items[1..])
  {
    assert "" + Encode(items[0]) == Encode(items[0]);
  }

  /** An array's items, with commas between them. */
  lemma {:induction false} ItemsText(items: seq<Json>)
    ensures EncodeItems(items, true) == Join(",", ItemTexts(items))
    ensures items != [] ==> EncodeItems(items, false) == "," + Join(",", ItemTexts(items))
  {
    if items != [] {
      var texts := ItemTexts(items);
      ItemsSpelt(items);
      ItemsText(items[1..]);
      if |items| == 1 {
        assert EncodeItems(items[1..], false) == "";
      }
      assert |texts| == |items|;
      hide EncodeItems, ItemTexts, Encode;
      CommaFirst(texts[0], Join(",", texts[1..]));
      hide Join;
      assert |items| > 1 ==> Join(",", texts) == texts[0] + "," + Join(",", texts[1..]) by { JoinIs(texts); }
      assert |items| == 1 ==> Join(",", texts) == texts[0] by { JoinIs(texts); }
    }
  }

  lemma JoinIs(texts: seq<string>)
    requires texts != []
    ensures Join(",", texts) == if |texts| == 1 then texts[0] else texts[0] + "," + Join(",", texts[1..])
  {
  }

  lemma EntriesSpelt(entries: seq<Entry>)
    requires entries != []
    ensures EncodeEntries(entries, true) == MemberTexts(entries)[0] + EncodeEntries(entries[1..], false)
    ensures EncodeEntries(entries, false) == "," + MemberTexts(entries)[0] + EncodeEntries(entries[1..], false)
    ensures MemberTexts(entries)[1..] == MemberTexts(entries[1..])
  {
    var key, value, rest := Quote(entries[0].key), Encode(entries[0].value), EncodeEntries(entries[1..], false);
    EntryFirst("", key, value, rest);
    EntryFirst(",", key, value, rest);
    assert MemberTexts(entries)[0] == key + ":" + value;
    assert EncodeEntries(entries, true) == "" + key + ":" + value + rest;
    assert EncodeEntries(entries, false) == "," + key + ":" + value + rest;
    hide Quote, Encode, EncodeEntries;
  }

  lemma EntryFirst(comma: string, key: string, value: string, rest: string)
    ensures comma + key + ":" + value + rest == comma + (key + ":" + value) + rest
    ensures "" + (key + ":" + value) + rest == (key + ":" + value) + rest
  {
    Regrouped(comma, key, ":");
    Regrouped(comma, key + ":", value);
  }

  /** An object's members, with commas between them. */
  lemma {:induction false} MembersText(entries: seq<Entry>)
    ensures EncodeEntries(entries, true) == Join(",", MemberTexts(entries))
    ensures entries != [] ==> EncodeEntries(entries, false) == "," + Join(",", MemberTexts(entries))
  {
    if entries != [] {
      var texts := MemberTexts(entries);
      EntriesSpelt(entries);
      MembersText(entries[1..]);
      if |entries| == 1 {
        assert EncodeEntries(entries[1..], false) == "";
      }
      assert |texts| == |entries|;
      hide EncodeEntries, MemberTexts, Encode;
      CommaFirst(texts[0], Join(",", texts[1..]));
      hide Join;
      assert |entries| > 1 ==> Join(",", texts) == texts[0] + "," + Join(",", texts[1..]) by { JoinIs(texts); }
      assert |entries| == 1 ==> Join(",", texts) == texts[0] by { JoinIs(texts); }
    }
  }

  function Quoted(list: seq<string>): seq<string> {
    seq(|list|, i requires 0 <= i < |list| => Quote(list[i]))
  }

  lemma StringsText(list: seq<string>)
    ensures Encode(Strings(list)) == "[" + Join(",", Quoted(list)) + "]"
  {
    ItemsText(Strings(list).items);
    assert ItemTexts(Strings(list).items) == Quoted(list);
  }

  /** The payload's entries, in the order of their keys. */
  function SortedEntriesOf(p: Payload): seq<Entry> {
    [Entry("agent_id", String(p.agentId)), Entry("hit_content_digests", Strings(p.hitContentDigests)),
     Entry("hit_ids", Strings(p.hitIds)),
     Entry("session_id", if p.sessionId.Some? then String(p.sessionId.value) else Null),
     Entry("version", String(p.version))]
  }

  const PAYLOAD_KEYS: seq<string> := ["agent_id", "hit_content_digests", "hit_ids", "session_id", "version"]

  lemma DigestsBeforeIds()
    ensures AtMost("hit_content_digests", "hit_ids")
  {
    hide AtMost;
    var digests, ids := "hit_content_digests", "hit_ids";
    assert digests[0] == ids[0] && digests[1] == ids[1] && digests[2] == ids[2] && digests[3] == ids[3];
    assert digests[..4] == ids[..4];
    Precedes(digests, ids, 4);
  }

  lemma KeysInOrder()
    ensures Sorted(AtMost, PAYLOAD_KEYS)
  {
    hide AtMost, Sorted;
    Precedes("agent_id", "hit_content_digests", 0);
    DigestsBeforeIds();
    Precedes("hit_ids", "session_id", 0);
    Precedes("session_id", "version", 0);
    StringsAreOrdered();
    SortedByNeighbours(AtMost, PAYLOAD_KEYS);
  }

  lemma PayloadKeysAscend(p: Payload)
    ensures Sorted(AtMost, Keys(SortedEntriesOf(p)))
  {
    KeysInOrder();
    hide AtMost, Sorted;
    assert Keys(SortedEntriesOf(p)) == PAYLOAD_KEYS;
  }

  lemma PayloadIsSorted(p: Payload)
    ensures Canon(ToJson(p)) == Object(SortedEntriesOf(p))
  {
    PayloadKeysAscend(p);
    PayloadKeysDiffer(p);
    PayloadValuesAreCanonical(p);
    var sorted := SortedEntriesOf(p);
    assert ToJson(p) == Object([sorted[4], sorted[0], sorted[3], sorted[2], sorted[1]]);
    assert sorted == [sorted[0], sorted[1], sorted[2], sorted[3], sorted[4]];
    assert DistinctKeys(sorted) by { PayloadKeysDiffer(p); }
    hide *;
    CanonObjectIs(ToJson(p).entries, sorted);
  }

  lemma PayloadKeysDiffer(p: Payload)
    ensures DistinctKeys(ToJson(p).entries)
  {
    PayloadIsWellFormed(p);
  }

  lemma PayloadValuesAreCanonical(p: Payload)
    ensures CanonValues(ToJson(p).entries) == ToJson(p).entries
  {
    assert Canon(Strings(p.hitIds)) == Strings(p.hitIds);
    assert Canon(Strings(p.hitContentDigests)) == Strings(p.hitContentDigests);
    hide Strings;
  }

  /** The text of a payload; digests and ids are quoted already. */
  function PayloadWire(agentId: string, digests: seq<string>, ids: seq<string>, session: Option<string>,
                       version: string): string
  {
    "{" + Join(",", [
      Quote("agent_id") + ":" + Quote(agentId),
      Quote("hit_content_digests") + ":" + ("[" + Join(",", digests) + "]"),
      Quote("hit_ids") + ":" + ("[" + Join(",", ids) + "]"),
      Quote("session_id") + ":" + (if session.Some? then Quote(session.value) else "null"),
      Quote("version") + ":" + Quote(version)]) + "}"
  }

  /** What is signed, character by character. */
  lemma PayloadText(p: Payload)
    ensures CanonicalText(ToJson(p))
         == PayloadWire(p.agentId, Quoted(p.hitContentDigests), Quoted(p.hitIds), p.sessionId, p.version)
  {
    PayloadIsSorted(p);
    StringsText(p.hitContentDigests);
    StringsText(p.hitIds);
    MembersText(SortedEntriesOf(p));
    hide Quote, Canon, EncodeEntries, EncodeItems, Join, Quoted, Strings, ToJson;
    var es, texts := SortedEntriesOf(p), MemberTexts(SortedEntriesOf(p));
    assert Encode(Object(es)) == "{" + Join(",", texts) + "}";
    assert texts == [Quote("agent_id") + ":" + Encode(es[0].value), Quote("hit_content_digests") + ":"
                     + Encode(es[1].value), Quote("hit_ids") + ":" + Encode(es[2].value),
                     Quote("session_id") + ":" + Encode(es[3].value), Quote("version") + ":" + Encode(es[4].value)];
  }

  /** So for the evidence of a response: its hits in order, each with the digest of its content. */
  lemma EvidenceText(digest: string -> string, agent: string, session: Option<string>, hits: seq<Hit>)
    ensures CanonicalText(ToJson(NewPayload(digest, agent, session, hits)))
         == PayloadWire(agent, seq(|hits|, i requires 0 <= i < |hits| => Quote(digest(hits[i].content))),
                        seq(|hits|, i requires 0 <= i < |hits| => Quote(hits[i].id)), session, "aeon-evidence-sig-v1")
  {
    var p := NewPayload(digest, agent, session, hits);
    PayloadText(p);
    hide Quote, ToJson, CanonicalText, PayloadWire;
    assert Quoted(p.hitIds) == seq(|hits|, i requires 0 <= i < |hits| => Quote(hits[i].id));
    assert Quoted(p.hitContentDigests) == seq(|hits|, i requires 0 <= i < |hits| => Quote(digest(hits[i].content)));
  }

  /** Compact text, construct by construct. */
  lemma TextIs(j: Json)
    ensures match j
      case Null => Encode(j) == "null"
      case Bool(b) => Encode(j) == if b then "true" else "false"
      case Number(text) => Encode(j) == text
      case String(chars) => Encode(j) == Quote(chars)
      case Array(items) => Encode(j) == "[" + Join(",", ItemTexts(items)) + "]"
      case Object(entries) => Encode(j) == "{" + Join(",", MemberTexts(entries)) + "}"
  {
    match j {
      case Array(items) => ItemsText(items);
      case Object(entries) => MembersText(entries);
      case _ =>
    }
  }
}
