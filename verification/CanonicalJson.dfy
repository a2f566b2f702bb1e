/** Canonical JSON: every object's keys sorted, at every depth (src/attestation.rs:140-172). */
module CanonicalJson {
  import opened Common
  import opened Sorting

  /** A parsed document.  An object's entries are in the order its map yields them; a number is
      its text. */
  datatype Json =
    | Null
    | Bool(value: bool)
    | Number(text: string)
    | String(chars: string)
    | Array(items: seq<Json>)
    | Object(entries: seq<Entry>)

  datatype Entry = Entry(key: string, value: Json)

  function Keys(entries: seq<Entry>): seq<string> {
    seq(|entries|, i requires 0 <= i < |entries| => entries[i].key)
  }

  ghost predicate DistinctKeys(entries: seq<Entry>) {
    forall i, k :: 0 <= i < k < |entries| ==> entries[i].key != entries[k].key
  }

  // ---- Numbers, by section 6 of RFC 8259 -----------------------------------------------

  predicate IsDigit(c: char) {
    '0' <= c <= '9'
  }

  predicate AreDigits(s: string) {
    s != "" && forall i :: 0 <= i < |s| ==> IsDigit(s[i])
  }

  /** No leading zero. */
  predicate IsInteger(s: string) {
    AreDigits(s) && (s[0] == '0' ==> |s| == 1)
  }

  predicate IsFraction(s: string) {
    s == "" || (s[0] == '.' && AreDigits(s[1..]))
  }

  predicate IsExponent(s: string) {
    s == "" || (s[0] in {'e', 'E'} && (AreDigits(s[1..]) || (|s| > 1 && s[1] in {'+', '-'} && AreDigits(s[2..]))))
  }

  predicate IsUnsigned(s: string) {
    exists i, j :: 0 <= i <= j <= |s| && IsInteger(s[..i]) && IsFraction(s[i..j]) && IsExponent(s[j..])
  }

  predicate IsNumber(text: string) {
    IsUnsigned(if text != "" && text[0] == '-' then text[1..] else text)
  }

  predicate NumberChar(c: char) {
    IsDigit(c) || c == '-' || c == '+' || c == '.' || c == 'e' || c == 'E'
  }

  predicate NumberStart(c: char) {
    IsDigit(c) || c == '-'
  }

  lemma UnsignedChars(s: string)
    requires IsUnsigned(s)
    ensures s != "" && IsDigit(s[0]) && forall k :: 0 <= k < |s| ==> NumberChar(s[k])
  {
    var i, j :| 0 <= i <= j <= |s| && IsInteger(s[..i]) && IsFraction(s[i..j]) && IsExponent(s[j..]);
    assert s[0] == s[..i][0];
    forall k | 0 <= k < |s| ensures NumberChar(s[k]) {
      if k < i {
        assert s[k] == s[..i][k];
      } else if i < k < j {
        assert s[k] == s[i..j][1..][k - i - 1];
      } else if j < k {
        assert s[k] == s[j..][k - j] == s[j..][1..][k - j - 1];
        assert k > j + 1 ==> s[k] == s[j..][2..][k - j - 2];
      }
    }
  }

  lemma NumberChars(text: string)
    requires IsNumber(text)
    ensures text != "" && NumberStart(text[0]) && forall c :: c in text ==> NumberChar(c)
  {
    if text != "" && text[0] == '-' {
      UnsignedChars(text[1..]);
      assert text == [text[0]] + text[1..];
    } else {
      UnsignedChars(text);
    }
  }

  /** No object repeats a key, and number texts are numbers. */
  ghost predicate WellFormed(j: Json) {
    match j
    case Number(text) => IsNumber(text)
    case Array(items) => forall i :: 0 <= i < |items| ==> WellFormed(items[i])
    case Object(entries) => DistinctKeys(entries) && forall i :: 0 <= i < |entries| ==> WellFormed(entries[i].value)
    case _ => true
  }

  // ---- Sorting -------------------------------------------------------------------------

  predicate KeyAtMost(a: Entry, b: Entry) {
    AtMost(a.key, b.key)
  }

  function Canon(j: Json): Json {
    match j
    case Array(items) => Array(seq(|items|, i requires 0 <= i < |items| => Canon(items[i])))
    case Object(entries) => Object(Sort(KeyAtMost, CanonValues(entries)))
    case _ => j
  }

  function CanonValues(entries: seq<Entry>): seq<Entry> {
    seq(|entries|, i requires 0 <= i < |entries| => Entry(entries[i].key, Canon(entries[i].value)))
  }

  /** Keys ascend in every object. */
  ghost predicate DeepSorted(j: Json) {
    match j
    case Array(items) => forall i :: 0 <= i < |items| ==> DeepSorted(items[i])
    case Object(entries) =>
      Sorted(AtMost, Keys(entries)) && forall i :: 0 <= i < |entries| ==> DeepSorted(entries[i].value)
    case _ => true
  }

  // ---- The logical value ---------------------------------------------------------------

  datatype Value =
    | NullValue
    | BoolValue(value: bool)
    | NumberValue(text: string)
    | StringValue(chars: string)
    | ArrayValue(items: seq<Value>)
    | ObjectValue(fields: map<string, Value>)

  /** A document with the order of its objects forgotten. */
  ghost function Denote(j: Json): Value
    requires WellFormed(j)
  {
    match j
    case Null => NullValue
    case Bool(b) => BoolValue(b)
    case Number(text) => NumberValue(text)
    case String(chars) => StringValue(chars)
    case Array(items) => ArrayValue(seq(|items|, i requires 0 <= i < |items| => Denote(items[i])))
    case Object(entries) => ObjectValue(Fields(entries))
  }

  ghost function Fields(entries: seq<Entry>): map<string, Value>
    requires forall i :: 0 <= i < |entries| ==> WellFormed(entries[i].value)
  {
    if entries == [] then map[] else
      var n := |entries| - 1;
      Fields(entries[..n])[entries[n].key := Denote(entries[n].value)]
  }

  // ---- Sorting an object's entries -----------------------------------------------------

  lemma KeysAreOrdered()
    ensures Preorder(KeyAtMost)
  {
    StringsAreOrdered();
    hide AtMost;
  }

  lemma KeyFound(entries: seq<Entry>, e: Entry) returns (i: nat)
    requires e in entries
    ensures i < |entries| && entries[i] == e && Keys(entries)[i] == e.key
  {
    i :| 0 <= i < |entries| && entries[i] == e;
  }

  /** Among entries with distinct keys, the key names the entry. */
  lemma EntryByKey(entries: seq<Entry>, d: Entry, e: Entry)
    requires DistinctKeys(entries) && d in entries && e in entries && d.key == e.key
    ensures d == e
  {
    var i := KeyFound(entries, d);
    var k := KeyFound(entries, e);
  }

  lemma SortedKeys(entries: seq<Entry>, sorted: seq<Entry>)
    requires DistinctKeys(entries) && Distinct(sorted) && Sorted(KeyAtMost, sorted)
    requires forall e :: e in sorted ==> e in entries
    ensures DistinctKeys(sorted) && Sorted(AtMost, Keys(sorted))
  {
    hide AtMost;
    forall i, k | 0 <= i < k < |sorted|
      ensures sorted[i].key != sorted[k].key && AtMost(Keys(sorted)[i], Keys(sorted)[k])
    {
      assert KeyAtMost(sorted[i], sorted[k]);
      if sorted[i].key == sorted[k].key {
        EntryByKey(entries, sorted[i], sorted[k]);
      }
    }
  }

  /** Sorting keeps the entries, and so the distinctness of their keys. */
  lemma SortedEntries(entries: seq<Entry>)
    requires DistinctKeys(entries)
    ensures var sorted := Sort(KeyAtMost, entries);
      && DistinctKeys(sorted) && Sorted(AtMost, Keys(sorted)) && |sorted| == |entries|
      && forall e :: e in sorted <==> e in entries
  {
    KeysAreOrdered();
    SortSorts(KeyAtMost, entries);
    SortKeeps(KeyAtMost, entries);
    SortKeepsDistinct(KeyAtMost, entries);
    hide Sort, Sorted, KeyAtMost;
    SortedKeys(entries, Sort(KeyAtMost, entries));
  }

  lemma CanonValuesAre(entries: seq<Entry>)
    ensures |CanonValues(entries)| == |entries| && Keys(CanonValues(entries)) == Keys(entries)
    ensures forall i :: 0 <= i < |entries| ==> CanonValues(entries)[i] == Entry(entries[i].key, Canon(entries[i].value))
  {
  }

  /** An entry of a canonical object is an entry of the original with its value made canonical,
      and the other way round. */
  lemma CanonEntries(entries: seq<Entry>)
    requires DistinctKeys(entries)
    ensures var canon := Canon(Object(entries)).entries;
      && DistinctKeys(canon) && Sorted(AtMost, Keys(canon)) && |canon| == |entries|
      && (forall e :: e in entries ==> Entry(e.key, Canon(e.value)) in canon)
      && (forall d :: d in canon ==> exists e :: e in entries && d == Entry(e.key, Canon(e.value)))
  {
    var values := CanonValues(entries);
    CanonValuesAre(entries);
    SortedEntries(values);
    var canon := Canon(Object(entries)).entries;
    hide Sort, Sorted, DistinctKeys;
    forall e | e in entries ensures Entry(e.key, Canon(e.value)) in canon {
      var i := KeyFound(entries, e);
      assert values[i] in values;
    }
    forall d | d in canon ensures exists e :: e in entries && d == Entry(e.key, Canon(e.value)) {
      var i := KeyFound(values, d);
      assert entries[i] in entries;
    }
  }

  /** How to tell the canonical form of an object: its entries, made canonical, in the order of keys. */
  lemma CanonObjectIs(entries: seq<Entry>, sorted: seq<Entry>)
    requires DistinctKeys(entries) && Sorted(AtMost, Keys(sorted))
    requires DistinctKeys(sorted) && forall e :: e in sorted <==> e in CanonValues(entries)
    ensures Canon(Object(entries)) == Object(sorted)
  {
    var values := CanonValues(entries);
    CanonValuesAre(entries);
    KeysAreOrdered();
    assert DistinctKeys(values);
    forall x, y | x in values && y in values && KeyAtMost(x, y) && KeyAtMost(y, x) ensures x == y {
      AtMostTotal(x.key, y.key);
      EntryByKey(values, x, y);
    }
    hide AtMost;
    forall i, k | 0 <= i < k < |sorted| ensures KeyAtMost(sorted[i], sorted[k]) {
      assert AtMost(Keys(sorted)[i], Keys(sorted)[k]);
    }
    SameMultiset(sorted, values);
    SortIs(KeyAtMost, values, sorted);
  }

  // ---- What canonicalisation keeps -----------------------------------------------------

  lemma {:induction false} CanonIsSorted(j: Json)
    requires WellFormed(j)
    ensures WellFormed(Canon(j)) && DeepSorted(Canon(j))
  {
    match j {
      case Array(items) =>
        forall i | 0 <= i < |items| ensures WellFormed(Canon(items[i])) && DeepSorted(Canon(items[i])) {
          CanonIsSorted(items[i]);
        }
      case Object(entries) =>
        CanonEntries(entries);
        var canon := Canon(j).entries;
        forall e | e in entries ensures WellFormed(Canon(e.value)) && DeepSorted(Canon(e.value)) {
          CanonIsSorted(e.value);
        }
        forall i | 0 <= i < |canon| ensures WellFormed(canon[i].value) && DeepSorted(canon[i].value) {
          assert canon[i] in canon;
        }
      case _ =>
    }
  }

  lemma {:induction false} FieldsOf(entries: seq<Entry>)
    requires WellFormed(Object(entries))
    ensures forall e :: e in entries ==>
        WellFormed(e.value) && e.key in Fields(entries) && Fields(entries)[e.key] == Denote(e.value)
    ensures forall k :: k in Fields(entries) <==> k in Keys(entries)
    decreases |entries|
  {
    if entries != [] {
      var n := |entries| - 1;
      FieldsOf(entries[..n]);
      assert entries == entries[..n] + [entries[n]];
      assert Keys(entries) == Keys(entries[..n]) + [entries[n].key];
    }
  }

  /** Nothing but the order of keys changes. */
  lemma {:induction false} CanonDenotes(j: Json)
    requires WellFormed(j)
    ensures WellFormed(Canon(j)) && Denote(Canon(j)) == Denote(j)
  {
    CanonIsSorted(j);
    match j {
      case Array(items) =>
        forall i | 0 <= i < |items| ensures WellFormed(Canon(items[i])) && Denote(Canon(items[i])) == Denote(items[i]) {
          CanonDenotes(items[i]);
        }
        assert Denote(Canon(j)).items == Denote(j).items;
      case Object(entries) =>
        forall e | e in entries
          ensures WellFormed(e.value) && WellFormed(Canon(e.value)) && Denote(Canon(e.value)) == Denote(e.value)
        {
          CanonDenotes(e.value);
        }
        CanonFields(entries);
      case _ =>
    }
  }

  lemma CanonField(entries: seq<Entry>, k: string)
    requires WellFormed(Object(entries)) && WellFormed(Canon(Object(entries))) && k in Keys(entries)
    requires forall e :: e in entries ==>
        WellFormed(e.value) && WellFormed(Canon(e.value)) && Denote(Canon(e.value)) == Denote(e.value)
    ensures var canon := Canon(Object(entries)).entries;
      k in Fields(entries) && k in Fields(canon) && Fields(canon)[k] == Fields(entries)[k]
  {
    var canon := Canon(Object(entries)).entries;
    var i :| 0 <= i < |entries| && Keys(entries)[i] == k;
    var e := entries[i];
    assert Entry(e.key, Canon(e.value)) in canon by { CanonEntries(entries); }
    FieldsOf(entries);
    FieldsOf(canon);
    hide Canon, Fields;
  }

  lemma CanonFields(entries: seq<Entry>)
    requires WellFormed(Object(entries)) && WellFormed(Canon(Object(entries)))
    requires forall e :: e in entries ==>
        WellFormed(e.value) && WellFormed(Canon(e.value)) && Denote(Canon(e.value)) == Denote(e.value)
    ensures Fields(Canon(Object(entries)).entries) == Fields(entries)
  {
    var canon := Canon(Object(entries)).entries;
    forall k | k in Fields(entries) ensures k in Fields(canon) && Fields(canon)[k] == Fields(entries)[k] {
      FieldsOf(entries);
      CanonField(entries, k);
    }
    forall k | k in Fields(canon) ensures k in Fields(entries) {
      FieldsOf(entries);
      FieldsOf(canon);
      SameKeys(entries, canon);
    }
  }

  lemma SameKeys(entries: seq<Entry>, canon: seq<Entry>)
    requires DistinctKeys(entries) && canon == Canon(Object(entries)).entries
    ensures forall k :: k in Keys(canon) <==> k in Keys(entries)
  {
    CanonEntries(entries);
    forall k | k in Keys(canon) ensures k in Keys(entries) {
      var i :| 0 <= i < |canon| && Keys(canon)[i] == k;
      assert canon[i] in canon;
      var e :| e in entries && canon[i] == Entry(e.key, Canon(e.value));
      var i' := KeyFound(entries, e);
    }
    forall k | k in Keys(entries) ensures k in Keys(canon) {
      var i :| 0 <= i < |entries| && Keys(entries)[i] == k;
      var i' := KeyFound(canon, Entry(entries[i].key, Canon(entries[i].value)));
    }
  }

  /** Sorted key lists with the same members are the same list. */
  lemma SortedKeysAgree(s: seq<string>, t: seq<string>)
    requires Distinct(s) && Distinct(t) && Sorted(AtMost, s) && Sorted(AtMost, t) && forall k :: k in s <==> k in t
    ensures s == t
  {
    SameMultiset(s, t);
    StringsAreOrdered();
    SortedIsUnique(AtMost, s, t);
  }

  lemma EntriesAgree(entries: seq<Entry>, others: seq<Entry>)
    requires WellFormed(Object(entries)) && WellFormed(Object(others)) && DeepSorted(Object(entries)) &&
        DeepSorted(Object(others))
    requires Fields(entries) == Fields(others)
    ensures |entries| == |others|
    ensures forall i :: 0 <= i < |entries| ==>
      && entries[i].key == others[i].key && WellFormed(entries[i].value) && WellFormed(others[i].value)
      && Denote(entries[i].value) == Denote(others[i].value)
  {
    FieldsOf(entries);
    FieldsOf(others);
    KeysDistinct(entries);
    KeysDistinct(others);
    SortedKeysAgree(Keys(entries), Keys(others));
    assert |Keys(entries)| == |entries| && |Keys(others)| == |others|;
    hide Fields, Denote, Sorted;
    forall i | 0 <= i < |entries|
      ensures entries[i].key == others[i].key && WellFormed(entries[i].value) && WellFormed(others[i].value)
      ensures Denote(entries[i].value) == Denote(others[i].value)
    {
      assert Keys(entries)[i] == Keys(others)[i];
      assert entries[i] in entries && others[i] in others;
    }
  }

  lemma KeysDistinct(entries: seq<Entry>)
    requires DistinctKeys(entries)
    ensures Distinct(Keys(entries))
  {
  }

  /** One logical value has one deeply sorted document. */
  lemma {:induction false} SortedIsCanonical(a: Json, b: Json)
    requires WellFormed(a) && WellFormed(b) && DeepSorted(a) && DeepSorted(b) && Denote(a) == Denote(b)
    ensures a == b
  {
    match a {
      case Array(items) =>
        assert |Denote(a).items| == |items| && |Denote(b).items| == |b.items|;
        forall i | 0 <= i < |items| ensures items[i] == b.items[i] {
          assert Denote(a).items[i] == Denote(b).items[i];
          SortedIsCanonical(items[i], b.items[i]);
        }
      case Object(entries) =>
        EntriesAgree(entries, b.entries);
        forall i | 0 <= i < |entries| ensures entries[i] == b.entries[i] {
          SortedIsCanonical(entries[i].value, b.entries[i].value);
        }
      case _ =>
    }
  }

  /** Documents have the same canonical form exactly when they differ only in the order of object
      keys, at any depth. */
  lemma CanonEqualIff(a: Json, b: Json)
    requires WellFormed(a) && WellFormed(b)
    ensures Canon(a) == Canon(b) <==> Denote(a) == Denote(b)
  {
    CanonDenotes(a);
    CanonDenotes(b);
    CanonIsSorted(a);
    CanonIsSorted(b);
    if Denote(a) == Denote(b) {
      SortedIsCanonical(Canon(a), Canon(b));
    }
  }

  lemma CanonIsIdempotent(j: Json)
    requires WellFormed(j)
    ensures Canon(Canon(j)) == Canon(j)
    ensures DeepSorted(j) <==> Canon(j) == j
  {
    CanonIsSorted(j);
    CanonDenotes(j);
    CanonEqualIff(Canon(j), j);
    if DeepSorted(j) {
      SortedIsCanonical(Canon(j), j);
    }
  }

  // ---- The procedure -------------------------------------------------------------------

  lemma CanonValuesJoined(e: Entry, s: seq<Entry>)
    ensures CanonValues([e] + s) == [Entry(e.key, Canon(e.value))] + CanonValues(s)
  {
  }

  lemma {:induction false} InsertCommutes(e: Entry, s: seq<Entry>)
    ensures CanonValues(Insert(KeyAtMost, e, s)) == Insert(KeyAtMost, Entry(e.key, Canon(e.value)), CanonValues(s))
  {
    if s == [] {
      CanonValuesJoined(e, []);
    } else {
      var rest := s[1..];
      InsertCommutes(e, rest);
      CanonValuesJoined(e, s);
      CanonValuesJoined(s[0], rest);
      CanonValuesJoined(s[0], Insert(KeyAtMost, e, rest));
      assert s == [s[0]] + rest;
      hide CanonValues, Canon, AtMost;
      assert CanonValues(s)[0].key == s[0].key && CanonValues(s)[1..] == CanonValues(rest);
    }
  }

  /** Sorting looks at keys only, so values may be made canonical before or after. */
  lemma {:induction false} SortCommutes(entries: seq<Entry>)
    ensures CanonValues(Sort(KeyAtMost, entries)) == Sort(KeyAtMost, CanonValues(entries))
  {
    if entries != [] {
      SortCommutes(entries[1..]);
      InsertCommutes(entries[0], Sort(KeyAtMost, entries[1..]));
      assert CanonValues(entries)[1..] == CanonValues(entries[1..]);
    }
  }

  lemma CanonValuesGrow(entries: seq<Entry>, i: nat)
    requires i < |entries|
    ensures CanonValues(entries[..i + 1])
        == CanonValues(entries[..i]) + [Entry(entries[i].key, Canon(entries[i].value))]
  {
  }

  method SortJson(value: Json) returns (sorted: Json)
    ensures sorted == Canon(value)
  {
    match value
    case Object(entries) =>
      var ordered := Sort(KeyAtMost, entries);
      SortKeeps(KeyAtMost, entries);
      var done := [];
      for i := 0 to |ordered|
        invariant done == CanonValues(ordered[..i])
      {
        hide CanonValues, Sort;
        assert ordered[i] in ordered;
        var v := SortJson(ordered[i].value);
        done := done + [Entry(ordered[i].key, v)];
        CanonValuesGrow(ordered, i);
      }
      assert ordered[..|ordered|] == ordered;
      SortCommutes(entries);
      sorted := Object(done);
    case Array(items) =>
      var done := [];
      for i := 0 to |items|
        invariant |done| == i && forall k :: 0 <= k < i ==> done[k] == Canon(items[k])
      {
        var v := SortJson(items[i]);
        done := done + [v];
      }
      assert done == Canon(value).items;
      sorted := Array(done);
    case _ =>
      sorted := value;
  }
}
