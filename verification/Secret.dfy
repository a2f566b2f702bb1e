/** The printed form of a credential, `<credential_id>.<secret>` (src/credentials/secret.rs).

    Strings are sequences of bytes.  A UUID prints as in section 4 of RFC 9562. */
module Secret {
  import opened Common

  const SECRET_BYTES: nat := 32
  const SECRET_HEX_LEN: nat := 64
  const UUID_HYPHENATED_LEN: nat := 36

  const DOT: Byte := 46
  const HYPHEN: Byte := 45

  type Bytes = seq<Byte>

  datatype Presented = Presented(id: Uuid, secret: Bytes)

  datatype FormatError = Shape | CredentialId | Secret

  // ---- Hexadecimal ---------------------------------------------------------------------

  function HexDigit(n: int): Byte
    requires 0 <= n < 16
  {
    if n < 10 then 48 + n else 87 + n
  }

  predicate IsLowerHex(b: Byte) {
    48 <= b <= 57 || 97 <= b <= 102
  }

  /** ASCII lower case. */
  function Lower(b: Byte): Byte {
    if 65 <= b <= 90 then b + 32 else b
  }

  /** The value of a digit of either case. */
  function HexValue(b: Byte): Option<int> {
    var c := Lower(b);
    if 48 <= c <= 57 then Some(c - 48) else if 97 <= c <= 102 then Some(c - 87) else None
  }

  function Hex(bytes: Bytes): (r: Bytes)
    ensures |r| == 2 * |bytes|
    ensures forall i :: 0 <= i < |r| ==> IsLowerHex(r[i])
  {
    if bytes == [] then [] else [HexDigit(bytes[0] / 16), HexDigit(bytes[0] % 16)] + Hex(bytes[1..])
  }

  /** `hex::decode`: either case, an even number of digits. */
  function HexDecode(s: Bytes): Option<Bytes> {
    if s == [] then Some([])
    else if |s| == 1 then None
    else
      match (HexValue(s[0]), HexValue(s[1]), HexDecode(s[2..]))
      case (Some(hi), Some(lo), Some(rest)) => Some([16 * hi + lo] + rest)
      case _ => None
  }

  function LowerAll(s: Bytes): (r: Bytes)
    ensures |r| == |s|
    ensures forall i :: 0 <= i < |s| ==> r[i] == Lower(s[i])
  {
    seq(|s|, i requires 0 <= i < |s| => Lower(s[i]))
  }

  lemma DecodeStep(s: Bytes, bytes: Bytes)
    requires |s| >= 2 && bytes != []
    ensures HexDecode(s) == Some(bytes) <==>
      HexValue(s[0]) == Some(bytes[0] / 16) && HexValue(s[1]) == Some(bytes[0] % 16) &&
        HexDecode(s[2..]) == Some(bytes[1..])
  {
    assert bytes == [bytes[0]] + bytes[1..];
    if HexDecode(s) == Some(bytes) {
      var hi, lo := HexValue(s[0]).value, HexValue(s[1]).value;
      assert bytes[0] == 16 * hi + lo && bytes[1..] == HexDecode(s[2..]).value;
    }
  }

  lemma EncodeStep(s: Bytes, bytes: Bytes)
    requires |s| >= 2 && bytes != []
    ensures LowerAll(s) == Hex(bytes) <==>
      Lower(s[0]) == HexDigit(bytes[0] / 16) && Lower(s[1]) == HexDigit(bytes[0] % 16) &&
        LowerAll(s[2..]) == Hex(bytes[1..])
  {
    var h, l := Hex(bytes), LowerAll(s);
    assert h[0] == HexDigit(bytes[0] / 16) && h[1] == HexDigit(bytes[0] % 16) && h[2..] == Hex(bytes[1..]);
    assert l[2..] == LowerAll(s[2..]);
    assert l == [l[0], l[1]] + l[2..] && h == [h[0], h[1]] + h[2..];
  }

  /** Decoding inverts encoding, and accepts nothing else but changes of case. */
  lemma {:induction false} DecodeIff(s: Bytes, bytes: Bytes)
    ensures HexDecode(s) == Some(bytes) <==> LowerAll(s) == Hex(bytes)
  {
    if |s| >= 2 && bytes != [] {
      DecodeIff(s[2..], bytes[1..]);
      DigitIff(s[0], bytes[0] / 16);
      DigitIff(s[1], bytes[0] % 16);
      DecodeStep(s, bytes);
      EncodeStep(s, bytes);
    } else if s == [] && bytes == [] {
    } else {
      assert |LowerAll(s)| != |Hex(bytes)|;
    }
  }

  lemma DigitIff(b: Byte, n: int)
    requires 0 <= n < 16
    ensures HexValue(b) == Some(n) <==> Lower(b) == HexDigit(n)
  {
  }

  // ---- UUIDs ---------------------------------------------------------------------------

  /** Groups of 8, 4, 4, 4 and 12 digits. */
  function Hyphenate(h: Bytes): Bytes
    requires |h| == 32
  {
    h[..8] + [HYPHEN] + h[8..12] + [HYPHEN] + h[12..16] + [HYPHEN] + h[16..20] + [HYPHEN] + h[20..]
  }

  function FormatUuid(id: Uuid): (r: Bytes)
    ensures |r| == UUID_HYPHENATED_LEN
  {
    Hyphenate(Hex(id))
  }

  predicate HasHyphens(s: Bytes)
    requires |s| == UUID_HYPHENATED_LEN
  {
    s[8] == s[13] == s[18] == s[23] == HYPHEN
  }

  function StripHyphens(s: Bytes): (r: Bytes)
    requires |s| == UUID_HYPHENATED_LEN
    ensures |r| == 32
  {
    s[..8] + s[9..13] + s[14..18] + s[19..23] + s[24..]
  }

  /** `Uuid::parse_str` on a string of the hyphenated length. */
  function ParseUuid(s: Bytes): Option<Uuid>
    requires |s| == UUID_HYPHENATED_LEN
  {
    if !HasHyphens(s) then None
    else match HexDecode(StripHyphens(s))
      case Some(id) => if |id| == 16 then Some(id) else None
      case None => None
  }

  lemma StripUndoesHyphenate(h: Bytes)
    requires |h| == 32
    ensures StripHyphens(Hyphenate(h)) == h
  {
    var s := Hyphenate(h);
    assert s[..8] == h[..8] && s[9..13] == h[8..12] && s[14..18] == h[12..16] && s[19..23] == h[16..20] &&
      s[24..] == h[20..];
    assert h == h[..8] + h[8..12] + h[12..16] + h[16..20] + h[20..];
  }

  lemma HyphenateHyphenates(h: Bytes)
    requires |h| == 32
    ensures HasHyphens(Hyphenate(h))
  {
  }

  lemma HyphenateUndoesStrip(s: Bytes)
    requires |s| == UUID_HYPHENATED_LEN && HasHyphens(s)
    ensures Hyphenate(StripHyphens(s)) == s
  {
    var h := StripHyphens(s);
    assert h[..8] == s[..8] && h[8..12] == s[9..13] && h[12..16] == s[14..18] && h[16..20] == s[19..23] &&
      h[20..] == s[24..];
    assert s == s[..8] + [s[8]] + s[9..13] + [s[13]] + s[14..18] + [s[18]] + s[19..23] + [s[23]] + s[24..];
  }

  lemma HyphenateIff(s: Bytes, h: Bytes)
    requires |s| == UUID_HYPHENATED_LEN && |h| == 32
    ensures LowerAll(s) == Hyphenate(h) <==> HasHyphens(s) && LowerAll(StripHyphens(s)) == h
  {
    var l, t := LowerAll(s), StripHyphens(s);
    assert Hyphenate(h)[8] == Hyphenate(h)[13] == Hyphenate(h)[18] == Hyphenate(h)[23] == HYPHEN;
    StripUndoesHyphenate(h);
    assert LowerAll(t) == StripHyphens(l);
    if HasHyphens(s) && LowerAll(t) == h {
      assert l[8] == l[13] == l[18] == l[23] == HYPHEN;
      HyphenateUndoesStrip(l);
    }
    if l == Hyphenate(h) {
      assert l[8] == Lower(s[8]) && l[13] == Lower(s[13]) && l[18] == Lower(s[18]) && l[23] == Lower(s[23]);
    }
  }

  /** A UUID is accepted in any case, and prints in lower case. */
  lemma ParseUuidIff(s: Bytes, id: Uuid)
    requires |s| == UUID_HYPHENATED_LEN
    ensures ParseUuid(s) == Some(id) <==> LowerAll(s) == FormatUuid(id)
  {
    HyphenateIff(s, Hex(id));
    DecodeIff(StripHyphens(s), id);
  }

  // ---- Credentials ---------------------------------------------------------------------

  function Format(p: Presented): Bytes {
    FormatUuid(p.id) + [DOT] + Hex(p.secret)
  }

  function FirstDot(raw: Bytes): (i: nat)
    requires DOT in raw
    ensures i < |raw| && raw[i] == DOT && forall j :: 0 <= j < i ==> raw[j] != DOT
  {
    if raw[0] == DOT then 0 else FirstDot(raw[1..]) + 1
  }

  function ParsePresented(raw: Bytes): Result<Presented, FormatError> {
    if multiset(raw)[DOT] != 1 then Err(Shape)
    else
      var i := FirstDot(raw);
      var idPart, secretPart := raw[..i], raw[i + 1..];
      if |idPart| != UUID_HYPHENATED_LEN then Err(CredentialId)
      else match ParseUuid(idPart)
        case None => Err(CredentialId)
        case Some(id) =>
          if |secretPart| != SECRET_HEX_LEN then Err(FormatError.Secret)
          else if exists j :: 0 <= j < |secretPart| && !IsLowerHex(secretPart[j]) then Err(FormatError.Secret)
          else match HexDecode(secretPart)
            case None => Err(FormatError.Secret)
            case Some(secret) => if |secret| == SECRET_BYTES then Ok(Presented(id, secret)) else Err(FormatError.Secret)
  }

  /** `raw` spells `p`: the id in any case, the secret in the one case it has. */
  ghost predicate Spells(raw: Bytes, p: Presented) {
    && |p.secret| == SECRET_BYTES
    && |raw| == UUID_HYPHENATED_LEN + 1 + SECRET_HEX_LEN
    && LowerAll(raw[..UUID_HYPHENATED_LEN]) == FormatUuid(p.id)
    && raw[UUID_HYPHENATED_LEN] == DOT
    && raw[UUID_HYPHENATED_LEN + 1..] == Hex(p.secret)
  }

  lemma SpellingHasOneDot(raw: Bytes, p: Presented)
    requires Spells(raw, p)
    ensures multiset(raw)[DOT] == 1 && FirstDot(raw) == UUID_HYPHENATED_LEN
  {
    var n := UUID_HYPHENATED_LEN;
    var idPart, secretPart := raw[..n], raw[n + 1..];
    forall i | 0 <= i < n ensures idPart[i] != DOT {
      assert LowerAll(idPart)[i] == FormatUuid(p.id)[i];
    }
    assert raw == idPart + [DOT] + secretPart;
    assert DOT !in idPart && DOT !in secretPart;
    assert multiset(raw) == multiset(idPart) + multiset([DOT]) + multiset(secretPart);
    assert raw[n] == DOT;
    var f := FirstDot(raw);
    assert forall i :: 0 <= i < n ==> raw[i] == idPart[i];
  }

  lemma {:induction false} LowerHexIsUnchanged(s: Bytes)
    requires forall i :: 0 <= i < |s| ==> IsLowerHex(s[i])
    ensures LowerAll(s) == s
  {
    assert forall i :: 0 <= i < |s| ==> Lower(s[i]) == s[i];
  }

  /** A string parses to `p` if and only if it spells `p`. */
  lemma ParseIff(raw: Bytes, p: Presented)
    ensures ParsePresented(raw) == Ok(p) <==> Spells(raw, p)
  {
    var n := UUID_HYPHENATED_LEN;
    if Spells(raw, p) {
      SpellingHasOneDot(raw, p);
      ParseUuidIff(raw[..n], p.id);
      LowerHexIsUnchanged(raw[n + 1..]);
      DecodeIff(raw[n + 1..], p.secret);
    }
    if ParsePresented(raw) == Ok(p) {
      assert FirstDot(raw) == n;
      ParseUuidIff(raw[..n], p.id);
      LowerHexIsUnchanged(raw[n + 1..]);
      DecodeIff(raw[n + 1..], p.secret);
    }
  }

  /** What is issued is what is read back. */
  lemma FormatRoundTrip(p: Presented)
    requires |p.secret| == SECRET_BYTES
    ensures ParsePresented(Format(p)) == Ok(p)
  {
    hide ParsePresented, Hyphenate, StripHyphens;
    var raw, n := Format(p), UUID_HYPHENATED_LEN;
    assert raw[..n] == FormatUuid(p.id) && raw[n + 1..] == Hex(p.secret);
    StripUndoesHyphenate(Hex(p.id));
    LowerHexIsUnchanged(Hex(p.id));
    HyphenateHyphenates(Hex(p.id));
    HyphenateIff(raw[..n], Hex(p.id));
    ParseIff(raw, p);
  }

  /** Two accepted spellings of one credential differ at most in the case of the id. */
  lemma SpellingIsUniqueUpToIdCase(a: Bytes, b: Bytes)
    requires ParsePresented(a).Ok? && ParsePresented(a) == ParsePresented(b)
    ensures |a| == |b| == 101
    ensures LowerAll(a[..UUID_HYPHENATED_LEN]) == LowerAll(b[..UUID_HYPHENATED_LEN])
    ensures a[UUID_HYPHENATED_LEN..] == b[UUID_HYPHENATED_LEN..]
  {
    var p, n := ParsePresented(a).value, UUID_HYPHENATED_LEN;
    ParseIff(a, p);
    ParseIff(b, p);
    assert a[n..] == [a[n]] + a[n + 1..] && b[n..] == [b[n]] + b[n + 1..];
  }

  /** The case of the id does not matter: any recasing of an accepted string is accepted as the
      same credential.  A credential whose id has a letter therefore has several spellings. */
  lemma IdCaseIsIgnored(a: Bytes, b: Bytes)
    requires ParsePresented(a).Ok? && |b| == |a|
    requires LowerAll(a[..UUID_HYPHENATED_LEN]) == LowerAll(b[..UUID_HYPHENATED_LEN])
    requires a[UUID_HYPHENATED_LEN..] == b[UUID_HYPHENATED_LEN..]
    ensures ParsePresented(b) == ParsePresented(a)
  {
    var p, n := ParsePresented(a).value, UUID_HYPHENATED_LEN;
    ParseIff(a, p);
    assert a[n..][0] == b[n..][0] && a[n..][1..] == b[n..][1..];
    ParseIff(b, p);
  }

  /** No two strings are accepted as `p`. */
  ghost predicate HasOneSpelling(p: Presented) {
    forall a, b :: ParsePresented(a) == Ok(p) && ParsePresented(b) == Ok(p) ==> a == b
  }

  predicate IsHexLetter(b: Byte) {
    97 <= b <= 102
  }

  predicate IdHasLetter(id: Uuid) {
    exists i :: 0 <= i < UUID_HYPHENATED_LEN && IsHexLetter(FormatUuid(id)[i])
  }

  /** The printed form with its `i`-th character, a letter of the id, in upper case. */
  function Raised(p: Presented, i: nat): Bytes
    requires i < UUID_HYPHENATED_LEN && IsHexLetter(FormatUuid(p.id)[i])
  {
    Format(p)[i := Format(p)[i] - 32]
  }

  lemma RaisedIsAccepted(p: Presented, i: nat)
    requires |p.secret| == SECRET_BYTES && i < UUID_HYPHENATED_LEN && IsHexLetter(FormatUuid(p.id)[i])
    ensures ParsePresented(Raised(p, i)) == Ok(p) && Raised(p, i) != Format(p)
  {
    var a, b, n := Format(p), Raised(p, i), UUID_HYPHENATED_LEN;
    FormatRoundTrip(p);
    assert a[..n] == FormatUuid(p.id) && b[n..] == a[n..];
    assert LowerAll(a[..n]) == FormatUuid(p.id) by { ParseIff(a, p); }
    forall k | 0 <= k < n ensures LowerAll(b[..n])[k] == LowerAll(a[..n])[k] {
      assert b[..n][k] == b[k] && a[..n][k] == a[k];
    }
    assert LowerAll(b[..n]) == LowerAll(a[..n]);
    hide ParsePresented, Format, LowerAll, FormatUuid;
    IdCaseIsIgnored(a, b);
  }

  /** A credential has exactly one spelling if and only if its id has no letter among its digits. */
  lemma SpellingIsUniqueIff(p: Presented)
    requires |p.secret| == SECRET_BYTES
    ensures HasOneSpelling(p) <==> !IdHasLetter(p.id)
  {
    hide ParsePresented;
    FormatRoundTrip(p);
    if i :| 0 <= i < UUID_HYPHENATED_LEN && IsHexLetter(FormatUuid(p.id)[i]) {
      RaisedIsAccepted(p, i);
    } else {
      forall a, b | ParsePresented(a) == Ok(p) && ParsePresented(b) == Ok(p) ensures a == b {
        LetterlessSpelling(a, p);
        LetterlessSpelling(b, p);
      }
    }
  }

  lemma LetterlessSpelling(a: Bytes, p: Presented)
    requires ParsePresented(a) == Ok(p) && !IdHasLetter(p.id)
    ensures a == FormatUuid(p.id) + [DOT] + Hex(p.secret)
  {
    var n := UUID_HYPHENATED_LEN;
    ParseIff(a, p);
    forall i | 0 <= i < n ensures a[i] == FormatUuid(p.id)[i] {
      assert LowerAll(a[..n])[i] == Lower(a[i]);
      assert !IsHexLetter(FormatUuid(p.id)[i]);
      PrintedBytes(p.id, i);
    }
    assert a == a[..n] + [a[n]] + a[n + 1..];
    assert a[..n] == FormatUuid(p.id);
  }

  /** A printed id is lower-case digits and hyphens. */
  lemma PrintedBytes(id: Uuid, i: nat)
    requires i < UUID_HYPHENATED_LEN
    ensures IsLowerHex(FormatUuid(id)[i]) || FormatUuid(id)[i] == HYPHEN
  {
    var h := Hex(id);
    assert forall k :: 0 <= k < 32 ==> IsLowerHex(h[k]);
    hide Hex, IsLowerHex;
  }

  const LETTER_ID: Uuid := [0xA0, 0, 0, 0, 0, 0, 0, 0, 0, 0, 0, 0, 0, 0, 0, 0]

  lemma LetterIdStarts()
    ensures FormatUuid(LETTER_ID)[0] == 97
  {
    var h := Hex(LETTER_ID);
    assert h[0] == HexDigit(0xA0 / 16) == 97;
    hide Hex;
  }

  /** Two different strings accepted as one credential: "a0..." and "A0...". */
  lemma TwoSpellings(secret: Bytes)
    requires |secret| == SECRET_BYTES
    ensures var p := Presented(LETTER_ID, secret);
      var lower, upper := Format(p), Format(p)[0 := 65];
      lower != upper && ParsePresented(lower) == ParsePresented(upper) == Ok(p)
  {
    var p := Presented(LETTER_ID, secret);
    assert FormatUuid(LETTER_ID)[0] == 97 by { LetterIdStarts(); }
    assert Format(p)[0] == FormatUuid(p.id)[0];
    hide ParsePresented, Format, FormatUuid;
    FormatRoundTrip(p);
    RaisedIsAccepted(p, 0);
  }

  // ---- The printed form, character by character ----------------------------------------

  /** The two characters at `k` are the lower-case digits of `b`, the higher first. */
  predicate SpellsByte(s: Bytes, k: nat, b: Byte) {
    k + 1 < |s| && SpellsDigit(s[k], b / 16) && SpellsDigit(s[k + 1], b % 16)
  }

  /** '0' to '9' are 48 to 57, 'a' to 'f' 97 to 102. */
  predicate SpellsDigit(c: Byte, n: int) {
    (48 <= c <= 57 && n == c - 48) || (97 <= c <= 102 && n == c - 87)
  }

  lemma {:induction false} HexSpells(bytes: Bytes, i: nat)
    requires i < |bytes|
    ensures SpellsByte(Hex(bytes), 2 * i, bytes[i])
  {
    if i > 0 {
      HexSpells(bytes[1..], i - 1);
      assert Hex(bytes)[2..] == Hex(bytes[1..]);
      assert Hex(bytes)[2 * i] == Hex(bytes[1..])[2 * (i - 1)];
      assert Hex(bytes)[2 * i + 1] == Hex(bytes[1..])[2 * (i - 1) + 1];
    }
  }

  /** Where a byte of the id is printed: hyphens stand after the 4th, 6th, 8th and 10th. */
  function Place(i: nat): nat {
    2 * i + if i < 4 then 0 else if i < 6 then 1 else if i < 8 then 2 else if i < 10 then 3 else 4
  }

  lemma UuidSpells(id: Uuid, i: nat)
    requires i < 16
    ensures SpellsByte(FormatUuid(id), Place(i), id[i])
  {
    HexSpells(id, i);
    hide Hex;
    assert FormatUuid(id)[Place(i)] == Hex(id)[2 * i] && FormatUuid(id)[Place(i) + 1] == Hex(id)[2 * i + 1];
  }

  /** 101 characters: the id in digits and hyphens, a dot, the secret in digits. */
  lemma PrintedIs(p: Presented)
    requires |p.secret| == 32
    ensures var s := Format(p);
      && |s| == 101 && s[8] == s[13] == s[18] == s[23] == 45 && s[36] == 46
      && (forall i :: 0 <= i < 16 ==> SpellsByte(s, Place(i), p.id[i]))
      && (forall j :: 0 <= j < 32 ==> SpellsByte(s, 37 + 2 * j, p.secret[j]))
  {
    var s := Format(p);
    assert s[..36] == FormatUuid(p.id) && s[37..] == Hex(p.secret);
    assert s[8] == FormatUuid(p.id)[8] && s[13] == FormatUuid(p.id)[13];
    assert s[18] == FormatUuid(p.id)[18] && s[23] == FormatUuid(p.id)[23];
    forall i | 0 <= i < 16 ensures SpellsByte(s, Place(i), p.id[i]) {
      UuidSpells(p.id, i);
      assert s[Place(i)] == FormatUuid(p.id)[Place(i)] && s[Place(i) + 1] == FormatUuid(p.id)[Place(i) + 1];
    }
    forall j | 0 <= j < 32 ensures SpellsByte(s, 37 + 2 * j, p.secret[j]) {
      HexSpells(p.secret, j);
      assert s[37 + 2 * j] == Hex(p.secret)[2 * j] && s[37 + 2 * j + 1] == Hex(p.secret)[2 * j + 1];
    }
  }

  lemma UuidCharacters(id: Uuid, i: nat)
    requires i < 36
    ensures if i in {8, 13, 18, 23} then FormatUuid(id)[i] == 45 else IsLowerHex(FormatUuid(id)[i])
  {
    hide Hex;
  }

  /** Nothing is accepted but digits of either case, hyphens, and the dot, each in its place. */
  lemma AcceptedCharacters(raw: Bytes, i: nat)
    requires ParsePresented(raw).Ok? && i < |raw|
    ensures |raw| == 101 && (raw[i] == 46 <==> i == 36) && (raw[i] == 45 <==> i in {8, 13, 18, 23})
    ensures i > 36 ==> 48 <= raw[i] <= 57 || 97 <= raw[i] <= 102
    ensures i < 36 && i !in {8, 13, 18, 23} ==>
      48 <= raw[i] <= 57 || 97 <= raw[i] <= 102 || 65 <= raw[i] <= 70
  {
    var p := ParsePresented(raw).value;
    ParseIff(raw, p);
    hide ParsePresented;
    if i > 36 {
      assert raw[i] == raw[37..][i - 37];
    } else if i < 36 {
      assert Lower(raw[i]) == LowerAll(raw[..36])[i] == FormatUuid(p.id)[i];
      UuidCharacters(p.id, i);
    }
  }

  /** What a refused string is refused for: not one dot; else the id before it; else the secret. */
  lemma RefusedFor(raw: Bytes)
    ensures ParsePresented(raw) == Err(Shape) <==> multiset(raw)[46] != 1
    ensures multiset(raw)[46] == 1 ==> var i := FirstDot(raw);
      ParsePresented(raw) == Err(CredentialId) <==>
        !(i == 36 && exists id: Uuid :: LowerAll(raw[..36]) == FormatUuid(id))
  {
    if multiset(raw)[46] == 1 && FirstDot(raw) == 36 {
      var idPart := raw[..36];
      forall id: Uuid ensures ParseUuid(idPart) == Some(id) <==> LowerAll(idPart) == FormatUuid(id) {
        ParseUuidIff(idPart, id);
      }
      hide ParseUuid, LowerAll, FormatUuid, HexDecode;
      if ParseUuid(idPart).Some? {
        var id := ParseUuid(idPart).value;
        assert LowerAll(idPart) == FormatUuid(id);
      }
    }
  }
}
