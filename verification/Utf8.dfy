/** UTF-8, written and read as the Rust standard library does: `String::from_utf8_lossy` puts one
    U+FFFD in place of each maximal part of an ill-formed sequence. */
module Utf8 {
  import opened Common

  type Bytes = seq<Byte>

  const REPLACEMENT: char := '\U{FFFD}'
  const NEWLINE: Byte := 10

  // ---- Writing -------------------------------------------------------------------------

  function EncodeChar(c: char): (r: Bytes)
    ensures 1 <= |r| <= 4
  {
    var n := c as int;
    if n < 0x80 then [n]
    else if n < 0x800 then [0xC0 + n / 64, 0x80 + n % 64]
    else if n < 0x1_0000 then [0xE0 + n / 4096, 0x80 + n / 64 % 64, 0x80 + n % 64]
    else [0xF0 + n / 262144, 0x80 + n / 4096 % 64, 0x80 + n / 64 % 64, 0x80 + n % 64]
  }

  function Encode(text: string): Bytes {
    if text == "" then [] else EncodeChar(text[0]) + Encode(text[1..])
  }

  // ---- Reading -------------------------------------------------------------------------

  predicate IsContinuation(b: Byte) {
    0x80 <= b <= 0xBF
  }

  /** What may follow a first byte: no overlong form, no surrogate, nothing above U+10FFFF. */
  predicate MayFollow(first: Byte, b: Byte) {
    if first == 0xE0 then 0xA0 <= b <= 0xBF
    else if first == 0xED then 0x80 <= b <= 0x9F
    else if first == 0xF0 then 0x90 <= b <= 0xBF
    else if first == 0xF4 then 0x80 <= b <= 0x8F
    else IsContinuation(b)
  }

  /** The length of the sequence a first byte announces, or 0. */
  function Width(b: Byte): nat {
    if b < 0x80 then 1
    else if 0xC2 <= b <= 0xDF then 2
    else if 0xE0 <= b <= 0xEF then 3
    else if 0xF0 <= b <= 0xF4 then 4
    else 0
  }

  /** How many bytes at the front belong together: a whole sequence, or as much of one as is well
      formed. */
  function Extent(s: Bytes): (n: nat)
    requires s != []
    ensures 1 <= n <= |s|
  {
    var w := Width(s[0]);
    if w <= 1 || |s| < 2 || !MayFollow(s[0], s[1]) then 1
    else if w == 2 || |s| < 3 || !IsContinuation(s[2]) then 2
    else if w == 3 || |s| < 4 || !IsContinuation(s[3]) then 3
    else 4
  }

  /** The payload of a byte, its marker taken off. */
  function Bits(b: Byte, marker: int): int {
    b as int - marker
  }

  function HeadChar(s: Bytes): char
    requires s != []
  {
    if Extent(s) != Width(s[0]) then REPLACEMENT
    else if Extent(s) == 1 then s[0] as char
    else if Extent(s) == 2 then (Bits(s[0], 0xC0) * 64 + Bits(s[1], 0x80)) as char
    else if Extent(s) == 3 then (Bits(s[0], 0xE0) * 4096 + Bits(s[1], 0x80) * 64 + Bits(s[2], 0x80)) as char
    else (Bits(s[0], 0xF0) * 262144 + Bits(s[1], 0x80) * 4096 + Bits(s[2], 0x80) * 64 + Bits(s[3], 0x80)) as char
  }

  function Lossy(s: Bytes): string
    decreases |s|
  {
    if s == [] then "" else [HeadChar(s)] + Lossy(s[Extent(s)..])
  }

  // ---- Round trip ----------------------------------------------------------------------

  lemma TwoAreRead(c: char, s: Bytes)
    requires 0x80 <= c as int < 0x800 && EncodeChar(c) <= s
    ensures Extent(s) == 2 && HeadChar(s) == c
  {
    var e := EncodeChar(c);
    assert s[0] == e[0] && s[1] == e[1];
  }

  lemma ThreeAreRead(c: char, s: Bytes)
    requires 0x800 <= c as int < 0x1_0000 && EncodeChar(c) <= s
    ensures Extent(s) == 3 && HeadChar(s) == c
  {
    var e, n := EncodeChar(c), c as int;
    assert s[0] == e[0] && s[1] == e[1] && s[2] == e[2];
    assert n / 64 == n / 4096 * 64 + n / 64 % 64;
  }

  lemma FourAreRead(c: char, s: Bytes)
    requires 0x1_0000 <= c as int && EncodeChar(c) <= s
    ensures Extent(s) == 4 && HeadChar(s) == c
  {
    var e, n := EncodeChar(c), c as int;
    assert s[0] == e[0] && s[1] == e[1] && s[2] == e[2] && s[3] == e[3];
    assert n / 64 == n / 4096 * 64 + n / 64 % 64;
    assert n / 4096 == n / 262144 * 64 + n / 4096 % 64;
  }

  lemma HeadIsRead(c: char, rest: Bytes)
    ensures Extent(EncodeChar(c) + rest) == |EncodeChar(c)| && HeadChar(EncodeChar(c) + rest) == c
  {
    var s := EncodeChar(c) + rest;
    if c as int < 0x80 {
      assert s[0] == EncodeChar(c)[0];
    } else if c as int < 0x800 {
      TwoAreRead(c, s);
    } else if c as int < 0x1_0000 {
      ThreeAreRead(c, s);
    } else {
      FourAreRead(c, s);
    }
  }

  /** Reading undoes writing. */
  lemma {:induction false} ReadsBack(text: string)
    ensures Lossy(Encode(text)) == text
  {
    if text != "" {
      var head, rest := EncodeChar(text[0]), Encode(text[1..]);
      HeadIsRead(text[0], rest);
      ReadsBack(text[1..]);
      assert (head + rest)[|head|..] == rest;
      assert text == [text[0]] + text[1..];
    }
  }

  /** So different texts have different bytes. */
  lemma EncodeIsInjective(a: string, b: string)
    ensures Encode(a) == Encode(b) <==> a == b
  {
    ReadsBack(a);
    ReadsBack(b);
  }

  // ---- Reading piece by piece ----------------------------------------------------------

  predicate EndsLine(a: Bytes) {
    a == [] || a[|a| - 1] == NEWLINE
  }

  lemma HeadStays(a: Bytes, b: Bytes)
    requires a != [] && EndsLine(a)
    ensures Extent(a + b) == Extent(a) && HeadChar(a + b) == HeadChar(a)
    ensures EndsLine(a[Extent(a)..])
  {
    assert forall i :: 0 <= i < |a| ==> (a + b)[i] == a[i];
    assert !IsContinuation(NEWLINE) && !MayFollow(a[0], NEWLINE);
  }

  function Rest(s: Bytes): (r: Bytes)
    requires s != []
    ensures |r| < |s|
  {
    s[Extent(s)..]
  }

  lemma LossyStep(a: Bytes, b: Bytes)
    requires a != [] && EndsLine(a)
    ensures Lossy(a) == [HeadChar(a)] + Lossy(Rest(a)) && Lossy(a + b) == [HeadChar(a)] + Lossy(Rest(a) + b)
    ensures EndsLine(Rest(a))
  {
    HeadStays(a, b);
    hide HeadChar, Extent;
    assert (a + b)[Extent(a)..] == a[Extent(a)..] + b;
  }

  /** A newline is never inside a longer sequence, so a stream may be cut after one. */
  lemma {:induction false} LossyJoin(a: Bytes, b: Bytes)
    requires EndsLine(a)
    ensures Lossy(a + b) == Lossy(a) + Lossy(b)
    decreases |a|
  {
    if a == [] {
      assert a + b == b && "" + Lossy(b) == Lossy(b);
    } else {
      hide Lossy, HeadChar, Rest, EndsLine;
      LossyStep(a, b);
      LossyJoin(Rest(a), b);
      Regrouped([HeadChar(a)], Lossy(Rest(a)), Lossy(b));
    }
  }

  lemma {:induction false} LossyEndsLine(a: Bytes)
    requires a != [] && EndsLine(a)
    ensures Lossy(a) != "" && Lossy(a)[|Lossy(a)| - 1] == '\n'
    decreases |a|
  {
    HeadStays(a, []);
    var n := Extent(a);
    if n < |a| {
      LossyEndsLine(a[n..]);
    } else {
      assert a[n..] == [];
      assert a[n - 1] == NEWLINE;
      assert n == 1;
    }
  }

  // ---- The form of a character ---------------------------------------------------------

  lemma {:induction false} EncodeJoin(a: string, b: string)
    ensures Encode(a + b) == Encode(a) + Encode(b)
  {
    if a == "" {
      assert a + b == b;
    } else {
      assert (a + b)[1..] == a[1..] + b;
      EncodeJoin(a[1..], b);
      Regrouped(EncodeChar(a[0]), Encode(a[1..]), Encode(b));
    }
  }

  /** The six bits a continuation byte holds. */
  function Held(b: Byte): int {
    b as int - 0x80
  }

  predicate IsTwo(s: Bytes, n: int) {
    |s| == 2 && 0xC0 <= s[0] < 0xE0 && IsContinuation(s[1]) && n == (s[0] as int - 0xC0) * 0x40 + Held(s[1])
  }

  predicate IsThree(s: Bytes, n: int) {
    && |s| == 3 && 0xE0 <= s[0] < 0xF0 && IsContinuation(s[1]) && IsContinuation(s[2])
    && n == (s[0] as int - 0xE0) * 0x1000 + Held(s[1]) * 0x40 + Held(s[2])
  }

  predicate IsFour(s: Bytes, n: int) {
    && |s| == 4 && 0xF0 <= s[0] < 0xF5 && IsContinuation(s[1]) && IsContinuation(s[2]) && IsContinuation(s[3])
    && n == (s[0] as int - 0xF0) * 0x4_0000 + Held(s[1]) * 0x1000 + Held(s[2]) * 0x40 + Held(s[3])
  }

  lemma TwoHold(c: char)
    requires 0x80 <= c as int < 0x800
    ensures IsTwo(EncodeChar(c), c as int)
  {
  }

  lemma ThreeHold(c: char)
    requires 0x800 <= c as int < 0x1_0000
    ensures IsThree(EncodeChar(c), c as int)
  {
    var n := c as int;
    assert n / 64 == n / 4096 * 64 + n / 64 % 64;
  }

  lemma FourHold(c: char)
    requires 0x1_0000 <= c as int
    ensures IsFour(EncodeChar(c), c as int)
  {
    var n := c as int;
    assert n / 64 == n / 4096 * 64 + n / 64 % 64;
    assert n / 4096 == n / 262144 * 64 + n / 4096 % 64;
  }

  /** The table of section 3 of RFC 3629: how many bytes, their ranges, and the number they hold. */
  lemma CharIs(c: char)
    ensures var s, n := Encode([c]), c as int;
      && (n < 0x80 ==> s == [n])
      && (0x80 <= n < 0x800 ==> IsTwo(s, n))
      && (0x800 <= n < 0x1_0000 ==> IsThree(s, n))
      && (0x1_0000 <= n ==> IsFour(s, n))
  {
    var n := c as int;
    assert [c][1..] == "" && Encode([c]) == EncodeChar(c) + [] == EncodeChar(c);
    assert n < 0x80 ==> EncodeChar(c) == [n];
    hide EncodeChar, IsTwo, IsThree, IsFour;
    if n < 0x80 {
    } else if n < 0x800 {
      TwoHold(c);
    } else if n < 0x1_0000 {
      ThreeHold(c);
    } else {
      FourHold(c);
    }
  }

  /** The bytes from `k` on begin with `n` that are read as `c`. */
  ghost predicate Begins(s: Bytes, k: nat, n: nat, c: char) {
    k < |s| && Extent(s[k..]) == n && HeadChar(s[k..]) == c
  }

  lemma LossyFrom(s: Bytes, k: nat, n: nat, c: char)
    requires Begins(s, k, n, c)
    ensures k + n <= |s| && Lossy(s[k..]) == [c] + Lossy(s[k + n..])
  {
    assert s[k..][n..] == s[k + n..];
  }

  const ILL_FORMED: Bytes := [0x61, 0xF1, 0x80, 0x80, 0xE1, 0x80, 0xC2, 0x62, 0x80, 0x63, 0x80, 0xBF, 0x64]

  lemma IllFormedParts()
    ensures var s := ILL_FORMED;
      && Begins(s, 0, 1, 'a') && Begins(s, 1, 3, '\U{FFFD}') && Begins(s, 4, 2, '\U{FFFD}')
      && Begins(s, 6, 1, '\U{FFFD}') && Begins(s, 7, 1, 'b') && Begins(s, 8, 1, '\U{FFFD}') && Begins(s, 9, 1, 'c')
      && Begins(s, 10, 1, '\U{FFFD}') && Begins(s, 11, 1, '\U{FFFD}') && Begins(s, 12, 1, 'd')
  {
  }

  /** The ill-formed bytes of table 3-8 of the Unicode Standard, section 3.9, are read as it shows. */
  lemma IllFormedIsReplaced()
    ensures Lossy(ILL_FORMED)
         == ['a'] + (['\U{FFFD}'] + (['\U{FFFD}'] + (['\U{FFFD}'] + (['b'] + (['\U{FFFD}'] + (['c']
            + (['\U{FFFD}'] + (['\U{FFFD}'] + (['d'] + "")))))))))
  {
    var s := ILL_FORMED;
    IllFormedParts();
    assert s[0..] == s && s[13..] == [] && Lossy([]) == "";
    hide Lossy, Begins, Extent, HeadChar;
    LossyFrom(s, 0, 1, 'a');
    LossyFrom(s, 1, 3, '\U{FFFD}');
    LossyFrom(s, 4, 2, '\U{FFFD}');
    LossyFrom(s, 6, 1, '\U{FFFD}');
    LossyFrom(s, 7, 1, 'b');
    LossyFrom(s, 8, 1, '\U{FFFD}');
    LossyFrom(s, 9, 1, 'c');
    LossyFrom(s, 10, 1, '\U{FFFD}');
    LossyFrom(s, 11, 1, '\U{FFFD}');
    LossyFrom(s, 12, 1, 'd');
  }
}
