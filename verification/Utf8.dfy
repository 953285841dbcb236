/** UTF-8: encoding, and decoding in which each maximal ill-formed part becomes U+FFFD, as in
    section 3.9 of the Unicode Standard. */
module Utf8Coding {
  type Byte = b: int | 0 <= b < 256

  const REPLACEMENT: char := 0xFFFD as char

  function Utf8Char(c: char): seq<Byte> {
    var n := c as int;
    if n < 0x80 then [n]
    else if n < 0x800 then [0xC0 + n / 0x40, 0x80 + n % 0x40]
    else if n < 0x1_0000 then [0xE0 + n / 0x1000, 0x80 + n / 0x40 % 0x40, 0x80 + n % 0x40]
    else [0xF0 + n / 0x4_0000, 0x80 + n / 0x1000 % 0x40, 0x80 + n / 0x40 % 0x40, 0x80 + n % 0x40]
  }

  function Utf8(s: string): seq<Byte> {
    if s == "" then [] else Utf8Char(s[0]) + Utf8(s[1..])
  }

  // ---- Lossy decoding ----

  /** Byte number `i` is there and within the range. */
  predicate At(s: seq<Byte>, i: nat, low: Byte, high: Byte) { i < |s| && low <= s[i] <= high }

  /** What the first bytes stand for, and how many they are. */
  datatype Unit = Unit(c: char, length: nat)

  function Bits(b: int, base: int): int { b - base }

  function Unit2(s: seq<Byte>): (u: Unit)
    requires s != [] && 0xC2 <= s[0] <= 0xDF
    ensures 1 <= u.length <= |s|
  {
    if !At(s, 1, 0x80, 0xBF) then Unit(REPLACEMENT, 1)
    else Unit((Bits(s[0], 0xC0) * 0x40 + Bits(s[1], 0x80)) as char, 2)
  }

  function Unit3(s: seq<Byte>): (u: Unit)
    requires s != [] && 0xE0 <= s[0] <= 0xEF
    ensures 1 <= u.length <= |s|
  {
    if !At(s, 1, if s[0] == 0xE0 then 0xA0 else 0x80, if s[0] == 0xED then 0x9F else 0xBF) then Unit(REPLACEMENT, 1)
    else if !At(s, 2, 0x80, 0xBF) then Unit(REPLACEMENT, 2)
    else Unit((Bits(s[0], 0xE0) * 0x1000 + Bits(s[1], 0x80) * 0x40 + Bits(s[2], 0x80)) as char, 3)
  }

  function Unit4(s: seq<Byte>): (u: Unit)
    requires s != [] && 0xF0 <= s[0] <= 0xF4
    ensures 1 <= u.length <= |s|
  {
    if !At(s, 1, if s[0] == 0xF0 then 0x90 else 0x80, if s[0] == 0xF4 then 0x8F else 0xBF) then Unit(REPLACEMENT, 1)
    else if !At(s, 2, 0x80, 0xBF) then Unit(REPLACEMENT, 2)
    else if !At(s, 3, 0x80, 0xBF) then Unit(REPLACEMENT, 3)
    else
      var n := Bits(s[0], 0xF0) * 0x4_0000 + Bits(s[1], 0x80) * 0x1000 + Bits(s[2], 0x80) * 0x40 + Bits(s[3], 0x80);
      Unit(n as char, 4)
  }

  function FirstUnit(s: seq<Byte>): (u: Unit)
    requires s != []
    ensures 1 <= u.length <= |s|
  {
    if s[0] < 0x80 then Unit(s[0] as char, 1)
    else if 0xC2 <= s[0] <= 0xDF then Unit2(s)
    else if 0xE0 <= s[0] <= 0xEF then Unit3(s)
    else if 0xF0 <= s[0] <= 0xF4 then Unit4(s)
    else Unit(REPLACEMENT, 1)
  }

  /** `String::from_utf8_lossy`. */
  function Lossy(s: seq<Byte>): string
    decreases |s|
  {
    if s == [] then "" else [FirstUnit(s).c] + Lossy(s[FirstUnit(s).length..])
  }

  // ---- Decoding an encoding ----

  /** The digits to base 0x40 of a character of two, three or four bytes, and their ranges. */
  lemma Digits2(n: nat)
    requires 0x80 <= n < 0x800
    ensures n == n / 0x40 * 0x40 + n % 0x40 && 2 <= n / 0x40 < 0x20
  {
  }

  lemma Digits3(n: nat)
    requires 0x800 <= n < 0x1_0000
    ensures n / 0x40 == n / 0x1000 * 0x40 + n / 0x40 % 0x40 && n == n / 0x40 * 0x40 + n % 0x40
    ensures n / 0x1000 < 0x10 && (n / 0x1000 == 0 ==> n / 0x40 % 0x40 >= 0x20)
    ensures n < 0xD800 && n / 0x1000 == 0xD ==> n / 0x40 % 0x40 < 0x20
    ensures n >= 0xE000 ==> n / 0x1000 != 0xD
  {
    assert n / 0x40 / 0x40 == n / 0x1000;
  }

  lemma Digits4(n: nat)
    requires 0x1_0000 <= n < 0x11_0000
    ensures n / 0x1000 == n / 0x4_0000 * 0x40 + n / 0x1000 % 0x40
    ensures n / 0x40 == n / 0x1000 * 0x40 + n / 0x40 % 0x40 && n == n / 0x40 * 0x40 + n % 0x40
    ensures n / 0x4_0000 <= 4 && (n / 0x4_0000 == 0 ==> n / 0x1000 % 0x40 >= 0x10)
    ensures n / 0x4_0000 == 4 ==> n / 0x1000 % 0x40 < 0x10
  {
    assert n / 0x1000 / 0x40 == n / 0x4_0000;
    assert n / 0x40 / 0x40 == n / 0x1000;
  }

  lemma Unit3OfDigits(s: seq<Byte>, a: nat, b: nat, d: nat, c: char)
    requires |s| >= 3 && a < 0x10 && b < 0x40 && d < 0x40
    requires s[0] == 0xE0 + a && s[1] == 0x80 + b && s[2] == 0x80 + d
    requires (a == 0 ==> b >= 0x20) && (a == 0xD ==> b < 0x20)
    requires c as int == (a * 0x40 + b) * 0x40 + d
    ensures FirstUnit(s) == Unit(c, 3)
  {
  }

  lemma Unit4OfDigits(s: seq<Byte>, a: nat, b: nat, d: nat, e: nat, c: char)
    requires |s| >= 4 && a <= 4 && b < 0x40 && d < 0x40 && e < 0x40
    requires s[0] == 0xF0 + a && s[1] == 0x80 + b && s[2] == 0x80 + d && s[3] == 0x80 + e
    requires (a == 0 ==> b >= 0x10) && (a == 4 ==> b < 0x10)
    requires c as int == ((a * 0x40 + b) * 0x40 + d) * 0x40 + e
    ensures FirstUnit(s) == Unit(c, 4)
  {
  }

  lemma FirstUnitOfChar(c: char, rest: seq<Byte>)
    ensures FirstUnit(Utf8Char(c) + rest) == Unit(c, |Utf8Char(c)|)
  {
    var n, s := c as int, Utf8Char(c) + rest;
    if 0x80 <= n < 0x800 {
      Digits2(n);
    } else if 0x800 <= n < 0x1_0000 {
      Digits3(n);
      Unit3OfDigits(s, n / 0x1000, n / 0x40 % 0x40, n % 0x40, c);
    } else if n >= 0x1_0000 {
      Digits4(n);
      Unit4OfDigits(s, n / 0x4_0000, n / 0x1000 % 0x40, n / 0x40 % 0x40, n % 0x40, c);
    }
  }

  /** Lossy decoding loses nothing of well-formed text. */
  lemma {:induction false} LossyInvertsUtf8(s: string)
    ensures Lossy(Utf8(s)) == s
  {
    if s != "" {
      var rest := Utf8(s[1..]);
      LossyInvertsUtf8(s[1..]);
      FirstUnitOfChar(s[0], rest);
      assert (Utf8Char(s[0]) + rest)[|Utf8Char(s[0])|..] == rest;
      assert s == [s[0]] + s[1..];
    }
  }

  // ---- What decoding keeps of any bytes ----

  /** The number of bytes that are not ASCII. */
  function High(s: seq<Byte>): nat {
    if s == [] then 0 else (if s[0] >= 128 then 1 else 0) + High(s[1..])
  }

  predicate IsHigh(c: char) { c as int >= 128 }

  predicate Ascii(s: string) { forall c | c in s :: !IsHigh(c) }

  /** The number of characters that are not ASCII. */
  function HighChars(s: string): nat {
    if s == "" then 0 else (if IsHigh(s[0]) then 1 else 0) + HighChars(s[1..])
  }

  function Replacements(s: string): nat {
    if s == "" then 0 else (if s[0] == REPLACEMENT then 1 else 0) + Replacements(s[1..])
  }

  lemma {:induction false} HighAdds(s: seq<Byte>, t: seq<Byte>)
    ensures High(s + t) == High(s) + High(t)
  {
    if s == [] {
      assert s + t == t;
    } else {
      assert (s + t)[1..] == s[1..] + t;
      HighAdds(s[1..], t);
    }
  }

  lemma {:induction false} HighOfAscii(s: seq<Byte>)
    requires forall b :: b in s ==> b < 128
    ensures High(s) == 0
  {
    if s != [] {
      assert s[0] in s && forall b :: b in s[1..] ==> b in s;
      HighOfAscii(s[1..]);
    }
  }

  lemma {:induction false} HighOfHigh(s: seq<Byte>)
    requires forall b :: b in s ==> b >= 128
    ensures High(s) == |s|
  {
    if s != [] {
      assert s[0] in s && forall b :: b in s[1..] ==> b in s;
      HighOfHigh(s[1..]);
    }
  }

  lemma {:induction false} AsciiHasNoHigh(s: string)
    ensures Ascii(s) <==> HighChars(s) == 0
    ensures Replacements(s) <= HighChars(s)
  {
    if s != "" {
      AsciiHasNoHigh(s[1..]);
      assert s == [s[0]] + s[1..];
    }
  }

  /** An ASCII byte is its own character; any other character comes from bytes that are not ASCII,
      and from a single one only as a replacement. */
  lemma FirstUnitReads(s: seq<Byte>)
    requires s != []
    ensures var u := FirstUnit(s);
            if s[0] < 128 then u == Unit(s[0] as char, 1)
            else IsHigh(u.c) && (forall b :: b in s[..u.length] ==> b >= 128) && (u.length == 1 ==> u.c == REPLACEMENT)
  {
  }

  lemma {:induction false} LossyCounts(s: seq<Byte>)
    ensures |s| - High(s) == |Lossy(s)| - HighChars(Lossy(s))
    ensures High(s) >= 2 * HighChars(Lossy(s)) - Replacements(Lossy(s))
    decreases |s|
  {
    if s != [] {
      var u := FirstUnit(s);
      var head, rest := s[..u.length], s[u.length..];
      LossyCounts(rest);
      FirstUnitReads(s);
      assert s == head + rest;
      HighAdds(head, rest);
      assert Lossy(s)[1..] == Lossy(rest);
      if s[0] < 128 { assert head == [s[0]]; HighOfAscii(head); } else { HighOfHigh(head); }
    }
  }
}
