/** The percent decoder of client command labels against the Host's percent encoder
    (section 2.1 of RFC 3986, with the unreserved characters of its section 2.3). */
module PercentCoding {
  import opened Texts
  import opened Utf8Coding
  import opened Wrappers

  // ---- Decoding ----

  function FromHex(b: Byte): (r: Option<nat>)
    ensures r.Some? ==> r.value < 16
  {
    if 0x30 <= b <= 0x39 then Some(b - 0x30)
    else if 0x61 <= b <= 0x66 then Some(b - 0x61 + 10)
    else if 0x41 <= b <= 0x46 then Some(b - 0x41 + 10)
    else None
  }

  const PERCENT: Byte := 0x25

  /** A valid escape starts here. */
  predicate IsEscape(s: seq<Byte>) {
    |s| >= 3 && s[0] == PERCENT && FromHex(s[1]).Some? && FromHex(s[2]).Some?
  }

  function Escaped(s: seq<Byte>): Byte
    requires IsEscape(s)
  {
    16 * FromHex(s[1]).value + FromHex(s[2]).value
  }

  function Decode(s: seq<Byte>): seq<Byte> {
    if s == [] then []
    else if IsEscape(s) then [Escaped(s)] + Decode(s[3..])
    else [s[0]] + Decode(s[1..])
  }

  /** Decoding one more step, as the loop takes it after the bytes already pushed. */
  lemma DecodeStep(done: seq<Byte>, s: seq<Byte>)
    requires s != []
    ensures IsEscape(s) ==> done + Decode(s) == done + [Escaped(s)] + Decode(s[3..])
    ensures !IsEscape(s) ==> done + Decode(s) == done + [s[0]] + Decode(s[1..])
  {
    if IsEscape(s) {
      assert Decode(s) == [Escaped(s)] + Decode(s[3..]);
    } else {
      assert Decode(s) == [s[0]] + Decode(s[1..]);
    }
  }

  /** The index loop of `decode_client_cmd_label`, on the bytes of the trimmed label. */
  method DecodeBytes(input: seq<Byte>) returns (bytes: seq<Byte>)
    ensures bytes == Decode(input)
  {
    bytes := [];
    var index := 0;
    while index < |input|
      invariant index <= |input|
      invariant bytes + Decode(input[index..]) == Decode(input)
      decreases |input| - index
    {
      DecodeStep(bytes, input[index..]);
      if input[index] == PERCENT && index + 2 < |input| {
        var hi, lo := FromHex(input[index + 1]), FromHex(input[index + 2]);
        if hi.Some? && lo.Some? {
          assert IsEscape(input[index..]) && input[index..][3..] == input[index + 3..];
          bytes := bytes + [16 * hi.value + lo.value];
          index := index + 3;
          continue;
        }
      }
      assert !IsEscape(input[index..]) && input[index..][1..] == input[index + 1..];
      bytes := bytes + [input[index]];
      index := index + 1;
    }
  }

  /** What a label decodes to. */
  function DecodeLabel(raw: string): string {
    if Trim(raw) == "" then "" else Lossy(Decode(Utf8(Trim(raw))))
  }

  method DecodeClientCmdLabel(raw: string) returns (text: string)
    ensures text == DecodeLabel(raw)
  {
    var trimmed := Trim(raw);
    if trimmed == "" {
      return "";
    }
    var bytes := DecodeBytes(Utf8(trimmed));
    return Lossy(bytes);
  }

  /** The positions of the text at which a valid escape starts. */
  function EscapesIn(s: seq<Byte>): nat {
    if s == [] then 0 else (if IsEscape(s) then 1 else 0) + EscapesIn(s[1..])
  }

  /** Every valid escape is decoded, wherever it stands, and shortens the text by exactly 2. */
  lemma {:induction false} EachEscapeShortensByTwo(s: seq<Byte>)
    ensures |Decode(s)| + 2 * EscapesIn(s) == |s|
    decreases |s|
  {
    if s == [] {
    } else if IsEscape(s) {
      EachEscapeShortensByTwo(s[3..]);
      assert s[1..][1..] == s[2..] && s[2..][1..] == s[3..];
      assert s[1..][0] != PERCENT && s[2..][0] != PERCENT;
      assert EscapesIn(s[1..]) == EscapesIn(s[2..]) == EscapesIn(s[3..]);
    } else {
      EachEscapeShortensByTwo(s[1..]);
    }
  }

  /** Text is left literally exactly when it holds no valid escape; malformed ones are kept. */
  lemma {:induction false} DecodeKeepsExactlyEscapeFree(s: seq<Byte>)
    ensures Decode(s) == s <==> EscapesIn(s) == 0
    decreases |s|
  {
    EachEscapeShortensByTwo(s);
    if EscapesIn(s) == 0 && s != [] {
      DecodeKeepsExactlyEscapeFree(s[1..]);
      assert [s[0]] + s[1..] == s;
    }
  }

  // ---- Encoding ----

  predicate Unreserved(c: char) {
    'A' <= c <= 'Z' || 'a' <= c <= 'z' || '0' <= c <= '9' || c == '-' || c == '_' || c == '.' || c == '~'
  }

  function HexDigit(n: nat): Byte
    requires n < 16
  {
    if n < 10 then 0x30 + n else 0x41 + (n - 10)
  }

  /** Upper-case hexadecimal, no leading zeros. */
  function Hex(n: nat): (r: seq<Byte>)
    ensures |r| >= 1 && (n >= 16 ==> |r| >= 2)
    ensures forall b :: b in r ==> b < 128 && b != PERCENT && FromHex(b).Some?
  {
    if n < 16 then [HexDigit(n)] else Hex(n / 16) + [HexDigit(n % 16)]
  }

  /** `format!("%{:02X}", ch as u32)`, as bytes. */
  function Escape(c: char): seq<Byte> {
    var n := c as int;
    [PERCENT] + (if n < 16 then [0x30] else []) + Hex(n)
  }

  /** `urlencoding_path`, as the bytes of its (always ASCII) result. */
  function Encode(s: string): seq<Byte> {
    if s == "" then [] else (if Unreserved(s[0]) then [s[0] as int] else Escape(s[0])) + Encode(s[1..])
  }

  // ---- Decoding an encoding ----

  lemma {:induction false} DecodeLiteral(text: seq<Byte>, rest: seq<Byte>)
    requires PERCENT !in text
    ensures Decode(text + rest) == text + Decode(rest)
    decreases |text|
  {
    if text == [] {
      assert text + rest == rest;
    } else {
      DecodeLiteral(text[1..], rest);
      var s := text + rest;
      assert s[0] == text[0] && s[1..] == text[1..] + rest;
      DecodeStep([], s);
      assert [text[0]] + (text[1..] + Decode(rest)) == text + Decode(rest);
    }
  }

  /** Text starting with an escape, followed by plain text. */
  lemma DecodeEscape(e: seq<Byte>, rest: seq<Byte>)
    requires IsEscape(e) && PERCENT !in e[3..]
    ensures Decode(e + rest) == [Escaped(e)] + e[3..] + Decode(rest)
  {
    var t := e + rest;
    assert t[0] == e[0] && t[1] == e[1] && t[2] == e[2];
    assert t[3..] == e[3..] + rest;
    DecodeLiteral(e[3..], rest);
    DecodeStep([], t);
  }

  /** What decoding makes of one encoded character: its first two digits become a byte, further
      digits stay as they are. */
  function Recoded(c: char): seq<Byte> {
    if Unreserved(c) then [c as int] else [Escaped(Escape(c))] + Escape(c)[3..]
  }

  lemma EscapeFacts(c: char)
    ensures IsEscape(Escape(c)) && PERCENT !in Escape(c)[3..]
    ensures forall b :: b in Escape(c)[3..] ==> b < 128
    ensures c as int < 256 ==> Escape(c)[3..] == [] && Escaped(Escape(c)) == c as int
  {
    var n := c as int;
    var e := Escape(c);
    if n < 16 {
      assert e == [PERCENT, 0x30, HexDigit(n)];
    } else {
      assert e == [PERCENT] + Hex(n);
      assert e[1] == Hex(n)[0] && e[2] == Hex(n)[1];
      assert e[3..] == Hex(n)[2..];
      assert forall b :: b in e[3..] ==> b in Hex(n);
      if n < 256 {
        assert Hex(n) == [HexDigit(n / 16)] + [HexDigit(n % 16)];
      }
    }
  }

  lemma {:induction false} DecodeOfEncode(s: string)
    ensures s == "" ==> Decode(Encode(s)) == []
    ensures s != "" ==> Decode(Encode(s)) == Recoded(s[0]) + Decode(Encode(s[1..]))
  {
    if s != "" {
      var c, rest := s[0], Encode(s[1..]);
      if Unreserved(c) {
        DecodeLiteral([c as int], rest);
      } else {
        EscapeFacts(c);
        DecodeEscape(Escape(c), rest);
      }
    }
  }

  lemma CharHighs(c: char)
    ensures c as int < 128 ==> Recoded(c) == Utf8Char(c) && High(Utf8Char(c)) == 0
    ensures c as int >= 128 ==> High(Recoded(c)) <= 1 && High(Utf8Char(c)) >= 2
  {
    EscapeFacts(c);
    if c as int >= 128 {
      var e := Escape(c);
      HighOfAscii(e[3..]);
      assert Recoded(c)[1..] == e[3..];
      var u := Utf8Char(c);
      assert u[0] >= 128 && u[1] >= 128;
      assert High(u) == 1 + High(u[1..]) && High(u[1..]) == 1 + High(u[1..][1..]);
    } else {
      HighOfAscii(Utf8Char(c));
    }
  }

  /** In the decoder's bytes, before they are read as text, characters that are not ASCII lose
      bytes: at most one byte above 127 each is left, where their text has at least two. */
  lemma {:induction false} EncodingLosesHighBytes(s: string)
    ensures Ascii(s) ==> Decode(Encode(s)) == Utf8(s)
    ensures High(Decode(Encode(s))) <= High(Utf8(s))
    ensures !Ascii(s) ==> High(Decode(Encode(s))) < High(Utf8(s))
  {
    DecodeOfEncode(s);
    if s != "" {
      EncodingLosesHighBytes(s[1..]);
      CharHighs(s[0]);
      HighAdds(Recoded(s[0]), Decode(Encode(s[1..])));
      HighAdds(Utf8Char(s[0]), Utf8(s[1..]));
      AsciiSplits(s);
    }
  }

  lemma AsciiSplits(s: string)
    requires s != ""
    ensures Ascii(s) <==> !IsHigh(s[0]) && Ascii(s[1..])
  {
    assert s[0] in s && forall c :: c in s[1..] ==> c in s;
    assert s == [s[0]] + s[1..];
  }

  /** The bytes come back exactly for ASCII strings. */
  lemma DecodeInvertsEncodeIffAscii(s: string)
    ensures Decode(Encode(s)) == Utf8(s) <==> Ascii(s)
  {
    EncodingLosesHighBytes(s);
  }

  /** A replacement character is encoded by four digits, of which two are left. */
  lemma ReplacementLeavesDigits()
    ensures |Recoded(REPLACEMENT)| == 3
  {
    assert 0xFFFD / 16 == 0xFFF && 0xFFF / 16 == 0xFF && 0xFF / 16 == 0xF;
    assert Hex(0xF) == [HexDigit(0xF)];
    assert Hex(0xFF) == Hex(0xF) + [HexDigit(0xF)];
    assert Hex(0xFFF) == Hex(0xFF) + [HexDigit(0xF)];
    assert |Hex(0xFFFD)| == 4;
    assert |Escape(REPLACEMENT)| == 5;
  }

  lemma CharCounts(c: char)
    ensures High(Recoded(c)) <= if IsHigh(c) then 1 else 0
    ensures |Recoded(c)| - High(Recoded(c))
            >= (if IsHigh(c) then 0 else 1) + if c == REPLACEMENT then 2 else 0
  {
    CharHighs(c);
    HighIsPart(Recoded(c));
    if c == REPLACEMENT { ReplacementLeavesDigits(); }
  }

  lemma {:induction false} HighIsPart(s: seq<Byte>)
    ensures High(s) <= |s|
  {
    if s != [] { HighIsPart(s[1..]); }
  }

  /** Each character that is not ASCII leaves at most one byte above 127, and a replacement
      character two ASCII digits besides. */
  lemma {:induction false} EncodingCounts(s: string)
    ensures var d := Decode(Encode(s));
            && High(d) <= HighChars(s)
            && |d| - High(d) >= |s| - HighChars(s) + 2 * Replacements(s)
  {
    DecodeOfEncode(s);
    if s != "" {
      EncodingCounts(s[1..]);
      CharCounts(s[0]);
      HighAdds(Recoded(s[0]), Decode(Encode(s[1..])));
    }
  }

  /** The encoding has no whitespace for the decoder to trim. */
  lemma {:induction false} EncodingIsTrimmed(s: string)
    ensures forall b :: b in Encode(s) ==> 0x21 <= b < 0x7F
  {
    if s != "" {
      EncodingIsTrimmed(s[1..]);
      forall b | b in Escape(s[0]) ensures 0x21 <= b < 0x7F {
        if b in Hex(s[0] as int) { assert FromHex(b).Some?; }
      }
    }
  }

  // ---- As labels ----

  /** Bytes as the text that has them for its characters. */
  function Text(bytes: seq<Byte>): string {
    if bytes == [] then "" else [bytes[0] as char] + Text(bytes[1..])
  }

  lemma {:induction false} TextHas(bytes: seq<Byte>)
    ensures |Text(bytes)| == |bytes|
    ensures forall i :: 0 <= i < |bytes| ==> Text(bytes)[i] == bytes[i] as char
  {
    if bytes != [] {
      TextHas(bytes[1..]);
      assert forall i :: 0 < i < |bytes| ==> Text(bytes)[i] == Text(bytes[1..])[i - 1];
    }
  }

  /** Text without whitespace and beyond ASCII reaches the decoder byte for byte. */
  lemma {:induction false} TextReaches(bytes: seq<Byte>)
    requires forall b :: b in bytes ==> 0x21 <= b < 0x7F
    ensures Utf8(Text(bytes)) == bytes
  {
    if bytes != [] {
      var b, rest := bytes[0], bytes[1..];
      assert b in bytes && forall x :: x in rest ==> x in bytes;
      TextReaches(rest);
      assert Text(bytes)[1..] == Text(rest) && Utf8Char(b as char) == [b];
      assert [b] + rest == bytes;
    }
  }

  lemma LabelOfText(bytes: seq<Byte>)
    requires forall b :: b in bytes ==> 0x21 <= b < 0x7F
    ensures DecodeLabel(Text(bytes)) == Lossy(Decode(bytes))
  {
    var text := Text(bytes);
    TextReaches(bytes);
    TextHas(bytes);
    if bytes != [] {
      assert bytes[0] in bytes && bytes[|bytes| - 1] in bytes;
      assert !IsWhitespace(text[0]) && !IsWhitespace(text[|text| - 1]);
    }
    TrimKeeps(text);
  }

  /** Decoding inverts the Host's encoding on every ASCII string, and on no other string. */
  lemma RoundTripIffAscii(s: string)
    ensures DecodeLabel(Text(Encode(s))) == s <==> Ascii(s)
  {
    EncodingIsTrimmed(s);
    LabelOfText(Encode(s));
    var d := Decode(Encode(s));
    if Ascii(s) {
      EncodingLosesHighBytes(s);
      LossyInvertsUtf8(s);
    }
    if Lossy(d) == s {
      EncodingCounts(s);
      LossyCounts(d);
      AsciiHasNoHigh(s);
    }
  }

  // ---- The standard encoding ----

  /** Percent encoding of the bytes of UTF-8 text, leaving the bytes of `keep` as they are. */
  function EncodeBytes(bytes: seq<Byte>, keep: set<Byte>): seq<Byte> {
    if bytes == [] then []
    else
      (if bytes[0] in keep then [bytes[0]] else [PERCENT, HexDigit(bytes[0] / 16), HexDigit(bytes[0] % 16)])
      + EncodeBytes(bytes[1..], keep)
  }

  lemma {:induction false} DecodeInvertsEncodeBytes(bytes: seq<Byte>, keep: set<Byte>)
    requires forall b :: b in keep ==> 0x21 <= b < 0x7F && b != PERCENT
    ensures Decode(EncodeBytes(bytes, keep)) == bytes
    ensures forall b :: b in EncodeBytes(bytes, keep) ==> 0x21 <= b < 0x7F
  {
    if bytes != [] {
      var b, rest := bytes[0], EncodeBytes(bytes[1..], keep);
      DecodeInvertsEncodeBytes(bytes[1..], keep);
      if b in keep {
        DecodeLiteral([b], rest);
      } else {
        var e: seq<Byte> := [PERCENT, HexDigit(b / 16), HexDigit(b % 16)];
        assert IsEscape(e) && Escaped(e) == b && e[3..] == [];
        DecodeEscape(e, rest);
      }
      assert bytes == [b] + bytes[1..];
    }
  }

  /** The decoder inverts the standard encoding, byte by byte of the UTF-8 text, on every string,
      whichever printable characters other than the percent sign are left as they are. */
  lemma StandardRoundTrip(s: string, keep: set<Byte>)
    requires forall b :: b in keep ==> 0x21 <= b < 0x7F && b != PERCENT
    ensures DecodeLabel(Text(EncodeBytes(Utf8(s), keep))) == s
  {
    DecodeInvertsEncodeBytes(Utf8(s), keep);
    LabelOfText(EncodeBytes(Utf8(s), keep));
    LossyInvertsUtf8(s);
  }

  // ---- Digits and reserved characters, outright ----

  /** The digit for `v` in upper or lower case, as an ASCII code. */
  predicate DigitFor(b: Byte, v: nat) { if v < 10 then b == 48 + v else b == 55 + v || b == 87 + v }

  /** The digits are read in either case, and nothing else is read. */
  lemma HexDigitsAre(b: Byte)
    ensures forall v: nat :: v < 16 ==> (FromHex(b) == Some(v) <==> DigitFor(b, v))
  {
  }

  /** An escape decodes to the same byte whichever case its digits have. */
  lemma EitherCaseDecodes(v: Byte, hi: Byte, lo: Byte, rest: seq<Byte>)
    requires DigitFor(hi, v / 16) && DigitFor(lo, v % 16)
    ensures Decode([0x25, hi, lo] + rest) == [v] + Decode(rest)
  {
    HexDigitsAre(hi);
    HexDigitsAre(lo);
    DecodeEscape([0x25, hi, lo], rest);
  }

  function HexValue(digits: seq<Byte>): nat {
    if digits == [] then 0
    else 16 * HexValue(digits[..|digits| - 1]) + FromHex(digits[|digits| - 1]).GetOr(0)
  }

  /** `0` to `9` and `A` to `F`. */
  predicate IsUpperDigit(b: Byte) { 48 <= b <= 57 || 65 <= b <= 70 }

  lemma {:induction false} HexReads(n: nat)
    ensures HexValue(Hex(n)) == n
    ensures forall b :: b in Hex(n) ==> IsUpperDigit(b)
    ensures n > 0 ==> Hex(n)[0] != 0x30
  {
    if n < 16 {
      assert Hex(n)[..0] == [];
    } else {
      HexReads(n / 16);
      assert Hex(n)[..|Hex(n)| - 1] == Hex(n / 16);
    }
  }

  /** `A` to `Z`, `a` to `z`, `0` to `9` and `-`, `.`, `_`, `~`, by their codes. */
  predicate KeptCode(n: int) {
    65 <= n <= 90 || 97 <= n <= 122 || 48 <= n <= 57 || n == 45 || n == 46 || n == 95 || n == 126
  }

  /** The encoder leaves 66 characters as they are. Any other becomes a percent sign and its code
      point in upper-case hexadecimal, of two digits at least and no zeros before the last two. */
  lemma EncodesOutright(c: char)
    ensures
      var n, e := c as int, Encode([c]);
      if KeptCode(n) then e == [n]
      else
        && |e| >= 3 && e[0] == 0x25
        && (forall b :: b in e[1..] ==> IsUpperDigit(b))
        && HexValue(e[1..]) == n
        && (|e| > 3 ==> e[1] != 48)
  {
    var n := c as int;
    assert [c][1..] == "";
    HexReads(n);
    if !KeptCode(n) {
      assert Encode([c]) == Escape(c);
      if n < 16 { OneDigit(n); } else { assert Escape(c)[1..] == Hex(n); }
    }
  }

  lemma OneDigit(n: nat)
    requires n < 16
    ensures var e := [PERCENT] + [0x30] + Hex(n);
            e[1..] == [0x30, HexDigit(n)] && HexValue(e[1..]) == n
  {
    var e: seq<Byte> := [0x30, HexDigit(n)];
    assert e[..1][..0] == [] && HexValue(e[..1]) == 0;
  }

  /** And it does so with one character after the other. */
  lemma {:induction false} EncodeAppends(s: string, t: string)
    ensures Encode(s + t) == Encode(s) + Encode(t)
  {
    if s == "" {
      assert s + t == t;
    } else {
      assert (s + t)[1..] == s[1..] + t;
      EncodeAppends(s[1..], t);
    }
  }
}
