/** Code points behind \u escapes: what the parser computes and stores, against UTF-16 and UTF-8. */
module Unicode {
  import opened Bytes

  /** hex_value: 0xFF marks a character that is not a hexadecimal digit. */
  function HexValue(c: byte): byte {
    if IsDigit(c) then c - ZERO
    else if 0x61 <= c <= 0x66 then c - 0x61 + 10
    else if 0x41 <= c <= 0x46 then c - 0x41 + 10
    else 0xFF
  }

  function CodeUnit(h1: byte, h2: byte, h3: byte, h4: byte): (n: nat) {
    ((h1 * 16 + h2) * 16 + h3) * 16 + h4
  }

  predicate IsSurrogate(u: nat) { 0xD800 <= u <= 0xDFFF }

  predicate IsHigh(u: nat) { 0xD800 <= u <= 0xDBFF }

  predicate IsLow(u: nat) { 0xDC00 <= u <= 0xDFFF }

  /** Bit 6 of a high surrogate is clear. */
  predicate Combines(high: nat) { high / 0x40 % 2 == 0 }

  /** The code point of a surrogate pair, section 2.2 of RFC 2781. */
  function Utf16Pair(high: nat, low: nat): (cp: nat)
    requires IsHigh(high) && IsLow(low)
    ensures 0x10000 <= cp <= 0x10FFFF
  {
    0x10000 + (high - 0xD800) * 0x400 + (low - 0xDC00)
  }

  /** The parser's combination of two units: 0x10000 | (first & 0x3FF) << 10 | (second & 0x3FF). The
      two shifted parts share no bit; the first operand shares bit 16 with the second. */
  function CombinedCode(first: nat, second: nat): (cp: nat)
    ensures 0x10000 <= cp <= 0xFFFFF
  {
    var low20 := first % 0x400 * 0x400 + second % 0x400;
    if low20 / 0x10000 % 2 == 1 then low20 else 0x10000 + low20
  }

  /** On a proper surrogate pair the parser finds the code point of RFC 2781 exactly when bit 6 of the high unit is
      clear. */
  lemma CombinedCodeIff(high: nat, low: nat)
    requires IsHigh(high) && IsLow(low)
    ensures CombinedCode(high, low) == Utf16Pair(high, low) <==> Combines(high)
  {
    var h, l := high - 0xD800, low - 0xDC00;
    assert high % 0x400 == h && low % 0x400 == l;
    assert high / 0x40 % 2 == h / 0x40 % 2;
    assert (h * 0x400 + l) / 0x10000 == h / 0x40;
  }

  /** U+20000, written as the pair D840 DC00, is read as U+10000. */
  lemma CombinedCodeFails()
    ensures Utf16Pair(0xD840, 0xDC00) == 0x20000 && CombinedCode(0xD840, 0xDC00) == 0x10000
  {
  }

  /** The octets the parser stores for a code point. */
  function Utf8(cp: nat): (r: bytes)
    requires cp <= 0x10FFFF
    ensures 1 <= |r| <= 4
  {
    if cp <= 0x7F then [cp]
    else if cp <= 0x7FF then [0xC0 + cp / 0x40, 0x80 + cp % 0x40]
    else if cp <= 0xFFFF then [0xE0 + cp / 0x1000, 0x80 + cp / 0x40 % 0x40, 0x80 + cp % 0x40]
    else [0xF0 + cp / 0x40000, 0x80 + cp / 0x1000 % 0x40, 0x80 + cp / 0x40 % 0x40, 0x80 + cp % 0x40]
  }

  predicate IsTail(b: byte) { 0x80 <= b <= 0xBF }

  /** The code point of one octet sequence under section 3 of RFC 3629; overlong forms and surrogates are refused. */
  function Utf8Decode(s: bytes): Option<nat> {
    var n: seq<int> := s;
    if |s| == 1 && n[0] < 0x80 then Some(n[0])
    else if |s| == 2 && 0xC2 <= n[0] <= 0xDF && IsTail(s[1]) then Some((n[0] - 0xC0) * 0x40 + (n[1] - 0x80))
    else if |s| == 3 && 0xE0 <= n[0] <= 0xEF && IsTail(s[1]) && IsTail(s[2]) then
      var cp := (n[0] - 0xE0) * 0x1000 + (n[1] - 0x80) * 0x40 + (n[2] - 0x80);
      if cp < 0x800 || 0xD800 <= cp <= 0xDFFF then None else Some(cp)
    else if |s| == 4 && 0xF0 <= n[0] <= 0xF4 && IsTail(s[1]) && IsTail(s[2]) && IsTail(s[3]) then
      var cp := (n[0] - 0xF0) * 0x40000 + (n[1] - 0x80) * 0x1000 + (n[2] - 0x80) * 0x40 + (n[3] - 0x80);
      if cp < 0x10000 || cp > 0x10FFFF then None else Some(cp)
    else None
  }

  lemma TwoOctets(cp: nat)
    requires 0x7F < cp <= 0x7FF
    ensures Utf8Decode(Utf8(cp)) == Some(cp)
  {
    assert cp == cp / 0x40 * 0x40 + cp % 0x40;
  }

  lemma ThreeOctets(cp: nat)
    requires 0x7FF < cp <= 0xFFFF && !IsSurrogate(cp)
    ensures Utf8Decode(Utf8(cp)) == Some(cp)
  {
    var a, b, c := cp / 0x1000, cp / 0x40 % 0x40, cp % 0x40;
    assert cp / 0x40 == a * 0x40 + b;
    assert cp == (a * 0x40 + b) * 0x40 + c;
  }

  lemma FourOctets(cp: nat)
    requires 0xFFFF < cp <= 0x10FFFF
    ensures Utf8Decode(Utf8(cp)) == Some(cp)
  {
    var a, b, c, d := cp / 0x40000, cp / 0x1000 % 0x40, cp / 0x40 % 0x40, cp % 0x40;
    assert cp / 0x1000 == a * 0x40 + b;
    assert cp / 0x40 == (a * 0x40 + b) * 0x40 + c;
    assert cp == ((a * 0x40 + b) * 0x40 + c) * 0x40 + d;
  }

  /** The stored octets are the UTF-8 form of the code point: they decode to it. */
  lemma Utf8RoundTrip(cp: nat)
    requires cp <= 0x10FFFF && !IsSurrogate(cp)
    ensures Utf8Decode(Utf8(cp)) == Some(cp)
  {
    if 0xFFFF < cp {
      FourOctets(cp);
    } else if 0x7FF < cp {
      ThreeOctets(cp);
    } else if 0x7F < cp {
      TwoOctets(cp);
    }
  }
}
