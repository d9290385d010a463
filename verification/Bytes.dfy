/** Octets, the octets that have a meaning in a text, and the usual option type. */
module Bytes {

  type byte = b: int | 0 <= b < 256
  type bytes = seq<byte>

  datatype Option<+T> = None | Some(value: T)

  const BACKSPACE: byte := 0x08
  const TAB: byte := 0x09
  const LF: byte := 0x0A
  const FORM_FEED: byte := 0x0C
  const CR: byte := 0x0D
  const SPACE: byte := 0x20
  const QUOTE: byte := 0x22
  const PLUS: byte := 0x2B
  const COMMA: byte := 0x2C
  const MINUS: byte := 0x2D
  const DOT: byte := 0x2E
  const SLASH: byte := 0x2F
  const ZERO: byte := 0x30
  const COLON: byte := 0x3A
  const UPPER_E: byte := 0x45
  const OPEN_BRACKET: byte := 0x5B
  const BACKSLASH: byte := 0x5C
  const CLOSE_BRACKET: byte := 0x5D
  const LOWER_B: byte := 0x62
  const LOWER_E: byte := 0x65
  const LOWER_F: byte := 0x66
  const LOWER_N: byte := 0x6E
  const LOWER_R: byte := 0x72
  const LOWER_T: byte := 0x74
  const LOWER_U: byte := 0x75
  const OPEN_BRACE: byte := 0x7B
  const CLOSE_BRACE: byte := 0x7D

  const TRUE: bytes := [0x74, 0x72, 0x75, 0x65]
  const FALSE: bytes := [0x66, 0x61, 0x6C, 0x73, 0x65]
  const NULL: bytes := [0x6E, 0x75, 0x6C, 0x6C]

  /** The largest json_int_t, and the magnitude limit of every integer here. */
  const INT_MAX: int := 0x7FFF_FFFF_FFFF_FFFF

  predicate IsSpace(b: byte) {
    b == LF || b == SPACE || b == TAB || b == CR
  }

  predicate IsDigit(b: byte) {
    ZERO <= b <= ZERO + 9
  }

  /** The characters the second pass skips when it meets a number. */
  predicate IsNumberChar(b: byte) {
    IsDigit(b) || b == PLUS || b == MINUS || b == LOWER_E || b == UPPER_E || b == DOT
  }

  /** White space of section 2 of RFC 8259: space, horizontal tab, line feed, carriage return. */
  predicate IsBlank(b: byte) {
    b == 0x20 || b == 0x09 || b == 0x0A || b == 0x0D
  }

  predicate AllSpace(w: bytes) {
    forall k | 0 <= k < |w| :: IsBlank(w[k])
  }

  predicate AllDigits(w: bytes) {
    forall k | 0 <= k < |w| :: IsDigit(w[k])
  }

  /** The text read from position p begins with t. */
  predicate Has(text: bytes, p: nat, t: bytes) {
    p + |t| <= |text| && text[p..p + |t|] == t
  }

  lemma HasSplit(text: bytes, p: nat, a: bytes, b: bytes)
    requires Has(text, p, a + b)
    ensures Has(text, p, a) && Has(text, p + |a|, b)
  {
    assert text[p..p + |a|] == text[p..p + |a + b|][..|a|];
    assert text[p + |a|..p + |a| + |b|] == text[p..p + |a + b|][|a|..];
  }

  /** The number a row of decimal digits stands for. */
  function Decimal(ds: bytes): (n: nat)
    requires AllDigits(ds)
  {
    if ds == [] then 0 else 10 * Decimal(ds[..|ds| - 1]) + (ds[|ds| - 1] - ZERO)
  }

  /** The octets of a text of ASCII characters. */
  function Ascii(s: string): (w: bytes)
    requires forall k | 0 <= k < |s| :: s[k] as int < 128
    ensures |w| == |s| && forall k | 0 <= k < |s| :: w[k] == s[k] as int
  {
    seq(|s|, k requires 0 <= k < |s| => s[k] as int)
  }

  /** The named octets are the characters they are named after. */
  lemma OctetsSpell()
    ensures [QUOTE, BACKSLASH, SLASH, COMMA, COLON, DOT, PLUS, MINUS, ZERO] == Ascii("\"\\/,:.+-0")
    ensures [OPEN_BRACKET, CLOSE_BRACKET, OPEN_BRACE, CLOSE_BRACE, SPACE] == Ascii("[]{} ")
    ensures [LF, CR, TAB, BACKSPACE, FORM_FEED] == [10, 13, 9, 8, 12]
    ensures [LOWER_B, LOWER_E, LOWER_F, LOWER_N, LOWER_R, LOWER_T, LOWER_U, UPPER_E] == Ascii("befnrtuE")
    ensures TRUE == Ascii("true") && FALSE == Ascii("false") && NULL == Ascii("null")
  {
  }

  lemma IntMaxIsPower()
    ensures INT_MAX == 2 * (2147483648 * 2147483648) - 1
  {
  }
}
