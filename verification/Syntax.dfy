/** Texts of RFC 8259, sections 2 and 4 to 7, as syntax trees: what they look like and what they denote.
    Numbers are integers of magnitude at most INT_MAX. A string may also hold raw control octets. */
module Syntax {
  import opened Bytes
  import opened Values
  import opened Unicode

  /** The four hexadecimal digits of a \u escape. */
  datatype Unit = Unit(a: byte, b: byte, c: byte, d: byte)

  datatype Char =
    | Raw(b: byte)
    | Short(c: byte)
    | Hex(u: Unit)
    | Pair(high: Unit, low: Unit)

  datatype Syntax =
    | SNull
    | STrue
    | SFalse
    | SInt(negative: bool, digits: bytes)
    | SStr(chars: seq<Char>)
    | SArr(lead: bytes, items: Items)
    | SObj(lead: bytes, members: Members)

  datatype Items = INil | ICons(pre: bytes, item: Syntax, post: bytes, rest: Items)

  datatype Members =
    | MNil
    | MCons(pre: bytes, name: seq<Char>, preColon: bytes, postColon: bytes, item: Syntax, post: bytes, rest: Members)

  datatype Document = Document(pre: bytes, root: Syntax, post: bytes)

  // Which trees are texts of the grammar

  /** Where an octet stands first in a row of octets; behind it when it does not occur. */
  function Position(row: bytes, c: byte): (k: nat)
    ensures k <= |row| && (k < |row| ==> row[k] == c) && forall j | 0 <= j < k :: row[j] != c
  {
    if row == [] || row[0] == c then 0 else
      assert forall j | 0 < j < |row| :: row[j] == row[1..][j - 1];
      Position(row[1..], c) + 1
  }

  /** The digits of base 16 in their order, section 7 of RFC 8259. */
  const LOWER_DIGITS: bytes := Ascii("0123456789abcdef")
  const UPPER_DIGITS: bytes := Ascii("0123456789ABCDEF")

  /** What a hexadecimal digit is worth; 16 for any other octet. */
  function DigitValue(c: byte): (v: nat)
    ensures v <= 16
  {
    if Position(LOWER_DIGITS, c) < 16 then Position(LOWER_DIGITS, c) else Position(UPPER_DIGITS, c)
  }

  predicate WfUnit(u: Unit) {
    DigitValue(u.a) < 16 && DigitValue(u.b) < 16 && DigitValue(u.c) < 16 && DigitValue(u.d) < 16
  }

  /** The number that four digits of base 16 stand for. */
  function Code(u: Unit): (n: nat)
    requires WfUnit(u)
    ensures n <= 0xFFFF
  {
    DigitValue(u.a) * 4096 + DigitValue(u.b) * 256 + DigitValue(u.c) * 16 + DigitValue(u.d)
  }

  predicate WfChar(c: Char) {
    match c
    case Raw(b) => b != 0 && b != QUOTE && b != BACKSLASH
    case Short(c) => c in {QUOTE, BACKSLASH, SLASH, LOWER_B, LOWER_F, LOWER_N, LOWER_R, LOWER_T}
    case Hex(u) => WfUnit(u) && !(0xD800 <= Code(u) <= 0xDFFF)
    case Pair(h, l) => WfUnit(h) && WfUnit(l) && IsHigh(Code(h)) && IsLow(Code(l))
  }

  predicate WfChars(cs: seq<Char>) {
    forall k | 0 <= k < |cs| :: WfChar(cs[k])
  }

  predicate Wf(t: Syntax) {
    match t
    case SNull => true
    case STrue => true
    case SFalse => true
    case SInt(_, ds) => ds != [] && AllDigits(ds) && (ds[0] == ZERO ==> |ds| == 1) && Decimal(ds) <= INT_MAX
    case SStr(cs) => WfChars(cs)
    case SArr(lead, items) => AllSpace(lead) && WfItems(items)
    case SObj(lead, members) => AllSpace(lead) && WfMembers(members)
  }

  predicate WfItems(t: Items) {
    t.ICons? ==> AllSpace(t.pre) && Wf(t.item) && AllSpace(t.post) && WfItems(t.rest)
  }

  predicate WfMembers(t: Members) {
    t.MCons? ==>
      && AllSpace(t.pre) && WfChars(t.name) && AllSpace(t.preColon) && AllSpace(t.postColon)
      && Wf(t.item) && AllSpace(t.post) && WfMembers(t.rest)
  }

  predicate WfDocument(d: Document) {
    AllSpace(d.pre) && Wf(d.root) && AllSpace(d.post)
  }

  // The octets of a tree

  function UnitText(u: Unit): bytes {
    [u.a, u.b, u.c, u.d]
  }

  function CharText(c: Char): (t: bytes)
    ensures t != []
  {
    match c
    case Raw(b) => [b]
    case Short(c) => [BACKSLASH, c]
    case Hex(u) => [BACKSLASH, LOWER_U] + UnitText(u)
    case Pair(h, l) => [BACKSLASH, LOWER_U] + UnitText(h) + [BACKSLASH, LOWER_U] + UnitText(l)
  }

  function CharsText(cs: seq<Char>): bytes {
    if cs == [] then [] else CharText(cs[0]) + CharsText(cs[1..])
  }

  function Quoted(cs: seq<Char>): bytes {
    [QUOTE] + (CharsText(cs) + [QUOTE])
  }

  function Text(t: Syntax): (r: bytes) {
    match t
    case SNull => NULL
    case STrue => TRUE
    case SFalse => FALSE
    case SInt(neg, ds) => (if neg then [MINUS] else []) + ds
    case SStr(cs) => Quoted(cs)
    case SArr(lead, items) => [OPEN_BRACKET] + (lead + (ItemsText(items) + [CLOSE_BRACKET]))
    case SObj(lead, members) => [OPEN_BRACE] + (lead + (MembersText(members) + [CLOSE_BRACE]))
  }

  function ItemsText(t: Items): bytes {
    match t
    case INil => []
    case ICons(pre, item, post, rest) =>
      pre + (Text(item) + (post + if rest.INil? then [] else [COMMA] + ItemsText(rest)))
  }

  function MemberText(name: seq<Char>, preColon: bytes, postColon: bytes, itemText: bytes): bytes {
    Quoted(name) + (preColon + ([COLON] + (postColon + itemText)))
  }

  function MembersText(t: Members): bytes {
    match t
    case MNil => []
    case MCons(pre, name, preColon, postColon, item, post, rest) =>
      pre + (MemberText(name, preColon, postColon, Text(item))
          + (post + if rest.MNil? then [] else [COMMA] + MembersText(rest)))
  }

  function DocumentText(d: Document): bytes {
    d.pre + (Text(d.root) + d.post)
  }

  // The value a tree denotes

  function ShortMeaning(c: byte): byte {
    if c == LOWER_B then BACKSPACE
    else if c == LOWER_F then FORM_FEED
    else if c == LOWER_N then LF
    else if c == LOWER_R then CR
    else if c == LOWER_T then TAB
    else c
  }

  /** The escapes of two characters that section 7 of RFC 8259 lists, and what they stand for. */
  lemma ShortEscapes(c: byte)
    ensures WfChar(Short(c)) <==> c in Ascii("\"\\/bfnrt")
    ensures ShortMeaning(0x22) == 0x22 && ShortMeaning(0x5C) == 0x5C && ShortMeaning(0x2F) == 0x2F
    ensures ShortMeaning(0x62) == 0x08 && ShortMeaning(0x66) == 0x0C && ShortMeaning(0x6E) == 0x0A
    ensures ShortMeaning(0x72) == 0x0D && ShortMeaning(0x74) == 0x09
  {
    var short := Ascii("\"\\/bfnrt");
    assert short == [0x22, 0x5C, 0x2F, 0x62, 0x66, 0x6E, 0x72, 0x74];
  }

  /** Who reads a text: the standards, or this program's parser. They differ in surrogate pairs. */
  datatype Reader = Standard | Program

  function CharMeaning(c: Char, reader: Reader := Program): bytes
    requires WfChar(c)
  {
    match c
    case Raw(b) => [b]
    case Short(c) => [ShortMeaning(c)]
    case Hex(u) => Utf8(Code(u))
    case Pair(h, l) => Utf8(if reader == Standard then Utf16Pair(Code(h), Code(l)) else CombinedCode(Code(h), Code(l)))
  }

  function CharsMeaning(cs: seq<Char>, reader: Reader := Program): bytes
    requires WfChars(cs)
  {
    if cs == [] then [] else CharMeaning(cs[0], reader) + CharsMeaning(cs[1..], reader)
  }

  function Meaning(t: Syntax, reader: Reader := Program): Value
    requires Wf(t)
  {
    match t
    case SNull => Null
    case STrue => Boolean(1)
    case SFalse => Boolean(0)
    case SInt(neg, ds) => var n: int := Decimal(ds); Integer(if neg then -n else n)
    case SStr(cs) => Str(CharsMeaning(cs, reader))
    case SArr(_, items) => Arr(ItemsMeaning(items, reader))
    case SObj(_, members) => Obj(MembersMeaning(members, reader))
  }

  function ItemsMeaning(t: Items, reader: Reader := Program): seq<Value>
    requires WfItems(t)
  {
    match t
    case INil => []
    case ICons(_, item, _, rest) => [Meaning(item, reader)] + ItemsMeaning(rest, reader)
  }

  function MembersMeaning(t: Members, reader: Reader := Program): seq<Entry>
    requires WfMembers(t)
  {
    match t
    case MNil => []
    case MCons(_, name, _, _, item, _, rest) =>
      [Entry(CharsMeaning(name, reader), Meaning(item, reader))] + MembersMeaning(rest, reader)
  }

  // Where the two readers agree

  /** Bit 6 of the high unit is clear in every surrogate pair. */
  predicate CharCombines(c: Char)
    requires WfChar(c)
  {
    c.Pair? ==> Combines(Code(c.high))
  }

  predicate CharsCombine(cs: seq<Char>)
    requires WfChars(cs)
  {
    forall k | 0 <= k < |cs| :: CharCombines(cs[k])
  }

  predicate Combining(t: Syntax)
    requires Wf(t)
  {
    match t
    case SStr(cs) => CharsCombine(cs)
    case SArr(_, items) => ItemsCombine(items)
    case SObj(_, members) => MembersCombine(members)
    case _ => true
  }

  predicate ItemsCombine(t: Items)
    requires WfItems(t)
  {
    t.ICons? ==> Combining(t.item) && ItemsCombine(t.rest)
  }

  predicate MembersCombine(t: Members)
    requires WfMembers(t)
  {
    t.MCons? ==> CharsCombine(t.name) && Combining(t.item) && MembersCombine(t.rest)
  }

  lemma CharMeaningIff(c: Char)
    requires WfChar(c)
    ensures |CharMeaning(c, Program)| == |CharMeaning(c, Standard)|
    ensures CharMeaning(c, Program) == CharMeaning(c, Standard) <==> CharCombines(c)
  {
    hide CombinedCode, Utf16Pair, Combines, Code, Utf8;
    if c.Pair? {
      PairMeaningIff(Code(c.high), Code(c.low));
    }
  }

  lemma PairMeaningIff(h: nat, l: nat)
    requires IsHigh(h) && IsLow(l)
    ensures var p, q := Utf8(CombinedCode(h, l)), Utf8(Utf16Pair(h, l)); |p| == |q| && (p == q <==> Combines(h))
  {
    var p, q := CombinedCode(h, l), Utf16Pair(h, l);
    CombinedCodeIff(h, l);
    Utf8RoundTrip(p);
    Utf8RoundTrip(q);
    hide CombinedCode, Utf16Pair, Utf8Decode, Combines;
    FourLong(p);
    FourLong(q);
    hide Utf8;
  }

  lemma FourLong(cp: nat)
    requires 0x10000 <= cp <= 0x10FFFF
    ensures |Utf8(cp)| == 4
  {
  }

  lemma {:induction false} CharsMeaningIff(cs: seq<Char>)
    requires WfChars(cs)
    ensures |CharsMeaning(cs, Program)| == |CharsMeaning(cs, Standard)|
    ensures CharsMeaning(cs, Program) == CharsMeaning(cs, Standard) <==> CharsCombine(cs)
    decreases |cs|
  {
    hide CharMeaning, CharCombines, WfChar;
    if cs != [] {
      CharMeaningIff(cs[0]);
      CharsMeaningIff(cs[1..]);
      SameFront(CharMeaning(cs[0], Program), CharMeaning(cs[0], Standard),
                CharsMeaning(cs[1..], Program), CharsMeaning(cs[1..], Standard));
      assert forall k | 0 < k < |cs| :: cs[k] == cs[1..][k - 1];
      assert CharsCombine(cs) <==> CharCombines(cs[0]) && CharsCombine(cs[1..]);
    }
  }

  lemma SameFront(a: bytes, b: bytes, c: bytes, d: bytes)
    requires |a| == |b|
    ensures a + c == b + d <==> a == b && c == d
  {
    assert (a + c)[..|a|] == a && (b + d)[..|a|] == b && (a + c)[|a|..] == c && (b + d)[|a|..] == d;
  }

  /** The program reads a tree as the standards do exactly when every surrogate pair in it combines. */
  lemma {:induction false} MeaningIff(t: Syntax)
    requires Wf(t)
    ensures Meaning(t, Program) == Meaning(t, Standard) <==> Combining(t)
    decreases t
  {
    match t
    case SStr(cs) => CharsMeaningIff(cs);
    case SArr(_, items) => ItemsMeaningIff(items);
    case SObj(_, members) => MembersMeaningIff(members);
    case _ =>
  }

  lemma {:induction false} ItemsMeaningIff(t: Items)
    requires WfItems(t)
    ensures ItemsMeaning(t, Program) == ItemsMeaning(t, Standard) <==> ItemsCombine(t)
    decreases t
  {
    if t.ICons? {
      MeaningIff(t.item);
      ItemsMeaningIff(t.rest);
      var p, q := ItemsMeaning(t, Program), ItemsMeaning(t, Standard);
      assert p[0] == Meaning(t.item, Program) && q[0] == Meaning(t.item, Standard);
      assert p[1..] == ItemsMeaning(t.rest, Program) && q[1..] == ItemsMeaning(t.rest, Standard);
    }
  }

  lemma {:induction false} MembersMeaningIff(t: Members)
    requires WfMembers(t)
    ensures MembersMeaning(t, Program) == MembersMeaning(t, Standard) <==> MembersCombine(t)
    decreases t
  {
    if t.MCons? {
      CharsMeaningIff(t.name);
      MeaningIff(t.item);
      MembersMeaningIff(t.rest);
      var p, q := MembersMeaning(t, Program), MembersMeaning(t, Standard);
      assert p[0] == Entry(CharsMeaning(t.name, Program), Meaning(t.item, Program));
      assert q[0] == Entry(CharsMeaning(t.name, Standard), Meaning(t.item, Standard));
      assert p[1..] == MembersMeaning(t.rest, Program) && q[1..] == MembersMeaning(t.rest, Standard);
    }
  }

  /** Section 2 of RFC 8259, read as a relation: the text t, whose surrogate pairs combine, denotes the value v. */
  ghost predicate Denotes(t: bytes, v: Value) {
    exists d :: WfDocument(d) && Combining(d.root) && DocumentText(d) == t && Meaning(d.root, Standard) == v
  }
}
