/** What json_serialize_ex prints, by recursion on the value, and that every printing mode parses back. */
module Printing {
  import opened Bytes
  import opened Values
  import opened Syntax
  import Machine
  import Completeness

  const MULTILINE := 0
  const PACKED := 2

  /** json_serialize_opts, with its option bits apart. Any mode but these two prints on a single line. */
  datatype Options = Options(mode: int, crlf: bool, packBrackets: bool, noSpaceAfterComma: bool,
                             noSpaceAfterColon: bool, useTabs: bool, indentSize: int)

  datatype SerializeFlags = SerializeFlags(spacesAroundBrackets: bool, spacesAfterCommas: bool, spacesAfterColons: bool,
                                           tabs: bool)

  function GetSerializeFlags(o: Options): SerializeFlags {
    if o.mode == PACKED then SerializeFlags(false, false, false, false)
    else if o.mode == MULTILINE then SerializeFlags(false, false, !o.noSpaceAfterColon, o.useTabs)
    else SerializeFlags(!o.packBrackets, !o.noSpaceAfterComma, !o.noSpaceAfterColon, false)
  }

  /** The values that can be printed here: no doubles, and no integer whose negation overflows. */
  predicate Printable(v: Value) {
    match v
    case Integer(i) => -INT_MAX <= i <= INT_MAX
    case Double(_) => false
    case Arr(items) => forall k | 0 <= k < |items| :: Printable(items[k])
    case Obj(entries) => forall k | 0 <= k < |entries| :: Printable(entries[k].value)
    case _ => true
  }

  lemma {:induction false} PlainIsPrintable(v: Value)
    requires Plain(v)
    ensures Printable(v)
    decreases v
  {
    match v
    case Arr(items) =>
      forall k | 0 <= k < |items| ensures Printable(items[k]) {
        PlainIsPrintable(items[k]);
      }
    case Obj(entries) =>
      forall k | 0 <= k < |entries| ensures Printable(entries[k].value) {
        PlainIsPrintable(entries[k].value);
      }
    case _ =>
  }

  // Layout

  function Repeat(c: byte, n: int): (r: bytes)
    ensures |r| == if n < 0 then 0 else n
    ensures forall k | 0 <= k < |r| :: r[k] == c
  {
    if n <= 0 then [] else Repeat(c, n - 1) + [c]
  }

  /** The indentation inside depth brackets. */
  function Indent(o: Options, depth: nat): int {
    if depth == 0 then 0 else Indent(o, depth - 1) + o.indentSize
  }

  lemma IndentIsProduct(o: Options, depth: nat)
    ensures Indent(o, depth) == depth * o.indentSize
  {
    if depth > 0 {
      IndentIsProduct(o, depth - 1);
      assert depth * o.indentSize == (depth - 1) * o.indentSize + o.indentSize;
    }
  }

  function IndentChar(o: Options): byte {
    if GetSerializeFlags(o).tabs then TAB else SPACE
  }

  function LineEnd(o: Options): bytes {
    if o.crlf then [CR, LF] else [LF]
  }

  function Newline(o: Options, depth: nat): bytes {
    if o.mode == MULTILINE then LineEnd(o) + Repeat(IndentChar(o), Indent(o, depth)) else []
  }

  function Space(b: bool): bytes {
    if b then [SPACE] else []
  }

  // Scalars

  function EscapedByte(c: byte): bytes {
    if c == QUOTE then [BACKSLASH, QUOTE]
    else if c == BACKSLASH then [BACKSLASH, BACKSLASH]
    else if c == BACKSPACE then [BACKSLASH, LOWER_B]
    else if c == FORM_FEED then [BACKSLASH, LOWER_F]
    else if c == LF then [BACKSLASH, LOWER_N]
    else if c == CR then [BACKSLASH, LOWER_R]
    else if c == TAB then [BACKSLASH, LOWER_T]
    else [c]
  }

  /** Exactly the quote, the backslash and five control characters are escaped: by a backslash and the letter of RFC
      8259, section 7. Every other octet stands for itself. */
  lemma EscapedByteIs(c: byte)
    ensures EscapedByte(c) == [c] <==> c !in [0x22, 0x5C, 0x08, 0x0C, 0x0A, 0x0D, 0x09]
    ensures EscapedByte(0x22) == Ascii("\\\"")
    ensures EscapedByte(0x5C) == Ascii("\\\\") && EscapedByte(0x08) == Ascii("\\b") && EscapedByte(0x0C) == Ascii("\\f")
    ensures EscapedByte(0x0A) == Ascii("\\n") && EscapedByte(0x0D) == Ascii("\\r") && EscapedByte(0x09) == Ascii("\\t")
  {
  }

  /** serialize_string. */
  function Escaped(s: bytes): bytes {
    if s == [] then [] else Escaped(s[..|s| - 1]) + EscapedByte(s[|s| - 1])
  }

  function InQuotes(s: bytes): bytes {
    [QUOTE] + Escaped(s) + [QUOTE]
  }

  function Digits(n: nat): (r: bytes)
    ensures r != []
  {
    if n < 10 then [ZERO + n] else Digits(n / 10) + [ZERO + n % 10]
  }

  function IntegerText(i: int): bytes {
    if i < 0 then [MINUS] + Digits(-i) else Digits(i)
  }

  // Values

  predicate Container(v: Value) { v.Arr? || v.Obj? }

  function Count(v: Value): nat
    requires Container(v)
  {
    if v.Arr? then |v.items| else |v.entries|
  }

  function Kid(v: Value, k: nat): (w: Value)
    requires Container(v) && k < Count(v)
    ensures w < v
    ensures (Printable(v) ==> Printable(w)) && (Plain(v) ==> Plain(w))
  {
    if v.Arr? then v.items[k] else assert v.entries[k] < v; v.entries[k].value
  }

  /** What stands before child k: its name, if it has one. */
  function Label(v: Value, k: nat, o: Options): bytes
    requires Container(v) && k < Count(v)
  {
    if v.Arr? then [] else InQuotes(v.entries[k].name) + [COLON] + Space(GetSerializeFlags(o).spacesAfterColons)
  }

  function Open(v: Value): byte { if v.Arr? then OPEN_BRACKET else OPEN_BRACE }

  function Close(v: Value): byte { if v.Arr? then CLOSE_BRACKET else CLOSE_BRACE }

  /** The layout before child k at the given depth: after the opening bracket, or after a comma. */
  function Lead(v: Value, k: nat, o: Options, depth: nat): bytes {
    if k == 0 then [Open(v)] + Space(GetSerializeFlags(o).spacesAroundBrackets) + Newline(o, depth + 1)
    else [COMMA] + Space(GetSerializeFlags(o).spacesAfterCommas) + Newline(o, depth + 1)
  }

  function Tail(v: Value, o: Options, depth: nat): bytes {
    Newline(o, depth) + Space(GetSerializeFlags(o).spacesAroundBrackets) + [Close(v)]
  }

  /** The print of a container from its child k on; from 0 it is the whole print. */
  function PrintFrom(v: Value, k: nat, o: Options, depth: nat): bytes
    requires Container(v) && k <= Count(v)
    decreases v, Count(v) - k
  {
    if Count(v) == 0 then [Open(v), Close(v)]
    else if k == Count(v) then Tail(v, o, depth)
    else Lead(v, k, o, depth) + Label(v, k, o) + Print(Kid(v, k), o, depth + 1) + PrintFrom(v, k + 1, o, depth)
  }

  /** The whole print. The text of a double is not modelled: nothing stands for it. */
  function Print(v: Value, o: Options, depth: nat): bytes
    decreases v, if Container(v) then Count(v) + 1 else 0
  {
    match v
    case Null => NULL
    case Boolean(b) => if b != 0 then TRUE else FALSE
    case Integer(i) => IntegerText(i)
    case Double(_) => []
    case Str(s) => InQuotes(s)
    case Arr(_) => PrintFrom(v, 0, o, depth)
    case Obj(_) => PrintFrom(v, 0, o, depth)
  }

  // The print as a text of the grammar

  function CharOf(c: byte): Char {
    if |EscapedByte(c)| == 1 then Raw(c) else Short(EscapedByte(c)[1])
  }

  function CharsOf(s: bytes): (r: seq<Char>)
    ensures |r| == |s|
  {
    if s == [] then [] else CharsOf(s[..|s| - 1]) + [CharOf(s[|s| - 1])]
  }

  function SyntaxOf(v: Value, o: Options, depth: nat): Syntax
    decreases v, if Container(v) then Count(v) + 1 else 0
  {
    match v
    case Null => SNull
    case Boolean(b) => if b != 0 then STrue else SFalse
    case Integer(i) => SInt(i < 0, Digits(if i < 0 then -i else i))
    case Double(_) => SNull
    case Str(s) => SStr(CharsOf(s))
    case Arr(_) => SArr([], ItemsOf(v, 0, o, depth))
    case Obj(_) => SObj([], MembersOf(v, 0, o, depth))
  }

  /** White space after child k: only the last one is followed by any. */
  function Post(v: Value, k: nat, o: Options, depth: nat): bytes
    requires Container(v)
  {
    if k + 1 == Count(v) then Newline(o, depth) + Space(GetSerializeFlags(o).spacesAroundBrackets) else []
  }

  function ItemsOf(v: Value, k: nat, o: Options, depth: nat): Items
    requires v.Arr? && k <= Count(v)
    decreases v, Count(v) - k
  {
    if k == Count(v) then INil
    else ICons(Lead(v, k, o, depth)[1..], SyntaxOf(Kid(v, k), o, depth + 1), Post(v, k, o, depth),
        ItemsOf(v, k + 1, o, depth))
  }

  function MembersOf(v: Value, k: nat, o: Options, depth: nat): Members
    requires v.Obj? && k <= Count(v)
    decreases v, Count(v) - k
  {
    if k == Count(v) then MNil
    else MCons(Lead(v, k, o, depth)[1..], CharsOf(v.entries[k].name), [], Space(GetSerializeFlags(o).spacesAfterColons),
               SyntaxOf(Kid(v, k), o, depth + 1), Post(v, k, o, depth), MembersOf(v, k + 1, o, depth))
  }

  // Strings and integers read back

  lemma {:induction false} CharsTextPush(cs: seq<Char>, c: Char)
    ensures CharsText(cs + [c]) == CharsText(cs) + CharText(c)
    decreases |cs|
  {
    hide CharText;
    if cs == [] {
      assert cs + [c] == [c] && [c][1..] == [];
    } else {
      CharsTextPush(cs[1..], c);
      assert (cs + [c])[1..] == cs[1..] + [c];
    }
  }

  lemma {:induction false} CharsMeaningPush(cs: seq<Char>, c: Char, reader: Reader)
    requires WfChars(cs) && WfChar(c)
    ensures WfChars(cs + [c]) && CharsMeaning(cs + [c], reader) == CharsMeaning(cs, reader) + CharMeaning(c, reader)
    decreases |cs|
  {
    hide WfChar, CharMeaning;
    if cs == [] {
      assert cs + [c] == [c] && [c][1..] == [];
    } else {
      CharsMeaningPush(cs[1..], c, reader);
      assert (cs + [c])[1..] == cs[1..] + [c];
    }
  }

  lemma CharReadsBack(c: byte, reader: Reader)
    ensures CharText(CharOf(c)) == EscapedByte(c)
    ensures c != 0 ==> WfChar(CharOf(c)) && CharMeaning(CharOf(c), reader) == [c]
  {
  }

  lemma {:induction false} StringReadsBack(s: bytes, reader: Reader)
    ensures CharsText(CharsOf(s)) == Escaped(s)
    ensures NulFree(s) ==> WfChars(CharsOf(s)) && CharsMeaning(CharsOf(s), reader) == s
    decreases |s|
  {
    hide EscapedByte, CharText, WfChar, CharMeaning, CharOf, CharsText, CharsMeaning;
    if s == [] {
      EmptyReadsBack(reader);
    } else {
      var init, c := s[..|s| - 1], s[|s| - 1];
      StringReadsBack(init, reader);
      CharReadsBack(c, reader);
      CharsTextPush(CharsOf(init), CharOf(c));
      assert s == init + [c];
      if NulFree(s) {
        assert NulFree(init);
        CharsMeaningPush(CharsOf(init), CharOf(c), reader);
      }
    }
  }

  lemma EmptyReadsBack(reader: Reader)
    ensures CharsText([]) == [] && WfChars([]) && CharsMeaning([], reader) == []
  {
  }

  lemma QuotedIsInQuotes(s: bytes)
    ensures Quoted(CharsOf(s)) == InQuotes(s)
  {
    StringReadsBack(s, Program);
  }

  /** The printed digits are the decimal form: they stand for the number, with no leading zero. */
  lemma {:induction false} DigitsReadBack(n: nat)
    ensures AllDigits(Digits(n)) && Decimal(Digits(n)) == n
    ensures Digits(n)[0] == ZERO ==> n == 0 && |Digits(n)| == 1
    decreases n
  {
    if n >= 10 {
      DigitsReadBack(n / 10);
      var init := Digits(n / 10);
      assert Digits(n)[..|Digits(n)| - 1] == init;
    } else {
      var none: bytes := [];
      assert Digits(n)[..0] == none;
    }
  }

  lemma NewlineIsSpace(o: Options, depth: nat)
    ensures AllSpace(Newline(o, depth))
  {
  }

  // Values read back

  lemma {:induction false} PrintReadsBack(v: Value, o: Options, depth: nat, reader: Reader)
    requires Plain(v)
    ensures Wf(SyntaxOf(v, o, depth)) && Meaning(SyntaxOf(v, o, depth), reader) == v
    ensures Text(SyntaxOf(v, o, depth)) == Print(v, o, depth)
    decreases v, if Container(v) then Count(v) + 1 else 0
  {
    hide Lead, Wf, WfItems, WfMembers, Meaning, ItemsMeaning, MembersMeaning;
    hide Text, ItemsText, MembersText, SyntaxOf, ItemsOf, MembersOf, Print, PrintFrom;
    if v.Arr? {
      ItemsReadBack(v, 0, o, depth, reader);
      ArrayReadsBack(v, o, depth, reader);
    } else if v.Obj? {
      MembersReadBack(v, 0, o, depth, reader);
      ObjectReadsBack(v, o, depth, reader);
    } else {
      ScalarReadsBack(v, o, depth, reader);
    }
  }

  lemma ScalarReadsBack(v: Value, o: Options, depth: nat, reader: Reader)
    requires Plain(v) && !Container(v)
    ensures Wf(SyntaxOf(v, o, depth)) && Meaning(SyntaxOf(v, o, depth), reader) == v
    ensures Text(SyntaxOf(v, o, depth)) == Print(v, o, depth)
  {
    if v.Integer? {
      IntegerReadsBack(v.i, reader);
    }
    if v.Str? {
      StringReadsBack(v.s, reader);
      QuotedIsInQuotes(v.s);
    }
    hide Escaped, CharsText, CharsMeaning, CharsOf, Decimal, Digits, AllDigits, WfChars, NulFree, Quoted, InQuotes,
        IntegerText;
  }

  lemma IntegerReadsBack(i: int, reader: Reader)
    requires -INT_MAX <= i <= INT_MAX
    ensures var t := SInt(i < 0, Digits(if i < 0 then -i else i));
      Wf(t) && Meaning(t, reader) == Integer(i) && Text(t) == IntegerText(i)
  {
    hide Digits, Decimal, AllDigits, Text, Meaning, Wf;
    var n := if i < 0 then -i else i;
    DigitsReadBack(n);
    LiteralReads(i < 0, Digits(n), reader);
  }

  lemma LiteralReads(negative: bool, ds: bytes, reader: Reader)
    requires ds != [] && AllDigits(ds) && (ds[0] == ZERO ==> |ds| == 1) && Decimal(ds) <= INT_MAX
    ensures var t, n: int := SInt(negative, ds), Decimal(ds);
      Wf(t) && Meaning(t, reader) == Integer(if negative then -n else n)
          && Text(t) == if negative then [MINUS] + ds else ds
  {
    hide Decimal, AllDigits;
    var none: bytes := [];
    assert none + ds == ds;
  }

  lemma ArrayReadsBack(v: Value, o: Options, depth: nat, reader: Reader)
    requires v.Arr? && WfItems(ItemsOf(v, 0, o, depth)) && ItemsMeaning(ItemsOf(v, 0, o, depth), reader) == v.items[0..]
    requires v.items != [] ==>
      Lead(v, 0, o, depth) != []
      && [Lead(v, 0, o, depth)[0]] + (ItemsText(ItemsOf(v, 0, o, depth)) + [CLOSE_BRACKET]) == PrintFrom(v, 0, o, depth)
    ensures Wf(SyntaxOf(v, o, depth)) && Meaning(SyntaxOf(v, o, depth), reader) == v
    ensures Text(SyntaxOf(v, o, depth)) == Print(v, o, depth)
  {
    hide Lead, ItemsOf, ItemsText, ItemsMeaning, WfItems, PrintFrom;
    assert v.items[0..] == v.items;
    EmptyArray(v, o, depth);
  }

  lemma ObjectReadsBack(v: Value, o: Options, depth: nat, reader: Reader)
    requires v.Obj? && WfMembers(MembersOf(v, 0, o, depth))
      && MembersMeaning(MembersOf(v, 0, o, depth), reader) == v.entries[0..]
    requires v.entries != [] ==>
      Lead(v, 0, o, depth) != []
      && [Lead(v, 0, o, depth)[0]] + (MembersText(MembersOf(v, 0, o, depth)) + [CLOSE_BRACE])
          == PrintFrom(v, 0, o, depth)
    ensures Wf(SyntaxOf(v, o, depth)) && Meaning(SyntaxOf(v, o, depth), reader) == v
    ensures Text(SyntaxOf(v, o, depth)) == Print(v, o, depth)
  {
    hide Lead, MembersOf, MembersText, MembersMeaning, WfMembers, PrintFrom;
    assert v.entries[0..] == v.entries;
    EmptyObject(v, o, depth);
  }

  lemma EmptyArray(v: Value, o: Options, depth: nat)
    requires v.Arr?
    ensures Text(SyntaxOf(v, o, depth)) == [OPEN_BRACKET] + (ItemsText(ItemsOf(v, 0, o, depth)) + [CLOSE_BRACKET])
    ensures v.items == [] ==> Text(SyntaxOf(v, o, depth)) == Print(v, o, depth)
    ensures Lead(v, 0, o, depth)[0] == OPEN_BRACKET
  {
    var none: bytes := [];
    var rest := ItemsText(ItemsOf(v, 0, o, depth)) + [CLOSE_BRACKET];
    assert none + rest == rest;
  }

  lemma EmptyObject(v: Value, o: Options, depth: nat)
    requires v.Obj?
    ensures Text(SyntaxOf(v, o, depth)) == [OPEN_BRACE] + (MembersText(MembersOf(v, 0, o, depth)) + [CLOSE_BRACE])
    ensures v.entries == [] ==> Text(SyntaxOf(v, o, depth)) == Print(v, o, depth)
    ensures Lead(v, 0, o, depth)[0] == OPEN_BRACE
  {
    var none: bytes := [];
    var rest := MembersText(MembersOf(v, 0, o, depth)) + [CLOSE_BRACE];
    assert none + rest == rest;
  }

  /** What is left of a container after child k, without and with a comma before it. */
  lemma RestText(v: Value, k: nat, o: Options, depth: nat, rest: bytes, post: bytes)
    requires Container(v) && k < Count(v) && post == Post(v, k, o, depth)
    requires k + 1 < Count(v) ==> [Lead(v, k + 1, o, depth)[0]] + (rest + [Close(v)]) == PrintFrom(v, k + 1, o, depth)
    ensures post + (if k + 1 == Count(v) then [] else [COMMA] + rest) + [Close(v)] == PrintFrom(v, k + 1, o, depth)
  {
    hide Newline, Space, Label, Print, Kid;
    if k + 1 < Count(v) {
      assert post == [];
      assert [] + ([COMMA] + rest) + [Close(v)] == [COMMA] + (rest + [Close(v)]);
    }
  }

  lemma LayoutIsSpace(v: Value, k: nat, o: Options, depth: nat)
    requires Container(v)
    ensures Lead(v, k, o, depth) != [] && AllSpace(Lead(v, k, o, depth)[1..]) && AllSpace(Post(v, k, o, depth))
    ensures AllSpace(Space(GetSerializeFlags(o).spacesAfterColons))
  {
    NewlineIsSpace(o, depth);
    NewlineIsSpace(o, depth + 1);
  }

  lemma {:induction false} ItemsReadBack(v: Value, k: nat, o: Options, depth: nat, reader: Reader)
    requires v.Arr? && Plain(v) && k <= Count(v)
    ensures WfItems(ItemsOf(v, k, o, depth)) && ItemsMeaning(ItemsOf(v, k, o, depth), reader) == v.items[k..]
    ensures k < Count(v) ==>
              && Lead(v, k, o, depth) != []
              && [Lead(v, k, o, depth)[0]] + (ItemsText(ItemsOf(v, k, o, depth)) + [Close(v)])
                  == PrintFrom(v, k, o, depth)
    decreases v, Count(v) - k
  {
    hide Lead, Tail, Post, Newline, SyntaxOf, Print, PrintFrom, Wf, Meaning, Text, ItemsText, AllSpace;
    if k < Count(v) {
      PrintReadsBack(Kid(v, k), o, depth + 1, reader);
      ItemsReadBack(v, k + 1, o, depth, reader);
      LayoutIsSpace(v, k, o, depth);
      ItemsPrint(v, k, o, depth);
    }
  }

  lemma ItemsPrint(v: Value, k: nat, o: Options, depth: nat)
    requires v.Arr? && k < Count(v) && Lead(v, k, o, depth) != []
    requires Text(SyntaxOf(Kid(v, k), o, depth + 1)) == Print(Kid(v, k), o, depth + 1)
    requires k + 1 < Count(v) ==>
      [Lead(v, k + 1, o, depth)[0]] + (ItemsText(ItemsOf(v, k + 1, o, depth)) + [Close(v)])
        == PrintFrom(v, k + 1, o, depth)
    ensures [Lead(v, k, o, depth)[0]] + (ItemsText(ItemsOf(v, k, o, depth)) + [Close(v)]) == PrintFrom(v, k, o, depth)
  {
    hide Lead, Tail, Post, Newline, SyntaxOf, Print, Text;
    var rest := ItemsText(ItemsOf(v, k + 1, o, depth));
    RestText(v, k, o, depth, rest, Post(v, k, o, depth));
    var end: bytes := if k + 1 == Count(v) then [] else [COMMA] + rest;
    Pieces(Lead(v, k, o, depth), [], Print(Kid(v, k), o, depth + 1), Post(v, k, o, depth), end, [Close(v)]);
  }

  /** Regrouping: a layout, a label, a child, and what follows. */
  lemma Pieces(lead: bytes, tag: bytes, kid: bytes, post: bytes, end: bytes, close: bytes)
    requires lead != []
    ensures [lead[0]] + ((lead[1..] + (tag + kid + (post + end))) + close) == lead + tag + kid + (post + end + close)
    ensures tag == [] ==> tag + kid == kid
  {
    assert lead == [lead[0]] + lead[1..];
  }

  lemma {:induction false} MembersReadBack(v: Value, k: nat, o: Options, depth: nat, reader: Reader)
    requires v.Obj? && Plain(v) && k <= Count(v)
    ensures WfMembers(MembersOf(v, k, o, depth)) && MembersMeaning(MembersOf(v, k, o, depth), reader) == v.entries[k..]
    ensures k < Count(v) ==>
              && Lead(v, k, o, depth) != []
              && [Lead(v, k, o, depth)[0]] + (MembersText(MembersOf(v, k, o, depth)) + [Close(v)])
                  == PrintFrom(v, k, o, depth)
    decreases v, Count(v) - k
  {
    hide Lead, Tail, Post, Newline, SyntaxOf, Print, PrintFrom, Wf, Meaning, Text, MembersText, AllSpace, Label;
    hide CharsMeaning, CharsText, WfChars, Escaped, Quoted, InQuotes, CharsOf, Space, GetSerializeFlags, NulFree;
    if k < Count(v) {
      PrintReadsBack(Kid(v, k), o, depth + 1, reader);
      MembersReadBack(v, k + 1, o, depth, reader);
      LayoutIsSpace(v, k, o, depth);
      NothingIsSpace();
      StringReadsBack(v.entries[k].name, reader);
      MembersPrint(v, k, o, depth);
    }
  }

  lemma MembersPrint(v: Value, k: nat, o: Options, depth: nat)
    requires v.Obj? && k < Count(v) && Lead(v, k, o, depth) != []
    requires Text(SyntaxOf(Kid(v, k), o, depth + 1)) == Print(Kid(v, k), o, depth + 1)
    requires k + 1 < Count(v) ==>
      [Lead(v, k + 1, o, depth)[0]] + (MembersText(MembersOf(v, k + 1, o, depth)) + [Close(v)])
        == PrintFrom(v, k + 1, o, depth)
    ensures [Lead(v, k, o, depth)[0]] + (MembersText(MembersOf(v, k, o, depth)) + [Close(v)])
      == PrintFrom(v, k, o, depth)
  {
    hide Lead, Tail, Post, Newline, SyntaxOf, Print, Text, MemberText, Label, CharsOf, Space, GetSerializeFlags;
    var kid := Kid(v, k);
    LabelText(v, k, o, Print(kid, o, depth + 1));
    var rest := MembersText(MembersOf(v, k + 1, o, depth));
    RestText(v, k, o, depth, rest, Post(v, k, o, depth));
    var end: bytes := if k + 1 == Count(v) then [] else [COMMA] + rest;
    Pieces(Lead(v, k, o, depth), Label(v, k, o), Print(kid, o, depth + 1), Post(v, k, o, depth), end, [Close(v)]);
  }

  lemma NothingIsSpace()
    ensures AllSpace([])
  {
  }

  lemma LabelText(v: Value, k: nat, o: Options, item: bytes)
    requires v.Obj? && k < Count(v)
    ensures MemberText(CharsOf(v.entries[k].name), [], Space(GetSerializeFlags(o).spacesAfterColons), item)
      == Label(v, k, o) + item
  {
    hide Escaped, CharsText;
    QuotedIsInQuotes(v.entries[k].name);
  }

  /** Every print denotes the printed value. */
  lemma PrintDenotes(v: Value, o: Options)
    requires Plain(v)
    ensures Denotes(Print(v, o, 0), v)
  {
    PrintReadsBack(v, o, 0, Standard);
    PrintReadsBack(v, o, 0, Program);
    var d := Document([], SyntaxOf(v, o, 0), []);
    MeaningIff(d.root);
    assert DocumentText(d) == Print(v, o, 0);
  }

  /** Parsing undoes printing, in every mode and under every option. */
  lemma ParsePrint(v: Value, o: Options)
    requires Plain(v)
    ensures Machine.Parse(Print(v, o, 0)) == Some(v)
  {
    PrintDenotes(v, o);
    Completeness.ParseComplete(Print(v, o, 0), v);
  }
}
