/** What the printing modes and options mean: a value's tokens, and the white space that goes between two of them. */
module Layout {
  import opened Bytes
  import opened Values
  import opened Printing

  /** A bracket with something inside, a pair of brackets with nothing inside, a separator, or a scalar or name as it is
      printed. */
  datatype Token = Begin(b: byte) | End(b: byte) | Hollow(text: bytes) | Comma | Colon | Atom(text: bytes)

  function TokenText(t: Token): bytes {
    match t
    case Begin(b) => [b]
    case End(b) => [b]
    case Hollow(text) => text
    case Comma => Ascii(",")
    case Colon => Ascii(":")
    case Atom(text) => text
  }

  /** The tokens of a value, in no matter which mode. */
  function Tokens(v: Value): (ts: seq<Token>)
    ensures ts != []
    decreases v, if Container(v) then Count(v) + 1 else 0
  {
    match v
    case Null => [Atom(Ascii("null"))]
    case Boolean(b) => [Atom(if b == 0 then Ascii("false") else Ascii("true"))]
    case Integer(i) => [Atom(IntegerText(i))]
    case Double(_) => [Atom([])]
    case Str(s) => [Atom(InQuotes(s))]
    case Arr(items) => if items == [] then [Hollow(Ascii("[]"))] else [Begin(0x5B)] + ItemTokens(v, 0) + [End(0x5D)]
    case Obj(entries) => if entries == [] then [Hollow(Ascii("{}"))] else [Begin(0x7B)] + ItemTokens(v, 0) + [End(0x7D)]
  }

  /** The children from k on, with commas between them, each behind its name if it has one. */
  function ItemTokens(v: Value, k: nat): (ts: seq<Token>)
    requires Container(v) && k < Count(v)
    ensures ts != []
    decreases v, Count(v) - k
  {
    Naming(v, k) + Tokens(Kid(v, k))
    + if k + 1 < Count(v) then [Comma] + ItemTokens(v, k + 1) else []
  }

  /** A line break: CRLF when asked for, and then so many tabs or spaces for each open bracket. */
  function Break(o: Options, depth: nat): bytes {
    (if o.crlf then [0x0D, 0x0A] else [0x0A]) + Repeat(if o.useTabs then 0x09 else 0x20, depth * o.indentSize)
  }

  function Blank(unless: bool): bytes {
    if unless then [] else [0x20]
  }

  /** The white space between two tokens, inside depth brackets: packed, none; on a single line, one space inside
      brackets that are not hollow, after a comma and after a colon, unless the option against it is given; on several
      lines, a line break inside such brackets and after a comma, and one space after a colon unless the option against
      it is given. */
  function Gap(o: Options, before: Token, after: Token, depth: nat): bytes {
    if o.mode == 2 then []
    else if before.Colon? then Blank(o.noSpaceAfterColon)
    else if o.mode == 0 then if before.Begin? || before.Comma? || after.End? then Break(o, depth) else []
    else if before.Begin? || after.End? then Blank(o.packBrackets)
    else if before.Comma? then Blank(o.noSpaceAfterComma)
    else []
  }

  /** How many brackets are open behind a token, when depth were open before it. */
  function Behind(t: Token, depth: int): int {
    if t.Begin? then depth + 1 else if t.End? then depth - 1 else depth
  }

  function Nat(i: int): nat { if i < 0 then 0 else i }

  /** Tokens with the white space between them; depth brackets are open before the first. A closing bracket stands at
      the depth of its opening one. */
  function Render(ts: seq<Token>, o: Options, depth: int): bytes {
    if ts == [] then []
    else if |ts| == 1 then TokenText(ts[0])
    else
      TokenText(ts[0])
      + Gap(o, ts[0], ts[1], Nat(if ts[1].End? then Behind(ts[0], depth) - 1 else Behind(ts[0], depth)))
      + Render(ts[1..], o, Behind(ts[0], depth))
  }

  /** How many brackets are open behind all of them. */
  function Through(ts: seq<Token>, depth: int): int {
    if ts == [] then depth else Through(ts[1..], Behind(ts[0], depth))
  }

  function Join(a: Token, b: Token, o: Options, depth: int): bytes {
    Gap(o, a, b, Nat(if b.End? then depth - 1 else depth))
  }

  lemma {:induction false} RenderJoin(a: seq<Token>, b: seq<Token>, o: Options, depth: int)
    requires a != [] && b != []
    ensures Through(a + b, depth) == Through(b, Through(a, depth))
    ensures Render(a + b, o, depth)
      == Render(a, o, depth) + Join(a[|a| - 1], b[0], o, Through(a, depth)) + Render(b, o, Through(a, depth))
    decreases |a|
  {
    hide Gap, TokenText;
    assert (a + b)[0] == a[0] && (a + b)[1..] == a[1..] + b;
    if |a| == 1 {
      assert a[1..] == [] && a[1..] + b == b;
    } else {
      RenderJoin(a[1..], b, o, Behind(a[0], depth));
    }
  }

  /** A token that may begin a value, and one that may end it. */
  predicate Opens(t: Token) { t.Begin? || t.Hollow? || t.Atom? }

  predicate Closes(t: Token) { t.End? || t.Hollow? || t.Atom? }

  lemma Gaps(o: Options, a: Token, b: Token, depth: nat)
    ensures a.Begin? && Opens(b) ==>
      Gap(o, a, b, depth) == Space(GetSerializeFlags(o).spacesAroundBrackets) + Newline(o, depth)
    ensures a.Comma? && Opens(b) ==>
      Gap(o, a, b, depth) == Space(GetSerializeFlags(o).spacesAfterCommas) + Newline(o, depth)
    ensures a.Colon? ==> Gap(o, a, b, depth) == Space(GetSerializeFlags(o).spacesAfterColons)
    ensures Closes(a) && b.End? ==>
      Gap(o, a, b, depth) == Newline(o, depth) + Space(GetSerializeFlags(o).spacesAroundBrackets)
    ensures Closes(a) && (b.Comma? || b.Colon?) ==> Gap(o, a, b, depth) == []
  {
    IndentIsProduct(o, depth);
    var none: bytes := [];
    assert Newline(o, depth) == if o.mode == MULTILINE then Break(o, depth) else none;
    assert none + Newline(o, depth) == Newline(o, depth) == Newline(o, depth) + none;
    hide Newline, Break;
  }

  /** A value's tokens begin and end where brackets are balanced. */
  lemma {:induction false} TokensBalanced(v: Value, depth: int)
    ensures Opens(Tokens(v)[0]) && Closes(Tokens(v)[|Tokens(v)| - 1]) && Through(Tokens(v), depth) == depth
    decreases v, if Container(v) then Count(v) + 1 else 0
  {
    if Container(v) && Count(v) > 0 {
      var ts := ItemTokens(v, 0);
      ItemsBalanced(v, 0, depth + 1);
      var open, close := [Begin(Open(v))], [End(Close(v))];
      ThroughJoin(open + ts, close, depth);
      ThroughJoin(open, ts, depth);
      assert Tokens(v) == open + ts + close;
    }
  }

  lemma {:induction false} ItemsBalanced(v: Value, k: nat, depth: int)
    requires Container(v) && k < Count(v)
    ensures var ts := ItemTokens(v, k); Opens(ts[0]) && Closes(ts[|ts| - 1]) && Through(ts, depth) == depth
    decreases v, Count(v) - k
  {
    hide Through, Tokens;
    var tag, kid := Naming(v, k), Tokens(Kid(v, k));
    TokensBalanced(Kid(v, k), depth);
    NamingThrough(v, k, depth);
    ThroughJoin(tag, kid, depth);
    if k + 1 < Count(v) {
      var rest := ItemTokens(v, k + 1);
      ItemsBalanced(v, k + 1, depth);
      CommaThrough(depth);
      ThroughJoin([Comma], rest, depth);
      ThroughJoin(tag + kid, [Comma] + rest, depth);
    } else {
      assert tag + kid + [] == tag + kid;
    }
  }

  lemma NamingThrough(v: Value, k: nat, depth: int)
    requires Container(v) && k < Count(v)
    ensures Through(Naming(v, k), depth) == depth
    ensures Naming(v, k) != [] ==> Opens(Naming(v, k)[0])
  {
    if v.Obj? {
      var name := Atom(InQuotes(v.entries[k].name));
      assert [name, Colon][1..] == [Colon] && [Colon][1..] == [];
      assert Through([Colon], depth) == Through([Colon][1..], depth) == depth;
      assert Through(Naming(v, k), depth) == Through([name, Colon][1..], depth);
    }
  }

  lemma CommaThrough(depth: int)
    ensures Through([Comma], depth) == depth
  {
    assert [Comma][1..] == [];
  }

  function Naming(v: Value, k: nat): seq<Token>
    requires Container(v) && k < Count(v)
  {
    if v.Obj? then [Atom(InQuotes(v.entries[k].name)), Colon] else []
  }

  lemma {:induction false} ThroughJoin(a: seq<Token>, b: seq<Token>, depth: int)
    ensures Through(a + b, depth) == Through(b, Through(a, depth))
    decreases |a|
  {
    if a == [] {
      assert a + b == b;
    } else {
      assert (a + b)[1..] == a[1..] + b;
      ThroughJoin(a[1..], b, Behind(a[0], depth));
    }
  }

  // The print is the layout

  /** The print of a value is its tokens with the white space that the mode and the options call for. */
  lemma {:induction false} PrintIsRendered(v: Value, o: Options, depth: nat)
    ensures Print(v, o, depth) == Render(Tokens(v), o, depth)
    decreases v, if Container(v) then Count(v) + 1 else 0, 1
  {
    hide Gap, Lead, Tail, Label, ItemTokens, Through, InQuotes, IntegerText;
    OctetsSpell();
    if Container(v) {
      if Count(v) > 0 {
        ContainerRendered(v, o, depth);
      }
    } else {
      assert |Tokens(v)| == 1;
    }
  }

  lemma {:induction false} ContainerRendered(v: Value, o: Options, depth: nat)
    requires Container(v) && Count(v) > 0
    ensures PrintFrom(v, 0, o, depth) == Render(Tokens(v), o, depth)
    decreases v, Count(v) + 1, 0
  {
    hide Gap, Lead, Tail, Label, Render, Through, PrintFrom, Print, Tokens, ItemTokens, Newline, Space,
        GetSerializeFlags;
    var open, ts, close := Begin(Open(v)), ItemTokens(v, 0), [End(Close(v))];
    TokensAre(v);
    ItemsRendered(v, 0, o, depth);
    OneRendered(open, ts + close, o, depth);
    ItemsBalanced(v, 0, depth + 1);
    assert (ts + close)[0] == ts[0];
    Gaps(o, open, ts[0], depth + 1);
    LeadIs(v, 0, o, depth);
  }

  lemma TokensAre(v: Value)
    requires Container(v) && Count(v) > 0
    ensures Tokens(v) == [Begin(Open(v))] + (ItemTokens(v, 0) + [End(Close(v))])
  {
    hide ItemTokens;
  }

  lemma OneRendered(t: Token, ts: seq<Token>, o: Options, depth: int)
    requires ts != []
    ensures Render([t] + ts, o, depth)
      == TokenText(t) + Join(t, ts[0], o, Behind(t, depth)) + Render(ts, o, Behind(t, depth))
  {
    assert ([t] + ts)[1..] == ts;
  }

  lemma LeadIs(v: Value, k: nat, o: Options, depth: nat)
    ensures k == 0 ==>
      Lead(v, k, o, depth) == [Open(v)] + (Space(GetSerializeFlags(o).spacesAroundBrackets) + Newline(o, depth + 1))
    ensures k > 0 ==>
      Lead(v, k, o, depth) == [0x2C] + (Space(GetSerializeFlags(o).spacesAfterCommas) + Newline(o, depth + 1))
  {
  }

  /** The children from k on and the closing bracket, without what leads to child k. */
  lemma {:induction false} ItemsRendered(v: Value, k: nat, o: Options, depth: nat)
    requires Container(v) && k < Count(v)
    ensures PrintFrom(v, k, o, depth)
      == Lead(v, k, o, depth) + Render(ItemTokens(v, k) + [End(Close(v))], o, depth + 1)
    decreases v, Count(v) - k, 0
  {
    hide Gap, Lead, Tail, Label, Render, Through, Print, Tokens;
    var kid, rest := Kid(v, k), Following(v, k);
    PrintIsRendered(kid, o, depth + 1);
    TokensBalanced(kid, depth + 1);
    assert ItemTokens(v, k) + [End(Close(v))] == Naming(v, k) + (Tokens(kid) + rest);
    RestRendered(v, k, o, depth);
    RenderJoin(Tokens(kid), rest, o, depth + 1);
    LabelRendered(v, k, Tokens(kid) + rest, o, depth + 1);
  }

  /** What follows child k: a comma and the next ones, or the closing bracket. */
  function Following(v: Value, k: nat): (ts: seq<Token>)
    requires Container(v) && k < Count(v)
    ensures ts != []
  {
    (if k + 1 < Count(v) then [Comma] + ItemTokens(v, k + 1) else []) + [End(Close(v))]
  }

  lemma {:induction false} RestRendered(v: Value, k: nat, o: Options, depth: nat)
    requires Container(v) && k < Count(v)
    ensures var kid, rest := Tokens(Kid(v, k)), Following(v, k);
      PrintFrom(v, k + 1, o, depth)
        == Join(kid[|kid| - 1], rest[0], o, depth + 1) + Render(rest, o, depth + 1)
    decreases v, Count(v) - k - 1, 1
  {
    hide Gap, Lead, Tail, Label, Render, Through, Print, Tokens, ItemTokens, Space, Newline, GetSerializeFlags;
    var kid, rest := Tokens(Kid(v, k)), Following(v, k);
    SeparatorTexts();
    hide TokenText;
    TokensBalanced(Kid(v, k), depth + 1);
    if k + 1 < Count(v) {
      hide PrintFrom;
      var next := ItemTokens(v, k + 1);
      assert rest == [Comma] + (next + [End(Close(v))]);
      Gaps(o, kid[|kid| - 1], Comma, depth + 1);
      ItemsBalanced(v, k + 1, depth + 1);
      assert (next + [End(Close(v))])[0] == next[0];
      OneRendered(Comma, next + [End(Close(v))], o, depth + 1);
      Gaps(o, Comma, next[0], depth + 1);
      ItemsRendered(v, k + 1, o, depth);
      LeadIs(v, k + 1, o, depth);
      assert Lead(v, k + 1, o, depth) == TokenText(Comma) + Join(Comma, next[0], o, depth + 1);
    } else {
      assert rest == [End(Close(v))];
      Gaps(o, kid[|kid| - 1], rest[0], depth);
      LastRendered(v, o, depth);
    }
  }

  lemma SeparatorTexts()
    ensures TokenText(Comma) == [COMMA] && TokenText(Colon) == [COLON]
  {
    OctetsSpell();
  }

  lemma LastRendered(v: Value, o: Options, depth: nat)
    requires Container(v) && Count(v) > 0
    ensures Render([End(Close(v))], o, depth + 1) == [Close(v)]
    ensures PrintFrom(v, Count(v), o, depth) == Newline(o, depth) + Space(GetSerializeFlags(o).spacesAroundBrackets)
      + [Close(v)]
  {
    hide Newline, Gap;
  }

  lemma LabelRendered(v: Value, k: nat, more: seq<Token>, o: Options, depth: nat)
    requires Container(v) && k < Count(v) && more != [] && Opens(more[0])
    ensures Render(Naming(v, k) + more, o, depth) == Label(v, k, o) + Render(more, o, depth)
  {
    hide Gap, Render, InQuotes, Space, GetSerializeFlags;
    var none: bytes := [];
    SeparatorTexts();
    if v.Obj? {
      var name := Atom(InQuotes(v.entries[k].name));
      assert TokenText(name) == InQuotes(v.entries[k].name);
      hide TokenText;
      assert Naming(v, k) + more == [name] + ([Colon] + more);
      OneRendered(name, [Colon] + more, o, depth);
      OneRendered(Colon, more, o, depth);
      Gaps(o, name, Colon, depth);
      Gaps(o, Colon, more[0], depth);
    } else {
      assert Naming(v, k) + more == more;
      assert Label(v, k, o) == none;
    }
  }

  // What follows for the octets

  function Texts(ts: seq<Token>): bytes {
    if ts == [] then [] else TokenText(ts[0]) + Texts(ts[1..])
  }

  /** A string or a name in quotes, or octets that are not white space. */
  predicate Solid(t: Token) {
    || (t.Atom? && |t.text| >= 2 && t.text[0] == 0x22 && t.text[|t.text| - 1] == 0x22)
    || forall k | 0 <= k < |TokenText(t)| :: !IsBlank(TokenText(t)[k])
  }

  predicate AllSolid(ts: seq<Token>) {
    forall k | 0 <= k < |ts| :: Solid(ts[k])
  }

  lemma {:induction false} DigitsSolid(n: nat)
    ensures forall k | 0 <= k < |Digits(n)| :: IsDigit(Digits(n)[k])
    decreases n
  {
    if n >= 10 {
      DigitsSolid(n / 10);
    }
  }

  lemma {:induction false} TokensSolid(v: Value)
    ensures AllSolid(Tokens(v))
    decreases v, if Container(v) then Count(v) + 1 else 0
  {
    if Container(v) && Count(v) > 0 {
      hide ItemTokens;
      ItemsSolid(v, 0);
      BracketsSolid(v);
      hide Solid;
    } else {
      ScalarSolid(v);
    }
  }

  lemma BracketsSolid(v: Value)
    requires Container(v)
    ensures Solid(Begin(Open(v))) && Solid(End(Close(v)))
  {
  }

  lemma ScalarSolid(v: Value)
    requires !Container(v) || Count(v) == 0
    ensures AllSolid(Tokens(v))
  {
    hide Escaped, Digits;
    if v.Integer? {
      DigitsSolid(if v.i < 0 then -v.i else v.i);
    }
  }

  lemma {:induction false} ItemsSolid(v: Value, k: nat)
    requires Container(v) && k < Count(v)
    ensures AllSolid(ItemTokens(v, k))
    decreases v, Count(v) - k
  {
    hide Tokens;
    TokensSolid(Kid(v, k));
    assert Solid(Comma) && Solid(Colon);
    assert AllSolid(Naming(v, k));
    if k + 1 < Count(v) {
      ItemsSolid(v, k + 1);
    }
    hide Solid;
  }

  lemma {:induction false} BareRender(ts: seq<Token>, o: Options, depth: int)
    requires o.mode == 2
    ensures Render(ts, o, depth) == Texts(ts)
    decreases |ts|
  {
    hide TokenText;
    if |ts| > 1 {
      BareRender(ts[1..], o, Behind(ts[0], depth));
    } else if |ts| == 1 {
      assert ts[1..] == [] && Texts(ts[1..]) == [];
    }
  }

  /** A packed print is its tokens and nothing else: there is no white space outside strings and names. */
  lemma PackedIsBare(v: Value, o: Options)
    requires o.mode == 2
    ensures Print(v, o, 0) == Texts(Tokens(v)) && AllSolid(Tokens(v))
  {
    PrintIsRendered(v, o, 0);
    BareRender(Tokens(v), o, 0);
    TokensSolid(v);
  }

  predicate OneLine(w: bytes) {
    forall k | 0 <= k < |w| :: w[k] != 0x0A && w[k] != 0x0D
  }

  lemma {:induction false} EscapedOneLine(s: bytes)
    ensures OneLine(Escaped(s))
    decreases |s|
  {
    if s != [] {
      EscapedOneLine(s[..|s| - 1]);
    }
  }

  lemma {:induction false} TokensOneLine(v: Value)
    ensures forall k | 0 <= k < |Tokens(v)| :: OneLine(TokenText(Tokens(v)[k]))
    decreases v, if Container(v) then Count(v) + 1 else 0
  {
    if Container(v) && Count(v) > 0 {
      hide ItemTokens, OneLine;
      ItemsOneLine(v, 0);
      BracketsOneLine(v);
      hide TokenText;
    } else {
      ScalarOneLine(v);
    }
  }

  lemma BracketsOneLine(v: Value)
    requires Container(v)
    ensures OneLine(TokenText(Begin(Open(v)))) && OneLine(TokenText(End(Close(v))))
  {
  }

  lemma ScalarOneLine(v: Value)
    requires !Container(v) || Count(v) == 0
    ensures forall k | 0 <= k < |Tokens(v)| :: OneLine(TokenText(Tokens(v)[k]))
  {
    hide Escaped, Digits;
    if v.Integer? {
      DigitsSolid(if v.i < 0 then -v.i else v.i);
    } else if v.Str? {
      EscapedOneLine(v.s);
    }
  }

  lemma {:induction false} ItemsOneLine(v: Value, k: nat)
    requires Container(v) && k < Count(v)
    ensures forall j | 0 <= j < |ItemTokens(v, k)| :: OneLine(TokenText(ItemTokens(v, k)[j]))
    decreases v, Count(v) - k
  {
    hide Tokens, Escaped;
    TokensOneLine(Kid(v, k));
    if v.Obj? {
      EscapedOneLine(v.entries[k].name);
    }
    assert forall t | t in Naming(v, k) + [Comma] :: OneLine(TokenText(t));
    if k + 1 < Count(v) {
      ItemsOneLine(v, k + 1);
    }
    hide TokenText, OneLine;
  }

  lemma {:induction false} RenderOneLine(ts: seq<Token>, o: Options, depth: int)
    requires o.mode != 0 && forall k | 0 <= k < |ts| :: OneLine(TokenText(ts[k]))
    ensures OneLine(Render(ts, o, depth))
    decreases |ts|
  {
    if |ts| > 1 {
      RenderOneLine(ts[1..], o, Behind(ts[0], depth));
    }
  }

  /** Only the multi-line mode breaks lines. */
  lemma PrintOneLine(v: Value, o: Options)
    requires o.mode != 0
    ensures OneLine(Print(v, o, 0))
  {
    hide OneLine;
    PrintIsRendered(v, o, 0);
    TokensOneLine(v);
    RenderOneLine(Tokens(v), o, 0);
  }

  /** json_serialize and json_measure: single line, no option, indent size 3. */
  const DEFAULT := Options(1, false, false, false, false, false, 3)

  /** The default print of an object with one entry. */
  lemma DefaultPrint()
    ensures Print(Obj([Entry(Ascii("a"), Null)]), DEFAULT, 0) == Ascii("{ \"a\": null }")
  {
    hide *;
    var v := Obj([Entry(Ascii("a"), Null)]);
    var name, nil := Atom(InQuotes(Ascii("a"))), Atom(Ascii("null"));
    DefaultTokens(v);
    PrintIsRendered(v, DEFAULT, 0);
    DefaultGaps(name, nil);
    OneRendered(nil, [End(0x7D)], DEFAULT, 1);
    OneRendered(Colon, [nil, End(0x7D)], DEFAULT, 1);
    OneRendered(name, [Colon, nil, End(0x7D)], DEFAULT, 1);
    OneRendered(Begin(0x7B), [name, Colon, nil, End(0x7D)], DEFAULT, 0);
    assert [nil] + [End(0x7D)] == [nil, End(0x7D)];
    assert [Colon] + [nil, End(0x7D)] == [Colon, nil, End(0x7D)];
    assert [name] + [Colon, nil, End(0x7D)] == [name, Colon, nil, End(0x7D)];
    assert [Begin(0x7B)] + [name, Colon, nil, End(0x7D)] == [Begin(0x7B), name, Colon, nil, End(0x7D)];
    DefaultOctets();
  }

  lemma DefaultGaps(name: Token, value: Token)
    requires name.Atom? && value.Atom?
    ensures Behind(Begin(0x7B), 0) == 1 && Behind(name, 1) == 1 && Behind(Colon, 1) == 1 && Behind(value, 1) == 1
    ensures Join(Begin(0x7B), name, DEFAULT, 1) == [0x20] && Join(name, Colon, DEFAULT, 1) == []
    ensures Join(Colon, value, DEFAULT, 1) == [0x20] && Join(value, End(0x7D), DEFAULT, 1) == [0x20]
    ensures Render([End(0x7D)], DEFAULT, 1) == [0x7D] && TokenText(Begin(0x7B)) == [0x7B] && TokenText(Colon) == [0x3A]
    ensures TokenText(name) == name.text && TokenText(value) == value.text
  {
    SeparatorTexts();
  }

  lemma DefaultOctets()
    ensures [0x7B] + [0x20] + ([0x22, 0x61, 0x22] + [] + ([0x3A] + [0x20] + (Ascii("null") + [0x20] + [0x7D])))
      == Ascii("{ \"a\": null }")
  {
  }

  lemma DefaultTokens(v: Value)
    requires v == Obj([Entry(Ascii("a"), Null)])
    ensures Tokens(v) == [Begin(0x7B), Atom(InQuotes(Ascii("a"))), Colon, Atom(Ascii("null")), End(0x7D)]
    ensures InQuotes(Ascii("a")) == [0x22, 0x61, 0x22]
  {
    assert ItemTokens(v, 0) == Naming(v, 0) + Tokens(Null);
    assert Ascii("a")[..0] == [];
  }
}
