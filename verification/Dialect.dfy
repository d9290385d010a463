/** The texts that the parser accepts, as a grammar: RFC 8259 with the liberties the parser takes, and without the
    fractions it refuses. And how its strings and numbers are read, in both directions. */
module Dialect {
  import opened Bytes
  import opened Values
  import opened Unicode
  import opened Machine
  import opened Completeness
  import opened Literals
  import G = Syntax

  /** A value as the parser takes it. */
  datatype Term =
    | Word(word: bytes)
    | Numeral(literal: Literal)
    | Text(chars: seq<G.Char>)
    | List(elements: Elements)
    | Record(fields: Fields)

  /** What stands between brackets. A comma may also follow the last element. */
  datatype Elements =
    | NoElement(space: bytes)
    | Element(pre: bytes, item: Term, post: bytes, comma: bool, rest: Elements)

  datatype Fields =
    | NoField(space: bytes)
    | Field(pre: bytes, name: seq<G.Char>, preColon: bytes, postColon: bytes, item: Term, post: bytes, comma: bool,
            rest: Fields)

  /** A character of a string: any octet but NUL may be escaped, any octet but NUL may stand raw, and a surrogate may be
      followed by any other escaped unit. */
  predicate Readable(c: G.Char) {
    match c
    case Raw(b) => b != 0 && b != QUOTE && b != BACKSLASH
    case Short(c) => c != 0 && c != LOWER_U
    case Hex(u) => G.WfUnit(u) && !(0xD800 <= G.Code(u) <= 0xDFFF)
    case Pair(h, l) => G.WfUnit(h) && G.WfUnit(l) && 0xD800 <= G.Code(h) <= 0xDFFF
  }

  predicate AllReadable(cs: seq<G.Char>) {
    forall k | 0 <= k < |cs| :: Readable(cs[k])
  }

  /** A number: one of RFC 8259 whose integer part fits if a fraction follows, or a minus sign without digits or
      fraction. */
  predicate IsNumber(l: Literal) {
    && AllDigits(l.fraction)
    && (l.exponent.Exponent? ==> IsSign(l.exponent.sign) && l.exponent.digits != [] && AllDigits(l.exponent.digits))
    && if l.digits == [] then l.negative && l.fraction == [] else IsLiteral(l.digits) && !Refused(l)
  }

  predicate WfTerm(t: Term) {
    match t
    case Word(w) => w == TRUE || w == FALSE || w == NULL
    case Numeral(l) => IsNumber(l)
    case Text(cs) => AllReadable(cs)
    case List(es) => WfElements(es)
    case Record(fs) => WfFields(fs)
  }

  predicate WfElements(es: Elements) {
    match es
    case NoElement(w) => AllSpace(w)
    case Element(pre, item, post, comma, rest) =>
      && AllSpace(pre) && WfTerm(item) && AllSpace(post) && WfElements(rest)
      && (!comma ==> rest == NoElement([]))
  }

  predicate WfFields(fs: Fields) {
    match fs
    case NoField(w) => AllSpace(w)
    case Field(pre, name, preColon, postColon, item, post, comma, rest) =>
      && AllSpace(pre) && AllReadable(name) && AllSpace(preColon) && AllSpace(postColon)
      && WfTerm(item) && AllSpace(post) && WfFields(rest)
      && (!comma ==> rest == NoField([]))
  }

  function TermText(t: Term): bytes {
    match t
    case Word(w) => w
    case Numeral(l) => NumberText(l)
    case Text(cs) => G.Quoted(cs)
    case List(es) => [OPEN_BRACKET] + (ElementsText(es) + [CLOSE_BRACKET])
    case Record(fs) => [OPEN_BRACE] + (FieldsText(fs) + [CLOSE_BRACE])
  }

  function CommaText(comma: bool): bytes { if comma then [COMMA] else [] }

  function ElementsText(es: Elements): bytes {
    match es
    case NoElement(w) => w
    case Element(pre, item, post, comma, rest) =>
      pre + (TermText(item) + (post + (CommaText(comma) + ElementsText(rest))))
  }

  function FieldsText(fs: Fields): bytes {
    match fs
    case NoField(w) => w
    case Field(pre, name, preColon, postColon, item, post, comma, rest) =>
      pre + (G.MemberText(name, preColon, postColon, TermText(item))
          + (post + (CommaText(comma) + FieldsText(rest))))
  }

  /** One value with white space around it, and then the end, or a NUL and anything. */
  predicate IsBody(body: bytes, pre: bytes, t: Term, post: bytes, tail: bytes) {
    && AllSpace(pre) && WfTerm(t) && AllSpace(post) && (tail != [] ==> tail[0] == 0)
    && body == pre + (TermText(t) + (post + tail))
  }

  /** The texts of the dialect, which a byte order mark may precede. */
  ghost predicate InDialect(text: bytes) {
    exists pre, t, post, tail ::
      || IsBody(text, pre, t, post, tail)
      || (|text| >= 3 && text[..3] == [0xEF, 0xBB, 0xBF] && IsBody(text[3..], pre, t, post, tail))
  }

  // What a run keeps: the kinds along its path

  ghost function Shape(s: State): seq<Kind>
    requires IsPath(s.path, s.nodes)
  {
    seq(|s.path|, k requires 0 <= k < |s.path| => s.nodes[s.path[k]].kind)
  }

  /** In state e, at position p, a value sought in state s has been read. */
  ghost predicate Joined(text: bytes, s: State, e: State, p: nat) {
    && Machine.Wf(text, s) && Machine.Wf(text, e) && e.ptr == p
    && if s.path == [] then e.mode.Done?
       else Shape(e) == Shape(s) && e.mode == if TopKind(s) == ArrayKind then Seek(true, false) else InObject(true)
  }

  lemma ShapeOfPush(s: State, n: Node)
    requires IsPath(s.path, s.nodes) && (s.path != [] ==> IsContainer(TopKind(s)))
    ensures Shape(Push(s, n)) == Shape(s) + [n.kind]
  {
  }

  lemma ShapeOfTop(s: State)
    requires IsPath(s.path, s.nodes) && s.path != []
    ensures Shape(s) != [] && TopKind(s) == Shape(s)[|Shape(s)| - 1]
  {
  }

  lemma ShapeOfSetTop(s: State, n: Node)
    requires s.path != [] && IsPath(s.path, s.nodes) && n.parent == s.nodes[Top(s)].parent
    ensures Shape(SetTop(s, n)) == Shape(s)[|s.path| - 1 := n.kind]
  {
  }

  /** A node whose parent is the top of state s is complete. */
  lemma FinishJoins(text: bytes, s: State, t: State, kind: Kind, p: nat)
    requires Machine.Wf(text, s) && s.mode == Seek(false, false) && p <= |text|
    requires IsPath(t.path, t.nodes) && t.path != [] && Shape(t) == Shape(s) + [kind]
    ensures Joined(text, s, Finish(t, p), p)
  {
    var e := Finish(t, p);
    assert |t.path| == |Shape(t)| == |s.path| + 1;
    if s.path != [] {
      ShapeOfTop(s);
      assert Shape(t)[|s.path| - 1] == Shape(s)[|s.path| - 1];
      assert e.path == t.path[..|s.path|];
      assert forall k | 0 <= k < |s.path| :: Shape(t)[k] == Shape(s)[k] == t.nodes[t.path[k]].kind;
      assert Shape(e) == Shape(s);
    }
  }

  lemma HasJoin(text: bytes, p: nat, a: bytes, b: bytes)
    requires Has(text, p, a) && Has(text, p + |a|, b)
    ensures Has(text, p, a + b)
  {
    assert text[p..p + |a + b|] == text[p..p + |a|] + text[p + |a|..p + |a| + |b|];
  }

  // Strings

  lemma UnitSound(text: bytes, p: nat) returns (u: G.Unit)
    requires UnitAt(text, p).Some?
    ensures G.WfUnit(u) && G.Code(u) == UnitAt(text, p).value && Has(text, p, G.UnitText(u))
  {
    hide HexValue, G.DigitValue;
    u := G.Unit(text[p], text[p + 1], text[p + 2], text[p + 3]);
    HexValueIs(u.a);
    HexValueIs(u.b);
    HexValueIs(u.c);
    HexValueIs(u.d);
    assert text[p..p + 4] == G.UnitText(u);
  }

  /** What is unescaped stands for a character of the dialect. */
  lemma UnescapeSound(text: bytes, p: nat) returns (c: G.Char)
    requires p + 1 < |text| && text[p] == BACKSLASH && text[p + 1] != 0 && Unescape(text, p + 1).Some?
    ensures Readable(c) && !c.Raw? && Has(text, p, G.CharText(c))
    ensures Unescape(text, p + 1).value.1 == p + |G.CharText(c)|
  {
    hide UnitAt, G.Code, G.WfUnit, Utf8, CombinedCode;
    var e := [BACKSLASH, LOWER_U];
    assert text[p..p + 2] == [BACKSLASH, text[p + 1]];
    if text[p + 1] != LOWER_U {
      c := G.Short(text[p + 1]);
    } else {
      var u := UnitSound(text, p + 2);
      HasJoin(text, p, e, G.UnitText(u));
      if !IsSurrogate(G.Code(u)) {
        c := G.Hex(u);
      } else {
        var l := UnitSound(text, p + 8);
        assert text[p + 6..p + 8] == e;
        HasJoin(text, p + 6, e, G.UnitText(l));
        HasJoin(text, p, e + G.UnitText(u), e + G.UnitText(l));
        c := G.Pair(u, l);
        assert G.CharText(c) == (e + G.UnitText(u)) + (e + G.UnitText(l));
      }
    }
  }

  /** Each character of the dialect that is no raw one is unescaped. */
  lemma UnescapeTakes(text: bytes, p: nat, c: G.Char)
    requires Readable(c) && !c.Raw? && Has(text, p, G.CharText(c))
    ensures p + 1 < |text| && text[p] == BACKSLASH && text[p + 1] != 0
    ensures Unescape(text, p + 1).Some? && Unescape(text, p + 1).value.1 == p + |G.CharText(c)|
  {
    hide UnitAt, G.Code, G.WfUnit, Utf8, CombinedCode;
    var w := text[p..p + |G.CharText(c)|];
    assert text[p] == w[0] && text[p + 1] == w[1];
    match c
    case Short(_) =>
    case Hex(u) => UnitEscaped(text, p, u);
    case Pair(h, l) => PairUnits(text, p, h, l);
  }

  /** One character has been read into the string on top. */
  lemma OneChar(text: bytes, s: State, c: G.Char) returns (e: State)
    requires Machine.Wf(text, s) && s.mode.InString? && !s.mode.escaped
    requires Readable(c) && Has(text, s.ptr, G.CharText(c))
    ensures Machine.Wf(text, e) && Run(text, s) == Run(text, e)
    ensures e.mode.InString? && !e.mode.escaped && e == s.(ptr := s.ptr + |G.CharText(c)|, mode := e.mode)
  {
    hide Run, Unescape, Step, IsPath, Readable;
    if c.Raw? {
      e := s.(ptr := s.ptr + 1, mode := InString(false, s.mode.buf + [c.b]));
      RawTaken(text, s, c.b);
      Unfold(text, s, e);
    } else {
      UnescapeTakes(text, s.ptr, c);
      var m := s.(ptr := s.ptr + 1, mode := InString(true, s.mode.buf));
      EscapeStep(text, s, m);
      Unfold(text, s, m);
      var octets := Unescape(text, m.ptr).value.0;
      EscapedStep(text, m, octets, s.ptr + |G.CharText(c)|);
      e := s.(ptr := s.ptr + |G.CharText(c)|, mode := InString(false, s.mode.buf + octets));
      Unfold(text, m, e);
    }
  }

  lemma RawTaken(text: bytes, s: State, b: byte)
    requires Machine.Wf(text, s) && s.mode.InString? && !s.mode.escaped
    requires Readable(G.Raw(b)) && Has(text, s.ptr, G.CharText(G.Raw(b)))
    ensures Step(text, s) == Next(s.(ptr := s.ptr + 1, mode := InString(false, s.mode.buf + [b])))
  {
    hide IsPath, Finish, Unescape;
    assert text[s.ptr] == text[s.ptr..s.ptr + 1][0];
  }

  lemma {:induction false} CharsTaken(text: bytes, s: State, cs: seq<G.Char>) returns (e: State)
    requires Machine.Wf(text, s) && s.mode.InString? && !s.mode.escaped
    requires AllReadable(cs) && Has(text, s.ptr, G.CharsText(cs))
    ensures Machine.Wf(text, e) && Run(text, s) == Run(text, e)
    ensures e.mode.InString? && !e.mode.escaped && e == s.(ptr := s.ptr + |G.CharsText(cs)|, mode := e.mode)
    decreases |cs|
  {
    hide Run, Step, Fits, IsPath, Readable, G.CharText;
    e := s;
    if cs != [] {
      HasSplit(text, s.ptr, G.CharText(cs[0]), G.CharsText(cs[1..]));
      e := OneChar(text, s, cs[0]);
      e := CharsTaken(text, e, cs[1..]);
    }
  }

  /** The next character of a string that does not end here. */
  lemma NextChar(text: bytes, s: State) returns (c: G.Char)
    requires Machine.Wf(text, s) && s.mode.InString? && !s.mode.escaped && Run(text, s).Some?
    requires Peek(text, s.ptr) != QUOTE
    ensures Readable(c) && Has(text, s.ptr, G.CharText(c))
  {
    hide IsPath, Finish, Unescape, Readable;
    var b := Peek(text, s.ptr);
    assert b != 0;
    if b == BACKSLASH {
      var m := s.(ptr := s.ptr + 1, mode := InString(true, s.mode.buf));
      EscapeStep(text, s, m);
      Unfold(text, s, m);
      assert Step(text, m).Next?;
      c := UnescapeSound(text, s.ptr);
    } else {
      c := G.Raw(b);
      assert text[s.ptr..s.ptr + 1] == [b];
      RawIsReadable(b);
    }
  }

  lemma RawIsReadable(b: byte)
    requires b != 0 && b != QUOTE && b != BACKSLASH
    ensures Readable(G.Raw(b))
  {
  }

  /** Up to its closing quote a string of an accepted text consists of characters of the dialect. */
  lemma {:induction false} CharsSound(text: bytes, s: State) returns (cs: seq<G.Char>, e: State)
    requires Machine.Wf(text, s) && s.mode.InString? && !s.mode.escaped && Run(text, s).Some?
    ensures AllReadable(cs) && Has(text, s.ptr, G.CharsText(cs))
    ensures Machine.Wf(text, e) && Run(text, s) == Run(text, e)
    ensures e.mode.InString? && !e.mode.escaped && e == s.(ptr := s.ptr + |G.CharsText(cs)|, mode := e.mode)
    ensures e.ptr < |text| && text[e.ptr] == QUOTE
    decreases |text| - s.ptr
  {
    hide Run, Step, Fits, IsPath, Readable, G.CharText;
    cs, e := [], s;
    if Peek(text, s.ptr) != QUOTE {
      var c := NextChar(text, s);
      e := OneChar(text, s, c);
      CharTextSome(c);
      var rest;
      rest, e := CharsSound(text, e);
      cs := [c] + rest;
      assert cs[0] == c && cs[1..] == rest;
      HasJoin(text, s.ptr, G.CharText(c), G.CharsText(rest));
    }
  }

  lemma CharTextSome(c: G.Char)
    ensures |G.CharText(c)| > 0
  {
  }

  // Numbers

  /** The digits that follow in a double, or in an exponent. */
  lemma {:induction false} DigitsSound(text: bytes, b: State, s: State, n: Node) returns (ds: bytes, m: Node, t: State)
    requires Reads(text, b, s, n) && n.kind == DoubleKind
    ensures Reads(text, b, t, m) && m.kind == DoubleKind && Run(text, s) == Run(text, t)
    ensures AllDigits(ds) && Has(text, s.ptr, ds) && t.ptr == s.ptr + |ds| && !IsDigit(Peek(text, t.ptr))
    ensures t.mode.num.expo == s.mode.num.expo && t.mode.num.digits == s.mode.num.digits + |ds|
    ensures t.mode.num.expo && (ds != [] || s.mode.num.expoSign) ==> t.mode.num.expoSign
    decreases |text| - s.ptr
  {
    hide Run, Reads;
    ReadsInside(text, b, s, n);
    ds, m, t := [], n, s;
    if IsDigit(Peek(text, s.ptr)) {
      m, t := DigitOn(text, b, s, n);
      var rest;
      rest, m, t := DigitsSound(text, b, t, m);
      assert text[s.ptr..s.ptr + 1] == [text[s.ptr]];
      HasJoin(text, s.ptr, [text[s.ptr]], rest);
      ds := [text[s.ptr]] + rest;
    }
  }

  lemma ReadsInside(text: bytes, b: State, s: State, n: Node)
    requires Reads(text, b, s, n)
    ensures s.ptr <= |text| && s.mode.InNumber?
  {
  }

  /** One digit of an integer that takes it. */
  lemma IntegerDigit(text: bytes, b: State, s: State, n: Node) returns (m: Node, t: State)
    requires Reads(text, b, s, n) && n.kind == IntegerKind && !s.mode.num.expo && !s.mode.num.zero
    requires s.ptr < |text| && IsDigit(text[s.ptr]) && !WouldOverflow(n.integer, text[s.ptr] - ZERO)
    ensures Reads(text, b, t, m) && Run(text, s) == Run(text, t) && t.ptr == s.ptr + 1 && !t.mode.num.expo
    ensures m.kind == IntegerKind && m.integer == 10 * n.integer + (text[s.ptr] - ZERO)
    ensures t.mode.num.digits == s.mode.num.digits + 1
    ensures t.mode.num.zero <==> s.mode.num.digits == 0 && text[s.ptr] == ZERO
  {
    hide Run, IsPath, WouldOverflow;
    ReadsTop(text, b, s, n);
    DigitTaken(text, s);
    m := n.(integer := n.integer * 10 + (text[s.ptr] - ZERO));
    t := Step(text, s).s;
    Unfold(text, s, t);
    ReadsOn(text, b, s, n, m, t);
  }

  /** In state s the digits ds of an integer part that still fits have been read. */
  ghost predicate ReadsInteger(text: bytes, b: State, s: State, n: Node, ds: bytes) {
    && Reads(text, b, s, n) && n.kind == IntegerKind && !s.mode.num.expo
    && (ds == [] || IsLiteral(ds)) && AllDigits(ds) && n.integer == Decimal(ds) <= INT_MAX
    && s.mode.num.digits == |ds| && (s.mode.num.zero <==> ds == [ZERO])
  }

  /** After a leading zero no further digit is accepted. */
  lemma ZeroEnds(text: bytes, b: State, s: State, n: Node)
    requires Reads(text, b, s, n) && n.kind == IntegerKind && !s.mode.num.expo && s.mode.num.zero
    requires Run(text, s).Some?
    ensures !IsDigit(Peek(text, s.ptr))
  {
    hide IsPath;
    ReadsTop(text, b, s, n);
  }

  /** The digits of an integer part, up to the first character that is no digit. */
  lemma {:induction false} IntegerSound(text: bytes, b: State, s: State, n: Node, ds: bytes)
    returns (more: bytes, m: Node, t: State)
    requires ReadsInteger(text, b, s, n, ds) && Run(text, s).Some?
    ensures Reads(text, b, t, m) && Run(text, s) == Run(text, t) && !t.mode.num.expo && !IsDigit(Peek(text, t.ptr))
    ensures Has(text, s.ptr, more) && t.ptr == s.ptr + |more| && t.mode.num.digits == |ds + more|
    ensures AllDigits(ds + more) && (ds + more == [] || IsLiteral(ds + more))
    ensures m.kind == if Decimal(ds + more) <= INT_MAX then IntegerKind else DoubleKind
    decreases |text| - s.ptr
  {
    hide Run, Reads, Decimal, WouldOverflow, IsLiteral;
    ReadsInside(text, b, s, n);
    more, m, t := [], n, s;
    assert ds + more == ds;
    if IsDigit(Peek(text, s.ptr)) {
      var c := text[s.ptr];
      if s.mode.num.zero {
        ZeroEnds(text, b, s, n);
        assert false;
      }
      OneMore(ds, c);
      assert text[s.ptr..s.ptr + 1] == [c];
      WouldOverflowIff(n.integer, c - ZERO);
      if WouldOverflow(n.integer, c - ZERO) {
        m, t := Overflows(text, b, s, n);
        more, m, t := DigitsSound(text, b, t, m);
        assert more[0] == c by { FirstOf(text, s.ptr, more); }
        LongerLiteral(ds, more);
      } else {
        m, t := IntegerDigit(text, b, s, n);
        var rest;
        rest, m, t := IntegerSound(text, b, t, m, ds + [c]);
        more := [c] + rest;
        HasJoin(text, s.ptr, [c], rest);
        assert ds + [c] + rest == ds + more;
      }
    }
  }

  lemma FirstOf(text: bytes, p: nat, ds: bytes)
    requires Has(text, p, ds) && p < |text| && IsDigit(text[p]) && !IsDigit(Peek(text, p + |ds|))
    ensures ds != [] && ds[0] == text[p]
  {
    if ds != [] {
      assert text[p..p + |ds|][0] == text[p];
    }
  }

  lemma OneMore(ds: bytes, c: byte)
    requires AllDigits(ds) && (ds == [] || IsLiteral(ds)) && IsDigit(c) && ds != [ZERO]
    ensures AllDigits(ds + [c]) && Decimal(ds + [c]) == 10 * Decimal(ds) + (c - ZERO) && IsLiteral(ds + [c])
    ensures ds + [c] == [ZERO] <==> ds == [] && c == ZERO
  {
    assert (ds + [c])[..|ds|] == ds;
  }

  /** A literal that does not fit stays one, and does not fit, however many digits follow. */
  lemma LongerLiteral(ds: bytes, more: bytes)
    requires AllDigits(ds) && (ds == [] || IsLiteral(ds)) && ds != [ZERO]
    requires AllDigits(more) && more != [] && 10 * Decimal(ds) + (more[0] - ZERO) > INT_MAX
    ensures AllDigits(ds + more) && IsLiteral(ds + more) && Decimal(ds + more) > INT_MAX
  {
    hide Decimal;
    OneMore(ds, more[0]);
    DecimalPrefix(ds + more, |ds| + 1);
    assert (ds + more)[..|ds| + 1] == ds + [more[0]];
    if ds == [] {
      DecimalNone();
    }
  }

  lemma DecimalNone()
    ensures AllDigits([]) && Decimal([]) == 0
  {
  }

  /** No digit has followed where one must: the text is refused. */
  lemma DigitWanted(text: bytes, b: State, s: State, n: Node)
    requires Reads(text, b, s, n) && n.kind == DoubleKind && s.mode.num.digits == 0 && !IsDigit(Peek(text, s.ptr))
    requires s.mode.num.expo ==> s.mode.num.expoSign || (Peek(text, s.ptr) != PLUS && Peek(text, s.ptr) != MINUS)
    ensures Run(text, s) == None
  {
    hide IsPath, Scaled, EndNumber;
    ReadsTop(text, b, s, n);
  }

  /** A number ends before a character that it does not take, and joins its parent. */
  lemma NumberJoins(text: bytes, b: State, s: State, n: Node) returns (e: State)
    requires Machine.Wf(text, b) && Reads(text, b, s, n) && !IsDigit(Peek(text, s.ptr))
    requires n.kind == DoubleKind ==> s.mode.num.digits > 0
    requires s.mode.num.expo ==>
      n.kind == DoubleKind && (s.mode.num.expoSign || (Peek(text, s.ptr) != PLUS && Peek(text, s.ptr) != MINUS))
    requires !s.mode.num.expo ==> Peek(text, s.ptr) != LOWER_E && Peek(text, s.ptr) != UPPER_E
    requires n.kind == IntegerKind ==> Peek(text, s.ptr) != DOT
    ensures Joined(text, b, e, s.ptr) && Run(text, s) == Run(text, e)
  {
    hide Run, IsPath, Finish, Scaled;
    ReadsTop(text, b, s, n);
    e := EndNumber(s, Scaled(s.mode.num, n.kind, n.dbl));
    assert Step(text, s) == Next(e);
    Unfold(text, s, e);
    EndJoins(text, b, s, n, Scaled(s.mode.num, n.kind, n.dbl));
  }

  lemma EndJoins(text: bytes, b: State, s: State, n: Node, dbl: real)
    requires Machine.Wf(text, b) && Reads(text, b, s, n)
    ensures IsPath(s.path, s.nodes) && s.path != [] && Joined(text, b, EndNumber(s, dbl), s.ptr)
  {
    hide Finish, Joined;
    ReadsTop(text, b, s, n);
    var m := if !s.mode.num.negative then n.(dbl := dbl)
             else if n.kind == IntegerKind then n.(integer := -n.integer, dbl := dbl)
             else n.(dbl := -dbl);
    assert EndNumber(s, dbl) == Finish(SetTop(s, m), s.ptr);
    ShapeOfSetTop(s, m);
    ShapeInside(text, b, s, n);
    FinishJoins(text, b, SetTop(s, m), n.kind, s.ptr);
  }

  lemma ShapeInside(text: bytes, b: State, s: State, n: Node)
    requires Reads(text, b, s, n)
    ensures IsPath(s.path, s.nodes) && IsPath(b.path, b.nodes) && Shape(s) == Shape(b) + [n.kind]
  {
  }

  /** The sign that may begin a number. */
  lemma NumberBegins(text: bytes, s: State) returns (sign: bytes, n: Node, t: State)
    requires Machine.Wf(text, s) && s.mode == Seek(false, false)
    requires Peek(text, s.ptr) == MINUS || IsDigit(Peek(text, s.ptr))
    ensures sign == if Peek(text, s.ptr) == MINUS then [MINUS] else []
    ensures ReadsInteger(text, s, t, n, []) && !t.mode.num.expoSign
    ensures Has(text, s.ptr, sign) && t.ptr == s.ptr + |sign| && Run(text, s) == Run(text, t)
    ensures t.mode.num == FRESH_NUMBER.(negative := sign == [MINUS])
  {
    hide Run, IsPath, Step;
    var c := Peek(text, s.ptr);
    assert s.ptr < |text| && text[s.ptr..s.ptr + 1] == [c];
    sign := if c == MINUS then [MINUS] else [];
    IntegerStart(text, s, c == MINUS, if c == MINUS then ZERO else c);
    LeafPushed(s, Fresh(IntegerKind), Fresh(IntegerKind).(parent := Parent(s)));
    n := Fresh(IntegerKind).(parent := Parent(s));
    t := Push(s, Fresh(IntegerKind)).(ptr := s.ptr + |sign|,
                                      mode := InNumber(FRESH_NUMBER.(negative := c == MINUS)));
    Unfold(text, s, t);
    FirstReads(text, s, t, n);
    DecimalNone();
  }

  /** The fraction of an accepted number, if there is one. */
  lemma FractionSound(text: bytes, b: State, s: State, n: Node) returns (fs: bytes, m: Node, t: State)
    requires Reads(text, b, s, n) && !s.mode.num.expo && !IsDigit(Peek(text, s.ptr)) && Run(text, s).Some?
    requires n.kind == DoubleKind ==> s.mode.num.digits > 0
    ensures Reads(text, b, t, m) && Run(text, s) == Run(text, t) && !t.mode.num.expo
    ensures AllDigits(fs) && t.ptr == s.ptr + if fs == [] then 0 else 1 + |fs|
    ensures Has(text, s.ptr, if fs == [] then [] else [DOT] + fs)
    ensures fs != [] ==> n.kind == IntegerKind && s.mode.num.digits > 0
    ensures m.kind == if fs == [] then n.kind else DoubleKind
    ensures m.kind == DoubleKind ==> t.mode.num.digits > 0
    ensures !IsDigit(Peek(text, t.ptr)) && (m.kind == IntegerKind ==> Peek(text, t.ptr) != DOT)
  {
    hide Run, Reads;
    ReadsInside(text, b, s, n);
    ReadsNumber(text, b, s, n);
    fs, m, t := [], n, s;
    if n.kind == IntegerKind && Peek(text, s.ptr) == DOT {
      m, t := PointOn(text, b, s, n);
      fs, m, t := DigitsSound(text, b, t, m);
      if fs == [] {
        DigitWanted(text, b, t, m);
        assert false;
      }
      assert text[s.ptr..s.ptr + 1] == [DOT];
      HasJoin(text, s.ptr, [DOT], fs);
    }
  }

  /** The decimal point of an accepted number. */
  lemma PointOn(text: bytes, b: State, s: State, n: Node) returns (m: Node, t: State)
    requires Reads(text, b, s, n) && n.kind == IntegerKind && !s.mode.num.expo && Peek(text, s.ptr) == DOT
    requires Run(text, s).Some?
    ensures Reads(text, b, t, m) && m.kind == DoubleKind && Run(text, s) == Run(text, t) && s.mode.num.digits > 0
    ensures t.ptr == s.ptr + 1 && !t.mode.num.expo && t.mode.num.digits == 0
  {
    hide IsPath, Scaled;
    ReadsTop(text, b, s, n);
    m := AsDouble(n);
    t := Step(text, s).s;
    Unfold(text, s, t);
    ReadsOn(text, b, s, n, m, t);
  }

  /** The exponent of an accepted number, if there is one. */
  lemma ExponentSound(text: bytes, b: State, s: State, n: Node) returns (e: Exponent, m: Node, t: State)
    requires Reads(text, b, s, n) && !s.mode.num.expo && !IsDigit(Peek(text, s.ptr)) && Run(text, s).Some?
    requires n.kind == DoubleKind ==> s.mode.num.digits > 0
    requires n.kind == IntegerKind ==> Peek(text, s.ptr) != DOT
    ensures Reads(text, b, t, m) && Run(text, s) == Run(text, t) && !IsDigit(Peek(text, t.ptr))
    ensures e.Exponent? ==> IsSign(e.sign) && e.digits != [] && AllDigits(e.digits)
    ensures Has(text, s.ptr, ExponentText(e)) && t.ptr == s.ptr + |ExponentText(e)|
    ensures m.kind == DoubleKind ==> t.mode.num.digits > 0
    ensures m.kind == IntegerKind ==> Peek(text, t.ptr) != DOT
    ensures t.mode.num.expo ==> m.kind == DoubleKind && t.mode.num.expoSign
    ensures !t.mode.num.expo ==> Peek(text, t.ptr) != LOWER_E && Peek(text, t.ptr) != UPPER_E
  {
    hide Run, Reads, Has, ExponentText;
    ReadsInside(text, b, s, n);
    ReadsNumber(text, b, s, n);
    e, m, t := NoExponent, n, s;
    NoExponentText();
    HasNothing(text, s.ptr);
    if Peek(text, s.ptr) == LOWER_E || Peek(text, s.ptr) == UPPER_E {
      var sign, ds: bytes := [], [];
      m, t := ExponentLetter(text, b, s, n);
      HasNothing(text, t.ptr);
      ReadsInside(text, b, t, m);
      if Peek(text, t.ptr) == PLUS || Peek(text, t.ptr) == MINUS {
        sign := [text[t.ptr]];
        HasOne(text, t.ptr);
        t := ExponentSign(text, b, t, m);
      }
      var q := t.ptr;
      ds, m, t := DigitsSound(text, b, t, m);
      if ds == [] {
        DigitWanted(text, b, t, m);
        assert false;
      }
      e := Exponent(text[s.ptr] == UPPER_E, sign, ds);
      ExponentTextIs(e);
      HasOne(text, s.ptr);
      HasJoin(text, s.ptr + 1, sign, ds);
      HasJoin(text, s.ptr, [text[s.ptr]], sign + ds);
    }
  }

  lemma HasNothing(text: bytes, p: nat)
    requires p <= |text|
    ensures Has(text, p, [])
  {
  }

  lemma HasOne(text: bytes, p: nat)
    requires p < |text|
    ensures Has(text, p, [text[p]])
  {
  }

  /** A number of an accepted text is a number of the dialect. */
  lemma NumberSound(text: bytes, s: State) returns (l: Literal, e: State)
    requires Machine.Wf(text, s) && s.mode == Seek(false, false) && Run(text, s).Some?
    requires Peek(text, s.ptr) == MINUS || IsDigit(Peek(text, s.ptr))
    ensures IsNumber(l) && Has(text, s.ptr, NumberText(l))
    ensures Joined(text, s, e, s.ptr + |NumberText(l)|) && Run(text, s) == Run(text, e)
  {
    hide Run, Reads, Has, ExponentText, Decimal, IsLiteral, Joined, Machine.Wf, Peek;
    var sign, n, t := NumberBegins(text, s);
    var ds, fs, x;
    ds, n, t := IntegerSound(text, s, t, n, []);
    assert [] + ds == ds;
    HasJoin(text, s.ptr, sign, ds);
    FirstDigit(text, s.ptr, sign, ds);
    DecimalNone();
    fs, n, t := FractionSound(text, s, t, n);
    x, n, t := ExponentSound(text, s, t, n);
    l := Literal(sign == [MINUS], ds, fs, x);
    e := NumberJoins(text, s, t, n);
    HasJoin(text, s.ptr + |sign + ds|, FractionText(l), ExponentText(x));
    HasJoin(text, s.ptr, sign + ds, FractionText(l) + ExponentText(x));
    assert NumberText(l) == sign + ds + (FractionText(l) + ExponentText(x));
  }

  lemma FirstDigit(text: bytes, p: nat, sign: bytes, ds: bytes)
    requires Peek(text, p) == MINUS || IsDigit(Peek(text, p))
    requires sign == if Peek(text, p) == MINUS then [MINUS] else []
    requires !IsDigit(Peek(text, p + |sign| + |ds|))
    ensures ds == [] ==> sign == [MINUS]
  {
  }

  /** A number of the dialect is read. */
  lemma NumberTakes(text: bytes, s: State, l: Literal) returns (e: State)
    requires Machine.Wf(text, s) && s.mode == Seek(false, false) && IsNumber(l)
    requires Has(text, s.ptr, NumberText(l)) && !IsNumberChar(Peek(text, s.ptr + |NumberText(l)|))
    ensures Joined(text, s, e, s.ptr + |NumberText(l)|) && Run(text, s) == Run(text, e)
  {
    hide Run, Reads, Has, Decimal, IsLiteral, Joined, Peek, NumberText, Attach, IsNumberChar, ExponentText;
    if l.digits != [] {
      var n, decimal := NumberRun(text, s, l);
      e := Attach(s, [n], s.ptr + |NumberText(l)|).(decimal := decimal);
      AttachJoins(text, s, n, s.ptr + |NumberText(l)|, decimal);
    } else {
      MinusIs(l);
      HasSplit(text, s.ptr, [MINUS], ExponentText(l.exponent));
      PeekAt(text, s.ptr, [MINUS]);
      PlainChar(Peek(text, s.ptr + |NumberText(l)|));
      var sign, n, t := NumberBegins(text, s);
      NoExponentText();
      if l.exponent.Exponent? {
        n, t := ExponentPart(text, s, t, n, l.exponent);
      }
      ReadsNumber(text, s, t, n);
      e := NumberJoins(text, s, t, n);
    }
  }

  lemma PlainChar(c: byte)
    requires !IsNumberChar(c)
    ensures !IsDigit(c) && c != PLUS && c != MINUS && c != LOWER_E && c != UPPER_E && c != DOT
  {
  }

  lemma PeekAt(text: bytes, p: nat, w: bytes)
    requires Has(text, p, w) && w != []
    ensures p < |text| && Peek(text, p) == text[p] == w[0]
  {
    assert text[p..p + |w|][0] == text[p];
  }

  lemma MinusIs(l: Literal)
    requires l.digits == [] && l.negative && l.fraction == []
    ensures NumberText(l) == [MINUS] + ExponentText(l.exponent)
  {
    hide ExponentText;
    assert IntegerText(l.negative, l.digits) == [MINUS];
  }

  lemma AttachJoins(text: bytes, s: State, n: Node, p: nat, decimal: bool)
    requires Machine.Wf(text, s) && s.mode == Seek(false, false)
    requires Machine.Wf(text, Attach(s, [n], p).(decimal := decimal))
    ensures Joined(text, s, Attach(s, [n], p).(decimal := decimal), p)
  {
  }
}
