/** The machine accepts every text of the grammar and builds exactly the value the text denotes. */
module Completeness {
  import opened Bytes
  import opened Values
  import opened Unicode
  import opened Machine
  import opened G = Syntax

  // The nodes a tree becomes

  function Size(t: Syntax): (n: nat)
    ensures n >= 1
  {
    match t
    case SArr(_, items) => 1 + ItemsSize(items)
    case SObj(_, members) => 1 + MembersSize(members)
    case _ => 1
  }

  function ItemsSize(t: Items): nat {
    if t.INil? then 0 else Size(t.item) + ItemsSize(t.rest)
  }

  function MembersSize(t: Members): nat {
    if t.MNil? then 0 else Size(t.item) + MembersSize(t.rest)
  }

  /** The children of a container whose first child is taken at number at. */
  function Kids(t: Items, at: nat): seq<nat> {
    if t.INil? then [] else [at] + Kids(t.rest, at + Size(t.item))
  }

  function MemberKids(t: Members, at: nat): seq<nat> {
    if t.MNil? then [] else [at] + MemberKids(t.rest, at + Size(t.item))
  }

  function Names(t: Members): seq<bytes>
    requires WfMembers(t)
  {
    if t.MNil? then [] else [CharsMeaning(t.name)] + Names(t.rest)
  }

  /** The nodes of a tree whose own node is number at, in allocation order. */
  function Block(t: Syntax, at: nat, parent: int): (b: seq<Node>)
    requires G.Wf(t)
    ensures |b| == Size(t)
  {
    match t
    case SNull => [Fresh(NullKind).(parent := parent)]
    case STrue => [Fresh(BooleanKind).(parent := parent, boolean := 1)]
    case SFalse => [Fresh(BooleanKind).(parent := parent, boolean := 0)]
    case SInt(neg, ds) => [Fresh(IntegerKind).(parent := parent, integer := Signed(neg, ds))]
    case SStr(cs) => [Fresh(StringKind).(parent := parent, str := CharsMeaning(cs))]
    case SArr(_, items) =>
      [Fresh(ArrayKind).(parent := parent, children := Kids(items, at + 1))] + ItemsBlock(items, at + 1, at)
    case SObj(_, members) =>
      [Fresh(ObjectKind).(parent := parent, children := MemberKids(members, at + 1), names := Names(members))]
      + MembersBlock(members, at + 1, at)
  }

  function Signed(negative: bool, ds: bytes): int
    requires AllDigits(ds)
  {
    var n: int := Decimal(ds);
    if negative then -n else n
  }

  function ItemsBlock(t: Items, at: nat, parent: int): (b: seq<Node>)
    requires WfItems(t)
    ensures |b| == ItemsSize(t)
  {
    if t.INil? then [] else Block(t.item, at, parent) + ItemsBlock(t.rest, at + Size(t.item), parent)
  }

  function MembersBlock(t: Members, at: nat, parent: int): (b: seq<Node>)
    requires WfMembers(t)
    ensures |b| == MembersSize(t)
  {
    if t.MNil? then [] else Block(t.item, at, parent) + MembersBlock(t.rest, at + Size(t.item), parent)
  }

  /** Node p gains names and children. */
  function Grown(nodes: seq<Node>, p: nat, names: seq<bytes>, kids: seq<nat>): (r: seq<Node>)
    requires p < |nodes|
    ensures |r| == |nodes|
  {
    nodes[p := nodes[p].(names := nodes[p].names + names, children := nodes[p].children + kids)]
  }

  lemma GrownAgain(nodes: seq<Node>, p: nat, b: seq<Node>, ns: seq<bytes>, ks: seq<nat>, ns': seq<bytes>, ks': seq<nat>)
    requires p < |nodes|
    ensures Grown(Grown(nodes, p, ns, ks) + b, p, ns', ks') == Grown(nodes, p, ns + ns', ks + ks') + b
  {
    var n := nodes[p];
    assert n.names + (ns + ns') == (n.names + ns) + ns';
    assert n.children + (ks + ks') == (n.children + ks) + ks';
  }

  /** A complete value is appended and joins the container under construction, or is the root. */
  function Attach(s: State, block: seq<Node>, ptr: nat): (r: State)
    requires Fits(s) && s.mode == Seek(false, false)
  {
    if s.path == [] then State(ptr, Done, s.decimal, [|s.nodes|], s.nodes + block)
    else
      State(ptr, if TopKind(s) == ArrayKind then Seek(true, false) else InObject(true), s.decimal, s.path,
            Grown(s.nodes, Top(s), [], [|s.nodes|]) + block)
  }

  function Parent(s: State): int {
    if s.path == [] then -1 else s.path[|s.path| - 1]
  }

  lemma FinishAttaches(s: State, t: State, block: seq<Node>, ptr: nat)
    requires Fits(s) && s.mode == Seek(false, false)
    requires t.path == s.path + [|s.nodes|] && t.nodes == s.nodes + block && t.decimal == s.decimal
    requires IsPath(t.path, t.nodes)
    ensures Finish(t, ptr) == Attach(s, block, ptr)
  {
    hide Fits, IsPath, Grown;
    if s.path != [] {
      var p := Top(s);
      assert p < |s.nodes| by { TopInside(s); }
      assert t.path[..|t.path| - 1] == s.path && t.path[|t.path| - 2] == p && t.nodes[p] == s.nodes[p];
      GrownOne(s.nodes, p, |s.nodes|, block);
    }
  }

  lemma TopInside(s: State)
    requires Fits(s) && s.path != []
    ensures Top(s) < |s.nodes|
  {
  }

  lemma GrownOne(nodes: seq<Node>, p: nat, kid: nat, block: seq<Node>)
    requires p < |nodes|
    ensures var all := nodes + block;
      all[p := all[p].(children := all[p].children + [kid])] == Grown(nodes, p, [], [kid]) + block
  {
    var n := nodes[p];
    assert n.(children := n.children + [kid]) == n.(names := n.names + [], children := n.children + [kid]);
  }

  // Runs over the pieces of a text

  lemma Unfold(text: bytes, s: State, t: State)
    requires Machine.Wf(text, s) && Step(text, s) == Next(t)
    ensures Machine.Wf(text, t) && Run(text, s) == Run(text, t)
  {
  }

  lemma {:induction false} SpaceRun(text: bytes, s: State, w: bytes)
    requires Machine.Wf(text, s) && (s.mode.Seek? || s.mode.InObject? || s.mode.Done?)
    requires AllSpace(w) && Has(text, s.ptr, w)
    ensures Machine.Wf(text, s.(ptr := s.ptr + |w|)) && Run(text, s) == Run(text, s.(ptr := s.ptr + |w|))
    decreases |w|
  {
    hide Run;
    if w == [] {
      assert s.(ptr := s.ptr + |w|) == s;
    } else {
      var t := s.(ptr := s.ptr + 1);
      assert w == [w[0]] + w[1..];
      HasSplit(text, s.ptr, [w[0]], w[1..]);
      Unfold(text, s, t);
      SpaceRun(text, t, w[1..]);
      assert t.(ptr := t.ptr + |w[1..]|) == s.(ptr := s.ptr + |w|);
    }
  }

  /** hex_value finds what each hexadecimal digit is worth, and nothing else. */
  lemma HexValueIs(c: byte)
    ensures if DigitValue(c) < 16 then HexValue(c) == DigitValue(c) else HexValue(c) == 0xFF
  {
    var v := HexValue(c);
    DigitRows();
    if v != 0xFF {
      assert v < 16 && (LOWER_DIGITS[v] == c || UPPER_DIGITS[v] == c);
      DigitIs(c, v);
    } else {
      assert forall k | 0 <= k < 16 :: LOWER_DIGITS[k] != c && UPPER_DIGITS[k] != c;
    }
  }

  lemma DigitRows()
    ensures |LOWER_DIGITS| == |UPPER_DIGITS| == 16
    ensures forall k | 0 <= k < 16 :: LOWER_DIGITS[k] == if k < 10 then 0x30 + k else 0x61 + k - 10
    ensures forall k | 0 <= k < 16 :: UPPER_DIGITS[k] == if k < 10 then 0x30 + k else 0x41 + k - 10
  {
    assert LOWER_DIGITS == [0x30, 0x31, 0x32, 0x33, 0x34, 0x35, 0x36, 0x37, 0x38, 0x39, 0x61, 0x62, 0x63, 0x64, 0x65,
      0x66];
    assert UPPER_DIGITS == [0x30, 0x31, 0x32, 0x33, 0x34, 0x35, 0x36, 0x37, 0x38, 0x39, 0x41, 0x42, 0x43, 0x44, 0x45,
      0x46];
  }

  lemma DigitIs(c: byte, v: nat)
    requires v < 16 && (LOWER_DIGITS[v] == c || UPPER_DIGITS[v] == c)
    ensures DigitValue(c) == v
  {
    DigitRows();
    var l, u := Position(LOWER_DIGITS, c), Position(UPPER_DIGITS, c);
    hide Position;
  }

  lemma UnitRun(text: bytes, p: nat, u: Unit)
    requires WfUnit(u) && Has(text, p, UnitText(u))
    ensures UnitAt(text, p) == Some(Code(u))
  {
    hide HexValue, DigitValue;
    var w := text[p..p + 4];
    assert w == UnitText(u);
    assert text[p] == w[0] && text[p + 1] == w[1] && text[p + 2] == w[2] && text[p + 3] == w[3];
    HexValueIs(u.a);
    HexValueIs(u.b);
    HexValueIs(u.c);
    HexValueIs(u.d);
  }

  lemma EscapeRun(text: bytes, p: nat, c: Char)
    requires WfChar(c) && !c.Raw? && Has(text, p, CharText(c))
    ensures p + 1 < |text| && text[p] == BACKSLASH && text[p + 1] != 0
    ensures Unescape(text, p + 1) == Some((CharMeaning(c), p + |CharText(c)|))
  {
    hide Code, UnitAt, Unescape, CharMeaning, WfUnit;
    var w := text[p..p + |CharText(c)|];
    assert text[p] == w[0] && text[p + 1] == w[1];
    match c
    case Short(_) => ShortRun(text, p, c);
    case Hex(u) => HexRun(text, p, u);
    case Pair(h, l) => PairRun(text, p, h, l);
  }

  lemma ShortRun(text: bytes, p: nat, c: Char)
    requires WfChar(c) && c.Short? && p + 1 < |text| && text[p + 1] == c.c
    ensures Unescape(text, p + 1) == Some((CharMeaning(c), p + 2))
  {
    hide UnitAt;
  }

  lemma HexRun(text: bytes, p: nat, u: Unit)
    requires WfChar(Hex(u)) && p + 1 < |text| && text[p + 1] == LOWER_U && Has(text, p, CharText(Hex(u)))
    ensures Unescape(text, p + 1) == Some((CharMeaning(Hex(u)), p + 6))
  {
    hide Code, UnitAt, Utf8, CharText, Has;
    UnitEscaped(text, p, u);
  }

  lemma PairRun(text: bytes, p: nat, h: Unit, l: Unit)
    requires WfChar(Pair(h, l)) && p + 1 < |text| && text[p + 1] == LOWER_U && Has(text, p, CharText(Pair(h, l)))
    ensures Unescape(text, p + 1) == Some((CharMeaning(Pair(h, l)), p + 12))
  {
    hide Code, UnitAt, Utf8, CombinedCode, CharText, Has;
    PairUnits(text, p, h, l);
  }

  lemma UnitEscaped(text: bytes, p: nat, u: Unit)
    requires WfUnit(u) && Has(text, p, CharText(Hex(u)))
    ensures UnitAt(text, p + 2) == Some(Code(u))
  {
    hide Code, UnitAt, HexValue;
    HasSplit(text, p, [BACKSLASH, LOWER_U], UnitText(u));
    UnitRun(text, p + 2, u);
  }

  lemma PairUnits(text: bytes, p: nat, h: Unit, l: Unit)
    requires WfUnit(h) && WfUnit(l) && Has(text, p, CharText(Pair(h, l)))
    ensures p + 12 <= |text| && text[p + 6] == BACKSLASH && text[p + 7] == LOWER_U
    ensures UnitAt(text, p + 2) == Some(Code(h)) && UnitAt(text, p + 8) == Some(Code(l))
  {
    hide Code, UnitAt, HexValue;
    var e := [BACKSLASH, LOWER_U];
    assert CharText(Pair(h, l)) == (e + UnitText(h)) + (e + UnitText(l));
    HasSplit(text, p, e + UnitText(h), e + UnitText(l));
    HasSplit(text, p, e, UnitText(h));
    HasSplit(text, p + 6, e, UnitText(l));
    UnitRun(text, p + 2, h);
    UnitRun(text, p + 8, l);
    assert text[p + 6] == text[p + 6..p + 8][0] && text[p + 7] == text[p + 6..p + 8][1];
  }

  lemma CharRun(text: bytes, s: State, c: Char)
    requires Machine.Wf(text, s) && s.mode.InString? && !s.mode.escaped
    requires WfChar(c) && Has(text, s.ptr, CharText(c))
    ensures var t := s.(ptr := s.ptr + |CharText(c)|, mode := InString(false, s.mode.buf + CharMeaning(c)));
            Machine.Wf(text, t) && Run(text, s) == Run(text, t)
  {
    hide Run, Unescape, Step, CharText, CharMeaning, WfChar, IsPath;
    if c.Raw? {
      RawRun(text, s, c.b);
    } else {
      EscapeRun(text, s.ptr, c);
      var m := s.(ptr := s.ptr + 1, mode := InString(true, s.mode.buf));
      EscapeStep(text, s, m);
      Unfold(text, s, m);
      EscapedStep(text, m, CharMeaning(c), s.ptr + |CharText(c)|);
      Unfold(text, m, s.(ptr := s.ptr + |CharText(c)|, mode := InString(false, s.mode.buf + CharMeaning(c))));
    }
  }

  lemma RawRun(text: bytes, s: State, b: byte)
    requires Machine.Wf(text, s) && s.mode.InString? && !s.mode.escaped
    requires WfChar(Raw(b)) && Has(text, s.ptr, CharText(Raw(b)))
    ensures var t := s.(ptr := s.ptr + |CharText(Raw(b))|, mode := InString(false, s.mode.buf + CharMeaning(Raw(b))));
            Machine.Wf(text, t) && Run(text, s) == Run(text, t)
  {
    hide Run, IsPath, Finish, Unescape;
    assert text[s.ptr] == text[s.ptr..s.ptr + 1][0];
    Unfold(text, s, s.(ptr := s.ptr + 1, mode := InString(false, s.mode.buf + [b])));
  }

  lemma EscapeStep(text: bytes, s: State, m: State)
    requires Machine.Wf(text, s) && s.mode.InString? && !s.mode.escaped && s.ptr < |text| && text[s.ptr] == BACKSLASH
    requires m == s.(ptr := s.ptr + 1, mode := InString(true, s.mode.buf))
    ensures Step(text, s) == Next(m)
  {
    hide IsPath, Finish, Unescape;
  }

  lemma EscapedStep(text: bytes, s: State, octets: bytes, q: nat)
    requires Machine.Wf(text, s) && s.mode.InString? && s.mode.escaped && s.ptr < |text| && text[s.ptr] != 0
    requires Unescape(text, s.ptr) == Some((octets, q))
    ensures Step(text, s) == Next(s.(ptr := q, mode := InString(false, s.mode.buf + octets)))
  {
    hide IsPath, Finish, Unescape;
  }

  lemma {:induction false} CharsRun(text: bytes, s: State, cs: seq<Char>)
    requires Machine.Wf(text, s) && s.mode.InString? && !s.mode.escaped
    requires WfChars(cs) && Has(text, s.ptr, CharsText(cs))
    ensures var t := s.(ptr := s.ptr + |CharsText(cs)|, mode := InString(false, s.mode.buf + CharsMeaning(cs)));
            Machine.Wf(text, t) && Run(text, s) == Run(text, t)
    decreases |cs|
  {
    hide Run, Step, Fits, IsPath, CharMeaning, CharText;
    var t := s.(ptr := s.ptr + |CharsText(cs)|, mode := InString(false, s.mode.buf + CharsMeaning(cs)));
    if cs == [] {
      assert s.mode.buf + [] == s.mode.buf;
      assert t == s;
    } else {
      HasSplit(text, s.ptr, CharText(cs[0]), CharsText(cs[1..]));
      CharRun(text, s, cs[0]);
      var m := s.(ptr := s.ptr + |CharText(cs[0])|, mode := InString(false, s.mode.buf + CharMeaning(cs[0])));
      CharsRun(text, m, cs[1..]);
      assert m.mode.buf + CharsMeaning(cs[1..]) == s.mode.buf + CharsMeaning(cs);
    }
  }

  /** From an opening quote to just before the closing one. */
  lemma QuotedRun(text: bytes, s: State, cs: seq<Char>)
    requires Machine.Wf(text, s) && s.mode == InString(false, []) && s.ptr > 0
    requires WfChars(cs) && Has(text, s.ptr - 1, Quoted(cs))
    ensures var t := s.(ptr := s.ptr - 2 + |Quoted(cs)|, mode := InString(false, CharsMeaning(cs)));
            Machine.Wf(text, t) && Run(text, s) == Run(text, t) && t.ptr < |text| && text[t.ptr] == QUOTE
  {
    hide Run, Step, IsPath, CharsText, CharsMeaning, WfChars;
    HasSplit(text, s.ptr - 1, [QUOTE], CharsText(cs) + [QUOTE]);
    HasSplit(text, s.ptr, CharsText(cs), [QUOTE]);
    CharsRun(text, s, cs);
    var q := s.ptr + |CharsText(cs)|;
    assert text[q] == text[q..q + 1][0];
    assert [] + CharsMeaning(cs) == CharsMeaning(cs);
  }

  // Numbers

  lemma {:induction false} DecimalPrefix(ds: bytes, k: nat)
    requires AllDigits(ds) && k <= |ds|
    ensures Decimal(ds[..k]) <= Decimal(ds)
    decreases |ds|
  {
    if k == |ds| {
      assert ds[..k] == ds;
    } else {
      var init := ds[..|ds| - 1];
      DecimalPrefix(init, k);
      assert init[..k] == ds[..k];
    }
  }

  /** would_overflow tells exactly whether one more digit leaves the range. */
  lemma WouldOverflowIff(value: nat, d: nat)
    requires d <= 9
    ensures WouldOverflow(value, d) <==> 10 * value + d > INT_MAX
  {
  }

  /** A digit that neither follows a leading zero nor overflows is taken into the integer. */
  lemma DigitTaken(text: bytes, s: State)
    requires Machine.Wf(text, s) && s.mode.InNumber? && TopKind(s) == IntegerKind && !s.mode.num.expo
      && !s.mode.num.zero
    requires s.ptr < |text| && IsDigit(text[s.ptr])
    requires !WouldOverflow(s.nodes[Top(s)].integer, text[s.ptr] - ZERO)
    ensures var n := s.nodes[Top(s)];
            Step(text, s) == Next(SetTop(s, n.(integer := n.integer * 10 + (text[s.ptr] - ZERO)))
                                  .(ptr := s.ptr + 1, mode := InNumber(s.mode.num.(digits := s.mode.num.digits + 1,
                                                               zero := s.mode.num.digits == 0 && text[s.ptr] == ZERO))))
  {
    hide IsPath;
  }

  /** The state of an integer literal of which k digits have been read. */
  function Partial(s: State, ds: bytes, k: nat): (r: State)
    requires IsPath(s.path, s.nodes) && s.path != [] && s.mode.InNumber? && k <= |ds| && AllDigits(ds)
    ensures IsPath(r.path, r.nodes) && r.path == s.path && r.mode.InNumber? && TopKind(r) == TopKind(s)
    ensures r.nodes[Top(r)].integer == Decimal(ds[..k])
  {
    SetTop(s, s.nodes[Top(s)].(integer := Decimal(ds[..k])))
    .(ptr := s.ptr + k, mode := InNumber(s.mode.num.(digits := k, zero := k > 0 && ds[0] == ZERO)))
  }

  lemma {:induction false} DigitsRun(text: bytes, s: State, ds: bytes, k: nat)
    requires k <= |ds| && AllDigits(ds) && (|ds| > 1 ==> ds[0] != ZERO) && Decimal(ds) <= INT_MAX
    requires IsPath(s.path, s.nodes) && s.path != [] && s.mode.InNumber? && TopKind(s) == IntegerKind
      && !s.mode.num.expo
    requires Has(text, s.ptr, ds)
    requires Machine.Wf(text, Partial(s, ds, k))
    ensures Machine.Wf(text, Partial(s, ds, |ds|))
    ensures Run(text, Partial(s, ds, k)) == Run(text, Partial(s, ds, |ds|))
    decreases |ds| - k
  {
    hide Run, Step, Fits, IsPath, Finish;
    if k < |ds| {
      assert text[s.ptr + k] == text[s.ptr..s.ptr + |ds|][k] == ds[k];
      assert ds[..k + 1][..k] == ds[..k];
      assert Decimal(ds[..k + 1]) == 10 * Decimal(ds[..k]) + (ds[k] - ZERO);
      DecimalPrefix(ds, k + 1);
      WouldOverflowIff(Decimal(ds[..k]), ds[k] - ZERO);
      var m, t := Partial(s, ds, k), Partial(s, ds, k + 1);
      DigitTaken(text, m);
      assert Step(text, m) == Next(t);
      Unfold(text, m, t);
      DigitsRun(text, s, ds, k + 1);
    }
  }

  lemma IntegerStart(text: bytes, s: State, neg: bool, d: byte)
    requires Machine.Wf(text, s) && s.mode == Seek(false, false) && IsDigit(d)
    requires s.ptr < |text| && text[s.ptr] == if neg then MINUS else d
    ensures Step(text, s) == Next(Push(s, Fresh(IntegerKind)).(ptr := if neg then s.ptr + 1 else s.ptr,
                                                              mode := InNumber(FRESH_NUMBER.(negative := neg))))
  {
    hide IsPath;
  }

  lemma IntegerEnd(text: bytes, s: State)
    requires Machine.Wf(text, s) && s.mode.InNumber? && TopKind(s) == IntegerKind && !s.mode.num.expo
    requires !IsNumberChar(Peek(text, s.ptr))
    ensures var n := s.nodes[Top(s)];
            Step(text, s) == Next(Finish(SetTop(s,
                n.(integer := if s.mode.num.negative then -n.integer else n.integer)), s.ptr))
  {
    hide IsPath, Finish;
    assert Top(s) < |s.nodes|;
    var n := s.nodes[Top(s)];
    assert n.(integer := n.integer) == n && n.(dbl := n.dbl) == n;
    assert n.(integer := -n.integer, dbl := n.dbl) == n.(integer := -n.integer);
  }

  /** A leaf that has been taken and then given its content. */
  lemma LeafPushed(s: State, n: Node, n': Node)
    requires Fits(s) && s.mode == Seek(false, false) && n'.parent == Parent(s)
    ensures var m := Push(s, n);
            && m.path == s.path + [|s.nodes|] && m.nodes == s.nodes + [n.(parent := Parent(s))] && Top(m) == |s.nodes|
            && SetTop(m, n').nodes == s.nodes + [n']
            && m.decimal == s.decimal
  {
    hide IsPath;
  }

  /** The sign has been read, and the digits follow. */
  lemma SignRead(text: bytes, s: State, neg: bool, ds: bytes) returns (m: State)
    requires Machine.Wf(text, s) && s.mode == Seek(false, false) && G.Wf(SInt(neg, ds))
    requires Has(text, s.ptr, Text(SInt(neg, ds)))
    ensures m == Push(s, Fresh(IntegerKind)).(ptr := s.ptr + (if neg then 1 else 0),
      mode := InNumber(FRESH_NUMBER.(negative := neg)))
    ensures Machine.Wf(text, m) && Run(text, s) == Run(text, m) && Has(text, m.ptr, ds)
    ensures |Text(SInt(neg, ds))| == (if neg then 1 else 0) + |ds|
  {
    hide Run, Step, IsPath, Decimal, WouldOverflow, Push;
    var sign: bytes := if neg then [MINUS] else [];
    HasSplit(text, s.ptr, sign, ds);
    assert IsDigit(ds[0]);
    assert text[s.ptr] == text[s.ptr..s.ptr + |sign + ds|][0];
    IntegerStart(text, s, neg, ds[0]);
    m := Push(s, Fresh(IntegerKind)).(ptr := s.ptr + |sign|, mode := InNumber(FRESH_NUMBER.(negative := neg)));
    Unfold(text, s, m);
  }

  /** The whole literal has been read into the integer on top. */
  lemma IntegerRead(text: bytes, s: State, neg: bool, ds: bytes) returns (e: State)
    requires Machine.Wf(text, s) && s.mode == Seek(false, false) && G.Wf(SInt(neg, ds))
    requires Has(text, s.ptr, Text(SInt(neg, ds)))
    ensures Machine.Wf(text, e) && Run(text, s) == Run(text, e) && e.ptr == s.ptr + |Text(SInt(neg, ds))|
    ensures e.mode.InNumber? && e.decimal == s.decimal
    ensures e.path == s.path + [|s.nodes|]
    ensures e.nodes == s.nodes + [Fresh(IntegerKind).(parent := Parent(s), integer := Decimal(ds))]
    ensures e.mode.num == FRESH_NUMBER.(negative := neg, digits := |ds|, zero := ds[0] == ZERO)
  {
    hide Run, Step, IsPath, Decimal, WouldOverflow, Push, Has, AllDigits;
    var m := SignRead(text, s, neg, ds);
    LeafPushed(s, Fresh(IntegerKind), Fresh(IntegerKind).(parent := Parent(s)));
    NothingRead(s, m, ds);
    DigitsRun(text, m, ds, 0);
    e := Partial(m, ds, |ds|);
    assert ds[..|ds|] == ds;
  }

  lemma IntegerRun(text: bytes, s: State, neg: bool, ds: bytes)
    requires Machine.Wf(text, s) && s.mode == Seek(false, false) && G.Wf(SInt(neg, ds))
    requires Has(text, s.ptr, Text(SInt(neg, ds)))
    requires !IsNumberChar(Peek(text, s.ptr + |Text(SInt(neg, ds))|))
    ensures var t := Attach(s, Block(SInt(neg, ds), |s.nodes|, Parent(s)), s.ptr + |Text(SInt(neg, ds))|);
            Machine.Wf(text, t) && Run(text, s) == Run(text, t)
  {
    hide Run, Step, IsPath, Finish, Attach, Decimal, Has, Peek;
    var e := IntegerRead(text, s, neg, ds);
    IntegerEnd(text, e);
    var leaf := Block(SInt(neg, ds), |s.nodes|, Parent(s))[0];
    var f := SetTop(e, leaf);
    Unfold(text, e, Finish(f, e.ptr));
    assert f.nodes == s.nodes + [leaf];
    FinishAttaches(s, f, [leaf], e.ptr);
  }

  lemma NothingRead(s: State, m: State, ds: bytes)
    requires IsPath(m.path, m.nodes) && m.path != [] && m.mode.InNumber? && AllDigits(ds)
    requires m.nodes[Top(m)].integer == 0 && m.mode.num.digits == 0 && !m.mode.num.zero
    ensures Partial(m, ds, 0) == m
  {
    var n := m.nodes[Top(m)];
    assert n.(integer := 0) == n && m.nodes[Top(m) := n] == m.nodes;
  }

  // Values

  lemma WordStart(text: bytes, s: State, t: Syntax)
    requires Machine.Wf(text, s) && s.mode == Seek(false, false) && (t.SNull? || t.STrue? || t.SFalse?)
    requires Has(text, s.ptr, Text(t))
    ensures var leaf := Block(t, 0, -1)[0];
            Step(text, s) == Next(Finish(Push(s, leaf), s.ptr + |Text(t)|))
  {
    hide IsPath, Finish;
    assert text[s.ptr] == text[s.ptr..s.ptr + |Text(t)|][0];
  }

  lemma WordRun(text: bytes, s: State, t: Syntax)
    requires Machine.Wf(text, s) && s.mode == Seek(false, false) && (t.SNull? || t.STrue? || t.SFalse?)
    requires Has(text, s.ptr, Text(t))
    ensures var r := Attach(s, Block(t, |s.nodes|, Parent(s)), s.ptr + |Text(t)|);
            Machine.Wf(text, r) && Run(text, s) == Run(text, r)
  {
    hide Run, Step, IsPath, Finish, Attach;
    WordStart(text, s, t);
    var leaf := Block(t, 0, -1)[0];
    LeafPushed(s, leaf, leaf.(parent := Parent(s)));
    var m := Push(s, leaf);
    Unfold(text, s, Finish(m, s.ptr + |Text(t)|));
    FinishAttaches(s, m, Block(t, |s.nodes|, Parent(s)), s.ptr + |Text(t)|);
  }

  lemma StringStart(text: bytes, s: State)
    requires Machine.Wf(text, s) && s.mode == Seek(false, false) && s.ptr < |text| && text[s.ptr] == QUOTE
    ensures Step(text, s) == Next(Push(s, Fresh(StringKind)).(ptr := s.ptr + 1, mode := InString(false, [])))
  {
    hide IsPath;
  }

  lemma StringRun(text: bytes, s: State, cs: seq<Char>)
    requires Machine.Wf(text, s) && s.mode == Seek(false, false) && WfChars(cs)
    requires Has(text, s.ptr, Quoted(cs))
    ensures var r := Attach(s, Block(SStr(cs), |s.nodes|, Parent(s)), s.ptr + |Quoted(cs)|);
            Machine.Wf(text, r) && Run(text, s) == Run(text, r)
  {
    hide Run, Step, IsPath, Finish, Attach, CharsMeaning, CharsText;
    assert text[s.ptr] == text[s.ptr..s.ptr + |Quoted(cs)|][0];
    var m := Push(s, Fresh(StringKind)).(ptr := s.ptr + 1, mode := InString(false, []));
    StringStart(text, s);
    Unfold(text, s, m);
    QuotedRun(text, m, cs);
    var q := m.(ptr := m.ptr - 2 + |Quoted(cs)|, mode := InString(false, CharsMeaning(cs)));
    var leaf := Block(SStr(cs), |s.nodes|, Parent(s))[0];
    LeafPushed(s, Fresh(StringKind), leaf);
    var f := SetTop(q, leaf);
    StringEnd(text, q);
    Unfold(text, q, Finish(f, q.ptr + 1));
    FinishAttaches(s, f, [leaf], q.ptr + 1);
  }

  /** The state once a list of items, or of members, has been read into the container under construction. */
  function After(s: State, names: seq<bytes>, kids: seq<nat>, block: seq<Node>, ptr: nat): State
    requires Fits(s) && s.path != []
  {
    State(ptr, if kids == [] then s.mode else if TopKind(s) == ArrayKind then Seek(true, false) else InObject(true),
          s.decimal, s.path, Grown(s.nodes, Top(s), names, kids) + block)
  }

  lemma AfterNothing(s: State)
    requires Fits(s) && s.path != []
    ensures After(s, [], [], [], s.ptr) == s
  {
    var n := s.nodes[Top(s)];
    assert n.(names := n.names + [], children := n.children + []) == n;
    assert Grown(s.nodes, Top(s), [], []) + [] == s.nodes;
  }

  lemma CloseStep(text: bytes, s: State)
    requires Machine.Wf(text, s) && s.path != [] && s.ptr < |text|
    requires if TopKind(s) == ArrayKind then s.mode.Seek? && text[s.ptr] == CLOSE_BRACKET
             else s.mode.InObject? && text[s.ptr] == CLOSE_BRACE
    ensures Step(text, s) == Next(Finish(s, s.ptr + 1))
  {
    hide IsPath, Finish;
  }

  /** Closing a container that was empty in state m and has been filled. */
  lemma Close(text: bytes, s: State, m: State, names: seq<bytes>, kids: seq<nat>, block: seq<Node>, ptr: nat,
              leaf: Node)
    requires Machine.Wf(text, s) && s.mode == Seek(false, false)
    requires IsContainer(leaf.kind) && leaf.names == [] && leaf.children == [] && leaf.parent == Parent(s)
    requires m.path == s.path + [|s.nodes|] && m.nodes == s.nodes + [leaf] && m.decimal == s.decimal && Fits(m)
    requires m.mode == if leaf.kind == ArrayKind then Seek(false, false) else InObject(false)
    requires var a := After(m, names, kids, block, ptr);
             Machine.Wf(text, a) && ptr < |text|
                 && text[ptr] == if leaf.kind == ArrayKind then CLOSE_BRACKET else CLOSE_BRACE
    ensures var a := After(m, names, kids, block, ptr);
            var r := Attach(s, [leaf.(names := names, children := kids)] + block, ptr + 1);
            Machine.Wf(text, r) && Run(text, a) == Run(text, r)
  {
    hide Run, Step, IsPath, Finish, Attach;
    var a := After(m, names, kids, block, ptr);
    assert [] + names == names && [] + kids == kids;
    assert a.nodes == s.nodes + ([leaf.(names := names, children := kids)] + block);
    assert TopKind(a) == leaf.kind;
    CloseStep(text, a);
    Unfold(text, a, Finish(a, ptr + 1));
    FinishAttaches(s, a, [leaf.(names := names, children := kids)] + block, ptr + 1);
  }

  lemma CommaStep(text: bytes, s: State)
    requires Machine.Wf(text, s) && (s.mode == Seek(true, false) || s.mode == InObject(true))
    requires s.ptr < |text| && text[s.ptr] == COMMA
    ensures Step(text, s) == Next(s.(ptr := s.ptr + 1,
      mode := if s.mode.Seek? then Seek(false, false) else InObject(false)))
  {
    hide IsPath, Finish;
  }

  lemma OpenStep(text: bytes, s: State, kind: Kind)
    requires Machine.Wf(text, s) && s.mode == Seek(false, false) && s.ptr < |text| && IsContainer(kind)
    requires text[s.ptr] == if kind == ArrayKind then OPEN_BRACKET else OPEN_BRACE
    ensures Step(text, s) == Next(Opening(s, kind, 0)) && TopKind(Opening(s, kind, 0)) == kind
  {
    hide IsPath, Finish;
  }

  /** An opening bracket and the white space after it. */
  lemma OpenRun(text: bytes, s: State, kind: Kind, lead: bytes)
    requires Machine.Wf(text, s) && s.mode == Seek(false, false) && s.ptr < |text| && IsContainer(kind)
    requires text[s.ptr] == if kind == ArrayKind then OPEN_BRACKET else OPEN_BRACE
    requires AllSpace(lead) && Has(text, s.ptr + 1, lead)
    ensures var m := Opening(s, kind, |lead|);
            && Machine.Wf(text, m) && Run(text, s) == Run(text, m) && TopKind(m) == kind
            && m.path == s.path + [|s.nodes|] && m.nodes == s.nodes + [Fresh(kind).(parent := Parent(s))]
  {
    hide Run, Step, IsPath, Has, AllSpace, Push, Fits;
    OpenStep(text, s, kind);
    LeafPushed(s, Fresh(kind), Fresh(kind).(parent := Parent(s)));
    var m := Opening(s, kind, 0);
    Unfold(text, s, m);
    SpaceRun(text, m, lead);
    assert m.(ptr := m.ptr + |lead|) == Opening(s, kind, |lead|);
  }

  function Opening(s: State, kind: Kind, lead: nat): (r: State)
    requires Fits(s) && s.mode == Seek(false, false) && IsContainer(kind)
    ensures r.ptr == s.ptr + 1 + lead && r.decimal == s.decimal && r.path != [] && IsPath(r.path, r.nodes)
    ensures r.mode == if kind == ArrayKind then Seek(false, false) else InObject(false)
  {
    Push(s, Fresh(kind)).(ptr := s.ptr + 1 + lead,
                            mode := if kind == ArrayKind then Seek(false, false) else InObject(false))
  }

  lemma {:induction false} ValueRun(text: bytes, s: State, t: Syntax)
    requires Machine.Wf(text, s) && s.mode == Seek(false, false) && G.Wf(t)
    requires Has(text, s.ptr, Text(t))
    requires !IsNumberChar(Peek(text, s.ptr + |Text(t)|))
    ensures var r := Attach(s, Block(t, |s.nodes|, Parent(s)), s.ptr + |Text(t)|);
            Machine.Wf(text, r) && Run(text, s) == Run(text, r)
    decreases t, 1
  {
    hide Run, Step, IsPath, Finish, Attach;
    match t
    case SInt(neg, ds) => IntegerRun(text, s, neg, ds);
    case SStr(cs) => StringRun(text, s, cs);
    case SArr(lead, items) => ArrayRun(text, s, t);
    case SObj(lead, members) => ObjectRun(text, s, t);
    case _ => WordRun(text, s, t);
  }

  lemma {:induction false} ArrayRun(text: bytes, s: State, t: Syntax)
    requires Machine.Wf(text, s) && s.mode == Seek(false, false) && t.SArr? && G.Wf(t) && Has(text, s.ptr, Text(t))
    ensures var r := Attach(s, Block(t, |s.nodes|, Parent(s)), s.ptr + |Text(t)|);
            Machine.Wf(text, r) && Run(text, s) == Run(text, r)
    decreases t, 0
  {
    hide Run, Step, IsPath, Attach, Opening, After, ItemsText, ItemsBlock, Kids, Has, AllSpace, Fits;
    var text' := ItemsText(t.items);
    Opened(text, s.ptr, OPEN_BRACKET, t.lead, text', CLOSE_BRACKET);
    OpenRun(text, s, ArrayKind, t.lead);
    var m := Opening(s, ArrayKind, |t.lead|);
    ItemsRun(text, m, t.items);
    Close(text, s, m, [], Kids(t.items, |m.nodes|), ItemsBlock(t.items, |m.nodes|, Top(m)), m.ptr + |text'|,
          Fresh(ArrayKind).(parent := Parent(s)));
  }

  lemma {:induction false} ObjectRun(text: bytes, s: State, t: Syntax)
    requires Machine.Wf(text, s) && s.mode == Seek(false, false) && t.SObj? && G.Wf(t) && Has(text, s.ptr, Text(t))
    ensures var r := Attach(s, Block(t, |s.nodes|, Parent(s)), s.ptr + |Text(t)|);
            Machine.Wf(text, r) && Run(text, s) == Run(text, r)
    decreases t, 0
  {
    hide Run, Step, IsPath, Attach, Opening, After, MembersText, MembersBlock, MemberKids, Names, Has, AllSpace, Fits;
    var text' := MembersText(t.members);
    Opened(text, s.ptr, OPEN_BRACE, t.lead, text', CLOSE_BRACE);
    OpenRun(text, s, ObjectKind, t.lead);
    var m := Opening(s, ObjectKind, |t.lead|);
    MembersRun(text, m, t.members);
    Close(text, s, m, Names(t.members), MemberKids(t.members, |m.nodes|), MembersBlock(t.members, |m.nodes|, Top(m)),
          m.ptr + |text'|, Fresh(ObjectKind).(parent := Parent(s)));
  }

  lemma Opened(text: bytes, p: nat, open: byte, lead: bytes, inner: bytes, close: byte)
    requires Has(text, p, [open] + (lead + (inner + [close])))
    ensures p < |text| && text[p] == open && Has(text, p + 1, lead) && Has(text, p + 1 + |lead|, inner)
    ensures p + 1 + |lead| + |inner| < |text| && text[p + 1 + |lead| + |inner|] == close
    ensures Peek(text, p + 1 + |lead| + |inner|) == close
  {
    HasSplit(text, p, [open], lead + (inner + [close]));
    HasSplit(text, p + 1, lead, inner + [close]);
    HasSplit(text, p + 1 + |lead|, inner, [close]);
    var q := p + 1 + |lead| + |inner|;
    assert text[p] == text[p..p + 1][0] && text[q] == text[q..q + 1][0];
  }

  /** One item with the white space around it, read into the array under construction. */
  lemma {:induction false} ItemRun(text: bytes, s: State, pre: bytes, item: Syntax, post: bytes)
    requires Machine.Wf(text, s) && s.mode == Seek(false, false) && s.path != []
    requires AllSpace(pre) && G.Wf(item) && AllSpace(post)
    requires Has(text, s.ptr, pre) && Has(text, s.ptr + |pre|, Text(item))
      && Has(text, s.ptr + |pre| + |Text(item)|, post)
    requires !IsNumberChar(Peek(text, s.ptr + |pre| + |Text(item)|))
    ensures var r := Attach(s, Block(item, |s.nodes|, Top(s)), s.ptr + |pre| + |Text(item)| + |post|);
            Machine.Wf(text, r) && Run(text, s) == Run(text, r)
    decreases item, 2
  {
    hide Run, Step, IsPath, Has, AllSpace, Text, Block, Peek;
    SpaceRun(text, s, pre);
    var s1 := s.(ptr := s.ptr + |pre|);
    ValueRun(text, s1, item);
    var s2 := Attach(s1, Block(item, |s.nodes|, Top(s)), s1.ptr + |Text(item)|);
    SpaceRun(text, s2, post);
    assert s2.(ptr := s2.ptr + |post|)
      == Attach(s, Block(item, |s.nodes|, Top(s)), s.ptr + |pre| + |Text(item)| + |post|);
  }

  /** A comma between two items or two members. */
  lemma CommaRun(text: bytes, s: State)
    requires Machine.Wf(text, s) && (s.mode == Seek(true, false) || s.mode == InObject(true))
      && Has(text, s.ptr, [COMMA])
    ensures var r := s.(ptr := s.ptr + 1, mode := if s.mode.Seek? then Seek(false, false) else InObject(false));
            Machine.Wf(text, r) && Run(text, s) == Run(text, r) && TopKind(r) == TopKind(s)
  {
    hide Run, Step, IsPath;
    assert text[s.ptr] == text[s.ptr..s.ptr + 1][0];
    CommaStep(text, s);
    Unfold(text, s, s.(ptr := s.ptr + 1, mode := if s.mode.Seek? then Seek(false, false) else InObject(false)));
  }

  /** Reading one child and then the others is reading them all. */
  lemma AfterAfter(s: State, names: seq<bytes>, kid: nat, block: seq<Node>, ptr: nat,
                   names': seq<bytes>, kids': seq<nat>, block': seq<Node>, ptr': nat)
    requires Fits(s) && s.path != [] && kids' != []
    requires var m := After(s, names, [kid], block, ptr).(mode := s.mode); Fits(m) && TopKind(m) == TopKind(s)
    ensures After(After(s, names, [kid], block, ptr).(mode := s.mode), names', kids', block', ptr')
         == After(s, names + names', [kid] + kids', block + block', ptr')
  {
    hide IsPath;
    GrownAgain(s.nodes, Top(s), block, names, [kid], names', kids');
    assert Grown(s.nodes, Top(s), names + names', [kid] + kids') + block + block'
        == Grown(s.nodes, Top(s), names + names', [kid] + kids') + (block + block');
  }

  /** The pieces of a list of values: its first value with the white space around it, and the rest. */
  lemma ItemsPieces(text: bytes, p: nat, t: Items)
    requires t.ICons? && WfItems(t) && Has(text, p, ItemsText(t)) && !IsNumberChar(Peek(text, p + |ItemsText(t)|))
    ensures var q := p + |t.pre| + |Text(t.item)|;
      && Has(text, p, t.pre) && Has(text, p + |t.pre|, Text(t.item)) && Has(text, q, t.post)
          && !IsNumberChar(Peek(text, q))
      && (t.rest.INil? ==> p + |ItemsText(t)| == q + |t.post|)
      && (t.rest.ICons? ==>
            && p + |ItemsText(t)| == q + |t.post| + 1 + |ItemsText(t.rest)|
            && Has(text, q + |t.post|, [COMMA] + ItemsText(t.rest)))
  {
    hide Has, AllSpace, Peek, Text, ItemsText;
    var end: bytes := if t.rest.INil? then [] else [COMMA] + ItemsText(t.rest);
    ItemsTextIs(t);
    Separated(text, p, t.pre, Text(t.item), t.post, end);
  }

  lemma ItemsTextIs(t: Items)
    requires t.ICons?
    ensures ItemsText(t) == t.pre + (Text(t.item)
                                     + (t.post + if t.rest.INil? then [] else [COMMA] + ItemsText(t.rest)))
  {
    hide Text;
  }

  /** A value that is complete is one more child of the container on top. */
  lemma AttachIsAfter(s: State, block: seq<Node>, ptr: nat)
    requires Fits(s) && s.mode == Seek(false, false) && s.path != []
    ensures Attach(s, block, ptr) == After(s, [], [|s.nodes|], block, ptr)
  {
  }

  /** The state behind the first item of a list, and what the others add to it. */
  lemma OneItem(s: State, t: Items, q: nat)
    requires Fits(s) && s.mode == Seek(false, false) && s.path != [] && TopKind(s) == ArrayKind
    requires t.ICons? && WfItems(t)
    ensures var block := Block(t.item, |s.nodes|, Top(s));
      var s1 := After(s, [], [|s.nodes|], block, q);
      && s1.ptr == q && s1.mode == Seek(true, false) && s1.path == s.path && |s1.nodes| == |s.nodes| + |block|
      && s1.(ptr := q + 1, mode := Seek(false, false)) == After(s, [], [|s.nodes|], block, q + 1).(mode := s.mode)
      && if t.rest.INil? then Kids(t, |s.nodes|) == [|s.nodes|] && ItemsBlock(t, |s.nodes|, Top(s)) == block
         else
           && Kids(t, |s.nodes|) == [|s.nodes|] + Kids(t.rest, |s1.nodes|) && Kids(t.rest, |s1.nodes|) != []
           && ItemsBlock(t, |s.nodes|, Top(s)) == block + ItemsBlock(t.rest, |s1.nodes|, Top(s))
    ensures forall none: seq<bytes> | none == [] :: none + none == none
  {
    hide Block, G.Wf, IsPath;
    var noKids: seq<nat>, noNodes: seq<Node> := [], [];
    assert [|s.nodes|] + noKids == [|s.nodes|];
    assert forall b: seq<Node> :: b + noNodes == b;
  }

  lemma {:induction false} ItemsRun(text: bytes, s: State, t: Items)
    requires Machine.Wf(text, s) && s.mode == Seek(false, false) && s.path != [] && TopKind(s) == ArrayKind
      && WfItems(t)
    requires Has(text, s.ptr, ItemsText(t))
    requires !IsNumberChar(Peek(text, s.ptr + |ItemsText(t)|))
    ensures var r := After(s, [], Kids(t, |s.nodes|), ItemsBlock(t, |s.nodes|, Top(s)), s.ptr + |ItemsText(t)|);
            Machine.Wf(text, r) && Run(text, s) == Run(text, r)
    decreases t, 3
  {
    hide Run, Step, IsPath, Has, AllSpace, Text, Block, Peek, G.Wf, Grown;
    if t.INil? {
      AfterNothing(s);
    } else {
      hide ItemsText, Attach, After;
      ItemsPieces(text, s.ptr, t);
      ItemRun(text, s, t.pre, t.item, t.post);
      var block := Block(t.item, |s.nodes|, Top(s));
      var q := s.ptr + |t.pre| + |Text(t.item)| + |t.post|;
      AttachIsAfter(s, block, q);
      OneItem(s, t, q);
      if t.rest.ICons? {
        var s1 := After(s, [], [|s.nodes|], block, q);
        HasSplit(text, q, [COMMA], ItemsText(t.rest));
        CommaRun(text, s1);
        var s2 := s1.(ptr := q + 1, mode := Seek(false, false));
        ItemsRun(text, s2, t.rest);
        AfterAfter(s, [], |s.nodes|, block, s2.ptr, [], Kids(t.rest, |s2.nodes|),
            ItemsBlock(t.rest, |s2.nodes|, Top(s)),
                   q + 1 + |ItemsText(t.rest)|);
      }
    }
  }

  /** A value in a list: white space, the value, white space, and what follows cannot prolong a number. */
  lemma Separated(text: bytes, p: nat, pre: bytes, item: bytes, post: bytes, end: bytes)
    requires Has(text, p, pre + (item + (post + end)))
    requires AllSpace(post) && (end != [] ==> end[0] == COMMA)
    requires !IsNumberChar(Peek(text, p + |pre + (item + (post + end))|))
    ensures Has(text, p, pre) && Has(text, p + |pre|, item) && Has(text, p + |pre| + |item|, post)
    ensures Has(text, p + |pre| + |item| + |post|, end)
    ensures !IsNumberChar(Peek(text, p + |pre| + |item|))
  {
    HasSplit(text, p, pre, item + (post + end));
    HasSplit(text, p + |pre|, item, post + end);
    var q := p + |pre| + |item|;
    HasSplit(text, q, post, end);
    if post != [] {
      assert text[q] == text[q..q + |post|][0];
    } else if end != [] {
      assert text[q] == text[q..q + |end|][0];
    }
  }

  /** One member with the white space around it, read into the object under construction. */
  lemma {:induction false} MemberRun(text: bytes, s: State, pre: bytes, name: seq<Char>, preColon: bytes,
                                     postColon: bytes, item: Syntax, post: bytes)
    requires Machine.Wf(text, s) && s.mode == InObject(false)
    requires AllSpace(pre) && WfChars(name) && AllSpace(preColon) && AllSpace(postColon) && G.Wf(item) && AllSpace(post)
    requires var member := MemberText(name, preColon, postColon, Text(item));
             && Has(text, s.ptr, pre) && Has(text, s.ptr + |pre|, member) && Has(text, s.ptr + |pre| + |member|, post)
             && !IsNumberChar(Peek(text, s.ptr + |pre| + |member|))
    ensures var member := MemberText(name, preColon, postColon, Text(item));
            var r := After(s, [CharsMeaning(name)], [|s.nodes|], Block(item, |s.nodes|, Top(s)),
                           s.ptr + |pre| + |member| + |post|);
            Machine.Wf(text, r) && Run(text, s) == Run(text, r)
    decreases item, 3
  {
    hide Run, Step, IsPath, Text, Block, Peek, CharsMeaning, WfChars, MemberText;
    var member := MemberText(name, preColon, postColon, Text(item));
    SpaceRun(text, s, pre);
    var s1 := s.(ptr := s.ptr + |pre|);
    NameRun(text, s1, name, preColon, postColon, Text(item));
    var s2 := Named(s1, CharsMeaning(name), s1.ptr + |member| - |Text(item)|);
    ItemRun(text, s2, [], item, post);
    OneMember(s.nodes, Top(s), CharsMeaning(name), |s.nodes|);
  }

  /** The pieces of a list of members: its first member with the white space around it, and the rest. */
  lemma MembersPieces(text: bytes, p: nat, t: Members)
    requires t.MCons? && WfMembers(t) && Has(text, p, MembersText(t)) && !IsNumberChar(Peek(text, p + |MembersText(t)|))
    ensures var member := MemberText(t.name, t.preColon, t.postColon, Text(t.item));
      var q := p + |t.pre| + |member|;
      && Has(text, p, t.pre) && Has(text, p + |t.pre|, member) && Has(text, q, t.post) && !IsNumberChar(Peek(text, q))
      && (t.rest.MNil? ==> p + |MembersText(t)| == q + |t.post|)
      && (t.rest.MCons? ==>
            && p + |MembersText(t)| == q + |t.post| + 1 + |MembersText(t.rest)|
            && Has(text, q + |t.post|, [COMMA] + MembersText(t.rest)))
  {
    hide Has, AllSpace, Peek, Text, MemberText, MembersText;
    var member := MemberText(t.name, t.preColon, t.postColon, Text(t.item));
    var end: bytes := if t.rest.MNil? then [] else [COMMA] + MembersText(t.rest);
    MembersTextIs(t);
    Separated(text, p, t.pre, member, t.post, end);
  }

  lemma MembersTextIs(t: Members)
    requires t.MCons?
    ensures MembersText(t) == t.pre + (MemberText(t.name, t.preColon, t.postColon, Text(t.item))
                                       + (t.post + if t.rest.MNil? then [] else [COMMA] + MembersText(t.rest)))
  {
    hide Text, MemberText;
  }

  lemma {:induction false} MembersRun(text: bytes, s: State, t: Members)
    requires Machine.Wf(text, s) && s.mode == InObject(false) && WfMembers(t)
    requires Has(text, s.ptr, MembersText(t))
    requires !IsNumberChar(Peek(text, s.ptr + |MembersText(t)|))
    ensures var r := After(s, Names(t), MemberKids(t, |s.nodes|), MembersBlock(t, |s.nodes|, Top(s)), s.ptr
      + |MembersText(t)|);
            Machine.Wf(text, r) && Run(text, s) == Run(text, r)
    decreases t, 4
  {
    hide Run, Step, IsPath, Has, AllSpace, Text, Block, Peek, G.Wf, CharsMeaning, WfChars, MemberText, Grown;
    if t.MNil? {
      AfterNothing(s);
    } else {
      hide MembersText;
      MembersPieces(text, s.ptr, t);
      MemberRun(text, s, t.pre, t.name, t.preColon, t.postColon, t.item, t.post);
      var block := Block(t.item, |s.nodes|, Top(s));
      var q := s.ptr + |t.pre| + |MemberText(t.name, t.preColon, t.postColon, Text(t.item))| + |t.post|;
      if t.rest.MNil? {
        var noNames: seq<bytes>, noKids: seq<nat>, noNodes: seq<Node> := [], [], [];
        assert [|s.nodes|] + noKids == [|s.nodes|] && block + noNodes == block
          && [CharsMeaning(t.name)] + noNames == [CharsMeaning(t.name)];
      } else {
        var s1 := After(s, [CharsMeaning(t.name)], [|s.nodes|], block, q);
        HasSplit(text, q, [COMMA], MembersText(t.rest));
        CommaRun(text, s1);
        var s2 := s1.(ptr := q + 1, mode := InObject(false));
        MembersRun(text, s2, t.rest);
        AfterAfter(s, [CharsMeaning(t.name)], |s.nodes|, block, s2.ptr, Names(t.rest), MemberKids(t.rest, |s2.nodes|),
                   MembersBlock(t.rest, |s2.nodes|, Top(s)), q + 1 + |MembersText(t.rest)|);
      }
    }
  }

  lemma OneMember(nodes: seq<Node>, p: nat, name: bytes, kid: nat)
    requires p < |nodes|
    ensures Grown(nodes[p := nodes[p].(names := nodes[p].names + [name])], p, [], [kid])
      == Grown(nodes, p, [name], [kid])
  {
    assert nodes[p].names + [name] + [] == nodes[p].names + [name];
  }

  lemma NameStart(text: bytes, s: State)
    requires Machine.Wf(text, s) && s.mode == InObject(false) && s.ptr < |text| && text[s.ptr] == QUOTE
    ensures Step(text, s) == Next(s.(ptr := s.ptr + 1, mode := InString(false, []))) && TopKind(s) == ObjectKind
  {
    hide IsPath, Finish;
  }

  lemma ColonStep(text: bytes, s: State)
    requires Machine.Wf(text, s) && s.mode == Seek(false, true) && s.ptr < |text| && text[s.ptr] == COLON
    ensures Step(text, s) == Next(s.(ptr := s.ptr + 1, mode := Seek(false, false)))
  {
    hide IsPath, Finish;
  }

  /** A member's name has been read, and the colon after it. */
  function Named(s: State, name: bytes, ptr: nat): (r: State)
    requires IsPath(s.path, s.nodes) && s.path != []
    ensures r.ptr == ptr && r.mode == Seek(false, false) && r.path == s.path && r.decimal == s.decimal
      && |r.nodes| == |s.nodes|
  {
    SetTop(s, s.nodes[Top(s)].(names := s.nodes[Top(s)].names + [name])).(ptr := ptr, mode := Seek(false, false))
  }

  lemma NameRun(text: bytes, s: State, name: seq<Char>, preColon: bytes, postColon: bytes, item: bytes)
    requires Machine.Wf(text, s) && s.mode == InObject(false)
    requires WfChars(name) && AllSpace(preColon) && AllSpace(postColon)
    requires Has(text, s.ptr, MemberText(name, preColon, postColon, item))
    ensures |MemberText(name, preColon, postColon, item)| >= |item|
    ensures var r := Named(s, CharsMeaning(name), s.ptr + |MemberText(name, preColon, postColon, item)| - |item|);
            Machine.Wf(text, r) && Run(text, s) == Run(text, r) && Has(text, r.ptr, item)
                && TopKind(r) == TopKind(s) == ObjectKind
  {
    hide Run, Step, IsPath, CharsText, CharsMeaning, AllSpace, WfChars;
    HasSplit(text, s.ptr, Quoted(name), preColon + ([COLON] + (postColon + item)));
    var p := s.ptr + |Quoted(name)|;
    HasSplit(text, p, preColon, [COLON] + (postColon + item));
    var q := p + |preColon|;
    HasSplit(text, q, [COLON], postColon + item);
    HasSplit(text, q + 1, postColon, item);
    assert text[s.ptr] == text[s.ptr..s.ptr + |Quoted(name)|][0] && text[q] == text[q..q + 1][0];
    QuotedName(text, s, name);
    ColonRun(text, Named(s, CharsMeaning(name), p).(mode := Seek(false, true)), preColon, postColon);
  }

  lemma QuotedName(text: bytes, s: State, name: seq<Char>)
    requires Machine.Wf(text, s) && s.mode == InObject(false) && WfChars(name) && Has(text, s.ptr, Quoted(name))
    ensures var r := Named(s, CharsMeaning(name), s.ptr + |Quoted(name)|).(mode := Seek(false, true));
            Machine.Wf(text, r) && Run(text, s) == Run(text, r) && TopKind(r) == TopKind(s) == ObjectKind
  {
    hide Run, Step, IsPath, CharsText, CharsMeaning, WfChars;
    assert text[s.ptr] == text[s.ptr..s.ptr + |Quoted(name)|][0];
    var s1 := s.(ptr := s.ptr + 1, mode := InString(false, []));
    NameStart(text, s);
    Unfold(text, s, s1);
    QuotedRun(text, s1, name);
    var s2 := s1.(ptr := s.ptr + |Quoted(name)| - 1, mode := InString(false, CharsMeaning(name)));
    StringEnd(text, s2);
    Unfold(text, s2, Named(s, CharsMeaning(name), s.ptr + |Quoted(name)|).(mode := Seek(false, true)));
  }

  lemma ColonRun(text: bytes, s: State, pre: bytes, post: bytes)
    requires Machine.Wf(text, s) && s.mode == Seek(false, true) && AllSpace(pre) && AllSpace(post)
    requires Has(text, s.ptr, pre) && Peek(text, s.ptr + |pre|) == COLON && Has(text, s.ptr + |pre| + 1, post)
    ensures var r := s.(ptr := s.ptr + |pre| + 1 + |post|, mode := Seek(false, false));
            Machine.Wf(text, r) && Run(text, s) == Run(text, r)
  {
    hide Run, Step, IsPath, AllSpace;
    SpaceRun(text, s, pre);
    var s1 := s.(ptr := s.ptr + |pre|);
    ColonStep(text, s1);
    var s2 := s1.(ptr := s1.ptr + 1, mode := Seek(false, false));
    Unfold(text, s1, s2);
    SpaceRun(text, s2, post);
    assert s2.(ptr := s2.ptr + |post|) == s.(ptr := s.ptr + |pre| + 1 + |post|, mode := Seek(false, false));
  }

  // The tree that hangs from a block

  lemma {:induction false} TreeOfBlock(nodes: seq<Node>, t: Syntax, at: nat, parent: int)
    requires G.Wf(t) && HasNodes(nodes, at, Block(t, at, parent))
    ensures TreeOf(nodes, at) == Meaning(t)
    decreases t
  {
    hide ItemsBlock, MembersBlock, ItemsMeaning, MembersMeaning, TreesOf, EntriesOf, CharsMeaning, Decimal;
    assert nodes[at] == nodes[at..at + Size(t)][0];
    match t
    case SArr(_, items) =>
      SplitNodes(nodes, at, [Block(t, at, parent)[0]], ItemsBlock(items, at + 1, at));
      TreesOfBlock(nodes, items, at + 1, at);
    case SObj(_, members) =>
      SplitNodes(nodes, at, [Block(t, at, parent)[0]], MembersBlock(members, at + 1, at));
      EntriesOfBlock(nodes, members, at + 1, at);
    case _ =>
  }

  predicate HasNodes(nodes: seq<Node>, at: nat, b: seq<Node>) {
    at + |b| <= |nodes| && nodes[at..at + |b|] == b
  }

  lemma SplitNodes(nodes: seq<Node>, at: nat, a: seq<Node>, b: seq<Node>)
    requires HasNodes(nodes, at, a + b)
    ensures HasNodes(nodes, at, a) && HasNodes(nodes, at + |a|, b)
  {
    assert nodes[at..at + |a|] == nodes[at..at + |a + b|][..|a|];
    assert nodes[at + |a|..at + |a| + |b|] == nodes[at..at + |a + b|][|a|..];
  }

  lemma {:induction false} TreesOfBlock(nodes: seq<Node>, t: Items, at: nat, parent: nat)
    requires WfItems(t) && parent < at && parent < |nodes| && HasNodes(nodes, at, ItemsBlock(t, at, parent))
    ensures TreesOf(nodes, parent, Kids(t, at)) == ItemsMeaning(t)
    decreases t
  {
    hide Block, Meaning, TreeOf, G.Wf, HasNodes;
    if t.ICons? {
      SplitNodes(nodes, at, Block(t.item, at, parent), ItemsBlock(t.rest, at + Size(t.item), parent));
      TreeOfBlock(nodes, t.item, at, parent);
      TreesOfBlock(nodes, t.rest, at + Size(t.item), parent);
      assert Kids(t, at)[1..] == Kids(t.rest, at + Size(t.item));
    }
  }

  lemma {:induction false} EntriesOfBlock(nodes: seq<Node>, t: Members, at: nat, parent: nat)
    requires WfMembers(t) && parent < at && parent < |nodes| && HasNodes(nodes, at, MembersBlock(t, at, parent))
    ensures EntriesOf(nodes, parent, Names(t), MemberKids(t, at)) == MembersMeaning(t)
    decreases t
  {
    hide CharsMeaning, WfChars, MemberText, Text, Block, Meaning, TreeOf, G.Wf, HasNodes;
    if t.MCons? {
      SplitNodes(nodes, at, Block(t.item, at, parent), MembersBlock(t.rest, at + Size(t.item), parent));
      TreeOfBlock(nodes, t.item, at, parent);
      EntriesOfBlock(nodes, t.rest, at + Size(t.item), parent);
      assert MemberKids(t, at)[1..] == MemberKids(t.rest, at + Size(t.item)) && Names(t)[1..] == Names(t.rest);
    }
  }

  // The main results

  lemma TextStarts(t: Syntax)
    requires G.Wf(t)
    ensures Text(t) != [] && Text(t)[0] < 0x80
  {
    if t.SInt? {
      assert IsDigit(t.digits[0]);
    }
  }

  lemma DocumentStarts(d: Document)
    requires WfDocument(d)
    ensures StripBom(DocumentText(d)) == DocumentText(d)
  {
    TextStarts(d.root);
    var t := DocumentText(d);
    assert t[0] == if d.pre == [] then Text(d.root)[0] else d.pre[0];
    if |t| >= 3 {
      assert t[..3][0] == t[0];
    }
  }

  lemma EndRun(text: bytes, s: State)
    requires Machine.Wf(text, s) && s.mode.Done? && s.ptr == |text|
    ensures Run(text, s) == Some(s.nodes)
  {
  }

  /** Nothing but white space stands before and after the root. */
  lemma DocumentSplit(d: Document)
    requires WfDocument(d)
    ensures var text := DocumentText(d);
            var q := |d.pre| + |Text(d.root)|;
            && Has(text, 0, d.pre) && Has(text, |d.pre|, Text(d.root)) && Has(text, q, d.post) && q + |d.post| == |text|
            && !IsNumberChar(Peek(text, q))
  {
    hide Text, G.Wf;
    var text := DocumentText(d);
    assert text[0..|text|] == text;
    HasSplit(text, 0, d.pre, Text(d.root) + d.post);
    HasSplit(text, |d.pre|, Text(d.root), d.post);
    var q := |d.pre| + |Text(d.root)|;
    if d.post != [] {
      assert text[q] == text[q..q + |d.post|][0];
    }
  }

  lemma DocumentRun(d: Document)
    requires WfDocument(d)
    ensures Run(DocumentText(d), START) == Some(Block(d.root, 0, -1))
  {
    hide Run, Step, Finish, Text, Block, G.Wf, Has, Peek;
    var text := DocumentText(d);
    DocumentSplit(d);
    SpaceRun(text, START, d.pre);
    var s := START.(ptr := |d.pre|);
    ValueRun(text, s, d.root);
    var s1 := Attach(s, Block(d.root, 0, -1), |d.pre| + |Text(d.root)|);
    SpaceRun(text, s1, d.post);
    EndRun(text, s1.(ptr := |text|));
    assert [] + Block(d.root, 0, -1) == Block(d.root, 0, -1);
  }

  /** Every text of the grammar is accepted, as the program reads it. */
  lemma ParseReads(d: Document)
    requires WfDocument(d)
    ensures Parse(DocumentText(d)) == Some(Meaning(d.root, Program))
  {
    DocumentStarts(d);
    DocumentRun(d);
    var b := Block(d.root, 0, -1);
    assert b[0..|b|] == b;
    TreeOfBlock(b, d.root, 0, -1);
  }

  /** A text of the grammar is accepted with the value that the standards give it exactly when bit 6 of the high unit is
      clear in every escaped surrogate pair, in strings and in names. */
  lemma ParseIff(d: Document)
    requires WfDocument(d)
    ensures Parse(DocumentText(d)) == Some(Meaning(d.root, Standard)) <==> Combining(d.root)
  {
    ParseReads(d);
    MeaningIff(d.root);
  }

  /** Every text whose pairs combine is accepted with the value it denotes. */
  lemma ParseComplete(t: bytes, v: Value)
    requires Denotes(t, v)
    ensures Parse(t) == Some(v)
  {
    var d :| WfDocument(d) && Combining(d.root) && DocumentText(d) == t && Meaning(d.root, Standard) == v;
    ParseIff(d);
  }

  /** A text denotes one value at most. */
  lemma DenotesUnique(t: bytes, v: Value, w: Value)
    requires Denotes(t, v) && Denotes(t, w)
    ensures v == w
  {
    ParseComplete(t, v);
    ParseComplete(t, w);
  }
}
