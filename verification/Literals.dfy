/** Number literals of every form: which are accepted, and which stay integers. And when an escaped surrogate pair is
    read as its code point. */
module Literals {
  import opened Bytes
  import opened Values
  import opened Unicode
  import opened Machine
  import opened Completeness
  import opened Syntax
  import G = Syntax

  /** Decimal digits without a leading zero, of any length. */
  predicate IsLiteral(ds: bytes) {
    ds != [] && AllDigits(ds) && (ds[0] == ZERO ==> |ds| == 1)
  }

  /** The first digit that leaves the range. */
  lemma {:induction false} FirstOverflow(ds: bytes) returns (k: nat)
    requires AllDigits(ds) && Decimal(ds) > INT_MAX
    ensures 0 < k < |ds| && Decimal(ds[..k]) <= INT_MAX < Decimal(ds[..k + 1])
    decreases |ds|
  {
    var n := |ds| - 1;
    assert ds[..n + 1] == ds;
    if Decimal(ds[..n]) <= INT_MAX {
      k := n;
      assert ds[..0] == [];
    } else {
      k := FirstOverflow(ds[..n]);
      assert ds[..n][..k] == ds[..k] && ds[..n][..k + 1] == ds[..k + 1];
    }
  }

  // Number literals

  /** An exponent: its letter, its sign if there is one, and its digits. */
  datatype Exponent = NoExponent | Exponent(upper: bool, sign: bytes, digits: bytes)

  /** A number of section 6 of RFC 8259: integer part, fraction if there are digits of one, and exponent. */
  datatype Literal = Literal(negative: bool, digits: bytes, fraction: bytes, exponent: Exponent)

  predicate IsSign(s: bytes) {
    s != [] ==> |s| == 1 && (s[0] == PLUS || s[0] == MINUS)
  }

  predicate WfLiteral(l: Literal) {
    && IsLiteral(l.digits) && AllDigits(l.fraction)
    && (l.exponent.Exponent? ==>
          && IsSign(l.exponent.sign)
          && l.exponent.digits != [] && AllDigits(l.exponent.digits))
  }

  function FractionText(l: Literal): bytes {
    if l.fraction == [] then [] else [DOT] + l.fraction
  }

  function ExponentText(e: Exponent): bytes {
    match e
    case NoExponent => []
    case Exponent(upper, sign, digits) => [if upper then UPPER_E else LOWER_E] + (sign + digits)
  }

  function NumberText(l: Literal): bytes {
    IntegerText(l.negative, l.digits) + (FractionText(l) + ExponentText(l.exponent))
  }

  function IntegerText(negative: bool, ds: bytes): bytes {
    (if negative then [MINUS] else []) + ds
  }

  /** The literals that the parser refuses: a fraction after an integer part that does not fit. */
  predicate Refused(l: Literal)
    requires AllDigits(l.digits)
  {
    Decimal(l.digits) > INT_MAX && l.fraction != []
  }

  /** The literals that stay integers. */
  predicate Whole(l: Literal)
    requires AllDigits(l.digits)
  {
    Decimal(l.digits) <= INT_MAX && l.fraction == [] && l.exponent == NoExponent
  }

  function TenTo(n: nat): (p: nat)
    ensures p > 0
  {
    if n == 0 then 1 else 10 * TenTo(n - 1)
  }

  /** The number that a literal stands for. */
  function Exact(l: Literal): real
    requires WfLiteral(l)
  {
    var mantissa := Decimal(l.digits) as real + Decimal(l.fraction) as real / TenTo(|l.fraction|) as real;
    var scaled := Applied(mantissa, l.exponent);
    if l.negative then -scaled else scaled
  }

  function Applied(x: real, e: Exponent): real
    requires e.Exponent? ==> AllDigits(e.digits)
  {
    if e == NoExponent then x
    else if e.sign == [MINUS] then x / TenTo(Decimal(e.digits)) as real
    else x * TenTo(Decimal(e.digits)) as real
  }

  lemma AppliedIff(x: real, y: real, e: Exponent)
    requires e.Exponent? ==> AllDigits(e.digits)
    ensures Applied(x, e) == Applied(y, e) <==> x == y
  {
    if e.Exponent? {
      var p := TenTo(Decimal(e.digits)) as real;
      assert x * p / p == x && y * p / p == y && x / p * p == x && y / p * p == y;
    }
  }

  /** Digits read into x one after the other. */
  function Shifted(x: real, ds: bytes): real
    requires AllDigits(ds)
    decreases |ds|
  {
    if ds == [] then x else Shifted(10.0 * x + (ds[0] - ZERO) as real, ds[1..])
  }

  lemma {:induction false} ShiftedIs(x: real, ds: bytes)
    requires AllDigits(ds)
    ensures Shifted(x, ds) == x * TenTo(|ds|) as real + Decimal(ds) as real
    decreases |ds|
  {
    if ds != [] {
      var init, last := ds[..|ds| - 1], ds[|ds| - 1];
      ShiftedIs(x, init);
      ShiftedLast(x, ds);
      var p := TenTo(|init|) as real;
      assert TenTo(|ds|) as real == 10.0 * p;
      assert 10.0 * (x * p) == x * (10.0 * p);
    }
  }

  lemma ShiftedFirst(x: real, d: byte, ds: bytes)
    requires IsDigit(d) && AllDigits(ds)
    ensures Shifted(x, [d]) == 10.0 * x + (d - ZERO) as real
    ensures AllDigits([d] + ds) && Shifted(x, [d] + ds) == Shifted(Shifted(x, [d]), ds)
  {
    var y := 10.0 * x + (d - ZERO) as real;
    assert [d][1..] == [] && Shifted(y, []) == y;
    assert ([d] + ds)[1..] == ds;
  }

  lemma {:induction false} ShiftedLast(x: real, ds: bytes)
    requires AllDigits(ds) && ds != []
    ensures Shifted(x, ds) == 10.0 * Shifted(x, ds[..|ds| - 1]) + (ds[|ds| - 1] - ZERO) as real
    decreases |ds|
  {
    if |ds| > 1 {
      var y := 10.0 * x + (ds[0] - ZERO) as real;
      ShiftedLast(y, ds[1..]);
      assert ds[1..][..|ds| - 2] == ds[..|ds| - 1][1..];
    } else {
      assert ds[1..] == [];
    }
  }

  lemma {:induction false} PowerIs(n: nat)
    ensures Pow10(n) == TenTo(n) as real && Pow10(0 - n) == 1.0 / TenTo(n) as real
    decreases n
  {
    if n > 0 {
      PowerIs(n - 1);
      var p := TenTo(n - 1) as real;
      assert 1.0 / p / 10.0 == 1.0 / (10.0 * p);
    }
  }

  /** State s is inside a number that was begun in state b; n is the node it has taken. */
  ghost predicate Reads(text: bytes, b: State, s: State, n: Node) {
    && Fits(b) && b.mode == Seek(false, false) && Machine.Wf(text, s)
    && s.mode.InNumber? && s.path == b.path + [|b.nodes|] && s.nodes == b.nodes + [n]
    && n.parent == Parent(b) && IsNumeric(n.kind) && (s.mode.num.expoSign ==> s.mode.num.expo)
  }

  /** A turn that changes the node and the place in the number. */
  lemma ReadsOn(text: bytes, b: State, s: State, n: Node, m: Node, t: State)
    requires Reads(text, b, s, n) && Machine.Wf(text, t) && m.parent == n.parent && IsNumeric(m.kind)
    requires t == SetTop(s, m).(ptr := t.ptr, mode := t.mode, decimal := t.decimal) && t.mode.InNumber?
    requires t.mode.num.expoSign ==> t.mode.num.expo
    ensures Reads(text, b, t, m)
  {
    hide Fits, IsPath;
    assert Top(s) == |b.nodes| && (b.nodes + [n])[|b.nodes| := m] == b.nodes + [m];
  }

  /** The node on top. */
  lemma ReadsTop(text: bytes, b: State, s: State, n: Node)
    requires Reads(text, b, s, n)
    ensures IsPath(s.path, s.nodes) && Top(s) < |s.nodes| && s.nodes[Top(s)] == n && TopKind(s) == n.kind
    ensures SetTop(s, n) == s
  {
    assert s.nodes[Top(s) := n] == s.nodes;
  }

  /** From state s and node n to state t and node m the digits ds of a double, or of an exponent, have been read. */
  ghost predicate Gained(s: State, n: Node, t: State, m: Node, ds: bytes) {
    && AllDigits(ds) && s.mode.InNumber? && t.mode.InNumber? && t.decimal == s.decimal && m == n.(dbl := m.dbl)
    && var q, r := s.mode.num, t.mode.num;
    && r == q.(digits := q.digits + |ds|, expoSign := r.expoSign, e := r.e, fraction := r.fraction)
    && r.e as real == (if q.expo then Shifted(q.e as real, ds) else q.e as real)
    && r.fraction == (if !q.expo && s.decimal then Shifted(q.fraction, ds) else q.fraction)
    && m.dbl == if q.expo || s.decimal then n.dbl else Shifted(n.dbl, ds)
  }

  lemma GainedNothing(s: State, n: Node)
    requires s.mode.InNumber?
    ensures Gained(s, n, s, n, [])
  {
  }

  lemma GainedMore(s: State, n: Node, t: State, m: Node, d: byte, ds: bytes, u: State, l: Node)
    requires Gained(s, n, t, m, [d]) && Gained(t, m, u, l, ds)
    ensures Gained(s, n, u, l, [d] + ds)
  {
    var q, r := s.mode.num, t.mode.num;
    ShiftedFirst(q.e as real, d, ds);
    ShiftedFirst(q.fraction, d, ds);
    ShiftedFirst(n.dbl, d, ds);
  }

  /** One digit of a double, or of an exponent. */
  lemma DigitOn(text: bytes, b: State, s: State, n: Node) returns (m: Node, t: State)
    requires Reads(text, b, s, n) && n.kind == DoubleKind && s.ptr < |text| && IsDigit(text[s.ptr])
    ensures Reads(text, b, t, m) && m.kind == DoubleKind && Run(text, s) == Run(text, t)
    ensures t.ptr == s.ptr + 1 && t.mode.num.expo == s.mode.num.expo && t.mode.num.digits == s.mode.num.digits + 1
    ensures t.mode.num.expo ==> t.mode.num.expoSign
    ensures Gained(s, n, t, m, [text[s.ptr]])
  {
    hide Run, IsPath;
    ReadsTop(text, b, s, n);
    var d: nat := text[s.ptr] - ZERO;
    m := if s.mode.num.expo || s.decimal then n else n.(dbl := n.dbl * 10.0 + d as real);
    t := Step(text, s).s;
    Unfold(text, s, t);
    ReadsOn(text, b, s, n, m, t);
    var q := s.mode.num;
    ShiftedFirst(q.e as real, text[s.ptr], []);
    ShiftedFirst(q.fraction, text[s.ptr], []);
    ShiftedFirst(n.dbl, text[s.ptr], []);
  }

  lemma ReadsNumber(text: bytes, b: State, s: State, n: Node)
    requires Reads(text, b, s, n)
    ensures s.mode.InNumber? && (n.kind == IntegerKind || n.kind == DoubleKind)
    ensures s.mode.num.expoSign ==> s.mode.num.expo
  {
  }

  lemma {:induction false} DigitsOn(text: bytes, b: State, s: State, n: Node, ds: bytes) returns (m: Node, t: State)
    requires Reads(text, b, s, n) && n.kind == DoubleKind && AllDigits(ds) && Has(text, s.ptr, ds)
    ensures Reads(text, b, t, m) && m.kind == DoubleKind && Run(text, s) == Run(text, t)
    ensures t.ptr == s.ptr + |ds| && t.mode.num.expo == s.mode.num.expo
    ensures t.mode.num.digits == s.mode.num.digits + |ds| && Gained(s, n, t, m, ds)
    decreases |ds|
  {
    hide Run, Reads, Gained;
    if ds == [] {
      m, t := n, s;
      ReadsNumber(text, b, s, n);
      GainedNothing(s, n);
    } else {
      assert [ds[0]] + ds[1..] == ds;
      HasSplit(text, s.ptr, [ds[0]], ds[1..]);
      assert text[s.ptr] == text[s.ptr..s.ptr + 1][0];
      var m1, t1 := DigitOn(text, b, s, n);
      m, t := DigitsOn(text, b, t1, m1, ds[1..]);
      GainedMore(s, n, t1, m1, ds[0], ds[1..], t, m);
    }
  }

  /** The digit that would overflow turns the integer into a double and is read again. */
  lemma Overflows(text: bytes, b: State, s: State, n: Node) returns (m: Node, t: State)
    requires Reads(text, b, s, n) && n.kind == IntegerKind && s.ptr < |text| && IsDigit(text[s.ptr])
    requires !s.mode.num.expo && !s.mode.num.zero && WouldOverflow(n.integer, text[s.ptr] - ZERO)
    ensures Reads(text, b, t, m) && m.kind == DoubleKind && Run(text, s) == Run(text, t)
    ensures t.ptr == s.ptr && !t.mode.num.expo && t.mode.num.digits == s.mode.num.digits
    ensures m.dbl == n.integer as real && t.decimal == s.decimal && t.mode.num == s.mode.num.(zero := t.mode.num.zero)
  {
    hide Run, IsPath, WouldOverflow;
    ReadsTop(text, b, s, n);
    m := AsDouble(n);
    t := Step(text, s).s;
    Unfold(text, s, t);
    ReadsOn(text, b, s, n, m, t);
  }

  /** In state s the digits of a number, and of its fraction, have been read, and no exponent has begun. */
  predicate ReadsMantissa(s: State, negative: bool) {
    && s.mode.InNumber? && !s.mode.num.expo && !s.mode.num.expoSign && !s.mode.num.expoNegative && s.mode.num.e == 0
    && s.mode.num.negative == negative && s.mode.num.digits > 0
  }

  /** What has been read before an exponent. */
  function Mantissa(q: Number, n: Node): real {
    if n.kind == IntegerKind then n.integer as real else n.dbl + q.fraction / Pow10(q.digits)
  }

  /** The flag of a decimal point, left from an earlier number, and an integer part that does not fit: its last digits
      are taken for a fraction. */
  predicate Mixed(s: State, ds: bytes)
    requires AllDigits(ds)
  {
    s.decimal && Decimal(ds) > INT_MAX
  }

  /** The integer part: an integer while it fits, and a double when it does not. */
  lemma IntegerPart(text: bytes, s: State, negative: bool, ds: bytes) returns (n: Node, t: State)
    requires Machine.Wf(text, s) && s.mode == Seek(false, false) && IsLiteral(ds)
    requires Has(text, s.ptr, IntegerText(negative, ds))
    ensures Reads(text, s, t, n) && Run(text, s) == Run(text, t) && t.ptr == s.ptr + |IntegerText(negative, ds)|
    ensures ReadsMantissa(t, negative) && t.decimal == s.decimal
    ensures Mantissa(t.mode.num, n) == Decimal(ds) as real <==> !Mixed(s, ds)
    ensures Decimal(ds) <= INT_MAX ==> n == Fresh(IntegerKind).(parent := Parent(s), integer := Decimal(ds))
    ensures if Decimal(ds) <= INT_MAX then t.mode.num.fraction == 0.0 else n.kind == DoubleKind
  {
    hide Run, Decimal, WouldOverflow;
    if Decimal(ds) <= INT_MAX {
      t := IntegerRead(text, s, negative, ds);
      n := Fresh(IntegerKind).(parent := Parent(s), integer := Decimal(ds));
    } else {
      var k := FirstOverflow(ds);
      n, t := LongInteger(text, s, negative, ds, k);
    }
  }

  lemma LongInteger(text: bytes, s: State, negative: bool, ds: bytes, k: nat) returns (n: Node, t: State)
    requires Machine.Wf(text, s) && s.mode == Seek(false, false) && IsLiteral(ds)
    requires Has(text, s.ptr, IntegerText(negative, ds))
    requires 0 < k < |ds| && Decimal(ds[..k]) <= INT_MAX < Decimal(ds[..k + 1])
    ensures Reads(text, s, t, n) && Run(text, s) == Run(text, t) && t.ptr == s.ptr + |IntegerText(negative, ds)|
    ensures ReadsMantissa(t, negative) && t.decimal == s.decimal && n.kind == DoubleKind
    ensures Mantissa(t.mode.num, n) == Decimal(ds) as real <==> !s.decimal
  {
    hide Run, Decimal, WouldOverflow, Reads, Has, Gained, Mantissa, IsPath, IsLiteral, AllDigits;
    var front, back := ds[..k], ds[k..];
    LongParts(negative, ds, k);
    HasSplit(text, s.ptr, IntegerText(negative, front), back);
    t := IntegerRead(text, s, negative, front);
    n := Fresh(IntegerKind).(parent := Parent(s), integer := Decimal(front));
    FirstReads(text, s, t, n);
    WouldOverflowIff(Decimal(front), back[0] - ZERO);
    DigitAt(text, t.ptr, back);
    var n1, t1 := Overflows(text, s, t, n);
    ReadsNumber(text, s, t1, n1);
    n, t := DigitsOn(text, s, t1, n1, back);
    ReadsNumber(text, s, t, n);
    LongMantissa(t1, n1, t, n, negative, front, back);
  }

  lemma LongParts(negative: bool, ds: bytes, k: nat)
    requires IsLiteral(ds) && 0 < k < |ds| && Decimal(ds[..k]) <= INT_MAX < Decimal(ds[..k + 1])
    ensures var front, back := ds[..k], ds[k..];
      && front + back == ds && G.Wf(SInt(negative, front)) && AllDigits(back) && IsDigit(back[0])
      && front[0] != ZERO && 10 * Decimal(front) + (back[0] - ZERO) > INT_MAX
      && IntegerText(negative, ds) == IntegerText(negative, front) + back
      && IntegerText(negative, front) == Text(SInt(negative, front))
  {
    hide Decimal;
    assert ds[..k + 1][..k] == ds[..k];
    LastDigit(ds[..k + 1]);
  }

  /** Whether the digits that no longer fit go to the number or, wrongly, to a fraction. */
  lemma LongMantissa(s: State, n: Node, t: State, m: Node, negative: bool, front: bytes, back: bytes)
    requires Gained(s, n, t, m, back) && n.kind == DoubleKind && ReadsMantissa(s, negative)
    requires !t.mode.num.expoSign
    requires AllDigits(front) && n.dbl == Decimal(front) as real && s.mode.num.fraction == 0.0
    requires s.mode.num.digits == |front| && back != [] && 10 * Decimal(front) + (back[0] - ZERO) > INT_MAX
    ensures ReadsMantissa(t, negative) && t.decimal == s.decimal
    ensures AllDigits(front + back) && (Mantissa(t.mode.num, m) == Decimal(front + back) as real <==> !s.decimal)
  {
    hide Decimal;
    var fraction, digits := t.mode.num.fraction, t.mode.num.digits;
    DecimalSplit(front, back);
    ShiftedIs(n.dbl, back);
    if s.decimal {
      ShiftedFromNothing(back);
      DecimalBelow(back);
      PowerIs(digits);
      PowerGrows(|back|, digits);
      PowerGrows(1, |back|);
      Fractional(Decimal(back) as real, TenTo(digits) as real);
      FrontIsLess(Decimal(front), TenTo(|back|), Decimal(back));
    } else {
      assert 0.0 / Pow10(digits) == 0.0;
    }
  }

  lemma Fractional(x: real, p: real)
    requires 0.0 <= x < p
    ensures x / p < 1.0
  {
  }

  lemma FrontIsLess(front: nat, p: nat, back: nat)
    requires front >= 1 && p >= 10
    ensures front + 1 <= front * p + back
  {
    assert front * p >= front * 10;
  }

  lemma {:induction false} PowerGrows(k: nat, n: nat)
    requires k <= n
    ensures TenTo(k) <= TenTo(n) && TenTo(1) == 10
    decreases n
  {
    if k < n {
      PowerGrows(k, n - 1);
    }
  }

  lemma {:induction false} DecimalBelow(ds: bytes)
    requires AllDigits(ds)
    ensures Decimal(ds) < TenTo(|ds|)
    decreases |ds|
  {
    if ds != [] {
      DecimalBelow(ds[..|ds| - 1]);
    }
  }

  lemma {:induction false} DecimalSplit(front: bytes, back: bytes)
    requires AllDigits(front) && AllDigits(back)
    ensures AllDigits(front + back) && Decimal(front + back) == Decimal(front) * TenTo(|back|) + Decimal(back)
    decreases |back|
  {
    if back == [] {
      assert front + back == front;
    } else {
      var n := |back| - 1;
      DecimalSplit(front, back[..n]);
      assert (front + back)[..|front| + n] == front + back[..n];
      assert TenTo(|back|) == 10 * TenTo(n);
      assert 10 * (Decimal(front) * TenTo(n)) == Decimal(front) * (10 * TenTo(n));
    }
  }

  lemma FirstReads(text: bytes, b: State, s: State, n: Node)
    requires Machine.Wf(text, b) && b.mode == Seek(false, false) && Machine.Wf(text, s) && s.mode.InNumber?
    requires s.path == b.path + [|b.nodes|] && s.nodes == b.nodes + [n] && n.parent == Parent(b) && IsNumeric(n.kind)
    requires s.mode.num.expoSign ==> s.mode.num.expo
    ensures Reads(text, b, s, n)
  {
  }

  lemma DigitAt(text: bytes, p: nat, ds: bytes)
    requires Has(text, p, ds) && ds != []
    ensures p < |text| && text[p] == ds[0]
  {
    assert text[p] == text[p..p + |ds|][0];
  }

  lemma LastDigit(ds: bytes)
    requires AllDigits(ds) && ds != []
    ensures Decimal(ds) == 10 * Decimal(ds[..|ds| - 1]) + (ds[|ds| - 1] - ZERO)
  {
  }

  /** The decimal point and its digits make an integer a double. */
  lemma FractionPart(text: bytes, b: State, s: State, n: Node, fs: bytes) returns (m: Node, t: State)
    requires Reads(text, b, s, n) && n.kind == IntegerKind && s.mode.num.fraction == 0.0
    requires ReadsMantissa(s, s.mode.num.negative)
    requires fs != [] && AllDigits(fs) && Has(text, s.ptr, [DOT] + fs)
    ensures Reads(text, b, t, m) && m.kind == DoubleKind && Run(text, s) == Run(text, t)
    ensures t.ptr == s.ptr + 1 + |fs| && ReadsMantissa(t, s.mode.num.negative) && t.decimal
    ensures Mantissa(t.mode.num, m) == n.integer as real + Decimal(fs) as real / TenTo(|fs|) as real
  {
    hide Run, IsPath, Has, Scaled, Decimal;
    HasSplit(text, s.ptr, [DOT], fs);
    DigitAt(text, s.ptr, [DOT]);
    ReadsTop(text, b, s, n);
    m := AsDouble(n);
    t := Step(text, s).s;
    Unfold(text, s, t);
    ReadsOn(text, b, s, n, m, t);
    m, t := DigitsOn(text, b, t, m, fs);
    ReadsNumber(text, b, t, m);
    ShiftedFromNothing(fs);
    PowerIs(|fs|);
  }

  /** The letter of an exponent, which may also follow a minus sign at once. */
  lemma ExponentLetter(text: bytes, b: State, s: State, n: Node) returns (m: Node, t: State)
    requires Reads(text, b, s, n) && !s.mode.num.expo && (n.kind == DoubleKind ==> s.mode.num.digits > 0)
    requires s.ptr < |text| && (text[s.ptr] == LOWER_E || text[s.ptr] == UPPER_E)
    ensures Reads(text, b, t, m) && m.kind == DoubleKind && Run(text, s) == Run(text, t)
    ensures t.ptr == s.ptr + 1 && t.mode.num == s.mode.num.(expo := true, zero := false, digits := 0)
    ensures !t.mode.num.expoSign && t.decimal == s.decimal && m.dbl == Mantissa(s.mode.num, n)
  {
    hide Run, IsPath;
    ReadsTop(text, b, s, n);
    var dbl := Scaled(s.mode.num, n.kind, n.dbl);
    m := if n.kind == IntegerKind then AsDouble(n) else n.(dbl := dbl);
    t := Step(text, s).s;
    Unfold(text, s, t);
    ReadsOn(text, b, s, n, m, t);
  }

  /** The sign of an exponent. */
  lemma ExponentSign(text: bytes, b: State, s: State, n: Node) returns (t: State)
    requires Reads(text, b, s, n) && n.kind == DoubleKind && s.mode.num.expo && !s.mode.num.expoSign
    requires s.ptr < |text| && (text[s.ptr] == PLUS || text[s.ptr] == MINUS)
    ensures Reads(text, b, t, n) && Run(text, s) == Run(text, t)
    ensures t.ptr == s.ptr + 1 && t.decimal == s.decimal
    ensures t.mode.num ==
      s.mode.num.(expoSign := true, expoNegative := s.mode.num.expoNegative || text[s.ptr] == MINUS)
  {
    hide Run, IsPath;
    ReadsTop(text, b, s, n);
    t := Step(text, s).s;
    Unfold(text, s, t);
    ReadsOn(text, b, s, n, n, t);
  }

  lemma ExponentPart(text: bytes, b: State, s: State, n: Node, e: Exponent) returns (m: Node, t: State)
    requires Reads(text, b, s, n) && !s.mode.num.expo && (n.kind == DoubleKind ==> s.mode.num.digits > 0)
    requires s.mode.num.e == 0 && !s.mode.num.expoNegative
    requires e.Exponent? && IsSign(e.sign) && e.digits != [] && AllDigits(e.digits)
    requires Has(text, s.ptr, ExponentText(e))
    ensures Reads(text, b, t, m) && m.kind == DoubleKind && Run(text, s) == Run(text, t)
    ensures t.ptr == s.ptr + |ExponentText(e)| && t.mode.num.expo && t.mode.num.digits > 0
    ensures t.mode.num.negative == s.mode.num.negative && t.decimal == s.decimal
    ensures Scaled(t.mode.num, DoubleKind, m.dbl) == Applied(Mantissa(s.mode.num, n), e)
  {
    hide Run, Has, Reads, ExponentText, Decimal, Mantissa, Scaled, Applied;
    ExponentPieces(text, s.ptr, e);
    var m1, t1 := ExponentLetter(text, b, s, n);
    if e.sign != [] {
      t1 := ExponentSign(text, b, t1, m1);
    }
    ReadsNumber(text, b, t1, m1);
    m, t := DigitsOn(text, b, t1, m1, e.digits);
    AppliedAtEnd(t1, m1, t, m, e);
  }

  /** The digits of an exponent tell how the mantissa is scaled. */
  lemma AppliedAtEnd(s: State, n: Node, t: State, m: Node, e: Exponent)
    requires e.Exponent? && AllDigits(e.digits) && e.digits != [] && IsSign(e.sign) && Gained(s, n, t, m, e.digits)
    requires s.mode.num.expo && s.mode.num.e == 0 && s.mode.num.expoNegative == (e.sign == [MINUS])
    ensures t.mode.num.expo && Scaled(t.mode.num, DoubleKind, m.dbl) == Applied(n.dbl, e)
  {
    hide Decimal, Scaled, Applied;
    ShiftedFromNothing(e.digits);
    ScaledIsApplied(t.mode.num, n.dbl, e);
  }

  lemma ScaledIsApplied(q: Number, x: real, e: Exponent)
    requires e.Exponent? && AllDigits(e.digits)
    requires q.expo && q.e == Decimal(e.digits) && q.expoNegative == (e.sign == [MINUS])
    ensures Scaled(q, DoubleKind, x) == Applied(x, e)
  {
    hide Decimal;
    var k := Decimal(e.digits);
    PowerIs(k);
    ByInverse(x, TenTo(k) as real);
    hide TenTo, Pow10;
  }

  lemma ByInverse(x: real, p: real)
    requires p > 0.0
    ensures x * (1.0 / p) == x / p
  {
  }

  lemma ShiftedFromNothing(ds: bytes)
    requires AllDigits(ds)
    ensures Shifted(0.0, ds) == Decimal(ds) as real
  {
    ShiftedIs(0.0, ds);
    assert 0.0 * TenTo(|ds|) as real == 0.0;
  }

  lemma ExponentPieces(text: bytes, p: nat, e: Exponent)
    requires e.Exponent? && IsSign(e.sign) && Has(text, p, ExponentText(e))
    ensures p < |text| && (text[p] == LOWER_E || text[p] == UPPER_E)
    ensures e.sign != [] ==> |e.sign| == 1 && p + 1 < |text| && (text[p + 1] == PLUS || text[p + 1] == MINUS)
    ensures e.sign == [MINUS] <==> e.sign != [] && text[p + 1] == MINUS
    ensures Has(text, p + 1 + |e.sign|, e.digits) && |ExponentText(e)| == 1 + |e.sign| + |e.digits|
  {
    hide Has, ExponentText, IsSign;
    var letter := [if e.upper then UPPER_E else LOWER_E];
    ExponentTextIs(e);
    HasSplit(text, p, letter, e.sign + e.digits);
    DigitAt(text, p, letter);
    HasSplit(text, p + 1, e.sign, e.digits);
    if e.sign != [] {
      SignAt(text, p + 1, e.sign);
    }
  }

  lemma ExponentTextIs(e: Exponent)
    requires e.Exponent?
    ensures ExponentText(e) == [if e.upper then UPPER_E else LOWER_E] + (e.sign + e.digits)
  {
  }

  lemma SignAt(text: bytes, p: nat, sign: bytes)
    requires IsSign(sign) && sign != [] && Has(text, p, sign)
    ensures |sign| == 1 && p < |text| && (text[p] == PLUS || text[p] == MINUS) && sign == [text[p]]
  {
    DigitAt(text, p, sign);
  }

  /** A number ends before a character that does not prolong it, and joins its parent. */
  lemma DoubleEnds(text: bytes, b: State, s: State, n: Node) returns (m: Node)
    requires Reads(text, b, s, n) && n.kind == DoubleKind && s.mode.num.digits > 0
    requires var c := Peek(text, s.ptr); !IsNumberChar(c) || (c == DOT && !s.mode.num.expo)
    ensures m.kind == DoubleKind && m.parent == Parent(b)
    ensures var x := Scaled(s.mode.num, DoubleKind, n.dbl); m.dbl == if s.mode.num.negative then -x else x
    ensures var t := Attach(b, [m], s.ptr).(decimal := s.decimal);
      Machine.Wf(text, t) && Run(text, s) == Run(text, t)
  {
    hide Run, IsPath, Finish, Scaled, Attach;
    ReadsTop(text, b, s, n);
    var dbl := Scaled(s.mode.num, n.kind, n.dbl);
    m := if s.mode.num.negative then n.(dbl := -dbl) else n.(dbl := dbl);
    var t := Finish(SetTop(s, m), s.ptr);
    assert Step(text, s) == Next(t);
    Unfold(text, s, t);
    Attached(text, b, s, n, m);
  }

  lemma Attached(text: bytes, b: State, s: State, n: Node, m: Node)
    requires Reads(text, b, s, n) && m.parent == n.parent && IsNumeric(m.kind)
    requires IsPath(s.path, s.nodes) && Top(s) < |s.nodes| && s.nodes[Top(s)] == n
    ensures Finish(SetTop(s, m), s.ptr) == Attach(b, [m], s.ptr).(decimal := s.decimal)
  {
    hide IsPath, Finish, Attach;
    assert (b.nodes + [n])[|b.nodes| := m] == b.nodes + [m];
    FinishAttaches(b.(decimal := s.decimal), SetTop(s, m), [m], s.ptr);
    AttachDecimal(b, [m], s.ptr, s.decimal);
  }

  lemma AttachDecimal(b: State, block: seq<Node>, ptr: nat, decimal: bool)
    requires Fits(b) && b.mode == Seek(false, false)
    ensures Fits(b.(decimal := decimal))
    ensures Attach(b.(decimal := decimal), block, ptr) == Attach(b, block, ptr).(decimal := decimal)
  {
  }

  lemma WholeEnds(text: bytes, b: State, s: State, n: Node) returns (m: Node)
    requires Reads(text, b, s, n) && n.kind == IntegerKind && !s.mode.num.expo && !IsNumberChar(Peek(text, s.ptr))
    ensures m == n.(integer := if s.mode.num.negative then -n.integer else n.integer)
    ensures var t := Attach(b, [m], s.ptr).(decimal := s.decimal);
      Machine.Wf(text, t) && Run(text, s) == Run(text, t)
  {
    hide Run, IsPath, Finish, Attach, Step;
    ReadsTop(text, b, s, n);
    m := n.(integer := if s.mode.num.negative then -n.integer else n.integer);
    IntegerEnd(text, s);
    Unfold(text, s, Finish(SetTop(s, m), s.ptr));
    Attached(text, b, s, n, m);
  }

  /** No state that a complete value leads to takes a decimal point. */
  lemma PointRefused(text: bytes, b: State, m: Node, p: nat, decimal: bool)
    requires Fits(b) && b.mode == Seek(false, false) && p < |text| && text[p] == DOT
    requires Machine.Wf(text, Attach(b, [m], p).(decimal := decimal))
    ensures Run(text, Attach(b, [m], p).(decimal := decimal)) == None
  {
    hide IsPath, Finish, Grown;
    var s := Attach(b, [m], p).(decimal := decimal);
    assert s.ptr == p && (s.mode == Done || s.mode == Seek(true, false) || s.mode == InObject(true));
    assert Step(text, s) == Reject;
  }

  /** At any place where a value may stand, a number literal is read as one node: as the integer it stands for when it
      is whole and fits, and otherwise as a double. Only a fraction after an integer part that does not fit is
      refused. The double is the number it stands for, but for rounding, exactly unless its integer part does not fit
      and a number with a decimal point came before it. */
  lemma NumberRun(text: bytes, s: State, l: Literal) returns (n: Node, decimal: bool)
    requires Machine.Wf(text, s) && s.mode == Seek(false, false) && WfLiteral(l)
    requires Has(text, s.ptr, NumberText(l)) && !IsNumberChar(Peek(text, s.ptr + |NumberText(l)|))
    ensures Refused(l) ==> Run(text, s) == None
    ensures !Refused(l) ==>
      var t := Attach(s, [n], s.ptr + |NumberText(l)|).(decimal := decimal);
      Machine.Wf(text, t) && Run(text, s) == Run(text, t)
    ensures !Refused(l) ==>
      if Whole(l) then n == Fresh(IntegerKind).(parent := Parent(s), integer := Signed(l.negative, l.digits))
      else n.kind == DoubleKind && n.parent == Parent(s) && (n.dbl == Exact(l) <==> !Mixed(s, l.digits))
    ensures !Refused(l) ==> decimal == (s.decimal || l.fraction != [])
  {
    hide Run, Reads, Has, Decimal, Peek, Attach, IsNumberChar, NumberText, FractionText, ExponentText, IntegerText;
    hide Exact, Mantissa, Scaled;
    NumberPieces(text, s.ptr, l);
    var b, t := IntegerPart(text, s, l.negative, l.digits);
    n := b;
    decimal := t.decimal;
    if Refused(l) {
      FractionIs(l);
      RefusedRun(text, s, t, n, l.fraction);
    } else {
      n, t := Parts(text, s, t, n, l);
      decimal := t.decimal;
      if Whole(l) {
        n := WholeEnds(text, s, t, n);
      } else {
        n := DoubleEnds(text, s, t, n);
      }
    }
  }

  lemma NumberPieces(text: bytes, p: nat, l: Literal)
    requires Has(text, p, NumberText(l))
    ensures Has(text, p, IntegerText(l.negative, l.digits))
    ensures var q := p + |IntegerText(l.negative, l.digits)|;
      && Has(text, q, FractionText(l)) && Has(text, q + |FractionText(l)|, ExponentText(l.exponent))
      && p + |NumberText(l)| == q + |FractionText(l)| + |ExponentText(l.exponent)|
  {
    hide Has, IntegerText, FractionText, ExponentText;
    HasSplit(text, p, IntegerText(l.negative, l.digits), FractionText(l) + ExponentText(l.exponent));
    HasSplit(text, p + |IntegerText(l.negative, l.digits)|, FractionText(l), ExponentText(l.exponent));
  }

  /** The fraction and the exponent of a literal that is not refused. */
  lemma Parts(text: bytes, b: State, s: State, n: Node, l: Literal) returns (m: Node, t: State)
    requires Reads(text, b, s, n) && WfLiteral(l) && !Refused(l) && ReadsMantissa(s, l.negative)
    requires l.fraction != [] ==> n.kind == IntegerKind && s.mode.num.fraction == 0.0
    requires n.kind == IntegerKind ==> n.integer == Decimal(l.digits)
    requires n.kind == DoubleKind || Decimal(l.digits) <= INT_MAX
    requires Has(text, s.ptr, FractionText(l)) && Has(text, s.ptr + |FractionText(l)|, ExponentText(l.exponent))
    ensures Reads(text, b, t, m) && Run(text, s) == Run(text, t) && t.mode.num.digits > 0
    ensures t.ptr == s.ptr + |FractionText(l)| + |ExponentText(l.exponent)|
    ensures t.decimal == (s.decimal || l.fraction != []) && t.mode.num.negative == l.negative
    ensures if l.fraction == [] && l.exponent == NoExponent then m == n && t == s else m.kind == DoubleKind
    ensures m.kind == DoubleKind ==>
      var x := Scaled(t.mode.num, DoubleKind, m.dbl);
      ((if l.negative then -x else x) == Exact(l) <==> Mantissa(s.mode.num, n) == Decimal(l.digits) as real)
  {
    hide Run, Reads, Has, ExponentText, IsLiteral, Scaled, Decimal, Exact, Applied;
    NoExponentText();
    m, t := n, s;
    if l.fraction != [] {
      m, t := FractionPart(text, b, s, n, l.fraction);
    }
    ghost var x := Mantissa(t.mode.num, m);
    ExactIff(l, x, Mantissa(s.mode.num, n));
    if l.exponent.Exponent? {
      m, t := ExponentPart(text, b, t, m, l.exponent);
    } else if m.kind == DoubleKind {
      ScaledIsMantissa(t.mode.num, m);
    }
  }

  lemma ScaledIsMantissa(q: Number, n: Node)
    requires !q.expo && n.kind == DoubleKind
    ensures Scaled(q, DoubleKind, n.dbl) == Applied(Mantissa(q, n), NoExponent)
  {
  }

  /** With y read for the integer part and x for the whole mantissa, the literal is read exactly when y is right. */
  lemma ExactIff(l: Literal, x: real, y: real)
    requires WfLiteral(l)
    requires l.fraction == [] ==> x == y
    requires l.fraction != [] ==>
      && y == Decimal(l.digits) as real
      && x == Decimal(l.digits) as real + Decimal(l.fraction) as real / TenTo(|l.fraction|) as real
    ensures var z := Applied(x, l.exponent);
      (if l.negative then -z else z) == Exact(l) <==> y == Decimal(l.digits) as real
  {
    hide Applied;
    var m := Decimal(l.digits) as real + Decimal(l.fraction) as real / TenTo(|l.fraction|) as real;
    AppliedIff(x, m, l.exponent);
    if l.fraction == [] {
      assert Decimal(l.fraction) == 0 && 0.0 / TenTo(0) as real == 0.0;
    }
  }

  lemma FractionIs(l: Literal)
    requires l.fraction != []
    ensures FractionText(l) == [DOT] + l.fraction
  {
  }

  lemma NoExponentText()
    ensures ExponentText(NoExponent) == []
  {
  }

  lemma RefusedRun(text: bytes, b: State, s: State, n: Node, fs: bytes)
    requires Reads(text, b, s, n) && n.kind == DoubleKind && !s.mode.num.expo && s.mode.num.digits > 0
    requires Has(text, s.ptr, [DOT] + fs)
    ensures Run(text, s) == None
  {
    hide Run, Reads, Has, Attach;
    HasSplit(text, s.ptr, [DOT], fs);
    DigitAt(text, s.ptr, [DOT]);
    PointPeek(text, s.ptr);
    var m := DoubleEnds(text, b, s, n);
    ReadsFits(text, b, s, n);
    PointRefused(text, b, m, s.ptr, s.decimal);
  }

  lemma PointPeek(text: bytes, p: nat)
    requires p < |text| && text[p] == DOT
    ensures Peek(text, p) == DOT
  {
  }

  lemma ReadsFits(text: bytes, b: State, s: State, n: Node)
    requires Reads(text, b, s, n)
    ensures Fits(b) && b.mode == Seek(false, false)
  {
  }

  lemma LiteralBegins(l: Literal)
    requires WfLiteral(l)
    ensures StripBom(NumberText(l)) == NumberText(l) && Has(NumberText(l), 0, NumberText(l))
    ensures !IsNumberChar(Peek(NumberText(l), |NumberText(l)|))
  {
    hide Decimal;
    var text := NumberText(l);
    assert text[0] != 0xEF && text[0..|text|] == text;
    assert |text| >= 3 ==> text[..3][0] == text[0];
  }

  /** The value that a literal stands for: an integer when it is whole and fits. */
  function NumberValue(l: Literal): Value
    requires WfLiteral(l)
  {
    if Whole(l) then Integer(Signed(l.negative, l.digits)) else Double(Exact(l))
  }

  lemma LeafTree(nodes: seq<Node>, i: nat)
    requires i < |nodes|
    ensures nodes[i].kind == IntegerKind ==> TreeOf(nodes, i) == Integer(nodes[i].integer)
    ensures nodes[i].kind == DoubleKind ==> TreeOf(nodes, i) == Double(nodes[i].dbl)
  {
  }

  /** A number literal that is a whole text is accepted exactly unless a fraction follows an integer part that does not
      fit, and then it is read as what it stands for. */
  lemma NumberLiteralIff(l: Literal)
    requires WfLiteral(l)
    ensures Parse(NumberText(l)) == if Refused(l) then None else Some(NumberValue(l))
  {
    hide Run, Decimal, Refused, Exact, Has, NumberText, IsNumberChar, TreeOf;
    var text := NumberText(l);
    LiteralBegins(l);
    var n, decimal := NumberRun(text, START, l);
    if !Refused(l) {
      var e := Attach(START, [n], |text|).(decimal := decimal);
      EndRun(text, e);
      LeafTree(e.nodes, 0);
    }
  }

  /** In particular an integer literal is read as an integer exactly when its magnitude is at most 2^63 - 1. */
  lemma IntegerLiteralIff(negative: bool, ds: bytes)
    requires IsLiteral(ds)
    ensures Parse(IntegerText(negative, ds))
      == Some(if Decimal(ds) <= INT_MAX then Integer(Signed(negative, ds)) else Double(Signed(negative, ds) as real))
  {
    hide Parse, Decimal;
    var l := Literal(negative, ds, [], NoExponent);
    var none: bytes := [];
    assert NumberText(l) == IntegerText(negative, ds) + (none + none) == IntegerText(negative, ds);
    NumberLiteralIff(l);
    DecimalIsNone();
    assert 0.0 / TenTo(0) as real == 0.0;
  }

  lemma DecimalIsNone()
    ensures Decimal([]) == 0
  {
  }

  /** The text of an array of two numbers. */
  function PairOfNumbers(k: Literal, l: Literal): bytes {
    [OPEN_BRACKET] + (NumberText(k) + ([COMMA] + (NumberText(l) + [CLOSE_BRACKET])))
  }

  lemma PairPieces(k: Literal, l: Literal)
    ensures var text, p := PairOfNumbers(k, l), 1 + |NumberText(k)|;
      var q := p + 1 + |NumberText(l)|;
      && text[0] == OPEN_BRACKET && Has(text, 1, NumberText(k)) && Has(text, p, [COMMA]) && text[p] == COMMA
      && Has(text, p + 1, NumberText(l)) && |text| == q + 1 && text[q] == CLOSE_BRACKET
  {
    hide Has, NumberText;
    var text, p := PairOfNumbers(k, l), 1 + |NumberText(k)|;
    assert text[0..|text|] == text;
    assert Has(text, 0, text) by { WholeHas(text); }
    HasSplit(text, 0, [OPEN_BRACKET], NumberText(k) + ([COMMA] + (NumberText(l) + [CLOSE_BRACKET])));
    HasSplit(text, 1, NumberText(k), [COMMA] + (NumberText(l) + [CLOSE_BRACKET]));
    HasSplit(text, p, [COMMA], NumberText(l) + [CLOSE_BRACKET]);
    HasSplit(text, p + 1, NumberText(l), [CLOSE_BRACKET]);
    DigitAt(text, 0, [OPEN_BRACKET]);
    DigitAt(text, p, [COMMA]);
    DigitAt(text, p + 1 + |NumberText(l)|, [CLOSE_BRACKET]);
  }

  lemma NoPlainNumber(text: bytes, p: nat, q: nat)
    requires p < q < |text| && text[p] == COMMA && text[q] == CLOSE_BRACKET && text[0] == OPEN_BRACKET
    ensures !IsNumberChar(Peek(text, p)) && !IsNumberChar(Peek(text, q)) && StripBom(text) == text
  {
    assert |text| >= 3 ==> text[..3][0] == text[0];
  }

  lemma WholeHas(text: bytes)
    ensures Has(text, 0, text)
  {
    assert text[0..|text|] == text;
  }

  lemma Begun(text: bytes) returns (m: State)
    requires text != [] && text[0] == OPEN_BRACKET
    ensures Machine.Wf(text, m) && m.ptr == 1 && m.mode == Seek(false, false) && m.path == [0] && !m.decimal
    ensures m.nodes == [Fresh(ArrayKind)] && Run(text, START) == Run(text, m)
  {
    hide Run;
    var none: bytes := [];
    assert text[1..1] == none;
    OpenRun(text, START, ArrayKind, none);
    m := Opening(START, ArrayKind, 0);
  }

  /** A state in an array that is the root, before its closing bracket. */
  lemma ArrayEnds(text: bytes, s: State)
    requires Machine.Wf(text, s) && s.path == [0] && s.mode.Seek? && TopKind(s) == ArrayKind
    requires s.ptr + 1 == |text| && text[s.ptr] == CLOSE_BRACKET
    ensures Run(text, s) == Some(s.nodes)
  {
    hide Run;
    CloseStep(text, s);
    Unfold(text, s, Finish(s, s.ptr + 1));
    EndRun(text, Finish(s, s.ptr + 1));
  }

  lemma PairTree(nodes: seq<Node>)
    requires |nodes| == 3 && nodes[0].kind == ArrayKind && nodes[0].children == [1, 2]
    ensures TreeOf(nodes, 0) == Arr([TreeOf(nodes, 1), TreeOf(nodes, 2)])
  {
    var kids: seq<nat> := [1, 2];
    assert kids[1..] == [2] && [2][1..] == [];
    assert TreesOf(nodes, 0, kids) == [TreeOf(nodes, 1)] + TreesOf(nodes, 0, kids[1..]);
    assert TreesOf(nodes, 0, kids[1..]) == [TreeOf(nodes, 2)] + TreesOf(nodes, 0, []);
  }

  /** The nodes of an array of two numbers. */
  lemma PairGrown(m: State, a: Node, p: nat, x: bool, b: Node, q: nat, y: bool) returns (s: State, t: State, e: State)
    requires Fits(m) && m.mode == Seek(false, false) && m.path == [0] && m.nodes == [Fresh(ArrayKind)]
    ensures s == Attach(m, [a], p).(decimal := x) && s.mode == Seek(true, false) && s.ptr == p && Fits(s)
    ensures t == s.(ptr := p + 1, mode := Seek(false, false)) && Fits(t) && Parent(t) == 0
    ensures e == Attach(t, [b], q).(decimal := y) && e.mode == Seek(true, false) && e.path == [0] && e.ptr == q
    ensures |e.nodes| == 3 && e.nodes[0].kind == ArrayKind && e.nodes[0].children == [1, 2]
    ensures e.nodes[1] == a && e.nodes[2] == b
  {
    s := Attach(m, [a], p).(decimal := x);
    t := s.(ptr := p + 1, mode := Seek(false, false));
    e := Attach(t, [b], q).(decimal := y);
  }

  /** Of two numbers in an array the first is read as what it stands for, and the second exactly unless its integer part
      does not fit and the first has a decimal point. */
  lemma SecondNumberIff(k: Literal, l: Literal)
    requires WfLiteral(k) && WfLiteral(l) && !Refused(k) && !Refused(l)
    ensures var r := Parse(PairOfNumbers(k, l));
      && r.Some? && r.value.Arr? && |r.value.items| == 2 && r.value.items[0] == NumberValue(k)
      && (r.value.items[1] == NumberValue(l) <==> !(k.fraction != [] && Decimal(l.digits) > INT_MAX))
  {
    hide Run, Has, Decimal, Refused, Exact, NumberText, IsNumberChar, PairOfNumbers, TreeOf, Attach, Peek;
    PairPieces(k, l);
    var text, p := PairOfNumbers(k, l), 1 + |NumberText(k)|;
    var q := p + 1 + |NumberText(l)|;
    NoPlainNumber(text, p, q);
    var m := Begun(text);
    var a, x := NumberRun(text, m, k);
    var s, t, _ := PairGrown(m, a, p, x, a, q, x);
    CommaRun(text, s);
    var b, y := NumberRun(text, t, l);
    var _, _, e := PairGrown(m, a, p, x, b, q, y);
    ArrayEnds(text, e);
    PairTree(e.nodes);
    LeafTree(e.nodes, 1);
    LeafTree(e.nodes, 2);
  }

  const LONG_DIGITS: bytes := Ascii("10000000000000000000")

  lemma {:induction false} ZerosAreNothing(ds: bytes)
    requires AllDigits(ds) && forall k | 0 <= k < |ds| :: ds[k] == ZERO
    ensures Decimal(ds) == 0
    decreases |ds|
  {
    if ds != [] {
      ZerosAreNothing(ds[..|ds| - 1]);
    }
  }

  lemma LongDigitsAre()
    ensures IsLiteral(LONG_DIGITS) && Decimal(LONG_DIGITS) == 10000000000000000000
  {
    var zeros := LONG_DIGITS[1..];
    assert LONG_DIGITS == [0x31] + zeros;
    DecimalSplit([0x31], zeros);
    ZerosAreNothing(zeros);
    assert [0x31][..0] == [] && Decimal([0x31]) == 1;
    TenToNineteen();
  }

  lemma HalfIs()
    ensures var k := Literal(false, [0x30], [0x35], NoExponent);
      WfLiteral(k) && !Refused(k) && NumberValue(k) == Double(0.5)
  {
    assert [0x30][..0] == [] && Decimal([0x30]) == 0;
    assert [0x35][..0] == [] && Decimal([0x35]) == 5;
    assert TenTo(1) == 10;
  }

  lemma TenToNineteen()
    ensures TenTo(19) == 10000000000000000000
  {
    assert TenTo(5) == 100000;
    assert TenTo(9) == 1000000000;
    assert TenTo(13) == 10000000000000;
    assert TenTo(17) == 100000000000000000;
  }

  lemma LongPairText(k: Literal, l: Literal)
    requires k == Literal(false, [0x30], [0x35], NoExponent) && l == Literal(false, LONG_DIGITS, [], NoExponent)
    ensures PairOfNumbers(k, l) == Ascii("[0.5,") + Ascii("10000000000000000000") + Ascii("]")
  {
    LiteralTexts(k, l);
    BracketTexts();
    hide Ascii, NumberText;
    Regrouped([OPEN_BRACKET], NumberText(k), [COMMA], NumberText(l), [CLOSE_BRACKET]);
  }

  lemma BracketTexts()
    ensures Ascii("[0.5,") == [OPEN_BRACKET] + [0x30, 0x2E, 0x35] + [COMMA] && Ascii("]") == [CLOSE_BRACKET]
  {
  }

  lemma Regrouped(a: bytes, b: bytes, c: bytes, d: bytes, e: bytes)
    ensures a + (b + (c + (d + e))) == a + b + c + d + e
  {
  }

  lemma LiteralTexts(k: Literal, l: Literal)
    requires k == Literal(false, [0x30], [0x35], NoExponent) && l == Literal(false, LONG_DIGITS, [], NoExponent)
    ensures NumberText(k) == [0x30, 0x2E, 0x35] && NumberText(l) == LONG_DIGITS
  {
    hide Ascii;
    var none: bytes := [];
    assert NumberText(l) == none + LONG_DIGITS + (none + none) == LONG_DIGITS;
    assert NumberText(k) == none + [0x30] + ([DOT] + [0x35] + none) == [0x30, 0x2E, 0x35];
  }

  /** In "[0.5,10000000000000000000]" the second number is read as another one. */
  lemma SecondNumberMisread()
    ensures var r := Parse(Ascii("[0.5,") + Ascii("10000000000000000000") + Ascii("]"));
      && r.Some? && r.value.Arr? && |r.value.items| == 2 && r.value.items[0] == Double(0.5)
      && r.value.items[1] != Double(10000000000000000000.0)
  {
    hide Parse, Decimal, PairOfNumbers, Signed, Ascii;
    var k, l := Literal(false, [0x30], [0x35], NoExponent), Literal(false, LONG_DIGITS, [], NoExponent);
    HalfIs();
    LongDigitsAre();
    DecimalIsNone();
    LongPairText(k, l);
    SecondNumberIff(k, l);
    assert 0.0 / TenTo(0) as real == 0.0;
  }

  // Surrogate pairs

  /** A string of two escaped units. */
  function PairText(h: Unit, l: Unit): bytes {
    Quoted([Pair(h, l)])
  }

  lemma PairDocument(h: Unit, l: Unit) returns (d: Document)
    requires WfUnit(h) && WfUnit(l) && IsHigh(Code(h)) && IsLow(Code(l))
    ensures WfDocument(d) && DocumentText(d) == PairText(h, l) && (Combining(d.root) <==> Combines(Code(h)))
    ensures Meaning(d.root, Standard) == Str(Utf8(Utf16Pair(Code(h), Code(l))))
    ensures Meaning(d.root, Program) == Str(Utf8(CombinedCode(Code(h), Code(l))))
  {
    hide Utf8, Code, CombinedCode, Utf16Pair, CharText;
    var cs := [Pair(h, l)];
    assert cs[1..] == [] && CharsMeaning(cs[1..], Standard) == [] && CharsMeaning(cs[1..], Program) == [];
    var none: bytes := [];
    d := Document(none, SStr(cs), none);
    assert CharCombines(cs[0]) <==> Combines(Code(h));
  }

  /** The string of an escaped surrogate pair is read as the UTF-8 form of its code point exactly when bit 6 of the high
      unit is clear. */
  lemma PairReadIff(h: Unit, l: Unit)
    requires WfUnit(h) && WfUnit(l) && IsHigh(Code(h)) && IsLow(Code(l))
    ensures Parse(PairText(h, l)) == Some(Str(Utf8(Utf16Pair(Code(h), Code(l))))) <==> Combines(Code(h))
  {
    hide Parse, Utf8, CombinedCode, Utf16Pair, Code, PairText;
    var d := PairDocument(h, l);
    ParseIff(d);
  }

  /** The text "\ud840\udc00", which stands for U+20000, is read as U+10000. */
  lemma PairMisread()
    ensures Parse(Ascii("\"\\ud840\\udc00\"")) == Some(Str(Utf8(0x10000))) && Utf16Pair(0xD840, 0xDC00) == 0x20000
  {
    hide *;
    var h, l := Unit(0x64, 0x38, 0x34, 0x30), Unit(0x64, 0x63, 0x30, 0x30);
    UnitsAre(h, l);
    SurrogatesHere();
    CombinedCodeFails();
    MisreadText(h, l);
    var d := PairDocument(h, l);
    ParseReads(d);
  }

  lemma SurrogatesHere()
    ensures IsHigh(0xD840) && IsLow(0xDC00)
  {
  }

  lemma MisreadText(h: Unit, l: Unit)
    requires h == Unit(0x64, 0x38, 0x34, 0x30) && l == Unit(0x64, 0x63, 0x30, 0x30)
    ensures PairText(h, l) == Ascii("\"\\ud840\\udc00\"")
  {
    PairOctets(h, l);
    hide PairText;
  }

  lemma UnitsAre(h: Unit, l: Unit)
    requires h == Unit(0x64, 0x38, 0x34, 0x30) && l == Unit(0x64, 0x63, 0x30, 0x30)
    ensures WfUnit(h) && WfUnit(l) && Code(h) == 0xD840 && Code(l) == 0xDC00
  {
    DigitRows();
    DigitIs(0x64, 13);
    DigitIs(0x38, 8);
    DigitIs(0x34, 4);
    DigitIs(0x30, 0);
    DigitIs(0x63, 12);
    hide DigitValue;
  }

  lemma PairOctets(h: Unit, l: Unit)
    ensures PairText(h, l) == [QUOTE, BACKSLASH, LOWER_U, h.a, h.b, h.c, h.d, BACKSLASH, LOWER_U, l.a, l.b, l.c, l.d,
      QUOTE]
  {
    var cs := [Pair(h, l)];
    assert cs[1..] == [] && CharsText(cs[1..]) == [];
    assert CharText(cs[0]) == [BACKSLASH, LOWER_U, h.a, h.b, h.c, h.d, BACKSLASH, LOWER_U, l.a, l.b, l.c, l.d];
    assert CharsText(cs) == CharText(cs[0]) + CharsText(cs[1..]);
  }
}
