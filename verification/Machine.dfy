/** The parser's character loop as a machine over a growing memory. One machine stands behind both passes:
    the first pass counts what the machine stores, the second stores it in allocations of the counted sizes. */
module Machine {
  import opened Bytes
  import opened Values
  import opened Unicode

  /** A node of the tree under construction. Nodes are named by their allocation number; -1 is no parent. */
  datatype Node = Node(kind: Kind, parent: int, children: seq<nat>, names: seq<bytes>,
                       str: bytes, integer: int, dbl: real, boolean: int)

  /** What the flag word says the next character is for. */
  datatype Mode =
    | Seek(comma: bool, colon: bool)
    | InString(escaped: bool, buf: bytes)
    | InObject(comma: bool)
    | InNumber(num: Number)
    | Done

  datatype Number = Number(negative: bool, zero: bool, expo: bool, expoSign: bool, expoNegative: bool,
                           digits: nat, e: int, fraction: real)

  /** path leads from the root to the node under construction; decimal is flag_num_got_decimal, which is never
      cleared. */
  datatype State = State(ptr: nat, mode: Mode, decimal: bool, path: seq<nat>, nodes: seq<Node>)

  datatype Outcome = Next(s: State) | Accept | Reject

  const START := State(0, Seek(false, false), false, [], [])
  const FRESH_NUMBER := Number(false, false, false, false, false, 0, 0, 0.0)

  function Fresh(kind: Kind): Node {
    Node(kind, -1, [], [], [], 0, 0.0, 0)
  }

  function Peek(text: bytes, p: nat): byte {
    if p < |text| then text[p] else 0
  }

  predicate IsContainer(k: Kind) { k == ArrayKind || k == ObjectKind }

  predicate IsNumeric(k: Kind) { k == IntegerKind || k == DoubleKind }

  /** A chain of containers from the root down, each the parent of the next, ending in the node under construction. */
  ghost predicate IsPath(path: seq<nat>, nodes: seq<Node>) {
    && (forall k | 0 <= k < |path| :: path[k] < |nodes|)
    && (path != [] ==> nodes[path[0]].parent == -1)
    && (forall j, k | 0 <= j < k < |path| && k == j + 1 :: nodes[path[k]].parent == path[j])
    && (forall k | 0 <= k < |path| - 1 :: IsContainer(nodes[path[k]].kind))
    && (forall j, k | 0 <= j < k < |path| :: path[j] < path[k])
  }

  function Top(s: State): nat
    requires s.path != []
  {
    s.path[|s.path| - 1]
  }

  function TopKind(s: State): (k: Kind)
    requires s.path != [] && IsPath(s.path, s.nodes)
    ensures Top(s) < |s.nodes|
  {
    s.nodes[Top(s)].kind
  }

  /** The mode fits the node under construction. */
  ghost predicate Fits(s: State) {
    && IsPath(s.path, s.nodes)
    && match s.mode
       case Seek(comma, colon) =>
         if s.path == [] then !comma && !colon
         else IsContainer(TopKind(s)) && (colon ==> TopKind(s) == ObjectKind) && (TopKind(s) == ObjectKind ==> !comma)
       case InString(_, _) => s.path != [] && (TopKind(s) == StringKind || TopKind(s) == ObjectKind)
       case InObject(_) => s.path != [] && TopKind(s) == ObjectKind
       case InNumber(_) => s.path != [] && IsNumeric(TopKind(s))
       case Done => |s.path| == 1
  }

  ghost predicate Wf(text: bytes, s: State) {
    s.ptr <= |text| && Fits(s)
  }

  /** The reprocessing steps that stay on one character: a number is started, turned into a double, ended. */
  ghost function Rank(s: State): nat {
    match s.mode
    case Seek(comma, _) => if comma then 0 else 3
    case InNumber(_) => if s.path != [] && IsPath(s.path, s.nodes) && TopKind(s) == IntegerKind then 2 else 1
    case _ => 0
  }

  /** A step keeps the state well formed and makes progress. */
  ghost predicate Good(text: bytes, s: State, o: Outcome) {
    o.Next? ==>
      && Wf(text, o.s)
      && s.ptr <= o.s.ptr
      && (s.ptr == o.s.ptr ==> Rank(o.s) < Rank(s))
  }

  /** new_value: a node is taken and becomes the one under construction. */
  function Push(s: State, n: Node): (r: State)
    requires IsPath(s.path, s.nodes) && (s.path != [] ==> IsContainer(TopKind(s)))
    ensures IsPath(r.path, r.nodes) && r.path != [] && TopKind(r) == n.kind
    ensures r.ptr == s.ptr && r.mode == s.mode
  {
    var parent: int := if s.path == [] then -1 else s.path[|s.path| - 1];
    s.(path := s.path + [|s.nodes|], nodes := s.nodes + [n.(parent := parent)])
  }

  function SetTop(s: State, n: Node): (r: State)
    requires s.path != [] && IsPath(s.path, s.nodes) && n.parent == s.nodes[Top(s)].parent
    ensures IsPath(r.path, r.nodes) && r.path == s.path && TopKind(r) == n.kind && r.nodes[Top(r)] == n
    ensures r.ptr == s.ptr && r.mode == s.mode
  {
    s.(nodes := s.nodes[Top(s) := n])
  }

  /** The flag_next block: the node under construction is complete and joins its parent. */
  function Finish(s: State, ptr: nat): (r: State)
    requires s.path != [] && IsPath(s.path, s.nodes)
    ensures Fits(r) && r.ptr == ptr && Rank(r) == 0
  {
    if |s.path| == 1 then s.(ptr := ptr, mode := Done)
    else
      var path := s.path[..|s.path| - 1];
      var p := path[|path| - 1];
      var n := s.nodes[p];
      assert p == s.path[|s.path| - 2] && IsContainer(n.kind);
      var nodes := s.nodes[p := n.(children := n.children + [Top(s)])];
      assert IsPath(path, nodes) && nodes[p].kind == n.kind;
      State(ptr, if n.kind == ArrayKind then Seek(true, false) else InObject(true), s.decimal, path, nodes)
  }

  /** An escape whose first character, after the backslash, is at p: the octets stored and where the text goes on. */
  function Unescape(text: bytes, p: nat): (r: Option<(bytes, nat)>)
    requires p < |text|
    ensures r.Some? ==> p < r.value.1 <= |text|
  {
    var b := text[p];
    if b == LOWER_B then Some(([BACKSPACE], p + 1))
    else if b == LOWER_F then Some(([FORM_FEED], p + 1))
    else if b == LOWER_N then Some(([LF], p + 1))
    else if b == LOWER_R then Some(([CR], p + 1))
    else if b == LOWER_T then Some(([TAB], p + 1))
    else if b != LOWER_U then Some(([b], p + 1))
    else
      var first := UnitAt(text, p + 1);
      if first.None? then None
      else if !IsSurrogate(first.value) then Some((Utf8(first.value), p + 5))
      else if p + 6 < |text| && text[p + 5] == BACKSLASH && text[p + 6] == LOWER_U then
        var second := UnitAt(text, p + 7);
        if second.None? then None
        else Some((Utf8(CombinedCode(first.value, second.value)), p + 11))
      else None
  }

  /** Four hexadecimal digits from p on. */
  function UnitAt(text: bytes, p: nat): (r: Option<nat>)
    ensures r.Some? ==> p + 4 <= |text| && r.value <= 0xFFFF
  {
    if |text| < p + 4 then None
    else
      var h1, h2, h3, h4 := HexValue(text[p]), HexValue(text[p + 1]), HexValue(text[p + 2]), HexValue(text[p + 3]);
      if h1 == 0xFF || h2 == 0xFF || h3 == 0xFF || h4 == 0xFF then None else Some(CodeUnit(h1, h2, h3, h4))
  }

  function StringStep(text: bytes, s: State): (o: Outcome)
    requires Wf(text, s) && s.mode.InString?
    ensures Good(text, s, o)
  {
    var b := Peek(text, s.ptr);
    var buf := s.mode.buf;
    if b == 0 then Reject
    else if s.mode.escaped then
      var e := Unescape(text, s.ptr);
      if e.None? then Reject else Next(s.(ptr := e.value.1, mode := InString(false, buf + e.value.0)))
    else if b == BACKSLASH then Next(s.(ptr := s.ptr + 1, mode := InString(true, buf)))
    else if b != QUOTE then Next(s.(ptr := s.ptr + 1, mode := InString(false, buf + [b])))
    else
      var n := s.nodes[Top(s)];
      if n.kind == StringKind then Next(Finish(SetTop(s, n.(str := buf)), s.ptr + 1))
      else Next(SetTop(s, n.(names := n.names + [buf])).(ptr := s.ptr + 1, mode := Seek(false, true)))
  }

  /** The closing quote of a string, or of a name. */
  lemma StringEnd(text: bytes, s: State)
    requires Wf(text, s) && s.mode.InString? && !s.mode.escaped && s.ptr < |text| && text[s.ptr] == QUOTE
    ensures var n := s.nodes[Top(s)];
            Step(text, s) == Next(if n.kind == StringKind then Finish(SetTop(s, n.(str := s.mode.buf)), s.ptr + 1)
                                  else SetTop(s, n.(names := n.names + [s.mode.buf])).(ptr := s.ptr + 1,
                                      mode := Seek(false, true)))
  {
    hide IsPath, Finish;
  }

  function DoneStep(text: bytes, s: State): (o: Outcome)
    requires Wf(text, s) && s.mode.Done?
    ensures Good(text, s, o)
  {
    var b := Peek(text, s.ptr);
    if b == 0 then Accept
    else if IsSpace(b) then Next(s.(ptr := s.ptr + 1))
    else Reject
  }

  /** A literal: the node is taken and complete once the whole word is there. */
  function WordStep(text: bytes, s: State, word: bytes, kind: Kind, boolean: int): (o: Outcome)
    requires Wf(text, s) && s.mode == Seek(false, false) && word != [] && !IsContainer(kind) && !IsNumeric(kind)
    ensures Good(text, s, o)
  {
    if Has(text, s.ptr, word) then Next(Finish(Push(s, Fresh(kind).(boolean := boolean)), s.ptr + |word|)) else Reject
  }

  function SeekStep(text: bytes, s: State): (o: Outcome)
    requires Wf(text, s) && s.mode.Seek?
    ensures Good(text, s, o)
  {
    var b := Peek(text, s.ptr);
    if IsSpace(b) then Next(s.(ptr := s.ptr + 1))
    else if b == CLOSE_BRACKET then
      if s.path != [] && TopKind(s) == ArrayKind then Next(Finish(s, s.ptr + 1)) else Reject
    else if s.mode.comma then
      if b == COMMA then Next(s.(ptr := s.ptr + 1, mode := Seek(false, false))) else Reject
    else if s.mode.colon then
      if b == COLON then Next(s.(ptr := s.ptr + 1, mode := Seek(false, false))) else Reject
    else if b == OPEN_BRACE then Next(Push(s, Fresh(ObjectKind)).(ptr := s.ptr + 1, mode := InObject(false)))
    else if b == OPEN_BRACKET then Next(Push(s, Fresh(ArrayKind)).(ptr := s.ptr + 1))
    else if b == QUOTE then Next(Push(s, Fresh(StringKind)).(ptr := s.ptr + 1, mode := InString(false, [])))
    else if b == LOWER_T then WordStep(text, s, TRUE, BooleanKind, 1)
    else if b == LOWER_F then WordStep(text, s, FALSE, BooleanKind, 0)
    else if b == LOWER_N then WordStep(text, s, NULL, NullKind, 0)
    else if b == MINUS then
      Next(Push(s, Fresh(IntegerKind)).(ptr := s.ptr + 1, mode := InNumber(FRESH_NUMBER.(negative := true))))
    else if IsDigit(b) then Next(Push(s, Fresh(IntegerKind)).(mode := InNumber(FRESH_NUMBER)))
    else Reject
  }

  function ObjectStep(text: bytes, s: State): (o: Outcome)
    requires Wf(text, s) && s.mode.InObject?
    ensures Good(text, s, o)
  {
    var b := Peek(text, s.ptr);
    if IsSpace(b) then Next(s.(ptr := s.ptr + 1))
    else if b == QUOTE then
      if s.mode.comma then Reject else Next(s.(ptr := s.ptr + 1, mode := InString(false, [])))
    else if b == CLOSE_BRACE then Next(Finish(s, s.ptr + 1))
    else if b == COMMA && s.mode.comma then Next(s.(ptr := s.ptr + 1, mode := InObject(false)))
    else Reject
  }

  predicate WouldOverflow(value: int, d: nat) {
    (INT_MAX - d) / 10 < value
  }

  function Pow10(n: int): (r: real)
    ensures r > 0.0
    decreases if n < 0 then -n else n
  {
    if n == 0 then 1.0 else if n > 0 then 10.0 * Pow10(n - 1) else Pow10(n + 1) / 10.0
  }

  function AsDouble(n: Node): Node {
    n.(kind := DoubleKind, dbl := n.integer as real)
  }

  function DigitStep(text: bytes, s: State): (o: Outcome)
    requires Wf(text, s) && s.mode.InNumber? && s.ptr < |text| && IsDigit(text[s.ptr])
    ensures Good(text, s, o)
  {
    var d: nat := text[s.ptr] - ZERO;
    var q := s.mode.num;
    var n := s.nodes[Top(s)];
    if q.expo then Next(s.(ptr := s.ptr + 1,
        mode := InNumber(q.(digits := q.digits + 1, expoSign := true, e := q.e * 10 + d))))
    else if n.kind == IntegerKind then
      if q.zero then Reject
      else
        var zero := q.digits == 0 && d == 0;
        if WouldOverflow(n.integer, d) then
          Next(SetTop(s, AsDouble(n)).(mode := InNumber(q.(zero := zero))))
        else
          Next(SetTop(s, n.(integer := n.integer * 10 + d))
               .(ptr := s.ptr + 1, mode := InNumber(q.(zero := zero, digits := q.digits + 1))))
    else if s.decimal then
      Next(s.(ptr := s.ptr + 1,
          mode := InNumber(q.(digits := q.digits + 1, fraction := q.fraction * 10.0 + d as real))))
    else
      Next(SetTop(s, n.(dbl := n.dbl * 10.0 + d as real)).(ptr := s.ptr + 1,
          mode := InNumber(q.(digits := q.digits + 1))))
  }

  /** The number ends before the current character, with dbl its value if it is a double. */
  function EndNumber(s: State, dbl: real): (r: State)
    requires s.mode.InNumber? && s.path != [] && IsPath(s.path, s.nodes)
    ensures Fits(r) && r.ptr == s.ptr && Rank(r) == 0
  {
    var n := s.nodes[Top(s)];
    var signed := if !s.mode.num.negative then n.(dbl := dbl)
                  else if n.kind == IntegerKind then n.(integer := -n.integer, dbl := dbl)
                  else n.(dbl := -dbl);
    Finish(SetTop(s, signed), s.ptr)
  }

  /** The double once its exponent, or else its fraction, is applied. */
  function Scaled(q: Number, kind: Kind, dbl: real): real {
    if q.expo then dbl * Pow10(if q.expoNegative then -q.e else q.e)
    else if kind == DoubleKind then dbl + q.fraction / Pow10(q.digits)
    else dbl
  }

  /** A character that no exponent takes. */
  function ExponentStep(text: bytes, s: State): (o: Outcome)
    requires Wf(text, s) && s.mode.InNumber? && s.mode.num.expo
    ensures Good(text, s, o)
  {
    var n := s.nodes[Top(s)];
    if s.mode.num.digits == 0 then Reject
    else Next(EndNumber(s, Scaled(s.mode.num, n.kind, n.dbl)))
  }

  /** A character that neither the digits nor a fraction takes. */
  function MantissaStep(text: bytes, s: State): (o: Outcome)
    requires Wf(text, s) && s.mode.InNumber? && !s.mode.num.expo
    ensures Good(text, s, o)
  {
    var b := Peek(text, s.ptr);
    var q := s.mode.num;
    var n := s.nodes[Top(s)];
    var dbl := Scaled(q, n.kind, n.dbl);
    if n.kind == DoubleKind && q.digits == 0 then Reject
    else if b == LOWER_E || b == UPPER_E then
      Next(SetTop(s, if n.kind == IntegerKind then AsDouble(n) else n.(dbl := dbl))
           .(ptr := s.ptr + 1, mode := InNumber(q.(expo := true, zero := false, digits := 0))))
    else Next(EndNumber(s, dbl))
  }

  function NumberStep(text: bytes, s: State): (o: Outcome)
    requires Wf(text, s) && s.mode.InNumber?
    ensures Good(text, s, o)
  {
    var b := Peek(text, s.ptr);
    var q := s.mode.num;
    var n := s.nodes[Top(s)];
    if IsDigit(b) then DigitStep(text, s)
    else if (b == PLUS || b == MINUS) && q.expo && !q.expoSign then
      Next(s.(ptr := s.ptr + 1, mode := InNumber(q.(expoSign := true, expoNegative := q.expoNegative || b == MINUS))))
    else if b == DOT && n.kind == IntegerKind then
      if q.digits == 0 then Reject
      else Next(SetTop(s, AsDouble(n)).(ptr := s.ptr + 1, decimal := true, mode := InNumber(q.(digits := 0))))
    else if q.expo then ExponentStep(text, s)
    else MantissaStep(text, s)
  }

  /** One turn of the character loop. */
  function Step(text: bytes, s: State): (o: Outcome)
    requires Wf(text, s)
    ensures Good(text, s, o)
  {
    match s.mode
    case InString(_, _) => StringStep(text, s)
    case Done => DoneStep(text, s)
    case Seek(_, _) => SeekStep(text, s)
    case InObject(_) => ObjectStep(text, s)
    case InNumber(_) => NumberStep(text, s)
  }

  /** The whole loop: the nodes of an accepted text, in allocation order. It ends on every text. */
  function Run(text: bytes, s: State): (r: Option<seq<Node>>)
    requires Wf(text, s)
    decreases |text| - s.ptr, Rank(s)
  {
    match Step(text, s)
    case Accept => Some(s.nodes)
    case Reject => None
    case Next(t) => Run(text, t)
  }

  /** The value hanging from node i. Children come after their parent. */
  function TreeOf(nodes: seq<Node>, i: nat): Value
    decreases |nodes| - i, 1, 0
  {
    if i >= |nodes| then Null
    else
      var n := nodes[i];
      match n.kind
      case ObjectKind => Obj(EntriesOf(nodes, i, n.names, n.children))
      case ArrayKind => Arr(TreesOf(nodes, i, n.children))
      case IntegerKind => Integer(n.integer)
      case DoubleKind => Double(n.dbl)
      case StringKind => Str(n.str)
      case BooleanKind => Boolean(n.boolean)
      case NullKind => Null
  }

  function TreesOf(nodes: seq<Node>, i: nat, kids: seq<nat>): seq<Value>
    requires i < |nodes|
    decreases |nodes| - i, 0, |kids|
  {
    if kids == [] then []
    else [if i < kids[0] then TreeOf(nodes, kids[0]) else Null] + TreesOf(nodes, i, kids[1..])
  }

  function EntriesOf(nodes: seq<Node>, i: nat, names: seq<bytes>, kids: seq<nat>): seq<Entry>
    requires i < |nodes|
    decreases |nodes| - i, 0, |kids|
  {
    if kids == [] || names == [] then []
    else
      var entry := Entry(names[0], if i < kids[0] then TreeOf(nodes, kids[0]) else Null);
      [entry] + EntriesOf(nodes, i, names[1..], kids[1..])
  }

  /** A leading byte order mark is skipped. */
  function StripBom(text: bytes): bytes {
    if |text| >= 3 && text[..3] == [0xEF, 0xBB, 0xBF] then text[3..] else text
  }

  function Parse(text: bytes): Option<Value> {
    var r := Run(StripBom(text), START);
    if r.None? then None else Some(TreeOf(r.value, 0))
  }
}
