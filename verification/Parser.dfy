/** json_parse_ex: one loop over the text, run twice. The first pass counts, the second takes the counted nodes
    again, allocates exactly what was counted and fills it. Both are proved against the machine. */
module Parser {
  import opened Bytes
  import opened Values
  import opened Machine
  import opened Growth

  /** A json_value as the parser leaves it. length is shared by arrays, objects and strings; keyBytes is the first
      pass's count of packed names; the sequences are the second pass's allocations. A pair in names is the place
      of a name in keys and its length; keyAt is object_mem. */
  datatype Cell = Cell(kind: Kind, parent: int, integer: int, dbl: real, boolean: int, length: nat, keyBytes: nat,
                       values: seq<int>, names: seq<(nat, nat)>, keys: bytes, keyAt: nat, str: bytes)

  /** The flag word. flag_next and flag_reproc do not outlive a turn of the loop. */
  datatype Flags = Flags(needComma: bool, seekValue: bool, escaped: bool, inString: bool, needColon: bool, done: bool,
                         numNegative: bool, numZero: bool, numE: bool, numEGotSign: bool, numENegative: bool,
                         numGotDecimal: bool)

  const SEEK_VALUE := Flags(false, true, false, false, false, false, false, false, false, false, false, false)

  /** num_digits, num_e and num_fraction. */
  datatype Tally = Tally(digits: nat, e: int, fraction: real)

  datatype Verdict = Go | Stop | Fail

  /** The flags say what the machine's mode says. */
  ghost predicate Says(fl: Flags, length: nat, tally: Tally, mode: Mode) {
    match mode
    case Seek(comma, colon) =>
      fl.seekValue && !fl.inString && !fl.escaped && !fl.done && fl.needComma == comma && fl.needColon == colon
    case InString(e, buf) =>
      fl.inString && !fl.seekValue && !fl.done && !fl.needComma && !fl.needColon && fl.escaped == e && length == |buf|
    case InObject(comma) =>
      !fl.seekValue && !fl.inString && !fl.escaped && !fl.done && fl.needComma == comma && !fl.needColon
    case InNumber(q) =>
      && !fl.seekValue && !fl.inString && !fl.escaped && !fl.done && !fl.needComma && !fl.needColon
      && q == Number(fl.numNegative, fl.numZero, fl.numE, fl.numEGotSign, fl.numENegative, tally.digits, tally.e,
          tally.fraction)
    case Done => fl.done && !fl.inString && !fl.escaped
  }

  /** The octets a row of names occupies, each followed by a NUL. */
  function Packed(names: seq<bytes>): bytes {
    if names == [] then [] else Packed(names[..|names| - 1]) + names[|names| - 1] + [0]
  }

  function Length(n: Node): nat {
    if n.kind == StringKind then |n.str| else if IsContainer(n.kind) then |n.children| else 0
  }

  /** A cell of the first pass: the counts of a node. */
  function Counted(n: Node): Cell {
    Cell(n.kind, n.parent, n.integer, n.dbl, n.boolean, Length(n), |Packed(n.names)|, [], [], [], 0, [])
  }

  /** The name entries in use: where each name lies among the packed ones. */
  ghost predicate NamesAt(entries: seq<(nat, nat)>, names: seq<bytes>) {
    |names| <= |entries| && forall k | 0 <= k < |names| :: entries[k] == (|Packed(names[..k])|, |names[k]|)
  }

  /** A cell of the second pass: allocated for the final node f, filled as far as n. */
  ghost predicate Filled(c: Cell, n: Node, f: Node, busy: bool) {
    && c.kind == n.kind == f.kind && c.parent == n.parent && c.integer == f.integer && c.dbl == f.dbl
        && c.boolean == f.boolean
    && c.length == Length(n)
    && (IsContainer(f.kind) ==> |n.children| <= |c.values| == |f.children| && c.values[..|n.children|] == n.children)
    && (f.kind == ObjectKind ==>
          && |c.names| == |f.children| && NamesAt(c.names, n.names)
          && |c.keys| == |Packed(f.names)| && c.keyAt == |Packed(n.names)| <= |c.keys|
              && c.keys[..c.keyAt] == Packed(n.names))
    && (f.kind == StringKind ==> |c.str| == |f.str| + 1 && (busy || c.str == n.str + [0]))
  }

  ghost predicate Stored(first: bool, cells: seq<Cell>, nodes: seq<Node>, f: seq<Node>, busy: int) {
    if first then |cells| == |nodes| && forall i | 0 <= i < |nodes| :: cells[i] == Counted(nodes[i])
    else
      && |nodes| <= |f| == |cells|
      && (forall i | 0 <= i < |nodes| :: Filled(cells[i], nodes[i], f[i], i == busy))
      && (forall i | |nodes| <= i < |f| :: cells[i] == Counted(f[i]))
  }

  /** The string being read lies at the start of its allocation. */
  ghost predicate Buffered(cells: seq<Cell>, s: State)
    requires Fits(s) && |s.nodes| <= |cells|
  {
    s.mode.InString? ==>
      var c, buf := cells[Top(s)], s.mode.buf;
      if TopKind(s) == StringKind then |buf| <= |c.str| && c.str[..|buf|] == buf
      else c.keyAt + |buf| <= |c.keys| && c.keys[c.keyAt..c.keyAt + |buf|] == buf
  }

  ghost function BusyAt(s: State): int {
    if s.path != [] && (s.mode.InNumber? || s.mode.InString?) then Top(s) else -1
  }

  ghost predicate HasNames(f: seq<Node>) {
    forall i | 0 <= i < |f| :: |f[i].names| == if f[i].kind == ObjectKind then |f[i].children| else 0
  }

  /** One cell and its node change; every other allocation stays as it was. */
  lemma StoredUpdate(first: bool, cells: seq<Cell>, nodes: seq<Node>, f: seq<Node>, busy: int, i: nat, c: Cell, n: Node,
                     busy': int)
    requires Stored(first, cells, nodes, f, busy) && i < |nodes|
    requires (busy == i || busy == -1) && (busy' == i || busy' == -1)
    requires if first then c == Counted(n) else Filled(c, n, f[i], i == busy')
    ensures Stored(first, cells[i := c], nodes[i := n], f, busy')
  {
  }

  lemma StoredPush(first: bool, cells: seq<Cell>, nodes: seq<Node>, f: seq<Node>, c: Cell, n: Node, busy: int)
    requires Stored(first, cells, nodes, f, -1) && (busy == |nodes| || busy == -1)
    requires if first then c == Counted(n) else |nodes| < |f| && Filled(c, n, f[|nodes|], |nodes| == busy)
    ensures if first then Stored(first, cells + [c], nodes + [n], f, busy)
            else Stored(first, cells[|nodes| := c], nodes + [n], f, busy)
  {
  }

  lemma PackedPush(names: seq<bytes>, name: bytes)
    ensures Packed(names + [name]) == Packed(names) + name + [0]
  {
    assert (names + [name])[..|names|] == names;
  }

  lemma {:induction false} PackedPrefix(names: seq<bytes>, more: seq<bytes>)
    requires names <= more
    ensures Packed(names) <= Packed(more)
    decreases |more|
  {
    if names == more {
    } else {
      PackedPrefix(names, more[..|more| - 1]);
    }
  }

  /** The next name fits the memory that is left: its octets, and its NUL. */
  lemma NameFits(names: seq<bytes>, more: seq<bytes>)
    requires names <= more && |names| < |more|
    ensures Packed(names) + more[|names|] + [0] <= Packed(more)
  {
    PackedPush(names, more[|names|]);
    PackedPrefix(names + [more[|names|]], more);
  }

  /** The state t comes after s, in the order in which the loop ends. */
  ghost predicate Before(s: State, t: State) {
    s.ptr < t.ptr || (s.ptr == t.ptr && Rank(t) < Rank(s))
  }

  /** What one turn of the loop does to the machine: one step, or several inside a skipped number. */
  ghost predicate Turned(text: bytes, s: State, t: State, v: Verdict)
    requires Machine.Wf(text, s)
  {
    match v
    case Go => Machine.Wf(text, t) && Before(s, t) && Run(text, t) == Run(text, s)
    case Stop => Step(text, s) == Accept && t == s
    case Fail => Step(text, s) == Reject && t == s
  }

  /** One step, and what the second pass knows about the state it leads to. */
  lemma Advance(text: bytes, s: State, t: State, first: bool, f: seq<Node>)
    requires Machine.Wf(text, s) && Step(text, s) == Next(t)
    requires !first ==> Run(text, s) == Some(f) && Balanced(s)
    ensures Turned(text, s, t, Go)
    ensures !first ==> Run(text, t) == Some(f) && Balanced(t) && Reaches(t, f)
  {
    hide IsPath, Balanced, Reaches;
    if !first {
      StepBalanced(text, s, t);
      RunReaches(text, t, f);
    }
  }

  /** A fresh allocation; its content is arbitrary. */
  method Allocate(n: nat) returns (b: bytes)
    ensures |b| == n
  {
    b := seq(n, _ => 0);
  }

  /** The second pass's half of new_value: exactly what was counted is allocated, and counting starts again. */
  method AllocateCell(c: Cell, ghost f: Node) returns (d: Cell)
    requires c == Counted(f) && |f.names| == if f.kind == ObjectKind then |f.children| else 0
    ensures Filled(d, f.(children := [], names := [], str := []), f, true)
  {
    d := c;
    if c.kind == ArrayKind && c.length != 0 {
      d := c.(values := seq(c.length, _ => 0), length := 0);
    } else if c.kind == ObjectKind && c.length != 0 {
      var keys := Allocate(c.keyBytes);
      d := c.(values := seq(c.length, _ => 0), names := seq(c.length, _ => (0, 0)), keys := keys, keyAt := 0,
          length := 0);
    } else if c.kind == StringKind {
      var str := Allocate(c.length + 1);
      d := c.(str := str, length := 0);
    }
  }

  class Parser {
    var firstPass: bool
    var cells: seq<Cell>
    var taken: nat
    var ptr: nat
    var top: int

    var flags: Flags
    var stringLength: nat
    var tally: Tally

    ghost var state: State
    ghost var final: seq<Node>

    constructor ()
      ensures state == START && Control() && cells == []
    {
      firstPass, cells := true, [];
      taken, ptr, top, flags := 0, 0, -1, SEEK_VALUE;
      stringLength, tally := 0, Tally(0, 0, 0.0);
      state, final := START, [];
    }

    ghost predicate Control()
      reads this
    {
      && ptr == state.ptr
      && top == (if state.path == [] then -1 else Top(state))
      && Says(flags, stringLength, tally, state.mode)
      && (firstPass ==> flags.numGotDecimal == state.decimal)
    }

    ghost predicate Valid(text: bytes)
      reads this
    {
      && Machine.Wf(text, state)
      && Control()
      && Stored(firstPass, cells, state.nodes, final, BusyAt(state))
      && (!firstPass ==>
            && taken == |state.nodes| && HasNames(final) && Buffered(cells, state)
            && !state.mode.InNumber? && Run(text, state) == Some(final) && Balanced(state))
    }

    /** new_value. */
    method NewValue(kind: Kind, ghost s: State)
      requires Fits(s) && s.mode == Seek(false, false) && top == (if s.path == [] then -1 else Top(s))
      requires Stored(firstPass, cells, s.nodes, final, -1)
      requires !firstPass ==>
        && HasNames(final) && taken == |s.nodes| < |final| && final[taken].parent == top
        && (final[taken].kind == kind || (IsNumeric(kind) && IsNumeric(final[taken].kind)))
      modifies this`cells, this`taken, this`top
      ensures top == |s.nodes| && taken == if firstPass then old(taken) else |s.nodes| + 1
      ensures var n := Push(s, Fresh(kind)).nodes[top];
              if firstPass then Stored(firstPass, cells, s.nodes + [n], final, top)
              else
                && Stored(firstPass, cells, s.nodes + [n.(kind := final[top].kind)], final, top)
                && (kind == StringKind ==> cells[top].str[..0] == [])
    {
      var parent := top;
      if firstPass {
        cells := cells + [Cell(kind, parent, 0, 0.0, 0, 0, 0, [], [], [], 0, [])];
        top := |cells| - 1;
        StoredPush(true, old(cells), s.nodes, final, cells[top], Fresh(kind).(parent := parent), top);
      } else {
        top := taken;
        taken := taken + 1;
        var c := AllocateCell(cells[top], final[top]);
        cells := cells[top := c];
        ghost var n := Push(s, Fresh(kind)).nodes[top].(kind := final[top].kind);
        StoredPush(false, old(cells), s.nodes, final, c, n, top);
      }
    }

    /** string_add, for one octet or for the octets of one code point; t is the machine's state with them read. */
    method AddBytes(bs: bytes, ghost s: State, ghost t: State)
      requires Fits(s) && s.mode.InString? && top == Top(s) && stringLength == |s.mode.buf|
      requires Fits(t) && t.path == s.path && t.nodes == s.nodes && t.mode == InString(false, s.mode.buf + bs)
      requires Stored(firstPass, cells, s.nodes, final, top)
      requires !firstPass ==> Buffered(cells, s) && Reaches(t, final)
      modifies this`cells, this`stringLength
      ensures stringLength == |t.mode.buf| && Stored(firstPass, cells, t.nodes, final, top)
      ensures !firstPass ==> Buffered(cells, t)
    {
      hide IsPath, Reaches;
      if !firstPass {
        RoomForString(cells, t, final);
        var c := cells[top];
        if c.kind == StringKind {
          c := c.(str := c.str[..stringLength] + bs + c.str[stringLength + |bs|..]);
        } else {
          var at := c.keyAt + stringLength;
          c := c.(keys := c.keys[..at] + bs + c.keys[at + |bs|..]);
        }
        BytesAdded(cells, s, t, final, c);
        StoredUpdate(false, cells, s.nodes, final, top, top, c, s.nodes[top], top);
        assert s.nodes[top := s.nodes[top]] == s.nodes;
        cells := cells[top := c];
      }
      stringLength := stringLength + |bs|;
    }

    /** The closing quote of a value. */
    method EndString(ghost s: State, ghost n: Node)
      requires Fits(s) && s.mode.InString? && TopKind(s) == StringKind && top == Top(s) && stringLength == |s.mode.buf|
      requires n == s.nodes[top].(str := s.mode.buf)
      requires Stored(firstPass, cells, s.nodes, final, top)
      requires !firstPass ==> Buffered(cells, s) && Grows(n, final[top])
      modifies this`cells
      ensures Stored(firstPass, cells, s.nodes[top := n], final, -1)
    {
      var c := cells[top];
      if !firstPass {
        assert Filled(c, s.nodes[top], final[top], true);
        c := c.(str := c.str[stringLength := 0]);
        assert c.str == n.str + [0];
      }
      c := c.(length := stringLength);
      StoredUpdate(firstPass, cells, s.nodes, final, top, top, c, n, -1);
      cells := cells[top := c];
    }

    /** The closing quote of a name. */
    method EndName(ghost s: State, ghost n: Node)
      requires Fits(s) && s.mode.InString? && TopKind(s) == ObjectKind && top == Top(s) && stringLength == |s.mode.buf|
      requires n == s.nodes[top].(names := s.nodes[top].names + [s.mode.buf])
      requires Stored(firstPass, cells, s.nodes, final, top)
      requires !firstPass ==>
        Buffered(cells, s) && Grows(n, final[top]) && HasNames(final) && |s.nodes[top].names| == |s.nodes[top].children|
      modifies this`cells
      ensures Stored(firstPass, cells, s.nodes[top := n], final, -1)
    {
      var c := cells[top];
      PackedPush(s.nodes[top].names, s.mode.buf);
      if firstPass {
        c := c.(keyBytes := c.keyBytes + stringLength + 1);
      } else {
        NamePlaced(c, s.nodes[top], final[top], s.mode.buf);
        c := c.(keys := c.keys[c.keyAt + stringLength := 0], names := c.names[c.length := (c.keyAt, stringLength)],
                keyAt := c.keyAt + stringLength + 1);
      }
      StoredUpdate(firstPass, cells, s.nodes, final, top, top, c, n, -1);
      cells := cells[top := c];
    }

    /** The flag_next block: the value on top is complete, and the loop goes on at p. */
    method Join(ghost s: State, p: nat)
      requires s.path != [] && IsPath(s.path, s.nodes) && top == Top(s)
      requires Stored(firstPass, cells, s.nodes, final, -1)
      requires firstPass ==> flags.numGotDecimal == s.decimal
      requires !firstPass ==> Reaches(Finish(s, p), final)
      requires !flags.seekValue && !flags.inString && !flags.escaped && !flags.needColon && !flags.done
      modifies this
      ensures firstPass == old(firstPass) && final == old(final) && taken == old(taken)
      ensures state == Finish(s, p) && Control() && Stored(firstPass, cells, state.nodes, final, -1)
    {
      hide IsPath, Filled, Reaches, Stored, Finish, Counted;
      ghost var t := Finish(s, p);
      FinishShape(s, p);
      flags := flags.(needComma := true);
      ptr := p;
      state := t;
      CellLinks(firstPass, cells, s, final);
      var parent := cells[top].parent;
      if parent == -1 {
        flags := flags.(done := true);
      } else {
        if cells[parent].kind == ArrayKind {
          flags := flags.(seekValue := true);
        }
        var c := cells[parent];
        if !firstPass {
          ChildFits(c, s, t, final);
          c := c.(values := c.values[c.length := top]);
        }
        c := c.(length := c.length + 1);
        CellGains(firstPass, cells[parent], c, s, t, final);
        StoredUpdate(firstPass, cells, s.nodes, final, -1, parent, c, t.nodes[parent], -1);
        cells := cells[parent := c];
        top := parent;
      }
    }
  
    method DoneTurn(text: bytes) returns (v: Verdict)
      requires Valid(text) && flags.done && !flags.inString
      modifies this
      ensures firstPass == old(firstPass) && final == old(final)
      ensures Turned(text, old(state), state, v) && (v != Fail ==> Valid(text))
    {
      hide IsPath, Run, Stored, Filled, Reaches, Balanced;
      var b := if ptr == |text| then 0 else text[ptr];
      if b == 0 {
        v := Stop;
      } else if IsSpace(b) {
        ghost var t := state.(ptr := ptr + 1);
        Advance(text, state, t, firstPass, final);
        ptr := ptr + 1;
        state := t;
        v := Go;
      } else {
        v := Fail;
      }
    }

    method StringTurn(text: bytes) returns (v: Verdict)
      requires Valid(text) && flags.inString
      modifies this
      ensures firstPass == old(firstPass) && final == old(final)
      ensures Turned(text, old(state), state, v) && (v != Fail ==> Valid(text))
    {
      hide IsPath, Run, Step, Stored, Filled, Reaches, Balanced, HasNames, Unescape, Finish, Buffered, Fits;
      StringSteps(text, state);
      var b := if ptr == |text| then 0 else text[ptr];
      v := Go;
      if b == 0 {
        v := Fail;
      } else if flags.escaped {
        var e := Unescape(text, ptr);
        if e.None? {
          v := Fail;
        } else {
          Character(text, e.value.0, e.value.1);
        }
      } else if b == BACKSLASH {
        Backslash(text);
      } else if b == QUOTE {
        QuoteTurn(text);
      } else {
        Character(text, [b], ptr + 1);
      }
    }

    method Backslash(text: bytes)
      requires Valid(text) && flags.inString && !flags.escaped && ptr < |text| && text[ptr] == BACKSLASH
      modifies this
      ensures firstPass == old(firstPass) && final == old(final)
      ensures Turned(text, old(state), state, Go) && Valid(text)
    {
      hide IsPath, Run, Step, Stored, Filled, Reaches, Balanced, HasNames, Turned, Grows, Fits;
      ghost var s := state;
      ghost var t := s.(ptr := ptr + 1, mode := InString(true, s.mode.buf));
      StringSteps(text, s);
      LeafFits(s);
      Advance(text, s, t, firstPass, final);
      flags := flags.(escaped := true);
      ptr := ptr + 1;
      state := t;
      LeafFits(t);
    }

    /** The octets of one character, escaped or not, are stored. */
    method Character(text: bytes, bs: bytes, p: nat)
      requires Valid(text) && flags.inString && p <= |text|
      requires Step(text, state) == Next(state.(ptr := p, mode := InString(false, state.mode.buf + bs)))
      modifies this
      ensures firstPass == old(firstPass) && final == old(final)
      ensures Turned(text, old(state), state, Go) && Valid(text)
    {
      hide IsPath, Run, Step, Stored, Filled, Reaches, Balanced, Buffered, HasNames, Rank, Turned, Grows, Fits;
      ghost var s := state;
      ghost var t := s.(ptr := p, mode := InString(false, s.mode.buf + bs));
      Advance(text, s, t, firstPass, final);
      LeafFits(s);
      AddBytes(bs, s, t);
      flags := flags.(escaped := false);
      ptr := p;
      state := t;
    }

    method QuoteTurn(text: bytes)
      requires Valid(text) && flags.inString && !flags.escaped && ptr < |text| && text[ptr] == QUOTE
      modifies this
      ensures firstPass == old(firstPass) && final == old(final)
      ensures Turned(text, old(state), state, Go) && Valid(text)
    {
      hide IsPath, Run, Step, Stored, Filled, Reaches, Balanced, Finish;
      TopCell(firstPass, cells, state, final);
      if cells[top].kind == StringKind {
        ValueQuote(text);
      } else {
        NameQuote(text);
      }
    }

    method ValueQuote(text: bytes)
      requires Valid(text) && flags.inString && !flags.escaped && TopKind(state) == StringKind && ptr < |text|
        && text[ptr] == QUOTE
      modifies this
      ensures firstPass == old(firstPass) && final == old(final)
      ensures Turned(text, old(state), state, Go) && Valid(text)
    {
      hide IsPath, Run, Step, Stored, Filled, Reaches, Balanced, Finish;
      ghost var s := state;
      ghost var n := s.nodes[top].(str := s.mode.buf);
      ghost var c := SetTop(s, n);
      ghost var t := Finish(c, ptr + 1);
      StringEnd(text, s);
      Advance(text, s, t, firstPass, final);
      if !firstPass {
        FinishBack(c, ptr + 1, final);
        assert Grows(c.nodes[top], final[top]);
      }
      FinishKeeps(c, ptr + 1);
      EndString(s, n);
      flags := flags.(inString := false);
      Join(c, ptr + 1);
    }

    method NameQuote(text: bytes)
      requires Valid(text) && flags.inString && !flags.escaped && TopKind(state) == ObjectKind && ptr < |text|
        && text[ptr] == QUOTE
      modifies this
      ensures firstPass == old(firstPass) && final == old(final)
      ensures Turned(text, old(state), state, Go) && Valid(text)
    {
      hide IsPath, Run, Step, Stored, Filled, Reaches, Balanced, Finish, Grows, HasNames, Turned;
      ghost var s := state;
      ghost var n := s.nodes[top].(names := s.nodes[top].names + [s.mode.buf]);
      ghost var t := SetTop(s, n).(ptr := ptr + 1, mode := Seek(false, true));
      StringEnd(text, s);
      Advance(text, s, t, firstPass, final);
      if !firstPass {
        NameGrows(s, t, final);
      }
      EndName(s, n);
      flags := flags.(inString := false, seekValue := true, needColon := true);
      ptr := ptr + 1;
      state := t;
    }

    /** A turn that changes flags only and consumes one character. */
    method Move(text: bytes, fl: Flags, ghost t: State)
      requires Valid(text) && !flags.inString && Step(text, state) == Next(t)
      requires t.ptr == ptr + 1 && t.decimal == state.decimal && t.path == state.path && t.nodes == state.nodes
      requires fl.numGotDecimal == flags.numGotDecimal && !t.mode.InNumber? && Says(fl, 0, tally, t.mode)
      modifies this
      ensures firstPass == old(firstPass) && final == old(final)
      ensures Turned(text, old(state), state, Go) && Valid(text)
    {
      hide IsPath, Run, Step, Stored, Reaches, Balanced, HasNames, Turned, Grows, Fits, Filled;
      ghost var s := state;
      Advance(text, s, t, firstPass, final);
      Moved(firstPass, cells, s, t, final);
      flags := fl;
      stringLength := 0;
      ptr := ptr + 1;
      state := t;
    }

    /** A closing bracket or brace. */
    method CloseTurn(text: bytes)
      requires Valid(text) && !flags.inString && !flags.done && state.path != []
      requires Step(text, state) == Next(Finish(state, ptr + 1)) && (state.mode.Seek? || state.mode.InObject?)
        && !flags.needColon
      modifies this
      ensures firstPass == old(firstPass) && final == old(final)
      ensures Turned(text, old(state), state, Go) && Valid(text)
    {
      hide IsPath, Run, Step, Stored, Reaches, Balanced, HasNames, Turned, Grows, Filled, Finish;
      ghost var s := state;
      Advance(text, s, Finish(s, ptr + 1), firstPass, final);
      FinishKeeps(s, ptr + 1);
      flags := flags.(needComma := false, seekValue := false);
      Join(s, ptr + 1);
    }

    /** The first character of a container or a string. */
    method OpenTurn(text: bytes, kind: Kind, fl: Flags, ghost t: State)
      requires Valid(text) && state.mode == Seek(false, false) && Step(text, state) == Next(t)
      requires kind == ArrayKind || kind == ObjectKind || kind == StringKind
      requires t == Push(state, Fresh(kind)).(ptr := ptr + 1, mode := t.mode)
      requires t.mode == if kind == StringKind then InString(false, [])
                         else if kind == ArrayKind then Seek(false, false)
                         else InObject(false)
      requires fl.numGotDecimal == flags.numGotDecimal && Says(fl, 0, tally, t.mode)
      modifies this
      ensures firstPass == old(firstPass) && final == old(final)
      ensures Turned(text, old(state), state, Go) && Valid(text)
    {
      hide IsPath, Run, Step, Stored, Reaches, Balanced, HasNames, Turned, Grows, Fits, Filled;
      ghost var s := state;
      Advance(text, s, t, firstPass, final);
      Pushed(s, Fresh(kind), t);
      if !firstPass {
        PushedRoom(s, kind, t, final);
      }
      NewValue(kind, s);
      Opened(firstPass, cells, t, final);
      flags := fl;
      stringLength := 0;
      ptr := ptr + 1;
      state := t;
    }

    /** true, false or null. */
    method WordTurn(text: bytes, word: bytes, kind: Kind, boolean: int) returns (v: Verdict)
      requires Valid(text) && state.mode == Seek(false, false) && (kind == BooleanKind || kind == NullKind)
        && word != []
      requires kind == NullKind ==> boolean == 0
      requires Step(text, state) == WordStep(text, state, word, kind, boolean)
      modifies this
      ensures firstPass == old(firstPass) && final == old(final)
      ensures Turned(text, old(state), state, v) && (v != Fail ==> Valid(text))
    {
      hide IsPath, Run, Step, Stored, Reaches, Balanced, HasNames, Turned, Filled, Finish;
      WordShape(text, state, word, kind, boolean);
      if !Has(text, ptr, word) {
        v := Fail;
        Fails(text, state);
      } else {
        Word(text, |word|, kind, boolean);
        v := Go;
      }
    }

    method Word(text: bytes, length: nat, kind: Kind, boolean: int)
      requires Valid(text) && state.mode == Seek(false, false) && (kind == BooleanKind || kind == NullKind)
      requires kind == NullKind ==> boolean == 0
      requires Step(text, state) == Next(Finish(Push(state, Fresh(kind).(boolean := boolean)), ptr + length))
      modifies this
      ensures firstPass == old(firstPass) && final == old(final)
      ensures Turned(text, old(state), state, Go) && Valid(text)
    {
      hide IsPath, Run, Step, Stored, Reaches, Balanced, HasNames, Turned, Filled, Finish, Grows;
      ghost var s := state;
      ghost var m := Push(s, Fresh(kind).(boolean := boolean));
      Advance(text, s, Finish(m, ptr + length), firstPass, final);
      FinishKeeps(m, ptr + length);
      Pushed(s, Fresh(kind), Push(s, Fresh(kind)));
      Pushed(s, Fresh(kind).(boolean := boolean), m);
      if !firstPass {
        FinishBack(m, ptr + length, final);
        WordRoom(m, final);
      }
      NewValue(kind, s);
      WordStored(firstPass, cells, s, m, final, kind, boolean);
      if kind == BooleanKind {
        cells := cells[top := cells[top].(boolean := boolean)];
      }
      flags := flags.(seekValue := false);
      Join(m, ptr + length);
    }

    /** A digit or a minus sign where a value is due, in the first pass. */
    method NumberStart(text: bytes, negative: bool)
      requires Valid(text) && firstPass && state.mode == Seek(false, false)
      requires Step(text, state)
        == Next(Push(state, Fresh(IntegerKind)).(ptr := if negative then ptr + 1 else ptr,
                                                 mode := InNumber(FRESH_NUMBER.(negative := negative))))
      modifies this
      ensures firstPass == old(firstPass) && final == old(final)
      ensures Turned(text, old(state), state, Go) && Valid(text)
    {
      hide IsPath, Run, Step, Stored, Turned, Filled, Rank;
      ghost var s := state;
      ghost var t := Step(text, s).s;
      Advance(text, s, t, firstPass, final);
      Pushed(s, Fresh(IntegerKind), t);
      NewValue(IntegerKind, s);
      flags := flags.(seekValue := false, numNegative := negative, numE := false, numEGotSign := false,
                      numENegative := false, numZero := false);
      tally := Tally(0, 0, 0.0);
      if negative {
        ptr := ptr + 1;
      }
      state := t;
    }

    /** A turn inside a number that does not end it, in the first pass. */
    method NumberMove(text: bytes, c: Cell, fl: Flags, tl: Tally, p: nat, ghost n: Node, ghost t: State)
      requires Valid(text) && firstPass && state.mode.InNumber? && Step(text, state) == Next(t)
      requires n.parent == state.nodes[Top(state)].parent && c == Counted(n)
      requires t == SetTop(state, n).(ptr := p, mode := t.mode, decimal := fl.numGotDecimal)
      requires t.mode.InNumber? && Says(fl, stringLength, tl, t.mode)
      modifies this
      ensures firstPass == old(firstPass) && final == old(final)
      ensures Turned(text, old(state), state, Go) && Valid(text)
    {
      hide IsPath, Run, Step, Stored, Turned, Filled, Rank, Counted;
      ghost var s := state;
      Advance(text, s, t, firstPass, final);
      TopCell(true, cells, s, final);
      StoredUpdate(true, cells, s.nodes, final, Top(s), Top(s), c, n, Top(s));
      cells := cells[top := c];
      flags := fl;
      tally := tl;
      ptr := p;
      state := t;
    }

    method NumberTurn(text: bytes) returns (v: Verdict)
      requires Valid(text) && firstPass && state.mode.InNumber?
      modifies this
      ensures firstPass == old(firstPass) && final == old(final)
      ensures Turned(text, old(state), state, v) && (v != Fail ==> Valid(text))
    {
      hide IsPath, Run, Stored, Filled, Finish, Scaled, WouldOverflow, EndNumber;
      TopCell(true, cells, state, final);
      var b := if ptr == |text| then 0 else text[ptr];
      var c := cells[top];
      ghost var s := state;
      ghost var n := s.nodes[top];
      v := Go;
      if IsDigit(b) {
        v := DigitTurn(text);
      } else if (b == PLUS || b == MINUS) && flags.numE && !flags.numEGotSign {
        assert s.nodes[top := n] == s.nodes;
        NumberMove(text, c, flags.(numEGotSign := true, numENegative := flags.numENegative || b == MINUS), tally,
                   ptr + 1,
                   n, Step(text, s).s);
      } else if b == DOT && c.kind == IntegerKind {
        if tally.digits == 0 {
          v := Fail;
        } else {
          NumberMove(text, c.(kind := DoubleKind, dbl := c.integer as real), flags.(numGotDecimal := true),
                     tally.(digits := 0), ptr + 1, AsDouble(n), Step(text, s).s);
        }
      } else {
        v := NumberEnd(text, b);
      }
    }

    method DigitTurn(text: bytes) returns (v: Verdict)
      requires Valid(text) && firstPass && state.mode.InNumber? && ptr < |text| && IsDigit(text[ptr])
      modifies this
      ensures firstPass == old(firstPass) && final == old(final)
      ensures Turned(text, old(state), state, v) && (v != Fail ==> Valid(text))
    {
      hide IsPath, Run, Stored, Filled, Finish, Scaled, WouldOverflow, EndNumber, Step, Turned;
      TopCell(true, cells, state, final);
      DigitShape(text, state);
      var d := text[ptr] - ZERO;
      var c := cells[top];
      v := Go;
      if flags.numE {
        NumberMove(text, c, flags.(numEGotSign := true), tally.(digits := tally.digits + 1, e := tally.e * 10 + d),
                   ptr + 1,
                   state.nodes[top], Step(text, state).s);
      } else if c.kind == IntegerKind {
        v := IntegerDigit(text, d);
      } else if flags.numGotDecimal {
        NumberMove(text, c, flags, tally.(digits := tally.digits + 1, fraction := tally.fraction * 10.0 + d as real),
            ptr + 1,
                   state.nodes[top], Step(text, state).s);
      } else {
        NumberMove(text, c.(dbl := c.dbl * 10.0 + d as real), flags, tally.(digits := tally.digits + 1), ptr + 1,
                   state.nodes[top].(dbl := c.dbl * 10.0 + d as real), Step(text, state).s);
      }
    }

    method IntegerDigit(text: bytes, d: nat) returns (v: Verdict)
      requires Valid(text) && firstPass && state.mode.InNumber? && ptr < |text| && IsDigit(text[ptr])
        && d == text[ptr] - ZERO
      requires TopKind(state) == IntegerKind && !flags.numE
      modifies this
      ensures firstPass == old(firstPass) && final == old(final)
      ensures Turned(text, old(state), state, v) && (v != Fail ==> Valid(text))
    {
      hide IsPath, Run, Step, Stored, Filled, Finish, WouldOverflow, Turned, Balanced, HasNames, Buffered, Rank, BusyAt,
          Fits;
      LeafFits(state);
      TopCell(true, cells, state, final);
      IntegerDigitShape(text, state);
      var c := cells[top];
      ghost var s := state;
      ghost var n := s.nodes[top];
      v := Go;
      if flags.numZero {
        v := Fail;
        Fails(text, s);
      } else {
        var fl := flags.(numZero := tally.digits == 0 && d == 0);
        CountedDigit(n, d);
        hide Counted;
        if WouldOverflow(c.integer, d) {
          c := c.(kind := DoubleKind, dbl := c.integer as real);
          NumberMove(text, c, fl, tally, ptr, AsDouble(n), Step(text, s).s);
        } else {
          c := c.(integer := c.integer * 10 + d);
          NumberMove(text, c, fl, tally.(digits := tally.digits + 1), ptr + 1, n.(integer := n.integer * 10 + d),
              Step(text, s).s);
        }
      }
    }

    /** A character that may end the number, or begin its exponent. */
    method NumberEnd(text: bytes, b: byte) returns (v: Verdict)
      requires Valid(text) && firstPass && state.mode.InNumber? && b == Peek(text, ptr) && !IsDigit(b)
      requires !((b == PLUS || b == MINUS) && flags.numE && !flags.numEGotSign)
      requires !(b == DOT && TopKind(state) == IntegerKind)
      modifies this
      ensures firstPass == old(firstPass) && final == old(final)
      ensures Turned(text, old(state), state, v) && (v != Fail ==> Valid(text))
    {
      hide IsPath, Run, Stored, Filled, Finish, WouldOverflow;
      TopCell(true, cells, state, final);
      var c := cells[top];
      ghost var s := state;
      ghost var n := s.nodes[top];
      v := Go;
      if tally.digits == 0 && (flags.numE || c.kind == DoubleKind) {
        v := Fail;
      } else {
        var dbl := if flags.numE then c.dbl * Pow10(if flags.numENegative then -tally.e else tally.e)
                   else if c.kind == DoubleKind then c.dbl + tally.fraction / Pow10(tally.digits) else c.dbl;
        assert dbl == Scaled(s.mode.num, n.kind, n.dbl);
        if !flags.numE && (b == LOWER_E || b == UPPER_E) {
          NumberMove(text, if c.kind == IntegerKind then c.(kind := DoubleKind, dbl := c.integer as real)
              else c.(dbl := dbl),
                     flags.(numE := true, numZero := false), tally.(digits := 0), ptr + 1,
                     if n.kind == IntegerKind then AsDouble(n) else n.(dbl := dbl), Step(text, s).s);
        } else {
          JoinNumber(text, dbl);
        }
      }
    }

    method JoinNumber(text: bytes, dbl: real)
      requires Valid(text) && firstPass && state.mode.InNumber? && Step(text, state) == Next(EndNumber(state, dbl))
      modifies this
      ensures firstPass == old(firstPass) && final == old(final)
      ensures Turned(text, old(state), state, Go) && Valid(text)
    {
      hide IsPath, Run, Step, Stored, Filled, Turned, Finish;
      TopCell(true, cells, state, final);
      var c := cells[top].(dbl := dbl);
      if flags.numNegative {
        c := if c.kind == IntegerKind then c.(integer := -c.integer) else c.(dbl := -dbl);
      }
      ghost var s := state;
      ghost var n := s.nodes[top].(integer := c.integer, dbl := c.dbl);
      Advance(text, s, EndNumber(s, dbl), firstPass, final);
      assert EndNumber(s, dbl) == Finish(SetTop(s, n), ptr);
      FinishKeeps(SetTop(s, n), ptr);
      StoredUpdate(true, cells, s.nodes, final, top, top, c, n, -1);
      cells := cells[top := c];
      Join(SetTop(s, n), ptr);
    }

    /** A number in the second pass: taken as it was counted, and its characters skipped. */
    method SkipNumber(text: bytes)
      requires Valid(text) && !firstPass && state.mode == Seek(false, false)
      requires ptr < |text| && (IsDigit(text[ptr]) || text[ptr] == MINUS)
      modifies this
      ensures firstPass == old(firstPass) && final == old(final)
      ensures Turned(text, old(state), state, Go) && Valid(text)
    {
      hide IsPath, Run, Step, Stored, Filled, Turned, Finish, Reaches, Balanced;
      ghost var s := state;
      ghost var n, e := NumberAhead(text, s, final);
      ghost var m := Push(s, n).(decimal := e.decimal);
      Pushed(s, n, m);
      Pushed(s, Fresh(IntegerKind), Push(s, Fresh(IntegerKind)));
      FinishBack(m, e.ptr, final);
      assert Grows(m.nodes[|s.nodes|], final[|s.nodes|]);
      NewValue(IntegerKind, s);
      NumberStored(cells, s, m, final, n);
      var p := ptr;
      var b := text[p];
      while IsNumberChar(b)
        invariant ptr <= p <= e.ptr && b == Peek(text, p)
        decreases e.ptr - p
      {
        assert p != e.ptr;
        p := p + 1;
        b := if p == |text| then 0 else text[p];
      }
      assert p == e.ptr;
      flags := flags.(seekValue := false);
      FinishKeeps(m, p);
      Join(m, p);
    }

    method SeekTurn(text: bytes) returns (v: Verdict)
      requires Valid(text) && state.mode.Seek?
      modifies this
      ensures firstPass == old(firstPass) && final == old(final)
      ensures Turned(text, old(state), state, v) && (v != Fail ==> Valid(text))
    {
      hide IsPath, Run, Step, Stored, Filled, Turned, Finish, Reaches, Balanced, Buffered, HasNames, Push;
      var b := if ptr == |text| then 0 else text[ptr];
      SeekShape(text, state);
      v := Go;
      if IsSpace(b) {
        Move(text, flags, state.(ptr := ptr + 1));
      } else if b == CLOSE_BRACKET {
        if top != -1 {
          TopCell(firstPass, cells, state, final);
        }
        if top != -1 && cells[top].kind == ArrayKind {
          CloseTurn(text);
        } else {
          v := Fail;
          Fails(text, state);
        }
      } else if flags.needComma {
        if b == COMMA {
          Move(text, flags.(needComma := false), state.(ptr := ptr + 1, mode := Seek(false, false)));
        } else {
          v := Fail;
          Fails(text, state);
        }
      } else if flags.needColon {
        if b == COLON {
          Move(text, flags.(needColon := false), state.(ptr := ptr + 1, mode := Seek(false, false)));
        } else {
          v := Fail;
          Fails(text, state);
        }
      } else {
        v := ValueTurn(text, b);
      }
    }

    /** The first character of a value. */
    method ValueTurn(text: bytes, b: byte) returns (v: Verdict)
      requires Valid(text) && state.mode == Seek(false, false) && b == Peek(text, ptr) && !IsSpace(b)
        && b != CLOSE_BRACKET
      modifies this
      ensures firstPass == old(firstPass) && final == old(final)
      ensures Turned(text, old(state), state, v) && (v != Fail ==> Valid(text))
    {
      hide IsPath, Run, Step, Stored, Filled, Turned, Finish, Reaches, Balanced, Buffered, HasNames, Push, WordStep,
          Fits;
      if b == OPEN_BRACE || b == OPEN_BRACKET || b == QUOTE {
        ValueShape(text, state);
        var kind := if b == OPEN_BRACE then ObjectKind else if b == OPEN_BRACKET then ArrayKind else StringKind;
        OpenTurn(text, kind, flags.(seekValue := b == OPEN_BRACKET, inString := b == QUOTE), Step(text, state).s);
        v := Go;
      } else {
        v := ScalarTurn(text, b);
      }
    }

    method ScalarTurn(text: bytes, b: byte) returns (v: Verdict)
      requires Valid(text) && state.mode == Seek(false, false) && b == Peek(text, ptr) && !IsSpace(b)
        && b != CLOSE_BRACKET
      requires b != OPEN_BRACE && b != OPEN_BRACKET && b != QUOTE
      modifies this
      ensures firstPass == old(firstPass) && final == old(final)
      ensures Turned(text, old(state), state, v) && (v != Fail ==> Valid(text))
    {
      hide IsPath, Run, Step, Stored, Filled, Turned, Finish, Reaches, Balanced, Buffered, HasNames, Push, WordStep,
          Fits;
      ValueShape(text, state);
      v := Go;
      if b == LOWER_T {
        v := WordTurn(text, TRUE, BooleanKind, 1);
      } else if b == LOWER_F {
        v := WordTurn(text, FALSE, BooleanKind, 0);
      } else if b == LOWER_N {
        v := WordTurn(text, NULL, NullKind, 0);
      } else if IsDigit(b) || b == MINUS {
        if firstPass {
          NumberStart(text, b == MINUS);
        } else {
          SkipNumber(text);
        }
      } else {
        v := Fail;
        Fails(text, state);
      }
    }

    method ObjectTurn(text: bytes) returns (v: Verdict)
      requires Valid(text) && state.mode.InObject?
      modifies this
      ensures firstPass == old(firstPass) && final == old(final)
      ensures Turned(text, old(state), state, v) && (v != Fail ==> Valid(text))
    {
      hide IsPath, Run, Step, Stored, Filled, Turned, Finish, Reaches, Balanced, Buffered, HasNames;
      var b := if ptr == |text| then 0 else text[ptr];
      ObjectShape(text, state);
      v := Go;
      if IsSpace(b) {
        Move(text, flags, state.(ptr := ptr + 1));
      } else if b == QUOTE && !flags.needComma {
        Move(text, flags.(inString := true), state.(ptr := ptr + 1, mode := InString(false, [])));
      } else if b == CLOSE_BRACE {
        CloseTurn(text);
      } else if b == COMMA && flags.needComma {
        Move(text, flags.(needComma := false), state.(ptr := ptr + 1, mode := InObject(false)));
      } else {
        v := Fail;
        Fails(text, state);
      }
    }

    /** One turn of the character loop. */
    method Turn(text: bytes) returns (v: Verdict)
      requires Valid(text)
      modifies this
      ensures firstPass == old(firstPass) && final == old(final)
      ensures Turned(text, old(state), state, v) && (v != Fail ==> Valid(text))
    {
      hide IsPath, Run, Step, Stored, Filled, Turned, Finish, Reaches, Balanced, Buffered, HasNames;
      if flags.inString {
        v := StringTurn(text);
      } else if flags.done {
        v := DoneTurn(text);
      } else if flags.seekValue {
        v := SeekTurn(text);
      } else {
        TopCell(firstPass, cells, state, final);
        if cells[top].kind == ObjectKind {
          v := ObjectTurn(text);
        } else {
          v := NumberTurn(text);
        }
      }
    }

    /** The character loop. */
    method Pass(text: bytes) returns (ok: bool)
      requires Valid(text) && state == START
      modifies this
      ensures firstPass == old(firstPass) && final == old(final)
      ensures ok == Run(text, START).Some?
      ensures ok ==> Run(text, START) == Some(state.nodes) && Stored(firstPass, cells, state.nodes, final, -1)
    {
      hide IsPath, Step, Stored, Filled, Finish, Reaches, Balanced, Buffered, HasNames;
      var v := Go;
      while v == Go
        invariant firstPass == old(firstPass) && final == old(final)
        invariant Machine.Wf(text, state) && Run(text, state) == Run(text, START) && (v != Fail ==> Valid(text))
        invariant v == Stop ==> Step(text, state) == Accept
        invariant v == Fail ==> Step(text, state) == Reject
        decreases v == Go, |text| - state.ptr, Rank(state)
      {
        v := Turn(text);
      }
      ok := v == Stop;
      if ok {
        AcceptReaches(text, state);
        assert BusyAt(state) == -1;
      }
    }

    /** Both passes over a text, with a byte order mark skipped. The cells of an accepted text hold exactly the
        machine's nodes, each in an allocation of exactly its size. */
    method ParseEx(input: bytes) returns (ok: bool)
      modifies this
      ensures ok == Parse(input).Some?
      ensures ok ==> Holds(cells, Run(StripBom(input), START).value) && CellTree(cells, 0) == Parse(input).value
    {
      var text := StripBom(input);
      firstPass := true;
      Begin();
      cells := [];
      ok := Pass(text);
      if ok {
        ghost var f := state.nodes;
        firstPass := false;
        final := f;
        Begin();
        SecondPassReady(text, cells, f);
        ok := Pass(text);
        AllHeld(cells, f);
        TreeHeld(cells, f, 0);
      }
    }

    method Begin()
      modifies this`ptr, this`top, this`flags, this`taken, this`stringLength, this`tally, this`state
      ensures state == START && Control() && taken == 0
    {
      ptr, top, flags, taken, stringLength, tally := 0, -1, SEEK_VALUE, 0, 0, Tally(0, 0, 0.0);
      state := START;
    }
  }

  /** A cell of a finished tree is its node: children, names, octets and scalars, in allocations of just their sizes. */
  ghost predicate Holds(cells: seq<Cell>, nodes: seq<Node>) {
    && |cells| == |nodes|
    && forall i | 0 <= i < |nodes| ::
         var c, n := cells[i], nodes[i];
         && c.kind == n.kind && c.parent == n.parent && c.integer == n.integer && c.dbl == n.dbl
             && c.boolean == n.boolean
         && c.length == Length(n)
         && (IsContainer(n.kind) ==> c.values == n.children)
         && (n.kind == ObjectKind ==> |c.names| == |n.names| && NamesAt(c.names, n.names) && c.keys == Packed(n.names))
         && (n.kind == StringKind ==> c.str == n.str + [0])
  }

  lemma AllHeld(cells: seq<Cell>, f: seq<Node>)
    requires Stored(false, cells, f, f, -1) && HasNames(f)
    ensures Holds(cells, f)
  {
    forall i | 0 <= i < |f|
      ensures IsContainer(f[i].kind) ==> cells[i].values == f[i].children
      ensures f[i].kind == ObjectKind ==> cells[i].keys == Packed(f[i].names)
    {
      assert Filled(cells[i], f[i], f[i], false);
      if IsContainer(f[i].kind) {
        assert cells[i].values == cells[i].values[..|f[i].children|];
      }
      if f[i].kind == ObjectKind {
        assert cells[i].keys == cells[i].keys[..cells[i].keyAt];
      }
    }
  }

  /** The value a reader of the cells finds at cell i: children through values, names through their places in keys. */
  function CellTree(cells: seq<Cell>, i: nat): Value
    decreases |cells| - i, 1, 0
  {
    if i >= |cells| then Null
    else
      var c := cells[i];
      match c.kind
      case ObjectKind => Obj(CellEntries(cells, i, 0))
      case ArrayKind => Arr(CellItems(cells, i, 0))
      case IntegerKind => Integer(c.integer)
      case DoubleKind => Double(c.dbl)
      case StringKind => Str(if c.length <= |c.str| then c.str[..c.length] else [])
      case BooleanKind => Boolean(c.boolean)
      case NullKind => Null
  }

  function CellItems(cells: seq<Cell>, i: nat, k: nat): seq<Value>
    requires i < |cells|
    decreases |cells| - i, 0, |cells[i].values| - k
  {
    var c := cells[i];
    if k >= |c.values| then []
    else [if i < c.values[k] then CellTree(cells, c.values[k]) else Null] + CellItems(cells, i, k + 1)
  }

  function CellEntries(cells: seq<Cell>, i: nat, k: nat): seq<Entry>
    requires i < |cells|
    decreases |cells| - i, 0, |cells[i].values| - k
  {
    var c := cells[i];
    if k >= |c.values| || k >= |c.names| then []
    else
      var (at, length) := c.names[k];
      [Entry(if at + length <= |c.keys| then c.keys[at..at + length] else [],
             if i < c.values[k] then CellTree(cells, c.values[k]) else Null)] + CellEntries(cells, i, k + 1)
  }

  /** Cells that hold the nodes read as the same tree. */
  lemma {:induction false} TreeHeld(cells: seq<Cell>, nodes: seq<Node>, i: nat)
    requires Holds(cells, nodes)
    ensures CellTree(cells, i) == TreeOf(nodes, i)
    decreases |cells| - i, 1, 0
  {
    if i < |cells| {
      var c, n := cells[i], nodes[i];
      match c.kind
      case ObjectKind => EntriesHeld(cells, nodes, i, 0);
      case ArrayKind => ItemsHeld(cells, nodes, i, 0);
      case StringKind => assert (n.str + [0])[..|n.str|] == n.str;
      case _ =>
    }
  }

  lemma {:induction false} ItemsHeld(cells: seq<Cell>, nodes: seq<Node>, i: nat, k: nat)
    requires Holds(cells, nodes) && i < |cells| && IsContainer(nodes[i].kind) && k <= |nodes[i].children|
    ensures CellItems(cells, i, k) == TreesOf(nodes, i, nodes[i].children[k..])
    decreases |cells| - i, 0, |nodes[i].children| - k
  {
    var kids := nodes[i].children;
    if k < |kids| {
      if i < kids[k] {
        TreeHeld(cells, nodes, kids[k]);
      }
      ItemsHeld(cells, nodes, i, k + 1);
      assert kids[k..][1..] == kids[k + 1..];
    }
  }

  lemma {:induction false} EntriesHeld(cells: seq<Cell>, nodes: seq<Node>, i: nat, k: nat)
    requires Holds(cells, nodes) && i < |cells| == |nodes| && nodes[i].kind == ObjectKind && k <= |nodes[i].children|
      && k <= |nodes[i].names|
    ensures CellEntries(cells, i, k) == EntriesOf(nodes, i, nodes[i].names[k..], nodes[i].children[k..])
    decreases |cells| - i, 0, |nodes[i].children| - k
  {
    hide Holds, NamesAt, Packed;
    var kids, names := nodes[i].children, nodes[i].names;
    CellLists(cells, nodes, i);
    if k < |kids| && k < |names| {
      CellName(cells, nodes, i, k);
      if i < kids[k] {
        TreeHeld(cells, nodes, kids[k]);
      }
      EntriesHeld(cells, nodes, i, k + 1);
      assert kids[k..][1..] == kids[k + 1..] && names[k..][1..] == names[k + 1..];
    }
  }

  lemma CellLists(cells: seq<Cell>, nodes: seq<Node>, i: nat)
    requires Holds(cells, nodes) && i < |nodes| && nodes[i].kind == ObjectKind
    ensures i < |cells| && cells[i].values == nodes[i].children && |cells[i].names| == |nodes[i].names|
  {
  }

  lemma CellName(cells: seq<Cell>, nodes: seq<Node>, i: nat, k: nat)
    requires Holds(cells, nodes) && i < |nodes| && nodes[i].kind == ObjectKind && k < |nodes[i].names|
    ensures i < |cells| && k < |cells[i].names|
    ensures var (at, length) := cells[i].names[k];
            at + length <= |cells[i].keys| && cells[i].keys[at..at + length] == nodes[i].names[k]
  {
    PackedAt(nodes[i].names, k);
  }

  /** Where a packed name lies, that name is read. */
  lemma PackedAt(names: seq<bytes>, k: nat)
    requires k < |names|
    ensures var at := |Packed(names[..k])|;
            at + |names[k]| < |Packed(names)| && Packed(names)[at..at + |names[k]|] == names[k]
  {
    NameFits(names[..k], names);
    var p := Packed(names[..k]) + names[k] + [0];
    assert Packed(names)[..|p|] == p;
    assert p[|Packed(names[..k])|..|Packed(names[..k])| + |names[k]|] == names[k];
    assert Packed(names)[|Packed(names[..k])|..|Packed(names[..k])| + |names[k]|]
        == p[|Packed(names[..k])|..|Packed(names[..k])| + |names[k]|];
  }

  /** The counts of the first pass are what the second pass starts from. */
  lemma SecondPassReady(text: bytes, cells: seq<Cell>, f: seq<Node>)
    requires Run(text, START) == Some(f) && Stored(true, cells, f, [], -1)
    ensures Machine.Wf(text, START) && Stored(false, cells, [], f, -1) && HasNames(f) && Balanced(START)
  {
    RunBalanced(text, START, f);
  }

  lemma SeekShape(text: bytes, s: State)
    requires Machine.Wf(text, s) && s.mode.Seek?
    ensures var b := Peek(text, s.ptr);
            Step(text, s) ==
              if IsSpace(b) then Next(s.(ptr := s.ptr + 1))
              else if b == CLOSE_BRACKET then
                if s.path != [] && TopKind(s) == ArrayKind then Next(Finish(s, s.ptr + 1)) else Reject
              else if s.mode.comma then
                if b == COMMA then Next(s.(ptr := s.ptr + 1, mode := Seek(false, false))) else Reject
              else if s.mode.colon then
                if b == COLON then Next(s.(ptr := s.ptr + 1, mode := Seek(false, false))) else Reject
              else Step(text, s)
  {
    hide IsPath, Finish, Push;
  }

  lemma ValueShape(text: bytes, s: State)
    requires Machine.Wf(text, s) && s.mode == Seek(false, false)
    requires var b := Peek(text, s.ptr); !IsSpace(b) && b != CLOSE_BRACKET
    ensures var b := Peek(text, s.ptr);
            Step(text, s) ==
              if b == OPEN_BRACE then Next(Push(s, Fresh(ObjectKind)).(ptr := s.ptr + 1, mode := InObject(false)))
              else if b == OPEN_BRACKET
                  then Next(Push(s, Fresh(ArrayKind)).(ptr := s.ptr + 1, mode := Seek(false, false)))
              else if b == QUOTE then Next(Push(s, Fresh(StringKind)).(ptr := s.ptr + 1, mode := InString(false, [])))
              else if b == LOWER_T then WordStep(text, s, TRUE, BooleanKind, 1)
              else if b == LOWER_F then WordStep(text, s, FALSE, BooleanKind, 0)
              else if b == LOWER_N then WordStep(text, s, NULL, NullKind, 0)
              else if b == MINUS || IsDigit(b) then
                Next(Push(s, Fresh(IntegerKind)).(ptr := if b == MINUS then s.ptr + 1 else s.ptr,
                                                  mode := InNumber(FRESH_NUMBER.(negative := b == MINUS))))
              else Reject
  {
    hide IsPath, Finish, WordStep;
  }

  lemma ObjectShape(text: bytes, s: State)
    requires Machine.Wf(text, s) && s.mode.InObject?
    ensures s.path != []
    ensures var b := Peek(text, s.ptr);
            Step(text, s) ==
              if IsSpace(b) then Next(s.(ptr := s.ptr + 1))
              else if b == QUOTE && !s.mode.comma then Next(s.(ptr := s.ptr + 1, mode := InString(false, [])))
              else if b == CLOSE_BRACE then Next(Finish(s, s.ptr + 1))
              else if b == COMMA && s.mode.comma then Next(s.(ptr := s.ptr + 1, mode := InObject(false)))
              else Reject
  {
    hide IsPath, Finish;
  }

  lemma NumberStored(cells: seq<Cell>, s: State, m: State, f: seq<Node>, n: Node)
    requires Fits(s) && s.mode == Seek(false, false) && Rescaled(Fresh(IntegerKind), n) && m.nodes == Push(s, n).nodes
    requires |s.nodes| < |f| && Grows(m.nodes[|s.nodes|], f[|s.nodes|])
    requires Stored(false, cells, s.nodes + [Push(s, Fresh(IntegerKind)).nodes[|s.nodes|].(kind := f[|s.nodes|].kind)],
      f, |s.nodes|)
    ensures Stored(false, cells, m.nodes, f, -1)
  {
    hide IsPath;
    var k := s.nodes + [Push(s, Fresh(IntegerKind)).nodes[|s.nodes|].(kind := f[|s.nodes|].kind)];
    forall i | 0 <= i < |m.nodes| ensures Filled(cells[i], m.nodes[i], f[i], false) {
      assert Filled(cells[i], k[i], f[i], i == |s.nodes|);
    }
  }

  /** From where a number is due, the machine reaches the end of the number with it joined to its parent. */
  lemma NumberAhead(text: bytes, s: State, f: seq<Node>) returns (n: Node, e: State)
    requires Machine.Wf(text, s) && s.mode == Seek(false, false) && Run(text, s) == Some(f) && Balanced(s)
    requires s.ptr < |text| && (IsDigit(text[s.ptr]) || text[s.ptr] == MINUS)
    ensures Rescaled(Fresh(IntegerKind), n)
    ensures e == Finish(Push(s, n).(decimal := e.decimal), e.ptr)
    ensures s.ptr < e.ptr <= |text| && (forall i | s.ptr <= i < e.ptr :: IsNumberChar(text[i]))
    ensures !IsNumberChar(Peek(text, e.ptr)) && Machine.Wf(text, e) && Run(text, e) == Some(f)
    ensures Reaches(e, f) && Balanced(e) && Turned(text, s, e, Go)
  {
    hide IsPath, Step, Finish, Balanced, Reaches, Run;
    var t := NumberBegins(text, s);
    Advance(text, s, t, false, f);
    Pushed(s, Fresh(IntegerKind), t);
    var m;
    m, e := NumberSkip(text, t, f);
    n := m.(parent := -1);
    Pushed(s, n, Push(s, n));
    assert SetTop(t, m).nodes == Push(s, n).nodes;
    assert t.path == Push(s, n).path;
    FinishIgnores(SetTop(t, m).(decimal := e.decimal), Push(s, n).(decimal := e.decimal), e.ptr);
    RunReaches(text, e, f);
    if e.ptr == s.ptr {
      assert false;
    }
  }

  lemma NumberBegins(text: bytes, s: State) returns (t: State)
    requires Machine.Wf(text, s) && s.mode == Seek(false, false)
    requires s.ptr < |text| && (IsDigit(text[s.ptr]) || text[s.ptr] == MINUS)
    ensures Step(text, s) == Next(t) && t.mode.InNumber? && t.path == Push(s, Fresh(IntegerKind)).path
    ensures t.nodes == Push(s, Fresh(IntegerKind)).nodes && s.ptr <= t.ptr <= s.ptr + 1
  {
    hide IsPath;
    t := Step(text, s).s;
  }

  lemma DigitShape(text: bytes, s: State)
    requires Machine.Wf(text, s) && s.mode.InNumber? && s.ptr < |text| && IsDigit(text[s.ptr])
    ensures var d := text[s.ptr] - ZERO;
            var q := s.mode.num;
            var n := s.nodes[Top(s)];
            Step(text, s) ==
              if q.expo then
                Next(SetTop(s, n).(ptr := s.ptr + 1,
                    mode := InNumber(q.(digits := q.digits + 1, expoSign := true, e := q.e * 10 + d))))
              else if n.kind == IntegerKind then Step(text, s)
              else if s.decimal then
                Next(SetTop(s, n).(ptr := s.ptr + 1,
                    mode := InNumber(q.(digits := q.digits + 1, fraction := q.fraction * 10.0 + d as real))))
              else Next(SetTop(s, n.(dbl := n.dbl * 10.0 + d as real)).(ptr := s.ptr + 1,
                  mode := InNumber(q.(digits := q.digits + 1))))
  {
    hide IsPath, Finish, WouldOverflow;
    assert Top(s) < |s.nodes|;
    assert s.nodes[Top(s) := s.nodes[Top(s)]] == s.nodes;
  }

  lemma IntegerDigitShape(text: bytes, s: State)
    requires Machine.Wf(text, s) && s.mode.InNumber? && s.ptr < |text| && IsDigit(text[s.ptr])
    requires TopKind(s) == IntegerKind && !s.mode.num.expo
    ensures var d := text[s.ptr] - ZERO;
            var q := s.mode.num;
            var n := s.nodes[Top(s)];
            var zero := q.digits == 0 && d == 0;
            Step(text, s) ==
              if q.zero then Reject
              else if WouldOverflow(n.integer, d) then Next(SetTop(s, AsDouble(n)).(mode := InNumber(q.(zero := zero))))
              else Next(SetTop(s, n.(integer := n.integer * 10 + d))
                        .(ptr := s.ptr + 1, mode := InNumber(q.(zero := zero, digits := q.digits + 1))))
  {
    hide IsPath, Finish, WouldOverflow;
    assert Top(s) < |s.nodes|;
  }

  /** A digit changes the cell as it changes the node. */
  lemma CountedDigit(n: Node, d: nat)
    requires IsNumeric(n.kind)
    ensures Counted(AsDouble(n)) == Counted(n).(kind := DoubleKind, dbl := n.integer as real)
    ensures Counted(n.(integer := n.integer * 10 + d)) == Counted(n).(integer := n.integer * 10 + d)
    ensures Counted(n).integer == n.integer
  {
  }

  lemma WordShape(text: bytes, s: State, word: bytes, kind: Kind, boolean: int)
    requires Machine.Wf(text, s) && s.mode == Seek(false, false) && word != [] && !IsContainer(kind) && !IsNumeric(kind)
    ensures WordStep(text, s, word, kind, boolean)
         == if Has(text, s.ptr, word) then Next(Finish(Push(s, Fresh(kind).(boolean := boolean)), s.ptr + |word|))
             else Reject
  {
  }

  lemma Fails(text: bytes, s: State)
    requires Machine.Wf(text, s) && Step(text, s) == Reject
    ensures Turned(text, s, s, Fail)
  {
  }

  lemma WordRoom(m: State, f: seq<Node>)
    requires IsPath(m.path, m.nodes) && m.path != [] && |m.nodes| <= |f|
    requires forall i | 0 <= i < |m.nodes| :: Grows(m.nodes[i], f[i])
    ensures var n, k := m.nodes[Top(m)], f[Top(m)]; n.kind == k.kind && n.parent == k.parent && n.boolean == k.boolean
  {
    assert Top(m) < |m.nodes|;
    assert Grows(m.nodes[Top(m)], f[Top(m)]);
  }

  /** Setting the truth value of the cell just taken leaves the cells in step with the machine. */
  lemma WordStored(first: bool, cells: seq<Cell>, s: State, m: State, f: seq<Node>, kind: Kind, boolean: int)
    requires kind == BooleanKind || (kind == NullKind && boolean == 0)
    requires m.path != [] && Top(m) == |s.nodes| && IsPath(m.path, m.nodes)
    requires exists parent :: m.nodes == s.nodes + [Fresh(kind).(boolean := boolean, parent := parent)]
    requires Stored(first, cells, s.nodes + [m.nodes[Top(m)].(boolean := 0)], f, Top(m))
    requires !first ==> Top(m) < |f| && f[Top(m)].boolean == boolean
    ensures Top(m) < |cells|
    ensures Stored(first, if kind == BooleanKind then cells[Top(m) := cells[Top(m)].(boolean := boolean)] else cells,
      m.nodes, f, -1)
  {
    var nodes := s.nodes + [m.nodes[Top(m)].(boolean := 0)];
    var c := cells[Top(m)];
    if !first {
      assert Filled(c, nodes[Top(m)], f[Top(m)], true);
    }
    StoredUpdate(first, cells, nodes, f, Top(m), Top(m), c.(boolean := boolean), m.nodes[Top(m)], -1);
    assert nodes[Top(m) := m.nodes[Top(m)]] == m.nodes;
    if kind == NullKind {
      assert c.boolean == 0;
      assert cells[Top(m) := c.(boolean := boolean)] == cells;
    }
  }

  /** Push, spelled out. */
  lemma Pushed(s: State, n: Node, t: State)
    requires Fits(s) && s.mode == Seek(false, false)
    requires t.path == Push(s, n).path && t.nodes == Push(s, n).nodes
    ensures var parent: int := if s.path == [] then -1 else Top(s);
            && t.path != [] && Top(t) == |s.nodes| && t.nodes == s.nodes + [n.(parent := parent)]
            && Push(s, n).nodes[|s.nodes|] == n.(parent := parent) && BusyAt(s) == -1
  {
    hide IsPath;
  }

  /** The second pass meets a node of the kind it was counted as. */
  lemma PushedRoom(s: State, kind: Kind, t: State, f: seq<Node>)
    requires Fits(s) && s.mode == Seek(false, false) && Fits(t) && Reaches(t, f)
    requires t.path == Push(s, Fresh(kind)).path && t.nodes == Push(s, Fresh(kind)).nodes && !t.mode.InNumber?
    ensures |s.nodes| < |f| && f[|s.nodes|].kind == kind && f[|s.nodes|].parent == if s.path == [] then -1 else Top(s)
  {
    hide IsPath;
    Pushed(s, Fresh(kind), t);
    if !Busy(t, |s.nodes|) {
      assert Grows(t.nodes[|s.nodes|], f[|s.nodes|]);
    }
  }

  lemma Opened(first: bool, cells: seq<Cell>, t: State, f: seq<Node>)
    requires Fits(t) && t.path != [] && Stored(first, cells, t.nodes, f, Top(t)) && !t.mode.InNumber?
    requires t.mode.InString? ==> t.mode.buf == []
    requires !t.mode.InString? ==> TopKind(t) != StringKind
    ensures Stored(first, cells, t.nodes, f, BusyAt(t))
    ensures !first ==> Buffered(cells, t)
  {
    hide IsPath;
    assert Top(t) < |t.nodes|;
    if !first {
      assert Filled(cells[Top(t)], t.nodes[Top(t)], f[Top(t)], true);
    }
  }

  lemma Moved(first: bool, cells: seq<Cell>, s: State, t: State, f: seq<Node>)
    requires Fits(s) && Fits(t) && !s.mode.InString? && !t.mode.InNumber? && (!first ==> !s.mode.InNumber?)
    requires Stored(first, cells, s.nodes, f, BusyAt(s)) && t.path == s.path && t.nodes == s.nodes
    requires t.mode.InString? ==> t.mode.buf == []
    ensures Stored(first, cells, t.nodes, f, BusyAt(t))
    ensures !first ==> Buffered(cells, t)
  {
    hide IsPath;
    if !first {
      assert forall i | 0 <= i < |t.nodes| :: Filled(cells[i], t.nodes[i], f[i], i == BusyAt(t)) by {
        forall i | 0 <= i < |t.nodes| ensures Filled(cells[i], t.nodes[i], f[i], i == BusyAt(t)) {
          assert Filled(cells[i], s.nodes[i], f[i], i == BusyAt(s));
        }
      }
      if t.mode.InString? {
        assert Top(t) < |t.nodes|;
        assert Filled(cells[Top(t)], t.nodes[Top(t)], f[Top(t)], true);
      }
    }
  }

  lemma LeafFits(s: State)
    requires Fits(s) && (s.mode.InString? || s.mode.InNumber?)
    ensures s.path != [] && BusyAt(s) == Top(s)
  {
  }

  lemma StringSteps(text: bytes, s: State)
    requires Machine.Wf(text, s) && s.mode.InString?
    ensures var b := Peek(text, s.ptr);
            Step(text, s) == if b == 0 then Reject
              else if s.mode.escaped then
                var e := Unescape(text, s.ptr);
                if e.None? then Reject else Next(s.(ptr := e.value.1, mode := InString(false, s.mode.buf + e.value.0)))
              else if b == BACKSLASH then Next(s.(ptr := s.ptr + 1, mode := InString(true, s.mode.buf)))
              else if b != QUOTE then Next(s.(ptr := s.ptr + 1, mode := InString(false, s.mode.buf + [b])))
              else Step(text, s)
  {
    hide IsPath, Finish;
  }

  lemma TopCell(first: bool, cells: seq<Cell>, s: State, f: seq<Node>)
    requires s.path != [] && Fits(s) && Stored(first, cells, s.nodes, f, BusyAt(s))
    ensures Top(s) < |s.nodes| && Top(s) < |cells| && cells[Top(s)].kind == TopKind(s)
    ensures first ==> cells[Top(s)] == Counted(s.nodes[Top(s)])
  {
    assert Top(s) < |s.nodes|;
    if !first {
      assert Filled(cells[Top(s)], s.nodes[Top(s)], f[Top(s)], Top(s) == BusyAt(s));
    }
  }

  lemma FinishKeeps(s: State, ptr: nat)
    requires s.path != [] && IsPath(s.path, s.nodes)
    ensures |Finish(s, ptr).nodes| == |s.nodes| && (Finish(s, ptr).mode.Done? || !Finish(s, ptr).mode.InString?)
    ensures !Finish(s, ptr).mode.InNumber?
  {
  }

  /** What has been read of a string, and a NUL after it, fit the allocation. */
  lemma RoomForString(cells: seq<Cell>, t: State, f: seq<Node>)
    requires Fits(t) && t.mode.InString? && Stored(false, cells, t.nodes, f, Top(t)) && Reaches(t, f)
    ensures Top(t) < |cells|
    ensures var c := cells[Top(t)];
            if TopKind(t) == StringKind then c.kind == StringKind && |t.mode.buf| < |c.str|
            else c.kind == ObjectKind && c.keyAt + |t.mode.buf| < |c.keys|
  {
    hide IsPath;
    assert Top(t) < |t.nodes|;
    var n, m := t.nodes[Top(t)], f[Top(t)];
    assert Filled(cells[Top(t)], n, m, true);
    if n.kind != StringKind {
      assert Grows(n, m);
      NameFits(n.names, m.names);
    }
  }

  lemma BytesAdded(cells: seq<Cell>, s: State, t: State, f: seq<Node>, d: Cell)
    requires Fits(s) && s.mode.InString? && Fits(t) && t.path == s.path && t.nodes == s.nodes && t.mode.InString?
    requires s.mode.buf <= t.mode.buf && Stored(false, cells, s.nodes, f, Top(s)) && Buffered(cells, s) && Reaches(t, f)
    requires Top(s) < |cells|
    requires var c, bs := cells[Top(s)], t.mode.buf[|s.mode.buf|..];
             if c.kind == StringKind then
               |t.mode.buf| < |c.str| && d == c.(str := c.str[..|s.mode.buf|] + bs + c.str[|t.mode.buf|..])
             else
               var at := c.keyAt + |s.mode.buf|;
               at + |bs| < |c.keys| && d == c.(keys := c.keys[..at] + bs + c.keys[at + |bs|..])
    ensures Filled(d, s.nodes[Top(s)], f[Top(s)], true) && Buffered(cells[Top(s) := d], t)
  {
    hide IsPath, Reaches;
    assert Top(s) < |s.nodes|;
    var c, bs := cells[Top(s)], t.mode.buf[|s.mode.buf|..];
    assert Filled(c, s.nodes[Top(s)], f[Top(s)], true);
    assert s.mode.buf + bs == t.mode.buf;
    if c.kind == StringKind {
      assert d.str[..|t.mode.buf|] == c.str[..|s.mode.buf|] + bs;
    } else {
      assert d.keys[..d.keyAt] == c.keys[..c.keyAt];
      assert d.keys[d.keyAt..d.keyAt + |t.mode.buf|] == c.keys[c.keyAt..c.keyAt + |s.mode.buf|] + bs;
    }
  }

  lemma NamePlaced(c: Cell, n: Node, f: Node, name: bytes)
    requires n.kind == ObjectKind && |n.names| == |n.children| && |f.names| == |f.children| && Filled(c, n, f, true)
    requires Grows(n.(names := n.names + [name]), f)
    requires c.keyAt + |name| <= |c.keys| && c.keys[c.keyAt..c.keyAt + |name|] == name
    ensures c.keyAt + |name| < |c.keys| && c.length < |c.names|
    ensures Filled(c.(keys := c.keys[c.keyAt + |name| := 0], names := c.names[c.length := (c.keyAt, |name|)],
                      keyAt := c.keyAt + |name| + 1), n.(names := n.names + [name]), f, false)
  {
    hide Packed, NamesAt;
    NameFits(n.names, f.names);
    assert f.names[|n.names|] == (n.names + [name])[|n.names|];
    KeysPlaced(c.keys, c.keyAt, n.names, name);
    EntryPlaced(c.names, n.names, name);
  }

  /** The octets of the name and its NUL, packed behind those of the names before. */
  lemma KeysPlaced(keys: bytes, at: nat, names: seq<bytes>, name: bytes)
    requires at + |name| < |keys| && keys[..at] == Packed(names) && keys[at..at + |name|] == name
    ensures keys[at + |name| := 0][..at + |name| + 1] == Packed(names + [name])
    ensures |Packed(names + [name])| == at + |name| + 1
  {
    hide Packed;
    PackedPush(names, name);
    assert keys[at + |name| := 0][..at + |name| + 1] == keys[..at] + keys[at..at + |name|] + [0];
  }

  lemma EntryPlaced(entries: seq<(nat, nat)>, names: seq<bytes>, name: bytes)
    requires NamesAt(entries, names) && |names| < |entries|
    ensures NamesAt(entries[|names| := (|Packed(names)|, |name|)], names + [name])
  {
    hide Packed;
    var more := names + [name];
    forall k | 0 <= k < |more|
        ensures entries[|names| := (|Packed(names)|, |name|)][k] == (|Packed(more[..k])|, |more[k]|) {
      assert more[..k] == names[..k];
      assert names[..|names|] == names;
    }
  }

  /** The allocation of the parent has a place for one more child. */
  lemma ChildFits(c: Cell, s: State, t: State, f: seq<Node>)
    requires |s.path| > 1 && IsPath(s.path, s.nodes) && t == Finish(s, t.ptr) && Reaches(t, f)
    requires var p := s.path[|s.path| - 2]; Filled(c, s.nodes[p], f[p], false)
    ensures var p := s.path[|s.path| - 2];
            && c.length < |c.values|
            && Filled(c.(values := c.values[c.length := Top(s)], length := c.length + 1), t.nodes[p], f[p], false)
  {
    var p := s.path[|s.path| - 2];
    assert Grows(t.nodes[p], f[p]);
    var values := c.values[c.length := Top(s)];
    assert values[..c.length + 1] == c.values[..c.length] + [Top(s) as int];
  }

  /** Finish, spelled out. */
  lemma FinishShape(s: State, ptr: nat)
    requires s.path != [] && IsPath(s.path, s.nodes)
    ensures var t := Finish(s, ptr);
            && t.ptr == ptr && t.decimal == s.decimal && Fits(t)
            && if |s.path| == 1 then t.path == s.path && t.nodes == s.nodes && t.mode == Done
               else
                 var p := s.path[|s.path| - 2];
                 && p < |s.nodes| && IsContainer(s.nodes[p].kind) && t.path != [] && Top(t) == p
                 && t.mode == (if s.nodes[p].kind == ArrayKind then Seek(true, false) else InObject(true))
                 && t.nodes == s.nodes[p := s.nodes[p].(children := s.nodes[p].children + [Top(s)])]
  {
  }

  /** The stored parent links are those of the path. */
  lemma CellLinks(first: bool, cells: seq<Cell>, s: State, f: seq<Node>)
    requires s.path != [] && IsPath(s.path, s.nodes) && Stored(first, cells, s.nodes, f, -1)
    ensures Top(s) < |cells|
    ensures cells[Top(s)].parent == if |s.path| == 1 then -1 else s.path[|s.path| - 2]
    ensures |s.path| > 1 ==>
              var p := s.path[|s.path| - 2];
              p < |s.nodes| && p < |cells| && cells[p].kind == s.nodes[p].kind
              && if first then cells[p] == Counted(s.nodes[p]) else p < |f| && Filled(cells[p], s.nodes[p], f[p], false)
  {
    assert Top(s) < |s.nodes|;
    if !first {
      assert Filled(cells[Top(s)], s.nodes[Top(s)], f[Top(s)], false);
    }
  }

  lemma CellGains(first: bool, c: Cell, d: Cell, s: State, t: State, f: seq<Node>)
    requires |s.path| > 1 && IsPath(s.path, s.nodes) && t == Finish(s, t.ptr)
    requires var p := s.path[|s.path| - 2];
             if first then c == Counted(s.nodes[p]) && d == c.(length := c.length + 1)
             else p < |f| && Filled(c, s.nodes[p], f[p], false) && c.length < |c.values|
                  && d == c.(values := c.values[c.length := Top(s)], length := c.length + 1)
                  && Filled(d, t.nodes[p], f[p], false)
    ensures var p := s.path[|s.path| - 2];
            if first then d == Counted(t.nodes[p]) else Filled(d, t.nodes[p], f[p], false)
  {
  }

  /** A name just read is the next name of the final node; until then names and children were as many. */
  lemma NameGrows(s: State, t: State, f: seq<Node>)
    requires Fits(s) && s.mode.InString? && TopKind(s) == ObjectKind && Balanced(s) && Fits(t) && Reaches(t, f)
    requires var n := s.nodes[Top(s)];
             t.path == s.path && t.mode.Seek? && t.nodes == s.nodes[Top(s) := n.(names := n.names + [s.mode.buf])]
    ensures var n := s.nodes[Top(s)];
            |n.names| == |n.children| && Top(s) < |f| && Grows(n.(names := n.names + [s.mode.buf]), f[Top(s)])
  {
    hide IsPath;
    assert Top(s) < |s.nodes|;
    assert Awaited(s, Top(s)) == 0;
    assert !Busy(t, Top(s));
    assert Grows(t.nodes[Top(s)], f[Top(s)]);
  }
}
