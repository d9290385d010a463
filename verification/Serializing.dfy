/** json_serialize_ex and json_measure_ex: the same walk twice, once writing octets and once adding up sizes. */
module Serializing {
  import opened Bytes
  import opened Values
  import opened Printing
  import opened Walking

  /** The first pos octets of the buffer are those printed so far. */
  ghost predicate Printed(buf: array<byte>, pos: nat, out: bytes)
    reads buf
  {
    pos == |out| <= buf.Length && buf[..pos] == out
  }

  /** *buf++ = b. */
  method Put(buf: array<byte>, pos: nat, b: byte, ghost out: bytes) returns (end: nat)
    requires Printed(buf, pos, out) && pos < buf.Length
    modifies buf
    ensures end == pos + 1 && Printed(buf, end, out + [b])
  {
    buf[pos] := b;
    end := pos + 1;
    assert buf[..end] == buf[..pos] + [b];
  }

  /** memcpy. */
  method Copy(buf: array<byte>, pos: nat, s: bytes, ghost out: bytes) returns (end: nat)
    requires Printed(buf, pos, out) && pos + |s| <= buf.Length
    modifies buf
    ensures end == pos + |s| && Printed(buf, end, out + s)
  {
    end := pos;
    for k := 0 to |s|
      invariant Printed(buf, end, out + s[..k])
    {
      end := Put(buf, end, s[k], out + s[..k]);
      assert out + s[..k] + [s[k]] == out + s[..k + 1];
    }
    assert s[..|s|] == s;
  }

  /** serialize_string. */
  method SerializeString(buf: array<byte>, pos: nat, s: bytes, ghost out: bytes) returns (end: nat)
    requires Printed(buf, pos, out) && pos + |Escaped(s)| <= buf.Length
    modifies buf
    ensures end == pos + |Escaped(s)| && Printed(buf, end, out + Escaped(s))
  {
    hide Escaped;
    end := pos;
    EscapedNothing();
    assert s[..0] == [] && out + [] == out;
    for k := 0 to |s|
      invariant Printed(buf, end, out + Escaped(s[..k]))
    {
      EscapedPrefix(s, k + 1);
      EscapedNext(s, k);
      var c := s[k];
      ghost var e := Escaped(s[..k]);
      if c == QUOTE || c == BACKSLASH || c == BACKSPACE || c == FORM_FEED || c == LF || c == CR || c == TAB {
        var d := if c == BACKSPACE then LOWER_B else if c == FORM_FEED then LOWER_F else if c == LF then LOWER_N
                 else if c == CR then LOWER_R else if c == TAB then LOWER_T else c;
        end := PutTwo(buf, end, BACKSLASH, d, out + e);
        assert EscapedByte(c) == [BACKSLASH, d];
        assert out + e + [BACKSLASH, d] == out + (e + [BACKSLASH, d]);
      } else {
        end := Put(buf, end, c, out + e);
        assert EscapedByte(c) == [c];
        assert out + e + [c] == out + (e + [c]);
      }
    }
    assert s[..|s|] == s;
  }

  method PutTwo(buf: array<byte>, pos: nat, a: byte, b: byte, ghost out: bytes) returns (end: nat)
    requires Printed(buf, pos, out) && pos + 2 <= buf.Length
    modifies buf
    ensures end == pos + 2 && Printed(buf, end, out + [a, b])
  {
    end := Put(buf, pos, a, out);
    end := Put(buf, end, b, out + [a]);
    assert out + [a] + [b] == out + [a, b];
  }

  lemma EscapedNothing()
    ensures Escaped([]) == []
  {
  }

  lemma EscapedNext(s: bytes, k: nat)
    requires k < |s|
    ensures Escaped(s[..k + 1]) == Escaped(s[..k]) + EscapedByte(s[k])
  {
    hide EscapedByte;
    assert s[..k + 1][..k] == s[..k];
  }

  lemma {:induction false} EscapedPrefix(s: bytes, k: nat)
    requires k <= |s|
    ensures |Escaped(s[..k])| <= |Escaped(s)|
    decreases |s|
  {
    if k < |s| {
      EscapedPrefix(s[..|s| - 1], k);
      assert s[..|s| - 1][..k] == s[..k];
    } else {
      assert s[..k] == s;
    }
  }

  /** The digits of an integer: room for them is counted first, then they are filled in from the last one. */
  method SerializeInteger(buf: array<byte>, pos: nat, i: int, ghost out: bytes) returns (end: nat)
    requires -INT_MAX <= i <= INT_MAX && Printed(buf, pos, out) && pos + |IntegerText(i)| <= buf.Length
    modifies buf
    ensures end == pos + |IntegerText(i)| && Printed(buf, end, out + IntegerText(i))
  {
    hide Digits;
    if i < 0 {
      end := Put(buf, pos, MINUS, out);
      end := SerializeMagnitude(buf, end, -i, out + [MINUS]);
      assert out + [MINUS] + Digits(-i) == out + ([MINUS] + Digits(-i));
    } else {
      end := SerializeMagnitude(buf, pos, i, out);
    }
  }

  method SerializeMagnitude(buf: array<byte>, pos: nat, n: nat, ghost out: bytes) returns (end: nat)
    requires Printed(buf, pos, out) && pos + |Digits(n)| <= buf.Length
    modifies buf
    ensures end == pos + |Digits(n)| && Printed(buf, end, out + Digits(n))
  {
    hide Digits;
    end := CountDigits(pos, n);
    FillDigits(buf, pos, end, n);
    assert buf[..end] == buf[..pos] + buf[pos..end];
  }

  /** The loop that moves the pointer behind the last digit. */
  method CountDigits(pos: nat, n: nat) returns (end: nat)
    ensures end == pos + |Digits(n)|
  {
    hide Digits;
    var integer := n;
    end := pos + 1;
    while integer >= 10
      invariant integer >= 0 && end - pos + |Digits(integer)| == |Digits(n)| + 1
    {
      OneDigitLess(integer);
      end := end + 1;
      integer := integer / 10;
    }
    OneDigitLess(integer);
  }

  lemma OneDigitLess(n: nat)
    ensures |Digits(n)| == if n < 10 then 1 else |Digits(n / 10)| + 1
  {
  }

  /** The do-while loop that writes the digits backwards. */
  method FillDigits(buf: array<byte>, ghost start: nat, end: nat, n: nat)
    requires start + |Digits(n)| == end <= buf.Length
    modifies buf
    ensures buf[..start] == old(buf[..start]) && buf[start..end] == Digits(n)
  {
    var integer := n;
    var ptr := end;
    var more := true;
    ghost var done: bytes := [];
    while more
      invariant start <= ptr <= end && buf[..start] == old(buf[..start]) && buf[ptr..end] == done
      invariant if more then Digits(integer) + done == Digits(n) else done == Digits(n)
      invariant |done| == end - ptr
      decreases more, integer
    {
      ptr := ptr - 1;
      var d := ZERO + integer % 10;
      buf[ptr] := d;
      assert buf[ptr..end] == [d] + done;
      done := [d] + done;
      integer := integer / 10;
      more := integer > 0;
    }
  }

  // The layout macros

  /** PRINT_NEWLINE. */
  method PrintNewline(buf: array<byte>, pos: nat, o: Options, indent: int, ghost depth: nat, ghost out: bytes)
    returns (end: nat)
    requires Printed(buf, pos, out) && pos + |Newline(o, depth)| <= buf.Length && indent == Indent(o, depth)
    modifies buf
    ensures end == pos + |Newline(o, depth)| && Printed(buf, end, out + Newline(o, depth))
  {
    end := pos;
    if o.mode == MULTILINE {
      ghost var sofar := out + LineEnd(o);
      if o.crlf {
        end := Put(buf, end, CR, out);
        end := Put(buf, end, LF, out + [CR]);
        assert out + [CR] + [LF] == sofar;
      } else {
        end := Put(buf, end, LF, out);
      }
      var i := 0;
      assert sofar + Repeat(IndentChar(o), 0) == sofar;
      while i < indent
        invariant 0 <= i && (indent > 0 ==> i <= indent) && (indent <= 0 ==> i == 0)
        invariant Printed(buf, end, sofar + Repeat(IndentChar(o), i))
        decreases indent - i
      {
        end := Put(buf, end, IndentChar(o), sofar + Repeat(IndentChar(o), i));
        i := i + 1;
        assert sofar + Repeat(IndentChar(o), i) == sofar + Repeat(IndentChar(o), i - 1) + [IndentChar(o)];
      }
      assert Repeat(IndentChar(o), i) == Repeat(IndentChar(o), indent);
      assert sofar + Repeat(IndentChar(o), indent) == out + Newline(o, depth);
    } else {
      assert out + Newline(o, depth) == out;
    }
  }

  method PrintSpace(buf: array<byte>, pos: nat, b: bool, ghost out: bytes) returns (end: nat)
    requires Printed(buf, pos, out) && pos + |Space(b)| <= buf.Length
    modifies buf
    ensures end == pos + |Space(b)| && Printed(buf, end, out + Space(b))
  {
    if b {
      end := Put(buf, pos, SPACE, out);
    } else {
      end := pos;
      assert out + Space(b) == out;
    }
  }

  /** What opens a container, or what separates a child from the one before. */
  method PrintLead(buf: array<byte>, pos: nat, o: Options, indent: int, first: bool, open: byte, ghost v: Value,
                   ghost k: nat, ghost depth: nat, ghost out: bytes) returns (end: nat)
    requires Printed(buf, pos, out) && pos + |Lead(v, k, o, depth)| <= buf.Length && indent == Indent(o, depth + 1)
    requires first == (k == 0) && open == Open(v)
    modifies buf
    ensures end == pos + |Lead(v, k, o, depth)| && Printed(buf, end, out + Lead(v, k, o, depth))
  {
    hide Newline, Space, Lead;
    var flags := GetSerializeFlags(o);
    var c := if first then open else COMMA;
    var space := if first then flags.spacesAroundBrackets else flags.spacesAfterCommas;
    LeadIs(v, k, o, depth);
    end := Put(buf, pos, c, out);
    end := PrintSpace(buf, end, space, out + [c]);
    end := PrintNewline(buf, end, o, indent, depth + 1, out + [c] + Space(space));
    Regroup(out, [c], Space(space), Newline(o, depth + 1));
  }

  lemma LeadIs(v: Value, k: nat, o: Options, depth: nat)
    ensures Lead(v, k, o, depth) ==
      if k == 0 then [Open(v)] + Space(GetSerializeFlags(o).spacesAroundBrackets) + Newline(o, depth + 1)
      else [COMMA] + Space(GetSerializeFlags(o).spacesAfterCommas) + Newline(o, depth + 1)
  {
  }

  lemma Regroup(a: bytes, b: bytes, c: bytes, d: bytes)
    ensures a + b + c + d == a + (b + c + d)
  {
  }

  method PrintTail(buf: array<byte>, pos: nat, o: Options, indent: int, close: byte, ghost v: Value, ghost depth: nat,
                   ghost out: bytes)
    returns (end: nat)
    requires Printed(buf, pos, out) && pos + |Tail(v, o, depth)| <= buf.Length && indent == Indent(o, depth)
      && close == Close(v)
    modifies buf
    ensures end == pos + |Tail(v, o, depth)| && Printed(buf, end, out + Tail(v, o, depth))
  {
    hide Newline;
    var space := GetSerializeFlags(o).spacesAroundBrackets;
    end := PrintNewline(buf, pos, o, indent, depth, out);
    end := PrintSpace(buf, end, space, out + Newline(o, depth));
    end := Put(buf, end, close, out + Newline(o, depth) + Space(space));
    assert out + Newline(o, depth) + Space(space) + [close] == out + (Newline(o, depth) + Space(space) + [close]);
  }

  method PrintQuoted(buf: array<byte>, pos: nat, s: bytes, ghost out: bytes) returns (end: nat)
    requires Printed(buf, pos, out) && pos + |InQuotes(s)| <= buf.Length
    modifies buf
    ensures end == pos + |InQuotes(s)| && Printed(buf, end, out + InQuotes(s))
  {
    end := Put(buf, pos, QUOTE, out);
    end := SerializeString(buf, end, s, out + [QUOTE]);
    end := Put(buf, end, QUOTE, out + [QUOTE] + Escaped(s));
    assert out + [QUOTE] + Escaped(s) + [QUOTE] == out + InQuotes(s);
  }

  method PrintLabel(buf: array<byte>, pos: nat, o: Options, name: bytes, ghost v: Value, ghost k: nat, ghost out: bytes)
    returns (end: nat)
    requires v.Obj? && k < Count(v) && name == v.entries[k].name
    requires Printed(buf, pos, out) && pos + |Label(v, k, o)| <= buf.Length
    modifies buf
    ensures end == pos + |Label(v, k, o)| && Printed(buf, end, out + Label(v, k, o))
  {
    hide InQuotes;
    var space := GetSerializeFlags(o).spacesAfterColons;
    end := PrintQuoted(buf, pos, name, out);
    end := Put(buf, end, COLON, out + InQuotes(name));
    end := PrintSpace(buf, end, space, out + InQuotes(name) + [COLON]);
    assert out + InQuotes(name) + [COLON] + Space(space) == out + (InQuotes(name) + [COLON] + Space(space));
  }

  method PrintScalar(buf: array<byte>, pos: nat, n: Node, o: Options, ghost v: Value, ghost depth: nat,
                     ghost out: bytes) returns (end: nat)
    requires Spells(n, v) && !Container(v) && Printable(v)
    requires Printed(buf, pos, out) && pos + |Print(v, o, depth)| <= buf.Length
    modifies buf
    ensures end == pos + |Print(v, o, depth)| && Printed(buf, end, out + Print(v, o, depth))
  {
    hide IntegerText, InQuotes;
    if n.kind == NullKind {
      end := Copy(buf, pos, NULL, out);
    } else if n.kind == BooleanKind {
      end := Copy(buf, pos, if n.boolean != 0 then TRUE else FALSE, out);
    } else if n.kind == IntegerKind {
      end := SerializeInteger(buf, pos, n.integer, out);
    } else {
      end := PrintQuoted(buf, pos, n.str, out);
    }
  }

  /** The depth that indentation has reached: inside the top as soon as its cursor has moved. */
  ghost function Inside(fs: seq<Frame>): nat {
    if fs == [] then 0 else if fs[|fs| - 1].iter > 0 then |fs| else |fs| - 1
  }

  /** The top of a walk: its frame, and the printable value it stands for. */
  lemma TopRole(root: Node, h: map<Node, Role>, path: seq<Node>, fs: seq<Frame>)
    requires Tree(root, h) && Walk(root, h, path, fs) && path != [] && AllPrintable(h)
    ensures var n, t := path[|path| - 1], fs[|fs| - 1];
            && n in h && t == Frame(h[n].val, n.lengthIterated) && Spells(n, t.val) && Printable(t.val)
            && n.length == |n.children| == (if Container(t.val) then Count(t.val) else 0)
                && n.lengthIterated <= |n.children|
  {
    var n := path[|path| - 1];
    assert Shows(n, h, |path| - 1, fs[|path| - 1]);
    assert Hangs(n, h);
  }

  ghost predicate AllPrintable(h: map<Node, Role>) {
    forall n | n in h :: Printable(h[n].val)
  }

  /** The rest of the print when the top is done with its last piece. */
  lemma AfterUp(fs: seq<Frame>, o: Options)
    requires fs != []
    ensures After(fs, o) == Rest(fs[|fs| - 1].val, fs[|fs| - 1].iter, o, |fs| - 1) + After(fs[..|fs| - 1], o)
  {
  }

  lemma AfterStart(v: Value, o: Options)
    ensures After([Frame(v, 0)], o) == Print(v, o, 0) && After([], o) == []
  {
    assert [Frame(v, 0)][..0] == [];
    assert Rest(v, 0, o, 0) == Print(v, o, 0);
    assert Print(v, o, 0) + [] == Print(v, o, 0);
  }

  /** The three ways a value is done with: at its end, at once if it is empty, at once if it is no container. */
  lemma RestAtEnd(v: Value, k: nat, o: Options, depth: nat)
    ensures Container(v) && Count(v) == 0 && k == 0 ==> Rest(v, k, o, depth) == [Open(v), Close(v)]
    ensures Container(v) && k == Count(v) > 0 ==> Rest(v, k, o, depth) == Tail(v, o, depth)
    ensures !Container(v) ==> Rest(v, k, o, depth) == Print(v, o, depth)
    ensures !Container(v) && Printable(v) ==> Print(v, o, depth) != []
  {
  }

  lemma InsideUp(root: Node, h: map<Node, Role>, path: seq<Node>, fs: seq<Frame>)
    requires Walk(root, h, path, fs) && path != []
    ensures Inside(fs[..|fs| - 1]) == |fs| - 1
  {
    if |path| > 1 {
      assert Leads(path[|path| - 2], path[|path| - 1]);
      assert Shows(path[|path| - 2], h, |path| - 2, fs[|path| - 2]);
    }
  }

  lemma AllQuiet(root: Node, h: map<Node, Role>)
    requires Walk(root, h, [], [])
    ensures AtRest(h)
  {
    forall n | n in h ensures n.lengthIterated == 0 {
      assert !OnPath(n, h, []);
    }
  }

  /** Between two turns: what is printed and what the walk still has to print make up the whole. */
  ghost predicate Ready(buf: array<byte>, pos: nat, root: Node, value: Node?, indent: int, o: Options,
                        h: map<Node, Role>, path: seq<Node>, fs: seq<Frame>, out: bytes, p: bytes)
    reads buf, h.Keys, path
  {
    && Tree(root, h) && AllPrintable(h) && Walk(root, h, path, fs) && |path| == |fs|
    && value == (if path == [] then null else path[|path| - 1])
    && Printed(buf, pos, out) && out + After(fs, o) == p && |p| < buf.Length && indent == Indent(o, Inside(fs))
  }

  /** Leaving a node that needs no cursor: a scalar or an empty container, whose whole print is s. */
  method LeafTurn(buf: array<byte>, pos: nat, root: Node, value: Node, indent: int, o: Options,
                  ghost h: map<Node, Role>, ghost path: seq<Node>, ghost fs: seq<Frame>, ghost out: bytes,
                  ghost p: bytes)
    returns (end: nat, ghost s: bytes)
    requires Ready(buf, pos, root, value, indent, o, h, path, fs, out, p) && value.length == 0
    modifies buf
    ensures Ready(buf, end, root, value.parent, indent, o, h, path[..|path| - 1], fs[..|fs| - 1], out + s, p)
      && pos < end
  {
    hide Tree, Walk, AllPrintable, After, Print, Rest;
    TopRole(root, h, path, fs);
    InsideUp(root, h, path, fs);
    LeaveUntouched(root, h, path, fs);
    ghost var t, d := fs[|fs| - 1], |fs| - 1;
    RestAtEnd(t.val, t.iter, o, d);
    AfterUp(fs, o);
    s := Rest(t.val, t.iter, o, d);
    if value.kind == ArrayKind || value.kind == ObjectKind {
      var open, close := if value.kind == ArrayKind then OPEN_BRACKET else OPEN_BRACE,
                         if value.kind == ArrayKind then CLOSE_BRACKET else CLOSE_BRACE;
      end := Copy(buf, pos, [open, close], out);
    } else {
      end := PrintScalar(buf, pos, value, o, t.val, d, out);
    }
    assert out + s + After(fs[..d], o) == p;
  }

  /** The closing bracket of a container whose children are printed. */
  method EndTurn(buf: array<byte>, pos: nat, root: Node, value: Node, indent: int, o: Options, ghost h: map<Node, Role>,
                 ghost path: seq<Node>, ghost fs: seq<Frame>, ghost out: bytes, ghost p: bytes)
    returns (end: nat, less: int, next: Node?, ghost s: bytes)
    requires Ready(buf, pos, root, value, indent, o, h, path, fs, out, p) && value.lengthIterated == value.length > 0
    modifies buf, value`lengthIterated
    ensures Ready(buf, end, root, next, less, o, h, path[..|path| - 1], fs[..|fs| - 1], out + s, p) && pos < end
  {
    hide Tree, Walk, AllPrintable, After, Print, Rest, Tail;
    TopRole(root, h, path, fs);
    InsideUp(root, h, path, fs);
    ghost var t, d := fs[|fs| - 1], |fs| - 1;
    RestAtEnd(t.val, t.iter, o, d);
    AfterUp(fs, o);
    TailNotEmpty(t.val, o, d);
    s := Tail(t.val, o, d);
    less := indent - o.indentSize;
    end := PrintTail(buf, pos, o, less, if value.kind == ArrayKind then CLOSE_BRACKET else CLOSE_BRACE, t.val, d, out);
    next := Ascend(root, value, h, path, fs);
    assert out + s + After(fs[..d], o) == p;
  }

  /** On to the next child: its layout, its name, and down. */
  method ChildTurn(buf: array<byte>, pos: nat, root: Node, value: Node, indent: int, o: Options,
                   ghost h: map<Node, Role>, ghost path: seq<Node>, ghost fs: seq<Frame>, ghost out: bytes,
                   ghost p: bytes)
    returns (end: nat, more: int, next: Node, ghost s: bytes)
    requires Ready(buf, pos, root, value, indent, o, h, path, fs, out, p) && value.lengthIterated < value.length
    modifies buf, value`lengthIterated
    ensures Container(fs[|fs| - 1].val) && fs[|fs| - 1].iter < Count(fs[|fs| - 1].val)
    ensures Ready(buf, end, root, next, more, o, h, path + [next], Down(fs), out + s, p) && pos < end
  {
    hide Tree, Walk, AllPrintable, After, Print, Rest, Lead, Label, Down;
    TopRole(root, h, path, fs);
    ghost var t, d := fs[|fs| - 1], |fs| - 1;
    AfterDown(fs, o);
    LeadNotEmpty(t.val, t.iter, o, d);
    DownInside(fs);
    ghost var lead, tag := Lead(t.val, t.iter, o, d), Label(t.val, t.iter, o);
    more := if value.lengthIterated == 0 then indent + o.indentSize else indent;
    assert more == Indent(o, d + 1);
    end := PrintLead(buf, pos, o, more, value.lengthIterated == 0,
                     if value.kind == ArrayKind then OPEN_BRACKET else OPEN_BRACE,
                     t.val, t.iter, d, out);
    if value.kind == ObjectKind {
      end := PrintLabel(buf, end, o, value.names[value.lengthIterated], t.val, t.iter, out + lead);
    } else {
      NoLabel(t.val, t.iter, o);
      assert out + lead + tag == out + lead;
    }
    s := lead + tag;
    assert out + lead + tag == out + s;
    next := Descend(root, value, h, path, fs);
    assert out + s + After(Down(fs), o) == p;
  }

  lemma TailNotEmpty(v: Value, o: Options, depth: nat)
    ensures Tail(v, o, depth) != []
  {
  }

  lemma LeadNotEmpty(v: Value, k: nat, o: Options, depth: nat)
    ensures Lead(v, k, o, depth) != []
  {
  }

  lemma NoLabel(v: Value, k: nat, o: Options)
    requires v.Arr? && k < Count(v)
    ensures Label(v, k, o) == []
  {
  }

  lemma DownInside(fs: seq<Frame>)
    requires fs != [] && Container(fs[|fs| - 1].val) && fs[|fs| - 1].iter < Count(fs[|fs| - 1].val)
    ensures Inside(Down(fs)) == |fs| && |Down(fs)| == |fs| + 1
  {
  }

  /** The print of the whole tree and a NUL, in a buffer that holds them; every cursor is back at rest. */
  method SerializeEx(buf: array<byte>, root: Node, o: Options, ghost h: map<Node, Role>)
    requires Tree(root, h) && AtRest(h) && AllPrintable(h)
    requires |Print(h[root].val, o, 0)| < buf.Length
    modifies buf, h.Keys`lengthIterated
    ensures var p := Print(h[root].val, o, 0); buf[..|p|] == p && buf[|p|] == 0
    ensures Tree(root, h) && AtRest(h)
  {
    hide Tree, Walk, AllPrintable, After, Print, Rest, Down;
    InTree(root, h);
    ghost var p := Print(h[root].val, o, 0);
    var pos, indent := 0, 0;
    var value: Node? := root;
    ghost var path: seq<Node>, fs, out: bytes, s: bytes := [root], [Frame(h[root].val, 0)], [], [];
    Start(root, h);
    AfterStart(h[root].val, o);
    while value != null
      invariant Ready(buf, pos, root, value, indent, o, h, path, fs, out, p)
      decreases |p| - pos
    {
      TopRole(root, h, path, fs);
      if value.length == 0 {
        pos, s := LeafTurn(buf, pos, root, value, indent, o, h, path, fs, out, p);
        value, path, fs := value.parent, path[..|path| - 1], fs[..|fs| - 1];
      } else if value.lengthIterated == value.length {
        pos, indent, value, s := EndTurn(buf, pos, root, value, indent, o, h, path, fs, out, p);
        path, fs := path[..|path| - 1], fs[..|fs| - 1];
      } else {
        ghost var down := Down(fs);
        pos, indent, value, s := ChildTurn(buf, pos, root, value, indent, o, h, path, fs, out, p);
        path, fs := path + [value], down;
      }
      out := out + s;
    }
    AllQuiet(root, h);
    buf[pos] := 0;
    assert buf[..pos] == out;
  }
}
