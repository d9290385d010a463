/** json_measure_ex: the walk that adds up the sizes of the pieces json_serialize_ex prints. */
module Measuring {
  import opened Bytes
  import opened Values
  import opened Printing
  import opened Walking
  import opened Serializing

  function LineFeeds(s: bytes): nat {
    if s == [] then 0 else LineFeeds(s[..|s| - 1]) + if s[|s| - 1] == LF then 1 else 0
  }

  lemma {:induction false} LineFeedsConcat(a: bytes, b: bytes)
    ensures LineFeeds(a + b) == LineFeeds(a) + LineFeeds(b)
    decreases |b|
  {
    if b == [] {
      assert a + b == a;
    } else {
      LineFeedsConcat(a, b[..|b| - 1]);
      assert (a + b)[..|a + b| - 1] == a + b[..|b| - 1];
    }
  }

  lemma {:induction false} NoLineFeeds(s: bytes)
    requires forall k | 0 <= k < |s| :: s[k] != LF
    ensures LineFeeds(s) == 0
    decreases |s|
  {
    if s != [] {
      NoLineFeeds(s[..|s| - 1]);
    }
  }

  lemma {:induction false} EscapedHasNoLineFeed(s: bytes)
    ensures LineFeeds(Escaped(s)) == 0
    decreases |s|
  {
    hide EscapedByte, LineFeeds;
    if s == [] {
      NoLineFeeds(Escaped(s));
    } else {
      EscapedHasNoLineFeed(s[..|s| - 1]);
      LineFeedsConcat(Escaped(s[..|s| - 1]), EscapedByte(s[|s| - 1]));
      EscapedByteHasNoLineFeed(s[|s| - 1]);
    }
  }

  lemma EscapedByteHasNoLineFeed(c: byte)
    ensures LineFeeds(EscapedByte(c)) == 0
  {
    hide LineFeeds;
    NoLineFeeds(EscapedByte(c));
  }

  lemma QuotedHasNoLineFeed(s: bytes)
    ensures LineFeeds(InQuotes(s)) == 0
  {
    EscapedHasNoLineFeed(s);
    NoLineFeeds([QUOTE]);
    LineFeedsConcat([QUOTE], Escaped(s));
    LineFeedsConcat([QUOTE] + Escaped(s), [QUOTE]);
  }

  lemma ScalarHasNoLineFeed(v: Value, o: Options, depth: nat)
    requires !Container(v)
    ensures LineFeeds(Print(v, o, depth)) == 0
  {
    match v
    case Str(s) => QuotedHasNoLineFeed(s);
    case Integer(i) =>
      DigitsReadBack(if i < 0 then -i else i);
      NoLineFeeds(IntegerText(i));
    case _ => NoLineFeeds(Print(v, o, depth));
  }

  /** measure_string. */
  method MeasureString(s: bytes) returns (length: nat)
    ensures length == |Escaped(s)|
  {
    length := 0;
    for i := 0 to |s|
      invariant length == |Escaped(s[..i])|
    {
      assert s[..i + 1][..i] == s[..i];
      var c := s[i];
      if c == QUOTE || c == BACKSLASH || c == BACKSPACE || c == FORM_FEED || c == LF || c == CR || c == TAB {
        length := length + 2;
      } else {
        length := length + 1;
      }
    }
    assert s[..|s|] == s;
  }

  method MeasureInteger(i: int) returns (length: nat)
    ensures length == |IntegerText(i)|
  {
    var integer := i;
    length := 0;
    if integer < 0 {
      length := 1;
      integer := -integer;
    }
    length := length + 1;
    while integer >= 10
      invariant integer >= 0 && length + |Digits(integer)| == |IntegerText(i)| + 1
    {
      length := length + 1;
      integer := integer / 10;
    }
  }

  method MeasureScalar(n: Node, ghost v: Value, ghost o: Options, ghost depth: nat) returns (length: nat)
    requires Spells(n, v) && !Container(v) && Printable(v)
    ensures length == |Print(v, o, depth)|
  {
    if n.kind == NullKind {
      length := 4;
    } else if n.kind == BooleanKind {
      length := if n.boolean != 0 then 4 else 5;
    } else if n.kind == IntegerKind {
      length := MeasureInteger(n.integer);
    } else {
      length := MeasureString(n.str);
      length := length + 2;
    }
  }

  function LineEndSize(o: Options): nat { if o.crlf then 2 else 1 }

  /** The counts of the measurer account for the octets printed so far, and for the NUL. */
  ghost predicate Accounts(o: Options, total: nat, newlines: nat, indents: nat, out: bytes) {
    if o.mode == MULTILINE then
      && newlines == LineFeeds(out)
      && |out| + 1 == total + newlines * LineEndSize(o) + indents * o.indentSize
    else |out| + 1 == total
  }

  lemma AccountPiece(o: Options, total: nat, newlines: nat, indents: nat, out: bytes, s: bytes)
    requires Accounts(o, total, newlines, indents, out) && LineFeeds(s) == 0
    ensures Accounts(o, total + |s|, newlines, indents, out + s)
  {
    LineFeedsConcat(out, s);
  }

  lemma OneLineFeed(o: Options)
    ensures LineFeeds(LineEnd(o)) == 1 && |LineEnd(o)| == LineEndSize(o)
  {
    JustLineFeed();
    hide LineFeeds;
    NoLineFeeds([CR]);
    LineFeedsConcat([CR], [LF]);
    assert [CR] + [LF] == [CR, LF];
  }

  lemma JustLineFeed()
    ensures LineFeeds([LF]) == 1
  {
    var none: bytes := [];
    assert [LF][..0] == none && LineFeeds(none) == 0;
  }

  lemma NewlineSize(o: Options, depth: nat)
    requires o.mode == MULTILINE && o.indentSize >= 0
    ensures |Newline(o, depth)| == LineEndSize(o) + depth * o.indentSize && LineFeeds(Newline(o, depth)) == 1
  {
    hide LineEnd, LineFeeds, Indent, IndentChar;
    var tail := Repeat(IndentChar(o), Indent(o, depth));
    IndentIsProduct(o, depth);
    assert depth * o.indentSize >= 0;
    OneLineFeed(o);
    assert forall k | 0 <= k < |tail| :: tail[k] == IndentChar(o);
    IndentIsNoLineFeed(o);
    NoLineFeeds(tail);
    LineFeedsConcat(LineEnd(o), tail);
  }

  lemma IndentIsNoLineFeed(o: Options)
    ensures IndentChar(o) != LF
  {
  }

  lemma OneMore(newlines: nat, size: nat, indents: nat, depth: nat, step: int)
    ensures (newlines + 1) * size + (indents + depth) * step == newlines * size + indents * step + (size + depth * step)
  {
  }

  /** MEASURE_NEWLINE. */
  lemma AccountNewline(o: Options, total: nat, newlines: nat, indents: nat, out: bytes, depth: nat)
    requires Accounts(o, total, newlines, indents, out) && o.indentSize >= 0
    ensures Accounts(o, total, newlines + 1, indents + depth, out + Newline(o, depth))
  {
    if o.mode == MULTILINE {
      NewlineSize(o, depth);
      LineFeedsConcat(out, Newline(o, depth));
      OneMore(newlines, LineEndSize(o), indents, depth, o.indentSize);
      hide Newline, LineFeeds, LineEndSize;
    } else {
      assert out + Newline(o, depth) == out;
    }
  }

  lemma AccountLead(o: Options, total: nat, newlines: nat, indents: nat, out: bytes, v: Value, k: nat, depth: nat)
    requires Accounts(o, total, newlines, indents, out) && o.indentSize >= 0
    ensures var space := if k == 0 then GetSerializeFlags(o).spacesAroundBrackets
      else GetSerializeFlags(o).spacesAfterCommas;
            Accounts(o, total + if space then 2 else 1, newlines + 1, indents + depth + 1, out + Lead(v, k, o, depth))
  {
    hide Newline, Accounts;
    var space := if k == 0 then GetSerializeFlags(o).spacesAroundBrackets else GetSerializeFlags(o).spacesAfterCommas;
    var s := [if k == 0 then Open(v) else COMMA] + Space(space);
    NoLineFeeds(s);
    AccountPiece(o, total, newlines, indents, out, s);
    AccountNewline(o, total + |s|, newlines, indents, out + s, depth + 1);
    assert out + s + Newline(o, depth + 1) == out + Lead(v, k, o, depth);
  }

  lemma AccountTail(o: Options, total: nat, newlines: nat, indents: nat, out: bytes, v: Value, depth: nat)
    requires Accounts(o, total, newlines, indents, out) && o.indentSize >= 0
    ensures Accounts(o, total + if GetSerializeFlags(o).spacesAroundBrackets then 2 else 1, newlines + 1,
                     indents + depth,
                     out + Tail(v, o, depth))
  {
    hide Newline, Accounts;
    var s := Space(GetSerializeFlags(o).spacesAroundBrackets) + [Close(v)];
    NoLineFeeds(s);
    AccountNewline(o, total, newlines, indents, out, depth);
    AccountPiece(o, total, newlines + 1, indents + depth, out + Newline(o, depth), s);
    assert out + Newline(o, depth) + s == out + Tail(v, o, depth);
  }

  lemma LabelSize(v: Value, k: nat, o: Options)
    requires v.Obj? && k < Count(v)
    ensures |Label(v, k, o)| == 2 + |Escaped(v.entries[k].name)|
      + (if GetSerializeFlags(o).spacesAfterColons then 2 else 1)
    ensures LineFeeds(Label(v, k, o)) == 0
  {
    var name := v.entries[k].name;
    QuotedHasNoLineFeed(name);
    NoLineFeeds([COLON] + Space(GetSerializeFlags(o).spacesAfterColons));
    LineFeedsConcat(InQuotes(name), [COLON] + Space(GetSerializeFlags(o).spacesAfterColons));
    assert InQuotes(name) + ([COLON] + Space(GetSerializeFlags(o).spacesAfterColons)) == Label(v, k, o);
  }

  /** Between two turns: the counts account for the pieces passed, and those and what the walk has left make up the
      print. */
  ghost predicate Measured(root: Node, value: Node?, o: Options, h: map<Node, Role>, path: seq<Node>, fs: seq<Frame>,
                           out: bytes, p: bytes, depth: int, total: nat, newlines: nat, indents: nat)
    reads h.Keys, path
  {
    && Tree(root, h) && AllPrintable(h) && Walk(root, h, path, fs) && |path| == |fs| && o.indentSize >= 0
    && value == (if path == [] then null else path[|path| - 1])
    && out + After(fs, o) == p && depth == Inside(fs) && Accounts(o, total, newlines, indents, out)
  }

  method MeasureLeaf(root: Node, value: Node, o: Options, ghost h: map<Node, Role>, ghost path: seq<Node>,
                     ghost fs: seq<Frame>, ghost out: bytes, ghost p: bytes, ghost depth: int, total: nat,
                     ghost newlines: nat, ghost indents: nat)
    returns (more: nat, ghost s: bytes)
    requires Measured(root, value, o, h, path, fs, out, p, depth, total, newlines, indents) && value.length == 0
    ensures Measured(root, value.parent, o, h, path[..|path| - 1], fs[..|fs| - 1], out + s, p, depth, more, newlines,
      indents) && s != []
  {
    hide Tree, Walk, AllPrintable, After, Print, Rest, Accounts;
    TopRole(root, h, path, fs);
    InsideUp(root, h, path, fs);
    LeaveUntouched(root, h, path, fs);
    ghost var t, d := fs[|fs| - 1], |fs| - 1;
    RestAtEnd(t.val, t.iter, o, d);
    AfterUp(fs, o);
    s := Rest(t.val, t.iter, o, d);
    if value.kind == ArrayKind || value.kind == ObjectKind {
      more := total + 2;
      NoLineFeeds(s);
    } else {
      more := MeasureScalar(value, t.val, o, d);
      more := total + more;
      ScalarHasNoLineFeed(t.val, o, d);
    }
    AccountPiece(o, total, newlines, indents, out, s);
    assert out + s + After(fs[..d], o) == p;
  }

  method MeasureEnd(root: Node, value: Node, o: Options, ghost h: map<Node, Role>, ghost path: seq<Node>,
                    ghost fs: seq<Frame>, ghost out: bytes, ghost p: bytes, depth: int, total: nat, newlines: nat,
                    indents: nat)
    returns (next: Node?, less: int, more: nat, lines: nat, tabs: nat, ghost s: bytes)
    requires Measured(root, value, o, h, path, fs, out, p, depth, total, newlines, indents)
    requires value.lengthIterated == value.length > 0
    modifies value`lengthIterated
    ensures Measured(root, next, o, h, path[..|path| - 1], fs[..|fs| - 1], out + s, p, less, more, lines, tabs)
      && s != []
  {
    hide Tree, Walk, AllPrintable, After, Print, Rest, Accounts, Tail;
    TopRole(root, h, path, fs);
    InsideUp(root, h, path, fs);
    ghost var t, d := fs[|fs| - 1], |fs| - 1;
    RestAtEnd(t.val, t.iter, o, d);
    AfterUp(fs, o);
    TailNotEmpty(t.val, o, d);
    s := Tail(t.val, o, d);
    less := depth - 1;
    lines, tabs := newlines + 1, indents + less;
    more := total + if GetSerializeFlags(o).spacesAroundBrackets then 2 else 1;
    AccountTail(o, total, newlines, indents, out, t.val, d);
    next := Ascend(root, value, h, path, fs);
    assert out + s + After(fs[..d], o) == p;
  }

  /** The name before a child, if it has one. */
  method MeasureLabel(value: Node, o: Options, ghost t: Frame, ghost depth: nat, total: nat, ghost lines: nat,
                      ghost tabs: nat, ghost out: bytes)
    returns (more: nat)
    requires Spells(value, t.val) && Container(t.val)
      && t.iter == value.lengthIterated < Count(t.val) == |value.children|
    requires o.indentSize >= 0 && Accounts(o, total, lines, tabs, out)
    ensures Accounts(o, more, lines, tabs, out + Label(t.val, t.iter, o))
  {
    hide Accounts, Label;
    more := total;
    if value.kind == ObjectKind {
      var name := MeasureString(value.names[value.lengthIterated]);
      LabelSize(t.val, t.iter, o);
      AccountPiece(o, total, lines, tabs, out, Label(t.val, t.iter, o));
      more := total + 2 + (if GetSerializeFlags(o).spacesAfterColons then 2 else 1) + name;
    } else {
      NoLabel(t.val, t.iter, o);
      assert out + Label(t.val, t.iter, o) == out;
    }
  }

  method MeasureChild(root: Node, value: Node, o: Options, ghost h: map<Node, Role>, ghost path: seq<Node>,
                      ghost fs: seq<Frame>, ghost out: bytes, ghost p: bytes, depth: int, total: nat, newlines: nat,
                      indents: nat)
    returns (next: Node, inner: int, more: nat, lines: nat, tabs: nat, ghost s: bytes)
    requires Measured(root, value, o, h, path, fs, out, p, depth, total, newlines, indents)
    requires value.lengthIterated < value.length
    modifies value`lengthIterated
    ensures Container(fs[|fs| - 1].val) && fs[|fs| - 1].iter < Count(fs[|fs| - 1].val)
    ensures Measured(root, next, o, h, path + [next], Down(fs), out + s, p, inner, more, lines, tabs) && s != []
  {
    hide Tree, Walk, AllPrintable, After, Print, Rest, Accounts, Lead, Label, Down;
    TopRole(root, h, path, fs);
    ghost var t, d := fs[|fs| - 1], |fs| - 1;
    AfterDown(fs, o);
    LeadNotEmpty(t.val, t.iter, o, d);
    DownInside(fs);
    var flags := GetSerializeFlags(o);
    ghost var lead, tag := Lead(t.val, t.iter, o, d), Label(t.val, t.iter, o);
    var first := value.lengthIterated == 0;
    inner := if first then depth + 1 else depth;
    more := total + if (if first then flags.spacesAroundBrackets else flags.spacesAfterCommas) then 2 else 1;
    lines, tabs := newlines + 1, indents + inner;
    AccountLead(o, total, newlines, indents, out, t.val, t.iter, d);
    more := MeasureLabel(value, o, t, d, more, lines, tabs, out + lead);
    s := lead + tag;
    assert out + lead + tag == out + s;
    next := Descend(root, value, h, path, fs);
    assert out + s + After(Down(fs), o) == p;
  }

  /** The measured size: the print, its NUL, and in multi-line mode one indentation step too many for each line end. */
  method MeasureEx(root: Node, o: Options, ghost h: map<Node, Role>) returns (total: nat)
    requires Tree(root, h) && AtRest(h) && AllPrintable(h) && o.indentSize >= 0
    modifies h.Keys`lengthIterated
    ensures var p := Print(h[root].val, o, 0);
            total == |p| + 1 + if o.mode == MULTILINE then LineFeeds(p) * o.indentSize else 0
    ensures Tree(root, h) && AtRest(h)
  {
    hide Tree, Walk, AllPrintable, After, Print, Rest, Down, Accounts;
    InTree(root, h);
    ghost var p := Print(h[root].val, o, 0);
    var value: Node? := root;
    var newlines: nat, depth: int, indents: nat := 0, 0, 0;
    total := 1;
    ghost var path: seq<Node>, fs, out: bytes, s: bytes := [root], [Frame(h[root].val, 0)], [], [];
    Start(root, h);
    AfterStart(h[root].val, o);
    AccountNothing(o);
    while value != null
      invariant Measured(root, value, o, h, path, fs, out, p, depth, total, newlines, indents)
      decreases |p| - |out|
    {
      TopRole(root, h, path, fs);
      if value.length == 0 {
        total, s := MeasureLeaf(root, value, o, h, path, fs, out, p, depth, total, newlines, indents);
        value, path, fs := value.parent, path[..|path| - 1], fs[..|fs| - 1];
      } else if value.lengthIterated == value.length {
        value, depth, total, newlines, indents, s :=
            MeasureEnd(root, value, o, h, path, fs, out, p, depth, total, newlines, indents);
        path, fs := path[..|path| - 1], fs[..|fs| - 1];
      } else {
        ghost var down := Down(fs);
        value, depth, total, newlines, indents, s :=
            MeasureChild(root, value, o, h, path, fs, out, p, depth, total, newlines, indents);
        path, fs := path + [value], down;
      }
      out := out + s;
    }
    AllQuiet(root, h);
    assert out == p;
    AccountWhole(o, total, newlines, indents, p);
    if o.mode == MULTILINE {
      total := total + newlines * (LineEndSize(o) + o.indentSize);
      total := total + indents * o.indentSize;
    }
  }

  lemma AccountNothing(o: Options)
    ensures Accounts(o, 1, 0, 0, [])
  {
  }

  lemma AccountWhole(o: Options, total: nat, newlines: nat, indents: nat, p: bytes)
    requires Accounts(o, total, newlines, indents, p) && o.indentSize >= 0
    ensures if o.mode == MULTILINE then
              && total + newlines * (LineEndSize(o) + o.indentSize) + indents * o.indentSize
                 == |p| + 1 + LineFeeds(p) * o.indentSize
              && newlines * (LineEndSize(o) + o.indentSize) >= 0 && indents * o.indentSize >= 0
            else total == |p| + 1
  {
    assert newlines * (LineEndSize(o) + o.indentSize) == newlines * LineEndSize(o) + newlines * o.indentSize;
  }
}
