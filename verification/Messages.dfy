/** A tree sent as a text: measured, printed into a buffer of that size, sent up to its NUL, and parsed on the other
    side. */
module Messages {
  import opened Bytes
  import opened Values
  import opened Printing
  import opened Walking
  import opened Serializing
  import opened Measuring
  import opened Freeing
  import opened Comparing
  import Parser
  import Machine
  import Completeness

  lemma NulFreeJoin(a: bytes, b: bytes)
    requires NulFree(a) && NulFree(b)
    ensures NulFree(a + b)
  {
  }

  lemma {:induction false} EscapedNulFree(s: bytes)
    requires NulFree(s)
    ensures NulFree(Escaped(s))
    decreases |s|
  {
    if s != [] {
      EscapedNulFree(s[..|s| - 1]);
      assert NulFree(EscapedByte(s[|s| - 1]));
    }
  }

  lemma {:induction false} DigitsNulFree(n: nat)
    ensures NulFree(Digits(n))
    decreases n
  {
    if n >= 10 {
      DigitsNulFree(n / 10);
    }
  }

  lemma LayoutNulFree(v: Value, k: nat, o: Options, depth: nat)
    requires Container(v)
    ensures NulFree(Lead(v, k, o, depth)) && NulFree(Tail(v, o, depth))
  {
    hide Indent;
    assert NulFree(LineEnd(o)) && NulFree(Repeat(IndentChar(o), Indent(o, depth)))
        && NulFree(Repeat(IndentChar(o), Indent(o, depth + 1)));
    NulFreeJoin(LineEnd(o), Repeat(IndentChar(o), Indent(o, depth)));
    NulFreeJoin(LineEnd(o), Repeat(IndentChar(o), Indent(o, depth + 1)));
  }

  lemma LabelNulFree(v: Value, k: nat, o: Options)
    requires Container(v) && k < Count(v) && Plain(v)
    ensures NulFree(Label(v, k, o))
  {
    if v.Obj? {
      EscapedNulFree(v.entries[k].name);
    }
  }

  /** A printed text is a C string: its bytes up to the first NUL are all of it. */
  lemma {:induction false} PrintNulFree(v: Value, o: Options, depth: nat)
    requires Plain(v)
    ensures NulFree(Print(v, o, depth))
    decreases v, if Container(v) then Count(v) + 1 else 0
  {
    match v
    case Integer(i) => DigitsNulFree(if i < 0 then -i else i);
    case Str(s) => EscapedNulFree(s);
    case Arr(_) => PrintFromNulFree(v, 0, o, depth);
    case Obj(_) => PrintFromNulFree(v, 0, o, depth);
    case _ =>
  }

  lemma Brackets(v: Value)
    ensures NulFree([Open(v), Close(v)])
  {
  }

  lemma {:induction false} PrintFromNulFree(v: Value, k: nat, o: Options, depth: nat)
    requires Container(v) && k <= Count(v) && Plain(v)
    ensures NulFree(PrintFrom(v, k, o, depth))
    decreases v, Count(v) - k
  {
    hide Lead, Tail, Label, Print, NulFree, Plain;
    LayoutNulFree(v, k, o, depth);
    if Count(v) == 0 {
      Brackets(v);
    } else if k < Count(v) {
      var lead, name, kid := Lead(v, k, o, depth), Label(v, k, o), Print(Kid(v, k), o, depth + 1);
      LabelNulFree(v, k, o);
      PrintNulFree(Kid(v, k), o, depth + 1);
      PrintFromNulFree(v, k + 1, o, depth);
      NulFreeJoin(lead, name);
      NulFreeJoin(lead + name, kid);
      NulFreeJoin(lead + name + kid, PrintFrom(v, k + 1, o, depth));
    }
  }

  lemma {:induction false} CStringAt(s: bytes, n: nat)
    requires n < |s| && NulFree(s[..n]) && s[n] == 0
    ensures CString(s) == s[..n]
    decreases n
  {
    if n > 0 {
      assert s[1..][..n - 1] == s[..n][1..];
      CStringAt(s[1..], n - 1);
      assert s[..n] == [s[0]] + s[1..][..n - 1];
    }
  }

  /** In a tree without strays every node's value is printable when the root's is. */
  lemma {:induction false} AllPrint(root: Node, h: map<Node, Role>, n: Node)
    requires Family(root, h) && Rooted(root, h) && Printable(h[root].val) && n in h
    ensures Printable(h[n].val)
    decreases h[n].level
  {
    if n != root {
      var k :| 0 <= k < |n.parent.children| && n.parent.children[k] == n;
      assert Hangs(n.parent, h);
      AllPrint(root, h, n.parent);
    }
  }

  const BUFLEN := 4096

  /** {"Error":API: internal error} */
  const APOLOGY: bytes :=
    [0x7B, 0x22, 0x45, 0x72, 0x72, 0x6F, 0x72, 0x22, 0x3A,
     0x41, 0x50, 0x49, 0x3A, 0x20, 0x69, 0x6E, 0x74, 0x65, 0x72, 0x6E, 0x61, 0x6C, 0x20, 0x65, 0x72, 0x72, 0x6F, 0x72,
         0x7D]

  lemma ApologySpells()
    ensures APOLOGY == Ascii("{\"Error\":API: internal error}")
  {
  }

  /** The response goes into the buffer: its measured size is within the limit. */
  ghost predicate Fits(v: Value, o: Options) {
    var p := Print(v, o, 0);
    |p| + 1 + (if o.mode == MULTILINE then LineFeeds(p) * o.indentSize else 0) <= BUFLEN
  }

  /** What client_handle_fd does with a response: its print goes into the buffer exactly when its measured size is
      within the limit, and a fixed text otherwise; what is there up to the NUL is sent. */
  method Respond(buf: array<byte>, root: Node, o: Options, ghost h: map<Node, Role>) returns (text: bytes)
    requires Tree(root, h) && Rooted(root, h) && AtRest(h) && Plain(h[root].val) && o.indentSize >= 0
    requires buf.Length == BUFLEN + 1
    modifies buf, h.Keys`lengthIterated
    ensures Tree(root, h) && AtRest(h)
    ensures text == if Fits(h[root].val, o) then Print(h[root].val, o, 0) else APOLOGY
  {
    hide Tree, Family, Rooted, AtRest, Print;
    InTree(root, h);
    ghost var v := h[root].val;
    PrintableAll(root, h);
    PrintNulFree(v, o, 0);
    ghost var p := Print(v, o, 0);
    var need := MeasureEx(root, o, h);
    if need > BUFLEN {
      p := APOLOGY;
      WriteApology(buf);
    } else {
      LineFeedsSlack(p, o);
      SerializeEx(buf, root, o, h);
    }
    assert |p| <= BUFLEN && buf[..][..|p|] == p && NulFree(p);
    CStringAt(buf[..], |p|);
    return CString(buf[..]);
  }

  /** snprintf of the fixed text. */
  method WriteApology(buf: array<byte>)
    requires buf.Length == BUFLEN + 1
    modifies buf
    ensures buf[..|APOLOGY|] == APOLOGY && buf[|APOLOGY|] == 0
  {
    ghost var none: bytes := [];
    var end := Copy(buf, 0, APOLOGY, none);
    assert none + APOLOGY == APOLOGY;
    ghost var n := end;
    end := Put(buf, end, 0, APOLOGY);
    assert buf[..n] == buf[..n + 1][..n] && buf[n] == buf[..n + 1][n];
  }

  lemma LineFeedsSlack(p: bytes, o: Options)
    requires o.indentSize >= 0
    ensures LineFeeds(p) * o.indentSize >= 0
  {
  }

  lemma PrintableAll(root: Node, h: map<Node, Role>)
    requires Tree(root, h) && Rooted(root, h) && Plain(h[root].val)
    ensures AllPrintable(h)
  {
    PlainIsPrintable(h[root].val);
    forall n | n in h ensures Printable(h[n].val) {
      AllPrint(root, h, n);
    }
  }

  lemma {:induction false} LettersEscaped(s: bytes)
    requires forall k | 0 <= k < |s| :: s[k] == 0x61
    ensures Escaped(s) == s
    decreases |s|
  {
    if s != [] {
      LettersEscaped(s[..|s| - 1]);
      assert s == s[..|s| - 1] + [s[|s| - 1]];
    }
  }

  /** There are responses that do not fit, in any mode: a string of n letters fits exactly up to n == 4093. */
  lemma LettersFit(n: nat, o: Options)
    requires o.indentSize >= 0
    ensures var v := Str(seq(n, _ => 0x61)); Plain(v) && (Fits(v, o) <==> n <= 4093)
  {
    var s: bytes := seq(n, _ => 0x61);
    LettersEscaped(s);
    ScalarHasNoLineFeed(Str(s), o, 0);
    assert |Print(Str(s), o, 0)| == n + 2;
  }

  // The receiver

  lemma RawByte(t: bytes, s: Machine.State) returns (r: Machine.State)
    requires Machine.Wf(t, s) && s.mode.InString? && !s.mode.escaped && s.ptr < |t|
    requires t[s.ptr] != 0 && t[s.ptr] != QUOTE && t[s.ptr] != BACKSLASH
    ensures r == s.(ptr := s.ptr + 1, mode := Machine.InString(false, s.mode.buf + [t[s.ptr]]))
    ensures Machine.Wf(t, r) && Machine.Run(t, s) == Machine.Run(t, r)
  {
    hide Machine.Run;
    r := s.(ptr := s.ptr + 1, mode := Machine.InString(false, s.mode.buf + [t[s.ptr]]));
    Completeness.Unfold(t, s, r);
  }

  lemma OpensName(t: bytes) returns (s: Machine.State)
    requires |t| > 2 && t[0] == OPEN_BRACE && t[1] == QUOTE
    ensures s == Machine.State(2, Machine.InString(false, []), false, [0], [Machine.Fresh(ObjectKind)])
    ensures Machine.Wf(t, s) && Machine.Run(t, Machine.START) == Machine.Run(t, s)
  {
    hide Machine.Run;
    var r := Machine.State(1, Machine.InObject(false), false, [0], [Machine.Fresh(ObjectKind)]);
    assert Machine.Step(t, Machine.START) == Machine.Next(r);
    Completeness.Unfold(t, Machine.START, r);
    s := r.(ptr := 2, mode := Machine.InString(false, []));
    Completeness.Unfold(t, r, s);
  }

  /** After the first name of an object and its colon no value starts with the letter A. */
  lemma BareWord(t: bytes, s: Machine.State)
    requires Machine.Wf(t, s) && s.mode.InString? && !s.mode.escaped && s.path == [0]
      && s.nodes == [Machine.Fresh(ObjectKind)]
    requires s.ptr + 2 < |t| && t[s.ptr] == QUOTE && t[s.ptr + 1] == COLON && t[s.ptr + 2] == 0x41
    ensures Machine.Run(t, s) == None
  {
    hide Machine.Run, Machine.Finish;
    var n := Machine.Fresh(ObjectKind).(names := [s.mode.buf]);
    var r := Machine.State(s.ptr + 1, Machine.Seek(false, true), s.decimal, [0], [n]);
    assert Machine.SetTop(s, n).nodes == [n];
    assert [] + [s.mode.buf] == [s.mode.buf];
    assert Machine.Step(t, s) == Machine.Next(r);
    Completeness.Unfold(t, s, r);
    var q := r.(ptr := s.ptr + 2, mode := Machine.Seek(false, false));
    assert Machine.Step(t, r) == Machine.Next(q);
    Completeness.Unfold(t, r, q);
    Rejected(t, q);
  }

  lemma Rejected(t: bytes, s: Machine.State)
    requires Machine.Wf(t, s) && Machine.Step(t, s) == Machine.Reject
    ensures Machine.Run(t, s) == None
  {
  }

  /** The fixed text is no JSON text: its message stands without quotes, and the parser refuses it. */
  lemma ApologyRefused()
    ensures Machine.Parse(APOLOGY) == None
  {
    assert APOLOGY[0] == OPEN_BRACE && APOLOGY[1] == QUOTE && APOLOGY[7] == QUOTE && APOLOGY[8] == COLON
      && APOLOGY[9] == 0x41;
    assert |APOLOGY| == 29;
    assert forall k | 2 <= k < 7 :: APOLOGY[k] != 0 && APOLOGY[k] != QUOTE && APOLOGY[k] != BACKSLASH;
    WordRefused(APOLOGY);
  }

  lemma WordRefused(t: bytes)
    requires |t| > 9 && t[0] == OPEN_BRACE && t[1] == QUOTE && t[7] == QUOTE && t[8] == COLON && t[9] == 0x41
    requires forall k | 2 <= k < 7 :: t[k] != 0 && t[k] != QUOTE && t[k] != BACKSLASH
    ensures Machine.Parse(t) == None
  {
    hide Machine.Run, Machine.Fresh;
    var s2 := OpensName(t);
    var s3 := RawByte(t, s2);
    var s4 := RawByte(t, s3);
    var s5 := RawByte(t, s4);
    var s6 := RawByte(t, s5);
    var s7 := RawByte(t, s6);
    BareWord(t, s7);
  }

  /** The whole trip, to any reader that uses json_parse_ex: its two passes build the value that the sender's tree
      stands for exactly when the response fits into the sender's buffer, and refuse the text that comes in its
      place. */
  method SendAndReceive(buf: array<byte>, root: Node, o: Options, ghost h: map<Node, Role>)
    returns (value: Option<Value>)
    requires Tree(root, h) && Rooted(root, h) && AtRest(h) && Plain(h[root].val) && o.indentSize >= 0
    requires buf.Length == BUFLEN + 1
    modifies buf, h.Keys`lengthIterated
    ensures Tree(root, h) && AtRest(h)
    ensures value == if Fits(h[root].val, o) then Some(h[root].val) else None
  {
    hide Tree, Family, Rooted, AtRest, Print, Plain, Fits, Machine.Parse, Machine.Run, Parser.CellTree, Parser.Holds;
    InTree(root, h);
    var text := Respond(buf, root, o, h);
    var parser := new Parser.Parser();
    var ok := parser.ParseEx(text);
    ParsePrint(h[root].val, o);
    ApologyRefused();
    value := if ok then Some(Parser.CellTree(parser.cells, 0)) else None;
  }
}
