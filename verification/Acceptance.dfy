/** The parser accepts exactly the texts of its dialect. */
module Acceptance {
  import opened Bytes
  import opened Values
  import opened Machine
  import opened Completeness
  import opened Literals
  import opened Dialect
  import G = Syntax

  // Words and strings as values

  lemma WordTakes(text: bytes, s: State, w: bytes) returns (e: State)
    requires Machine.Wf(text, s) && s.mode == Seek(false, false) && WfTerm(Word(w)) && Has(text, s.ptr, w)
    ensures Joined(text, s, e, s.ptr + |w|) && Run(text, s) == Run(text, e)
  {
    hide Run, IsPath, Finish, Joined;
    var t := if w == TRUE then G.STrue else if w == FALSE then G.SFalse else G.SNull;
    WordStart(text, s, t);
    var m := Push(s, Block(t, 0, -1)[0]);
    e := Finish(m, s.ptr + |w|);
    Unfold(text, s, e);
    ShapeOfPush(s, Block(t, 0, -1)[0]);
    FinishJoins(text, s, m, Block(t, 0, -1)[0].kind, s.ptr + |w|);
  }

  lemma WordSound(text: bytes, s: State) returns (w: bytes)
    requires Machine.Wf(text, s) && s.mode == Seek(false, false) && Run(text, s).Some?
    requires var c := Peek(text, s.ptr); c == LOWER_T || c == LOWER_F || c == LOWER_N
    ensures WfTerm(Word(w)) && Has(text, s.ptr, w)
  {
    hide IsPath, Finish, Has;
    var c := Peek(text, s.ptr);
    w := if c == LOWER_T then TRUE else if c == LOWER_F then FALSE else NULL;
  }

  /** The closing quote of a string that is a value. */
  lemma StringJoins(text: bytes, s: State, m: State) returns (e: State)
    requires Machine.Wf(text, s) && s.mode == Seek(false, false)
    requires Machine.Wf(text, m) && m.mode.InString? && !m.mode.escaped && m.ptr < |text| && text[m.ptr] == QUOTE
    requires Shape(m) == Shape(s) + [StringKind]
    ensures Joined(text, s, e, m.ptr + 1) && Run(text, m) == Run(text, e)
  {
    hide Run, Step, IsPath, Finish, Joined;
    ShapeOfTop(m);
    var n := m.nodes[Top(m)];
    StringEnd(text, m);
    var f := SetTop(m, n.(str := m.mode.buf));
    e := Finish(f, m.ptr + 1);
    Unfold(text, m, e);
    ShapeOfSetTop(m, n.(str := m.mode.buf));
    FinishJoins(text, s, f, StringKind, m.ptr + 1);
  }

  lemma StringBegins(text: bytes, s: State) returns (m: State)
    requires Machine.Wf(text, s) && s.mode == Seek(false, false) && Peek(text, s.ptr) == QUOTE
    ensures Machine.Wf(text, m) && Run(text, s) == Run(text, m) && m.ptr == s.ptr + 1 && m.mode == InString(false, [])
    ensures Shape(m) == Shape(s) + [StringKind] && Has(text, s.ptr, [QUOTE])
  {
    hide Run, Step, IsPath, Finish;
    assert text[s.ptr..s.ptr + 1] == [QUOTE];
    StringStart(text, s);
    m := Push(s, Fresh(StringKind)).(ptr := s.ptr + 1, mode := InString(false, []));
    Unfold(text, s, m);
    ShapeOfPush(s, Fresh(StringKind));
  }

  lemma SameShape(s: State, t: State)
    requires IsPath(s.path, s.nodes) && t.path == s.path && t.nodes == s.nodes
    ensures IsPath(t.path, t.nodes) && Shape(t) == Shape(s)
  {
  }

  lemma TextSound(text: bytes, s: State) returns (cs: seq<G.Char>, e: State)
    requires Machine.Wf(text, s) && s.mode == Seek(false, false) && Peek(text, s.ptr) == QUOTE && Run(text, s).Some?
    ensures AllReadable(cs) && Has(text, s.ptr, G.Quoted(cs))
    ensures Joined(text, s, e, s.ptr + |G.Quoted(cs)|) && Run(text, s) == Run(text, e)
  {
    hide Run, Step, IsPath, Finish, Joined, Has, Readable, AllReadable, G.CharsText, Peek;
    var b := StringBegins(text, s);
    var m;
    cs, m := CharsSound(text, b);
    SameShape(b, m);
    e := StringJoins(text, s, m);
    QuotedHere(text, s.ptr, cs);
  }

  lemma QuotedHere(text: bytes, p: nat, cs: seq<G.Char>)
    requires Has(text, p, [QUOTE]) && Has(text, p + 1, G.CharsText(cs))
    requires var q := p + 1 + |G.CharsText(cs)|; q < |text| && text[q] == QUOTE
    ensures Has(text, p, G.Quoted(cs)) && |G.Quoted(cs)| == 2 + |G.CharsText(cs)|
  {
    hide Has;
    var q := p + 1 + |G.CharsText(cs)|;
    HasOne(text, q);
    HasJoin(text, p + 1, G.CharsText(cs), [QUOTE]);
    HasJoin(text, p, [QUOTE], G.CharsText(cs) + [QUOTE]);
  }

  lemma QuotedPieces(text: bytes, p: nat, cs: seq<G.Char>)
    requires Has(text, p, G.Quoted(cs))
    ensures Peek(text, p) == QUOTE && Has(text, p + 1, G.CharsText(cs)) && |G.Quoted(cs)| == 2 + |G.CharsText(cs)|
    ensures var q := p + 1 + |G.CharsText(cs)|; q < |text| && text[q] == QUOTE
  {
    hide Has;
    HasSplit(text, p, [QUOTE], G.CharsText(cs) + [QUOTE]);
    HasSplit(text, p + 1, G.CharsText(cs), [QUOTE]);
    PeekAt(text, p, [QUOTE]);
    PeekAt(text, p + 1 + |G.CharsText(cs)|, [QUOTE]);
  }

  lemma TextTakes(text: bytes, s: State, cs: seq<G.Char>) returns (e: State)
    requires Machine.Wf(text, s) && s.mode == Seek(false, false) && AllReadable(cs) && Has(text, s.ptr, G.Quoted(cs))
    ensures Joined(text, s, e, s.ptr + |G.Quoted(cs)|) && Run(text, s) == Run(text, e)
  {
    hide Run, Step, IsPath, Finish, Joined, Has, Readable, AllReadable, G.CharsText, Peek;
    QuotedPieces(text, s.ptr, cs);
    var b := StringBegins(text, s);
    var m := CharsTaken(text, b, cs);
    SameShape(b, m);
    e := StringJoins(text, s, m);
  }

  // Containers

  /** White space, up to the first character that is none. */
  lemma {:induction false} SkipSpace(text: bytes, s: State) returns (w: bytes, e: State)
    requires Machine.Wf(text, s) && (s.mode.Seek? || s.mode.InObject? || s.mode.Done?)
    ensures AllSpace(w) && Has(text, s.ptr, w) && e == s.(ptr := s.ptr + |w|)
    ensures Machine.Wf(text, e) && Run(text, s) == Run(text, e) && !IsBlank(Peek(text, e.ptr))
    decreases |text| - s.ptr
  {
    hide Run, Step, IsPath;
    if IsBlank(Peek(text, s.ptr)) {
      assert text[s.ptr..s.ptr + 1] == [text[s.ptr]];
      SpaceRun(text, s, [text[s.ptr]]);
      w, e := SkipSpace(text, s.(ptr := s.ptr + 1));
      HasJoin(text, s.ptr, [text[s.ptr]], w);
      w := [text[s.ptr]] + w;
    } else {
      w, e := [], s;
    }
  }

  lemma Opens(text: bytes, s: State, kind: Kind) returns (m: State)
    requires Machine.Wf(text, s) && s.mode == Seek(false, false) && IsContainer(kind)
    requires Peek(text, s.ptr) == if kind == ArrayKind then OPEN_BRACKET else OPEN_BRACE
    ensures Machine.Wf(text, m) && Run(text, s) == Run(text, m) && m.ptr == s.ptr + 1
    ensures m.mode == if kind == ArrayKind then Seek(false, false) else InObject(false)
    ensures m.path != [] && TopKind(m) == kind && Shape(m) == Shape(s) + [kind]
    ensures Has(text, s.ptr, [if kind == ArrayKind then OPEN_BRACKET else OPEN_BRACE])
  {
    hide Run, Step, IsPath, Finish;
    assert text[s.ptr..s.ptr + 1] == [text[s.ptr]];
    OpenStep(text, s, kind);
    m := Opening(s, kind, 0);
    Unfold(text, s, m);
    ShapeOfPush(s, Fresh(kind));
  }

  lemma Closes(text: bytes, s: State, m: State, kind: Kind) returns (e: State)
    requires Machine.Wf(text, s) && s.mode == Seek(false, false) && IsContainer(kind)
    requires Machine.Wf(text, m) && m.path != [] && Shape(m) == Shape(s) + [kind]
    requires if kind == ArrayKind then m.mode.Seek? && Peek(text, m.ptr) == CLOSE_BRACKET
             else m.mode.InObject? && Peek(text, m.ptr) == CLOSE_BRACE
    ensures Joined(text, s, e, m.ptr + 1) && Run(text, m) == Run(text, e)
    ensures Has(text, m.ptr, [if kind == ArrayKind then CLOSE_BRACKET else CLOSE_BRACE])
  {
    hide Run, Step, IsPath, Finish, Joined;
    assert text[m.ptr..m.ptr + 1] == [text[m.ptr]];
    ShapeOfTop(m);
    CloseStep(text, m);
    e := Finish(m, m.ptr + 1);
    Unfold(text, m, e);
    FinishJoins(text, s, m, kind, m.ptr + 1);
  }

  lemma Comma(text: bytes, s: State) returns (e: State)
    requires Machine.Wf(text, s) && (s.mode == Seek(true, false) || s.mode == InObject(true))
    requires Peek(text, s.ptr) == COMMA
    ensures Machine.Wf(text, e) && Run(text, s) == Run(text, e) && Has(text, s.ptr, [COMMA])
    ensures e == s.(ptr := s.ptr + 1, mode := if s.mode.Seek? then Seek(false, false) else InObject(false))
  {
    hide Run, Step, IsPath;
    assert text[s.ptr..s.ptr + 1] == [COMMA];
    CommaStep(text, s);
    e := s.(ptr := s.ptr + 1, mode := if s.mode.Seek? then Seek(false, false) else InObject(false));
    Unfold(text, s, e);
  }

  /** After a value only a comma or the closing bracket is accepted. */
  lemma CommaOrEnd(text: bytes, s: State)
    requires Machine.Wf(text, s) && s.path != [] && !IsBlank(Peek(text, s.ptr)) && Run(text, s).Some?
    requires s.mode == Seek(true, false) || s.mode == InObject(true)
    ensures Peek(text, s.ptr) == COMMA
         || Peek(text, s.ptr) == if s.mode.Seek? then CLOSE_BRACKET else CLOSE_BRACE
  {
    hide IsPath, Finish;
  }

  /** What a value may begin with. */
  lemma ValueBegins(text: bytes, s: State)
    requires Machine.Wf(text, s) && s.mode == Seek(false, false) && Run(text, s).Some?
    requires !IsBlank(Peek(text, s.ptr))
    ensures var c := Peek(text, s.ptr);
      || c == MINUS || IsDigit(c) || c == QUOTE || c == LOWER_T || c == LOWER_F || c == LOWER_N
      || c == OPEN_BRACKET || c == OPEN_BRACE || (c == CLOSE_BRACKET && s.path != [] && TopKind(s) == ArrayKind)
  {
    hide IsPath, Finish, Push;
  }

  /** A value of an accepted text is one of the dialect. */
  lemma {:induction false} TermSound(text: bytes, s: State) returns (t: Term, e: State)
    requires Machine.Wf(text, s) && s.mode == Seek(false, false) && Run(text, s).Some?
    requires !IsBlank(Peek(text, s.ptr))
    requires Peek(text, s.ptr) == CLOSE_BRACKET ==> s.path == [] || TopKind(s) != ArrayKind
    ensures WfTerm(t) && Has(text, s.ptr, TermText(t)) && TermText(t) != []
    ensures Joined(text, s, e, s.ptr + |TermText(t)|) && Run(text, s) == Run(text, e)
    decreases |text| - s.ptr, 0
  {
    hide Run, Step, IsPath, Has, Joined, Peek, ElementsText, FieldsText, AllReadable, IsNumber;
    ValueBegins(text, s);
    var c := Peek(text, s.ptr);
    if c == MINUS || IsDigit(c) {
      var l;
      l, e := NumberSound(text, s);
      t := Numeral(l);
      NumberTextSome(l);
    } else if c == QUOTE {
      var cs;
      cs, e := TextSound(text, s);
      t := Text(cs);
    } else if c == OPEN_BRACKET {
      var m := Opens(text, s, ArrayKind);
      var es, f := ElementsSound(text, m);
      e := Closes(text, s, f, ArrayKind);
      t := List(es);
      HasJoin(text, m.ptr, ElementsText(es), [CLOSE_BRACKET]);
      HasJoin(text, s.ptr, [OPEN_BRACKET], ElementsText(es) + [CLOSE_BRACKET]);
    } else if c == OPEN_BRACE {
      var m := Opens(text, s, ObjectKind);
      var fs, f := FieldsSound(text, m);
      e := Closes(text, s, f, ObjectKind);
      t := Record(fs);
      HasJoin(text, m.ptr, FieldsText(fs), [CLOSE_BRACE]);
      HasJoin(text, s.ptr, [OPEN_BRACE], FieldsText(fs) + [CLOSE_BRACE]);
    } else {
      var w := WordSound(text, s);
      e := WordTakes(text, s, w);
      t := Word(w);
    }
  }

  lemma NumberTextSome(l: Literal)
    requires IsNumber(l)
    ensures NumberText(l) != []
  {
  }

  /** In state e, where a value has been read into the container on top of state s. */
  lemma JoinedInside(text: bytes, s: State, e: State, p: nat)
    requires Joined(text, s, e, p) && s.path != []
    ensures Machine.Wf(text, e) && e.ptr == p && e.path != [] && Shape(e) == Shape(s) && TopKind(e) == TopKind(s)
    ensures e.mode == if TopKind(s) == ArrayKind then Seek(true, false) else InObject(true)
  {
    ShapeOfTop(s);
    ShapeOfTop(e);
  }

  lemma {:induction false} ElementsSound(text: bytes, m: State) returns (es: Elements, f: State)
    requires Machine.Wf(text, m) && m.mode == Seek(false, false) && m.path != [] && TopKind(m) == ArrayKind
    requires Run(text, m).Some?
    ensures WfElements(es) && Has(text, m.ptr, ElementsText(es)) && f.ptr == m.ptr + |ElementsText(es)|
    ensures Machine.Wf(text, f) && Run(text, m) == Run(text, f) && f.mode.Seek? && Peek(text, f.ptr) == CLOSE_BRACKET
    ensures f.path != [] && Shape(f) == Shape(m)
    decreases |text| - m.ptr, 1
  {
    hide Run, Step, IsPath, Has, Joined, Peek, AllSpace, TermText, WfTerm, IsBlank;
    var pre, s := SkipSpace(text, m);
    SameShape(m, s);
    if Peek(text, s.ptr) == CLOSE_BRACKET {
      es, f := NoElement(pre), s;
    } else {
      var t, e := TermSound(text, s);
      JoinedInside(text, s, e, s.ptr + |TermText(t)|);
      var post, q := SkipSpace(text, e);
      SameShape(e, q);
      CommaOrEnd(text, q);
      var comma, rest := false, NoElement([]);
      f := q;
      HasNothing(text, q.ptr);
      NothingIsBlank();
      if Peek(text, q.ptr) == COMMA {
        comma := true;
        var r := Comma(text, q);
        SameShape(q, r);
        KindStays(q, r);
        rest, f := ElementsSound(text, r);
      }
      es := Element(pre, t, post, comma, rest);
      HasPieces(text, m.ptr, pre, TermText(t), post, CommaText(comma), ElementsText(rest));
    }
  }

  lemma KindStays(s: State, t: State)
    requires IsPath(s.path, s.nodes) && t.path == s.path && t.nodes == s.nodes && s.path != []
    ensures IsPath(t.path, t.nodes) && TopKind(t) == TopKind(s)
  {
  }

  lemma NothingIsBlank()
    ensures AllSpace([])
  {
  }

  lemma HasPieces(text: bytes, p: nat, pre: bytes, item: bytes, post: bytes, comma: bytes, rest: bytes)
    requires Has(text, p, pre) && Has(text, p + |pre|, item) && Has(text, p + |pre| + |item|, post)
    requires Has(text, p + |pre| + |item| + |post|, comma) && Has(text, p + |pre| + |item| + |post| + |comma|, rest)
    ensures Has(text, p, pre + (item + (post + (comma + rest))))
  {
    hide Has;
    HasJoin(text, p + |pre| + |item| + |post|, comma, rest);
    HasJoin(text, p + |pre| + |item|, post, comma + rest);
    HasJoin(text, p + |pre|, item, post + (comma + rest));
    HasJoin(text, p, pre, item + (post + (comma + rest)));
  }

  /** What may stand where a name is sought. */
  lemma NameOrEnd(text: bytes, s: State)
    requires Machine.Wf(text, s) && s.mode == InObject(false) && !IsBlank(Peek(text, s.ptr)) && Run(text, s).Some?
    ensures Peek(text, s.ptr) == QUOTE || Peek(text, s.ptr) == CLOSE_BRACE
  {
    hide IsPath, Finish;
  }

  lemma ColonWanted(text: bytes, s: State)
    requires Machine.Wf(text, s) && s.mode == Seek(false, true) && !IsBlank(Peek(text, s.ptr)) && Run(text, s).Some?
    ensures Peek(text, s.ptr) == COLON
  {
    hide IsPath, Finish;
  }

  /** The closing quote of a name. */
  lemma NameEnds(text: bytes, s: State, m: State) returns (e: State)
    requires Machine.Wf(text, s) && s.mode == InObject(false) && m.path == s.path && m.nodes == s.nodes
    requires Machine.Wf(text, m) && m.mode.InString? && !m.mode.escaped && m.ptr < |text| && text[m.ptr] == QUOTE
    ensures Machine.Wf(text, e) && Run(text, m) == Run(text, e) && e.ptr == m.ptr + 1 && e.mode == Seek(false, true)
    ensures e.path != [] && Shape(e) == Shape(s) && TopKind(e) == ObjectKind
  {
    hide Run, Step, IsPath, Finish;
    var n := m.nodes[Top(m)];
    StringEnd(text, m);
    e := SetTop(m, n.(names := n.names + [m.mode.buf])).(ptr := m.ptr + 1, mode := Seek(false, true));
    Unfold(text, m, e);
    ShapeOfSetTop(m, n.(names := n.names + [m.mode.buf]));
    ShapeOfTop(m);
    SameShape(s, m);
    assert Shape(m)[|m.path| - 1 := n.kind] == Shape(m);
  }

  lemma Colon(text: bytes, s: State) returns (e: State)
    requires Machine.Wf(text, s) && s.mode == Seek(false, true) && Peek(text, s.ptr) == COLON
    ensures e == s.(ptr := s.ptr + 1, mode := Seek(false, false)) && Has(text, s.ptr, [COLON])
    ensures Machine.Wf(text, e) && Run(text, s) == Run(text, e)
  {
    hide Run, Step, IsPath;
    assert text[s.ptr..s.ptr + 1] == [COLON];
    ColonStep(text, s);
    e := s.(ptr := s.ptr + 1, mode := Seek(false, false));
    Unfold(text, s, e);
  }

  lemma NameBegins(text: bytes, s: State) returns (m: State)
    requires Machine.Wf(text, s) && s.mode == InObject(false) && Peek(text, s.ptr) == QUOTE
    ensures m == s.(ptr := s.ptr + 1, mode := InString(false, [])) && Has(text, s.ptr, [QUOTE])
    ensures Machine.Wf(text, m) && Run(text, s) == Run(text, m)
  {
    hide Run, Step, IsPath;
    assert text[s.ptr..s.ptr + 1] == [QUOTE];
    NameStart(text, s);
    m := s.(ptr := s.ptr + 1, mode := InString(false, []));
    Unfold(text, s, m);
  }

  /** What stands before the value of a member. */
  function NameText(name: seq<G.Char>, preColon: bytes, postColon: bytes): bytes {
    G.Quoted(name) + (preColon + ([COLON] + postColon))
  }

  lemma MemberTextIs(name: seq<G.Char>, preColon: bytes, postColon: bytes, item: bytes)
    ensures G.MemberText(name, preColon, postColon, item) == NameText(name, preColon, postColon) + item
  {
    hide G.Quoted;
  }

  /** A name and its colon, up to the first character of the value. */
  lemma NameSound(text: bytes, s: State) returns (name: seq<G.Char>, preColon: bytes, postColon: bytes, e: State)
    requires Machine.Wf(text, s) && s.mode == InObject(false) && Peek(text, s.ptr) == QUOTE && Run(text, s).Some?
    ensures AllReadable(name) && AllSpace(preColon) && AllSpace(postColon)
    ensures Has(text, s.ptr, NameText(name, preColon, postColon))
    ensures e.ptr == s.ptr + |NameText(name, preColon, postColon)| && e.mode == Seek(false, false)
    ensures Machine.Wf(text, e) && Run(text, s) == Run(text, e) && !IsBlank(Peek(text, e.ptr))
    ensures e.path != [] && Shape(e) == Shape(s) && TopKind(e) == ObjectKind
  {
    hide Run, Step, IsPath, Has, Peek, AllSpace, AllReadable, G.CharsText, IsBlank;
    var b := NameBegins(text, s);
    var m;
    name, m := CharsSound(text, b);
    QuotedHere(text, s.ptr, name);
    var f := NameEnds(text, s, m);
    var g;
    preColon, g := SkipSpace(text, f);
    SameShape(f, g);
    KindStays(f, g);
    ColonWanted(text, g);
    var h := Colon(text, g);
    SameShape(g, h);
    KindStays(g, h);
    postColon, e := SkipSpace(text, h);
    SameShape(h, e);
    KindStays(h, e);
    HasJoin(text, g.ptr, [COLON], postColon);
    HasJoin(text, f.ptr, preColon, [COLON] + postColon);
    HasJoin(text, s.ptr, G.Quoted(name), preColon + ([COLON] + postColon));
  }

  lemma {:induction false} FieldsSound(text: bytes, m: State) returns (fs: Fields, f: State)
    requires Machine.Wf(text, m) && m.mode == InObject(false) && Run(text, m).Some?
    ensures WfFields(fs) && Has(text, m.ptr, FieldsText(fs)) && f.ptr == m.ptr + |FieldsText(fs)|
    ensures Machine.Wf(text, f) && Run(text, m) == Run(text, f) && f.mode.InObject? && Peek(text, f.ptr) == CLOSE_BRACE
    ensures f.path != [] && Shape(f) == Shape(m)
    decreases |text| - m.ptr, 1
  {
    hide Run, Step, IsPath, Has, Joined, Peek, AllSpace, TermText, WfTerm, IsBlank, AllReadable, NameText, G.MemberText;
    var pre, s := SkipSpace(text, m);
    SameShape(m, s);
    NameOrEnd(text, s);
    if Peek(text, s.ptr) == CLOSE_BRACE {
      fs, f := NoField(pre), s;
    } else {
      var name, preColon, postColon, n := NameSound(text, s);
      var t, e := TermSound(text, n);
      JoinedInside(text, n, e, n.ptr + |TermText(t)|);
      var post, q := SkipSpace(text, e);
      SameShape(e, q);
      CommaOrEnd(text, q);
      var comma, rest := false, NoField([]);
      f := q;
      HasNothing(text, q.ptr);
      NothingIsBlank();
      if Peek(text, q.ptr) == COMMA {
        comma := true;
        var r := Comma(text, q);
        SameShape(q, r);
        rest, f := FieldsSound(text, r);
      }
      fs := Field(pre, name, preColon, postColon, t, post, comma, rest);
      MemberTextIs(name, preColon, postColon, TermText(t));
      HasJoin(text, s.ptr, NameText(name, preColon, postColon), TermText(t));
      HasPieces(text, m.ptr, pre, G.MemberText(name, preColon, postColon, TermText(t)), post, CommaText(comma),
                FieldsText(rest));
    }
  }

  // The other way round: every text of the dialect is accepted

  lemma Blanks(text: bytes, s: State, w: bytes) returns (e: State)
    requires Machine.Wf(text, s) && (s.mode.Seek? || s.mode.InObject? || s.mode.Done?)
    requires AllSpace(w) && Has(text, s.ptr, w)
    ensures e == s.(ptr := s.ptr + |w|) && Machine.Wf(text, e) && Run(text, s) == Run(text, e)
    ensures Shape(e) == Shape(s) && (s.path != [] ==> TopKind(e) == TopKind(s))
  {
    hide Run, IsPath;
    SpaceRun(text, s, w);
    e := s.(ptr := s.ptr + |w|);
    SameShape(s, e);
  }

  lemma {:induction false} TermTakes(text: bytes, s: State, t: Term) returns (e: State)
    requires Machine.Wf(text, s) && s.mode == Seek(false, false) && WfTerm(t)
    requires Has(text, s.ptr, TermText(t)) && !IsNumberChar(Peek(text, s.ptr + |TermText(t)|))
    ensures Joined(text, s, e, s.ptr + |TermText(t)|) && Run(text, s) == Run(text, e)
    decreases t, 0
  {
    hide Run, Step, IsPath, Has, Joined, Peek, ElementsText, FieldsText, AllReadable, IsNumber;
    match t
    case Word(w) => e := WordTakes(text, s, w);
    case Numeral(l) => e := NumberTakes(text, s, l);
    case Text(cs) => e := TextTakes(text, s, cs);
    case List(es) =>
      Bracketed(text, s.ptr, OPEN_BRACKET, ElementsText(es), CLOSE_BRACKET);
      var m := Opens(text, s, ArrayKind);
      var f := ElementsTake(text, m, es);
      e := Closes(text, s, f, ArrayKind);
    case Record(fs) =>
      Bracketed(text, s.ptr, OPEN_BRACE, FieldsText(fs), CLOSE_BRACE);
      var m := Opens(text, s, ObjectKind);
      var f := FieldsTake(text, m, fs);
      e := Closes(text, s, f, ObjectKind);
  }

  lemma Bracketed(text: bytes, p: nat, open: byte, inner: bytes, close: byte)
    requires Has(text, p, [open] + (inner + [close]))
    ensures Peek(text, p) == open && Has(text, p + 1, inner) && Peek(text, p + 1 + |inner|) == close
  {
    hide Has;
    HasSplit(text, p, [open], inner + [close]);
    HasSplit(text, p + 1, inner, [close]);
    PeekAt(text, p, [open]);
    PeekAt(text, p + 1 + |inner|, [close]);
  }

  /** One item of a list that ends before a closing bracket: its pieces, and what stands after it. */
  lemma Spaced(text: bytes, p: nat, pre: bytes, item: bytes, post: bytes, comma: bool, rest: bytes)
    requires Has(text, p, pre + (item + (post + (CommaText(comma) + rest)))) && AllSpace(post)
      && (!comma ==> rest == [])
    requires var c := Peek(text, p + |pre + (item + (post + (CommaText(comma) + rest)))|);
      c == CLOSE_BRACKET || c == CLOSE_BRACE
    ensures Has(text, p, pre) && Has(text, p + |pre|, item) && Has(text, p + |pre| + |item|, post)
    ensures !IsNumberChar(Peek(text, p + |pre| + |item|))
    ensures var q := p + |pre| + |item| + |post|;
      comma ==> Peek(text, q) == COMMA && Has(text, q + 1, rest)
    ensures |pre + (item + (post + (CommaText(comma) + rest)))|
      == |pre| + |item| + |post| + if comma then 1 + |rest| else 0
  {
    hide Has, Peek, AllSpace;
    var q := p + |pre| + |item| + |post|;
    Separated(text, p, pre, item, post, CommaText(comma) + rest);
    if comma {
      HasSplit(text, q, [COMMA], rest);
      PeekAt(text, q, [COMMA]);
    }
  }

  lemma {:induction false} ElementsTake(text: bytes, m: State, es: Elements) returns (f: State)
    requires Machine.Wf(text, m) && m.mode == Seek(false, false) && m.path != [] && TopKind(m) == ArrayKind
    requires WfElements(es) && Has(text, m.ptr, ElementsText(es))
    requires Peek(text, m.ptr + |ElementsText(es)|) == CLOSE_BRACKET
    ensures Machine.Wf(text, f) && Run(text, m) == Run(text, f) && f.mode.Seek? && f.ptr == m.ptr + |ElementsText(es)|
    ensures f.path != [] && Shape(f) == Shape(m)
    decreases es, 1
  {
    hide Run, Step, IsPath, Has, Joined, Peek, AllSpace, TermText, WfTerm, CommaText;
    match es
    case NoElement(w) => f := Blanks(text, m, w);
    case Element(pre, item, post, comma, rest) =>
      Spaced(text, m.ptr, pre, TermText(item), post, comma, ElementsText(rest));
      var s := Blanks(text, m, pre);
      var e := TermTakes(text, s, item);
      JoinedInside(text, s, e, s.ptr + |TermText(item)|);
      f := Blanks(text, e, post);
      if comma {
        var r := Comma(text, f);
        SameShape(f, r);
        KindStays(f, r);
        f := ElementsTake(text, r, rest);
      }
  }

  lemma NamePieces(text: bytes, p: nat, name: seq<G.Char>, preColon: bytes, postColon: bytes, item: bytes)
    requires Has(text, p, G.MemberText(name, preColon, postColon, item))
    ensures Has(text, p, G.Quoted(name)) && Has(text, p + |G.Quoted(name)|, preColon)
    ensures var q := p + |G.Quoted(name)| + |preColon|;
      && Peek(text, q) == COLON && Has(text, q + 1, postColon) && Has(text, q + 1 + |postColon|, item)
      && p + |G.MemberText(name, preColon, postColon, item)| == q + 1 + |postColon| + |item|
  {
    hide Has, G.Quoted;
    HasSplit(text, p, G.Quoted(name), preColon + ([COLON] + (postColon + item)));
    var r := p + |G.Quoted(name)|;
    HasSplit(text, r, preColon, [COLON] + (postColon + item));
    HasSplit(text, r + |preColon|, [COLON], postColon + item);
    HasSplit(text, r + |preColon| + 1, postColon, item);
    PeekAt(text, r + |preColon|, [COLON]);
  }

  /** A name and its colon are read. */
  lemma NameTakes(text: bytes, s: State, name: seq<G.Char>, preColon: bytes, postColon: bytes, item: bytes)
    returns (e: State)
    requires Machine.Wf(text, s) && s.mode == InObject(false)
    requires AllReadable(name) && AllSpace(preColon) && AllSpace(postColon)
    requires Has(text, s.ptr, G.MemberText(name, preColon, postColon, item))
    ensures Machine.Wf(text, e) && Run(text, s) == Run(text, e) && Has(text, e.ptr, item)
    ensures e.ptr + |item| == s.ptr + |G.MemberText(name, preColon, postColon, item)| && e.mode == Seek(false, false)
    ensures e.path != [] && Shape(e) == Shape(s) && TopKind(e) == ObjectKind
  {
    hide Run, Step, IsPath, Has, Peek, AllSpace, AllReadable, G.CharsText, G.MemberText, G.Quoted;
    NamePieces(text, s.ptr, name, preColon, postColon, item);
    QuotedPieces(text, s.ptr, name);
    var b := NameBegins(text, s);
    var m := CharsTaken(text, b, name);
    var f := NameEnds(text, s, m);
    var g := Blanks(text, f, preColon);
    var h := Colon(text, g);
    SameShape(g, h);
    KindStays(g, h);
    e := Blanks(text, h, postColon);
  }

  lemma {:induction false} FieldsTake(text: bytes, m: State, fs: Fields) returns (f: State)
    requires Machine.Wf(text, m) && m.mode == InObject(false)
    requires WfFields(fs) && Has(text, m.ptr, FieldsText(fs)) && Peek(text, m.ptr + |FieldsText(fs)|) == CLOSE_BRACE
    ensures Machine.Wf(text, f) && Run(text, m) == Run(text, f) && f.mode.InObject? && f.ptr == m.ptr + |FieldsText(fs)|
    ensures f.path != [] && Shape(f) == Shape(m)
    decreases fs, 1
  {
    hide Run, Step, IsPath, Has, Joined, Peek, AllSpace, TermText, WfTerm, CommaText, G.MemberText, AllReadable;
    match fs
    case NoField(w) => f := Blanks(text, m, w);
    case Field(pre, name, preColon, postColon, item, post, comma, rest) =>
      var member := G.MemberText(name, preColon, postColon, TermText(item));
      Spaced(text, m.ptr, pre, member, post, comma, FieldsText(rest));
      var s := Blanks(text, m, pre);
      var n := NameTakes(text, s, name, preColon, postColon, TermText(item));
      var e := TermTakes(text, n, item);
      JoinedInside(text, n, e, n.ptr + |TermText(item)|);
      f := Blanks(text, e, post);
      if comma {
        var r := Comma(text, f);
        SameShape(f, r);
        f := FieldsTake(text, r, rest);
      }
  }

  // Whole texts

  /** After the value of a whole text only the end, or a NUL, is accepted. */
  lemma AtTheEnd(text: bytes, s: State)
    requires Machine.Wf(text, s) && s.mode.Done? && !IsBlank(Peek(text, s.ptr))
    ensures Run(text, s).Some? <==> Peek(text, s.ptr) == 0
  {
    hide IsPath;
  }

  lemma StartIs(text: bytes)
    ensures Machine.Wf(text, START) && Shape(START) == []
  {
  }

  lemma BodySound(text: bytes) returns (pre: bytes, t: Term, post: bytes, tail: bytes)
    requires Machine.Wf(text, START) && Run(text, START).Some?
    ensures IsBody(text, pre, t, post, tail)
  {
    hide Run, IsPath, Fits, Has, AllSpace, WfTerm, TermText, IsBlank;
    var s, e, f;
    StartIs(text);
    pre, s := SkipSpace(text, START);
    t, e := TermSound(text, s);
    JoinedDone(text, s, e, s.ptr + |TermText(t)|);
    post, f := SkipSpace(text, e);
    AtTheEnd(text, f);
    tail := text[f.ptr..];
    HasAll(text, f.ptr);
    HasJoin(text, e.ptr, post, tail);
    HasJoin(text, s.ptr, TermText(t), post + tail);
    HasJoin(text, 0, pre, TermText(t) + (post + tail));
    HasWhole(text, pre + (TermText(t) + (post + tail)));
  }

  lemma JoinedDone(text: bytes, s: State, e: State, p: nat)
    requires Joined(text, s, e, p) && s.path == []
    ensures Machine.Wf(text, e) && e.mode.Done? && e.ptr == p
  {
  }

  lemma HasAll(text: bytes, p: nat)
    requires p <= |text|
    ensures Has(text, p, text[p..])
  {
    assert text[p..p + |text[p..]|] == text[p..];
  }

  lemma HasWhole(text: bytes, w: bytes)
    requires Has(text, 0, w) && |w| == |text|
    ensures text == w
  {
    assert text[0..|text|] == text;
  }

  lemma BodyTakes(text: bytes, pre: bytes, t: Term, post: bytes, tail: bytes)
    requires IsBody(text, pre, t, post, tail)
    ensures Machine.Wf(text, START) && Run(text, START).Some?
  {
    hide Run, IsPath, Fits, Has, AllSpace, WfTerm, TermText, IsBlank, Peek;
    StartIs(text);
    HasAll(text, 0);
    assert text[0..] == text;
    HasSplit(text, 0, pre, TermText(t) + (post + tail));
    HasSplit(text, |pre|, TermText(t), post + tail);
    var q := |pre| + |TermText(t)|;
    HasSplit(text, q, post, tail);
    EndAhead(text, q, post, tail);
    var s := Blanks(text, START, pre);
    var e := TermTakes(text, s, t);
    JoinedDone(text, s, e, q);
    var f := Blanks(text, e, post);
    AtTheEnd(text, f);
  }

  lemma EndAhead(text: bytes, q: nat, post: bytes, tail: bytes)
    requires Has(text, q, post) && Has(text, q + |post|, tail) && q + |post| + |tail| == |text|
    requires AllSpace(post) && (tail != [] ==> tail[0] == 0)
    ensures !IsNumberChar(Peek(text, q)) && Peek(text, q + |post|) == 0 && !IsBlank(Peek(text, q + |post|))
  {
    if post != [] {
      PeekAt(text, q, post);
    }
    if tail != [] {
      PeekAt(text, q + |post|, tail);
    }
  }

  lemma BodyBegins(body: bytes, pre: bytes, t: Term, post: bytes, tail: bytes)
    requires IsBody(body, pre, t, post, tail)
    ensures StripBom(body) == body
  {
    assert TermText(t) != [] && TermText(t)[0] < 0x80 by {
      match t
      case Numeral(l) => FirstOfNumber(l);
      case _ =>
    }
    assert body[0] == if pre == [] then TermText(t)[0] else pre[0];
    assert |body| >= 3 ==> body[..3][0] == body[0];
  }

  lemma FirstOfNumber(l: Literal)
    requires IsNumber(l)
    ensures NumberText(l) != [] && NumberText(l)[0] < 0x80
  {
  }

  /** The parser accepts exactly the texts of the dialect. */
  lemma AcceptedIff(text: bytes)
    ensures Parse(text).Some? <==> InDialect(text)
  {
    hide Run, Machine.Wf, IsBody;
    StartIs(StripBom(text));
    if Parse(text).Some? {
      var pre, t, post, tail := BodySound(StripBom(text));
    }
    if InDialect(text) {
      var pre, t, post, tail :|
        || IsBody(text, pre, t, post, tail)
        || (|text| >= 3 && text[..3] == [0xEF, 0xBB, 0xBF] && IsBody(text[3..], pre, t, post, tail));
      if IsBody(text, pre, t, post, tail) {
        BodyBegins(text, pre, t, post, tail);
      }
      BodyTakes(StripBom(text), pre, t, post, tail);
    }
  }
}
