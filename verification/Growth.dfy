/** What an accepting run says about the states on its way: the final nodes extend the nodes of every state,
    object entries balance, and a number is skipped to its end. The second pass relies on these. */
module Growth {
  import opened Bytes
  import opened Values
  import opened Machine

  /** A node that may still gain names and children, and nothing else. */
  ghost predicate Grows(n: Node, m: Node) {
    m == n.(names := m.names, children := m.children) && n.names <= m.names && n.children <= m.children
  }

  /** The node under construction is a number or a string whose content is not settled. */
  ghost predicate Busy(s: State, i: int)
    requires IsPath(s.path, s.nodes)
  {
    s.path != [] && i == Top(s) && (s.mode.InNumber? || (s.mode.InString? && TopKind(s) == StringKind))
  }

  /** The final nodes f extend the nodes of state s. */
  ghost predicate Reaches(s: State, f: seq<Node>)
    requires Fits(s)
  {
    && |s.nodes| <= |f|
    && (forall i | 0 <= i < |s.nodes| && !Busy(s, i) :: Grows(s.nodes[i], f[i]))
    && (s.path != [] ==> f[Top(s)].parent == s.nodes[Top(s)].parent)
    && (s.mode.InNumber? ==> IsNumeric(f[Top(s)].kind))
    && (s.mode.InString? ==>
          var n, m := s.nodes[Top(s)], f[Top(s)];
          if n.kind == StringKind then m.kind == StringKind && s.mode.buf <= m.str
          else |n.names| < |m.names| && s.mode.buf <= m.names[|n.names|])
  }

  lemma FinishBack(s: State, ptr: nat, f: seq<Node>)
    requires s.path != [] && IsPath(s.path, s.nodes) && Reaches(Finish(s, ptr), f)
    ensures |s.nodes| <= |f| && forall i | 0 <= i < |s.nodes| :: Grows(s.nodes[i], f[i])
  {
    hide IsPath;
    var t := Finish(s, ptr);
    forall i | 0 <= i < |s.nodes| ensures Grows(s.nodes[i], f[i]) {
      assert !Busy(t, i);
      assert Grows(t.nodes[i], f[i]);
    }
  }

  lemma StringBack(text: bytes, s: State, t: State, f: seq<Node>)
    requires Machine.Wf(text, s) && s.mode.InString? && Step(text, s) == Next(t) && Machine.Wf(text, t) && Reaches(t, f)
    ensures Reaches(s, f)
  {
    hide IsPath, Unescape, Finish;
    var b := Peek(text, s.ptr);
    var top := Top(s);
    assert top < |s.nodes|;
    if !s.mode.escaped && b == QUOTE {
      var n := s.nodes[top];
      if n.kind == StringKind {
        var c := SetTop(s, n.(str := s.mode.buf));
        assert t == Finish(c, s.ptr + 1);
        FinishBack(c, s.ptr + 1, f);
        forall i | 0 <= i < |s.nodes| && !Busy(s, i) ensures Grows(s.nodes[i], f[i]) {
          assert c.nodes[i] == s.nodes[i];
        }
        assert Grows(c.nodes[top], f[top]);
      } else {
        assert t.nodes[top] == n.(names := n.names + [s.mode.buf]);
        forall i | 0 <= i < |s.nodes| && !Busy(s, i) ensures Grows(s.nodes[i], f[i]) {
          assert !Busy(t, i);
          assert Grows(t.nodes[i], f[i]);
        }
        assert f[top].names[|n.names|] == t.nodes[top].names[|n.names|];
      }
    } else {
      assert t.nodes == s.nodes && t.path == s.path;
      forall i | 0 <= i < |s.nodes| && !Busy(s, i) ensures Grows(s.nodes[i], f[i]) {
        assert !Busy(t, i);
      }
    }
  }

  lemma PushBack(s: State, n: Node, t: State, f: seq<Node>)
    requires Fits(s) && s.mode.Seek? && Fits(t) && Reaches(t, f)
    requires t.nodes == Push(s, n).nodes && t.path == Push(s, n).path
    ensures Reaches(s, f)
  {
    hide IsPath;
    forall i | 0 <= i < |s.nodes| && !Busy(s, i) ensures Grows(s.nodes[i], f[i]) {
      assert t.nodes[i] == s.nodes[i] && !Busy(t, i);
    }
  }

  lemma SeekBack(text: bytes, s: State, t: State, f: seq<Node>)
    requires Machine.Wf(text, s) && s.mode.Seek? && Step(text, s) == Next(t) && Machine.Wf(text, t) && Reaches(t, f)
    ensures Reaches(s, f)
  {
    hide IsPath, Push, Finish, Reaches;
    var b := Peek(text, s.ptr);
    if IsSpace(b) || s.mode.comma || s.mode.colon || b == CLOSE_BRACKET {
      SeekBackSame(text, s, t, f);
    } else if b == OPEN_BRACE {
      PushBack(s, Fresh(ObjectKind), t, f);
    } else if b == OPEN_BRACKET {
      PushBack(s, Fresh(ArrayKind), t, f);
    } else if b == QUOTE {
      PushBack(s, Fresh(StringKind), t, f);
    } else if b == LOWER_T {
      WordBack(s, Fresh(BooleanKind).(boolean := 1), s.ptr + 4, f);
    } else if b == LOWER_F {
      WordBack(s, Fresh(BooleanKind).(boolean := 0), s.ptr + 5, f);
    } else if b == LOWER_N {
      assert Fresh(NullKind).(boolean := 0) == Fresh(NullKind);
      WordBack(s, Fresh(NullKind), s.ptr + 4, f);
    } else {
      PushBack(s, Fresh(IntegerKind), t, f);
    }
  }

  lemma WordBack(s: State, n: Node, ptr: nat, f: seq<Node>)
    requires Fits(s) && s.mode == Seek(false, false) && Reaches(Finish(Push(s, n), ptr), f)
    ensures Reaches(s, f)
  {
    hide IsPath, Finish;
    var m := Push(s, n);
    FinishBack(m, ptr, f);
    forall i | 0 <= i < |s.nodes| ensures Grows(s.nodes[i], f[i]) {
      assert m.nodes[i] == s.nodes[i];
    }
  }

  lemma SeekBackSame(text: bytes, s: State, t: State, f: seq<Node>)
    requires Machine.Wf(text, s) && s.mode.Seek? && Step(text, s) == Next(t) && Machine.Wf(text, t) && Reaches(t, f)
    requires var b := Peek(text, s.ptr); IsSpace(b) || s.mode.comma || s.mode.colon || b == CLOSE_BRACKET
    ensures Reaches(s, f)
  {
    hide IsPath, Finish;
    if !IsSpace(Peek(text, s.ptr)) && Peek(text, s.ptr) == CLOSE_BRACKET {
      FinishBack(s, s.ptr + 1, f);
    } else {
      assert t.nodes == s.nodes && t.path == s.path;
      forall i | 0 <= i < |s.nodes| ensures Grows(s.nodes[i], f[i]) {
        assert !Busy(t, i);
      }
    }
  }

  lemma ObjectBack(text: bytes, s: State, t: State, f: seq<Node>)
    requires Machine.Wf(text, s) && s.mode.InObject? && Step(text, s) == Next(t) && Machine.Wf(text, t) && Reaches(t, f)
    ensures Reaches(s, f)
  {
    hide IsPath, Finish;
    if !IsSpace(Peek(text, s.ptr)) && Peek(text, s.ptr) == CLOSE_BRACE {
      FinishBack(s, s.ptr + 1, f);
    } else {
      assert t.nodes == s.nodes && t.path == s.path;
      forall i | 0 <= i < |s.nodes| ensures Grows(s.nodes[i], f[i]) {
        assert !Busy(t, i);
      }
    }
  }

  /** Two states of one number node. */
  ghost predicate Rescaled(n: Node, m: Node) {
    m == n.(kind := m.kind, integer := m.integer, dbl := m.dbl) && IsNumeric(m.kind)
  }

  lemma EndShape(s: State, dbl: real) returns (n: Node)
    requires s.mode.InNumber? && s.path != [] && Fits(s)
    ensures Rescaled(s.nodes[Top(s)], n) && EndNumber(s, dbl) == Finish(SetTop(s, n), s.ptr)
  {
    hide IsPath, Finish;
    assert Top(s) < |s.nodes|;
    var m := s.nodes[Top(s)];
    n := if !s.mode.num.negative then m.(dbl := dbl)
         else if m.kind == IntegerKind then m.(integer := -m.integer, dbl := dbl)
         else m.(dbl := -dbl);
  }

  /** What a step inside a number does: it goes on with the node on top changed, or ends with it joined to its
      parent. */
  lemma NumberStepShape(text: bytes, s: State, t: State) returns (n: Node)
    requires Machine.Wf(text, s) && s.mode.InNumber? && Step(text, s) == Next(t)
    ensures Rescaled(s.nodes[Top(s)], n)
    ensures if t.mode.InNumber? then
              && t == SetTop(s, n).(ptr := t.ptr, mode := t.mode, decimal := t.decimal)
              && (t.ptr == s.ptr || (t.ptr == s.ptr + 1 && IsNumberChar(Peek(text, s.ptr))))
            else t == Finish(SetTop(s, n), s.ptr)
  {
    hide IsPath, Finish, WouldOverflow, Scaled, EndNumber;
    var top := Top(s);
    assert top < |s.nodes|;
    if t.mode.InNumber? {
      n := t.nodes[top];
      assert s.nodes[top := s.nodes[top]] == s.nodes;
    } else {
      var m := s.nodes[top];
      n := EndShape(s, Scaled(s.mode.num, m.kind, m.dbl));
    }
  }

  lemma NumberBack(text: bytes, s: State, t: State, f: seq<Node>)
    requires Machine.Wf(text, s) && s.mode.InNumber? && Step(text, s) == Next(t) && Machine.Wf(text, t) && Reaches(t, f)
    ensures Reaches(s, f)
  {
    hide IsPath, Finish, Step;
    var n := NumberStepShape(text, s, t);
    var c := SetTop(s, n);
    if !t.mode.InNumber? {
      FinishBack(c, s.ptr, f);
      assert Grows(c.nodes[Top(s)], f[Top(s)]);
    }
    forall i | 0 <= i < |s.nodes| && !Busy(s, i) ensures Grows(s.nodes[i], f[i]) {
      assert c.nodes[i] == s.nodes[i];
      assert t.mode.InNumber? ==> !Busy(t, i);
    }
  }

  /** Every state of an accepting run is extended by the final nodes. */
  lemma {:induction false} RunReaches(text: bytes, s: State, f: seq<Node>)
    requires Machine.Wf(text, s) && Run(text, s) == Some(f)
    ensures Reaches(s, f)
    decreases |text| - s.ptr, Rank(s)
  {
    hide Step, Reaches, IsPath;
    var o := Step(text, s);
    if o.Next? {
      RunReaches(text, o.s, f);
      match s.mode
      case InString(_, _) => StringBack(text, s, o.s, f);
      case Seek(_, _) => SeekBack(text, s, o.s, f);
      case InObject(_) => ObjectBack(text, s, o.s, f);
      case InNumber(_) => NumberBack(text, s, o.s, f);
      case Done => DoneBack(text, s, o.s, f);
    } else {
      AcceptReaches(text, s);
    }
  }

  lemma DoneBack(text: bytes, s: State, t: State, f: seq<Node>)
    requires Machine.Wf(text, s) && s.mode.Done? && Step(text, s) == Next(t) && Machine.Wf(text, t) && Reaches(t, f)
    ensures Reaches(s, f)
  {
    hide IsPath;
    forall i | 0 <= i < |s.nodes| ensures Grows(s.nodes[i], f[i]) {
      assert !Busy(t, i);
    }
  }

  lemma AcceptReaches(text: bytes, s: State)
    requires Machine.Wf(text, s) && Step(text, s) == Accept
    ensures Reaches(s, s.nodes) && s.mode.Done?
  {
    hide IsPath;
    assert s.mode.Done?;
    forall i | 0 <= i < |s.nodes| ensures Grows(s.nodes[i], s.nodes[i]) {
      var n := s.nodes[i];
      assert n == n.(names := n.names, children := n.children);
    }
  }

  /** Once a value is complete no number character may follow. */
  lemma AfterNumber(text: bytes, s: State)
    requires Machine.Wf(text, s) && (s.mode == Seek(true, false) || s.mode == InObject(true) || s.mode == Done)
    requires Run(text, s).Some?
    ensures !IsNumberChar(Peek(text, s.ptr))
  {
    hide IsPath, Finish;
  }

  /** A number of an accepted text ends at the first character that is not a number character, and joins its parent
      there. */
  lemma {:induction false} NumberSkip(text: bytes, s: State, f: seq<Node>) returns (n: Node, e: State)
    requires Machine.Wf(text, s) && s.mode.InNumber? && Run(text, s) == Some(f) && Balanced(s)
    ensures Rescaled(s.nodes[Top(s)], n)
    ensures e == Finish(SetTop(s, n).(decimal := e.decimal), e.ptr)
    ensures s.ptr <= e.ptr <= |text| && (forall i | s.ptr <= i < e.ptr :: IsNumberChar(text[i]))
    ensures !IsNumberChar(Peek(text, e.ptr)) && Machine.Wf(text, e) && Run(text, e) == Some(f) && Balanced(e)
    decreases |text| - s.ptr, Rank(s)
  {
    hide IsPath, Finish, Step, Run, Balanced;
    var t := NumberNext(text, s, f);
    n := NumberStepShape(text, s, t);
    StepBalanced(text, s, t);
    if t.mode.InNumber? {
      var m := n;
      n, e := NumberSkip(text, t, f);
      assert t.nodes[Top(s) := n] == s.nodes[Top(s) := n];
      assert SetTop(t, n).(decimal := e.decimal) == SetTop(s, n).(ptr := t.ptr, mode := t.mode, decimal := e.decimal);
      FinishIgnores(SetTop(t, n).(decimal := e.decimal), SetTop(s, n).(decimal := e.decimal), e.ptr);
    } else {
      e := t;
      assert SetTop(s, n).(decimal := e.decimal) == SetTop(s, n) by { FinishDecimal(SetTop(s, n), s.ptr); }
      AfterNumber(text, e);
    }
  }

  lemma NumberNext(text: bytes, s: State, f: seq<Node>) returns (t: State)
    requires Machine.Wf(text, s) && s.mode.InNumber? && Run(text, s) == Some(f)
    ensures Step(text, s) == Next(t) && Machine.Wf(text, t) && Run(text, t) == Some(f)
    ensures s.ptr <= t.ptr && (s.ptr == t.ptr ==> Rank(t) < Rank(s))
    ensures !t.mode.InNumber? ==> t.mode == Seek(true, false) || t.mode == InObject(true) || t.mode == Done
  {
    hide IsPath;
    assert Step(text, s) != Accept;
    t := Step(text, s).s;
  }

  lemma FinishIgnores(s: State, t: State, ptr: nat)
    requires s.path != [] && IsPath(s.path, s.nodes) && s.path == t.path && s.nodes == t.nodes && s.decimal == t.decimal
    ensures Finish(s, ptr) == Finish(t, ptr)
  {
  }

  lemma FinishDecimal(s: State, ptr: nat)
    requires s.path != [] && IsPath(s.path, s.nodes)
    ensures Finish(s, ptr).decimal == s.decimal
  {
  }

  /** An object has as many names as children, and one more while a child of it is awaited or under construction. */
  ghost predicate Balanced(s: State) {
    forall i | 0 <= i < |s.nodes| ::
      |s.nodes[i].names| == if s.nodes[i].kind == ObjectKind then |s.nodes[i].children| + Awaited(s, i) else 0
  }

  ghost function Awaited(s: State, i: nat): nat {
    if i in s.path && (i != s.path[|s.path| - 1] || s.mode.Seek?) then 1 else 0
  }

  lemma FinishBalanced(s: State, ptr: nat)
    requires s.path != [] && IsPath(s.path, s.nodes) && Balanced(s) && (s.mode.Seek? ==> TopKind(s) == ArrayKind)
    ensures Balanced(Finish(s, ptr))
  {
    var t := Finish(s, ptr);
    forall i | 0 <= i < |t.nodes|
      ensures |t.nodes[i].names| == if t.nodes[i].kind == ObjectKind then |t.nodes[i].children| + Awaited(t, i) else 0
    {
      FinishOneBalanced(s, ptr, i);
    }
  }

  lemma FinishOneBalanced(s: State, ptr: nat, i: nat)
    requires s.path != [] && IsPath(s.path, s.nodes) && Balanced(s) && (s.mode.Seek? ==> TopKind(s) == ArrayKind)
    requires i < |s.nodes|
    ensures var t := Finish(s, ptr);
      && |t.nodes| == |s.nodes|
      && |t.nodes[i].names| == if t.nodes[i].kind == ObjectKind then |t.nodes[i].children| + Awaited(t, i) else 0
  {
    var n := s.nodes[i];
    assert |n.names| == if n.kind == ObjectKind then |n.children| + Awaited(s, i) else 0;
    if |s.path| > 1 {
      PathInit(s.path, i);
      assert s.path[..|s.path| - 1][|s.path| - 2] == s.path[|s.path| - 2];
    }
  }

  lemma PathInit(path: seq<nat>, i: nat)
    requires |path| > 0
    ensures i in path <==> i in path[..|path| - 1] || i == path[|path| - 1]
  {
    assert path == path[..|path| - 1] + [path[|path| - 1]];
  }

  lemma PushBalanced(s: State, n: Node, t: State)
    requires Fits(s) && s.mode.Seek? && Balanced(s) && n.names == [] && n.children == []
    requires t.nodes == Push(s, n).nodes && t.path == Push(s, n).path && (t.mode.Seek? ==> n.kind == ArrayKind)
    ensures Balanced(t)
  {
    forall i | 0 <= i < |t.nodes|
      ensures |t.nodes[i].names| == if t.nodes[i].kind == ObjectKind then |t.nodes[i].children| + Awaited(t, i) else 0
    {
      if i < |s.nodes| {
        var m := s.nodes[i];
        assert t.nodes[i] == m;
        assert |m.names| == if m.kind == ObjectKind then |m.children| + Awaited(s, i) else 0;
        assert i in t.path <==> i in s.path;
      }
    }
  }

  /** The node on top changes outside its names and children. */
  lemma SetTopBalanced(s: State, n: Node, t: State)
    requires s.path != [] && IsPath(s.path, s.nodes) && Balanced(s) && !IsContainer(TopKind(s)) && !IsContainer(n.kind)
    requires n == s.nodes[Top(s)].(kind := n.kind, str := n.str, integer := n.integer, dbl := n.dbl)
    requires t.path == s.path && t.nodes == SetTop(s, n).nodes && !s.mode.Seek? && !t.mode.Seek?
    ensures Balanced(t)
  {
    hide IsPath;
    forall i | 0 <= i < |t.nodes|
      ensures |t.nodes[i].names| == if t.nodes[i].kind == ObjectKind then |t.nodes[i].children| + Awaited(t, i) else 0
    {
      var m := s.nodes[i];
      assert |m.names| == if m.kind == ObjectKind then |m.children| + Awaited(s, i) else 0;
    }
  }

  lemma SameBalanced(s: State, t: State)
    requires Balanced(s) && t.path == s.path && t.nodes == s.nodes && (t.mode.Seek? <==> s.mode.Seek?)
    ensures Balanced(t)
  {
    forall i | 0 <= i < |t.nodes| ensures Awaited(t, i) == Awaited(s, i) {}
  }

  lemma StringBalanced(text: bytes, s: State, t: State)
    requires Machine.Wf(text, s) && s.mode.InString? && Step(text, s) == Next(t) && Balanced(s)
    ensures Balanced(t)
  {
    hide IsPath, Unescape, Finish, Balanced, SetTop;
    assert Top(s) < |s.nodes|;
    var n := s.nodes[Top(s)];
    if !s.mode.escaped && Peek(text, s.ptr) == QUOTE {
      if n.kind == StringKind {
        var m := n.(str := s.mode.buf);
        SetTopBalanced(s, m, SetTop(s, m));
        FinishBalanced(SetTop(s, m), s.ptr + 1);
      } else {
        NameBalanced(s, t);
      }
    } else {
      SameBalanced(s, t);
    }
  }

  lemma NameBalanced(s: State, t: State)
    requires s.path != [] && IsPath(s.path, s.nodes) && s.mode.InString? && TopKind(s) == ObjectKind && Balanced(s)
    requires var n := s.nodes[Top(s)];
      t == SetTop(s, n.(names := n.names + [s.mode.buf])).(ptr := t.ptr, mode := Seek(false, true))
    ensures Balanced(t)
  {
    hide IsPath;
    forall i | 0 <= i < |t.nodes|
      ensures |t.nodes[i].names| == if t.nodes[i].kind == ObjectKind then |t.nodes[i].children| + Awaited(t, i) else 0
    {
      var m := s.nodes[i];
      assert |m.names| == if m.kind == ObjectKind then |m.children| + Awaited(s, i) else 0;
    }
  }

  lemma SeekBalanced(text: bytes, s: State, t: State)
    requires Machine.Wf(text, s) && s.mode.Seek? && Step(text, s) == Next(t) && Balanced(s)
    ensures Balanced(t)
  {
    hide IsPath, Finish, Push, Balanced;
    var b := Peek(text, s.ptr);
    if IsSpace(b) {
      SameBalanced(s, t);
    } else if b == CLOSE_BRACKET {
      FinishBalanced(s, s.ptr + 1);
    } else if s.mode.comma || s.mode.colon {
      SameBalanced(s, t);
    } else if b == OPEN_BRACE {
      PushBalanced(s, Fresh(ObjectKind), t);
    } else if b == OPEN_BRACKET {
      PushBalanced(s, Fresh(ArrayKind), t);
    } else if b == QUOTE {
      PushBalanced(s, Fresh(StringKind), t);
    } else if b == LOWER_T {
      WordBalanced(s, Fresh(BooleanKind).(boolean := 1), s.ptr + 4);
    } else if b == LOWER_F {
      WordBalanced(s, Fresh(BooleanKind).(boolean := 0), s.ptr + 5);
    } else if b == LOWER_N {
      WordBalanced(s, Fresh(NullKind).(boolean := 0), s.ptr + 4);
    } else {
      PushBalanced(s, Fresh(IntegerKind), t);
    }
  }

  lemma WordBalanced(s: State, n: Node, ptr: nat)
    requires Fits(s) && s.mode == Seek(false, false) && Balanced(s) && n.names == [] && n.children == []
      && !IsContainer(n.kind)
    ensures Balanced(Finish(Push(s, n), ptr))
  {
    hide IsPath, Finish, Balanced;
    var m := Push(s, n).(mode := Done);
    PushBalanced(s, n, m);
    FinishBalanced(m, ptr);
    FinishIgnores(m, Push(s, n), ptr);
  }

  lemma ObjectBalanced(text: bytes, s: State, t: State)
    requires Machine.Wf(text, s) && s.mode.InObject? && Step(text, s) == Next(t) && Balanced(s)
    ensures Balanced(t)
  {
    hide IsPath, Finish, Balanced;
    if !IsSpace(Peek(text, s.ptr)) && Peek(text, s.ptr) == CLOSE_BRACE {
      FinishBalanced(s, s.ptr + 1);
    } else {
      SameBalanced(s, t);
    }
  }

  lemma NumberBalanced(text: bytes, s: State, t: State)
    requires Machine.Wf(text, s) && s.mode.InNumber? && Step(text, s) == Next(t) && Balanced(s)
    ensures Balanced(t)
  {
    hide IsPath, Finish, Balanced, Step, SetTop;
    var n := NumberStepShape(text, s, t);
    SetTopBalanced(s, n, SetTop(s, n));
    if t.mode.InNumber? {
      SetTopBalanced(s, n, t);
    } else {
      FinishBalanced(SetTop(s, n), s.ptr);
    }
  }

  lemma StepBalanced(text: bytes, s: State, t: State)
    requires Machine.Wf(text, s) && Step(text, s) == Next(t) && Balanced(s)
    ensures Balanced(t)
  {
    hide IsPath, Finish, Balanced, Step;
    match s.mode
    case InString(_, _) => StringBalanced(text, s, t);
    case Seek(_, _) => SeekBalanced(text, s, t);
    case InObject(_) => ObjectBalanced(text, s, t);
    case InNumber(_) => NumberBalanced(text, s, t);
    case Done => DoneSame(text, s, t); SameBalanced(s, t);
  }

  lemma DoneSame(text: bytes, s: State, t: State)
    requires Machine.Wf(text, s) && s.mode.Done? && Step(text, s) == Next(t)
    ensures t == s.(ptr := s.ptr + 1)
  {
    hide IsPath;
  }

  /** In the nodes of an accepted text every object has as many names as children, and nothing else has names. */
  lemma {:induction false} RunBalanced(text: bytes, s: State, f: seq<Node>)
    requires Machine.Wf(text, s) && Run(text, s) == Some(f) && Balanced(s)
    ensures forall i | 0 <= i < |f| :: |f[i].names| == if f[i].kind == ObjectKind then |f[i].children| else 0
    decreases |text| - s.ptr, Rank(s)
  {
    hide Step, IsPath, Balanced;
    var o := Step(text, s);
    if o.Next? {
      StepBalanced(text, s, o.s);
      RunBalanced(text, o.s, f);
    } else {
      AcceptReaches(text, s);
      DoneBalanced(s);
    }
  }

  lemma DoneBalanced(s: State)
    requires Fits(s) && s.mode.Done? && Balanced(s)
    ensures forall i | 0 <= i < |s.nodes| ::
      |s.nodes[i].names| == if s.nodes[i].kind == ObjectKind then |s.nodes[i].children| else 0
  {
    forall i | 0 <= i < |s.nodes| ensures Awaited(s, i) == 0 {}
  }
}
