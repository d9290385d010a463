/** The nodes of an accepted text form one tree: parents and children tell the same story, and every node but the first
    hangs from exactly one place. */
module Kinship {
  import opened Bytes
  import opened Values
  import opened Machine
  import opened Growth

  /** What node i says about the nodes around it while the nodes on the path are not yet in their parents' lists. */
  ghost predicate Related(s: State, i: nat)
    requires i < |s.nodes|
  {
    var n := s.nodes[i];
    && (i == 0 <==> n.parent == -1)
    && (i > 0 && i !in s.path ==> 0 <= n.parent < i && i in s.nodes[n.parent].children)
    && (n.children != [] ==> IsContainer(n.kind))
    && (forall k | 0 <= k < |n.children| ::
          i < n.children[k] < |s.nodes| && s.nodes[n.children[k]].parent == i && n.children[k] !in s.path)
    && (forall j, k | 0 <= j < k < |n.children| :: n.children[j] < n.children[k])
  }

  /** Children of a node on the path were taken before the next node of the path. */
  ghost predicate Older(s: State)
    requires IsPath(s.path, s.nodes)
  {
    forall j, k | 0 <= j < |s.path| - 1 && 0 <= k < |s.nodes[s.path[j]].children| ::
      s.nodes[s.path[j]].children[k] < s.path[j + 1]
  }

  ghost predicate Kin(s: State) {
    && IsPath(s.path, s.nodes) && (s.path == [] ==> s.nodes == [])
    && (forall i | 0 <= i < |s.nodes| :: Related(s, i)) && Older(s)
  }

  lemma SameKin(s: State, t: State)
    requires Kin(s) && t.path == s.path && t.nodes == s.nodes
    ensures Kin(t)
  {
    hide IsPath;
    forall i | 0 <= i < |t.nodes| ensures Related(t, i) {
      assert Related(s, i);
    }
  }

  lemma PushKin(s: State, n: Node, t: State)
    requires Fits(s) && s.mode.Seek? && Kin(s) && n.children == []
    requires t.nodes == Push(s, n).nodes && t.path == Push(s, n).path
    ensures Kin(t)
  {
    forall i | 0 <= i < |t.nodes| ensures Related(t, i) {
      if i < |s.nodes| {
        assert Related(s, i) && t.nodes[i] == s.nodes[i];
        assert forall j | 0 <= j < |s.nodes| :: j in t.path <==> j in s.path;
      }
    }
    forall j, k | 0 <= j < |t.path| - 1 && 0 <= k < |t.nodes[t.path[j]].children|
      ensures t.nodes[t.path[j]].children[k] < t.path[j + 1]
    {
      assert Related(s, s.path[j]) && t.nodes[s.path[j]] == s.nodes[s.path[j]];
    }
  }

  lemma SetTopKin(s: State, n: Node, t: State)
    requires s.path != [] && Kin(s)
    requires n.parent == s.nodes[Top(s)].parent && n.children == s.nodes[Top(s)].children
    requires IsContainer(s.nodes[Top(s)].kind) ==> IsContainer(n.kind)
    requires t.path == s.path && t.nodes == SetTop(s, n).nodes
    ensures Kin(t)
  {
    assert IsPath(t.path, t.nodes);
    hide IsPath;
    forall i | 0 <= i < |t.nodes| ensures Related(t, i) {
      assert Related(s, i);
    }
  }

  lemma FinishKin(s: State, ptr: nat)
    requires s.path != [] && Kin(s)
    ensures Kin(Finish(s, ptr))
  {
    var t := Finish(s, ptr);
    if |s.path| == 1 {
      SameKin(s, t);
    } else {
      FinishFits(s, ptr);
      forall i | 0 <= i < |t.nodes| ensures Related(t, i) {
        FinishRelated(s, ptr, i);
      }
      forall j, k | 0 <= j < |t.path| - 1 && 0 <= k < |t.nodes[t.path[j]].children|
        ensures t.nodes[t.path[j]].children[k] < t.path[j + 1]
      {
        assert t.nodes[t.path[j]] == s.nodes[s.path[j]];
      }
    }
  }

  lemma FinishFits(s: State, ptr: nat)
    requires s.path != [] && IsPath(s.path, s.nodes)
    ensures Fits(Finish(s, ptr)) && |Finish(s, ptr).nodes| == |s.nodes|
  {
  }

  lemma FinishRelated(s: State, ptr: nat, i: nat)
    requires |s.path| > 1 && Kin(s) && i < |s.nodes|
    ensures |Finish(s, ptr).nodes| == |s.nodes| && Related(Finish(s, ptr), i)
  {
    var t := Finish(s, ptr);
    var p, top := s.path[|s.path| - 2], Top(s);
    assert Related(s, i) && Related(s, p) && p < top < |s.nodes| && s.nodes[top].parent == p
      && IsContainer(s.nodes[p].kind);
    assert forall k | 0 <= k < |s.nodes[p].children| :: s.nodes[p].children[k] < top;
    assert t.nodes == s.nodes[p := s.nodes[p].(children := s.nodes[p].children + [top])];
    PathShrinks(s.path);
    hide IsPath, Finish, Older;
    Moved(s, t, p, top, i);
  }

  lemma PathShrinks(path: seq<nat>)
    requires path != [] && forall j, k | 0 <= j < k < |path| :: path[j] < path[k]
    ensures forall i: nat :: i in path[..|path| - 1] <==> i in path && i != path[|path| - 1]
  {
    forall i: nat ensures i in path[..|path| - 1] <==> i in path && i != path[|path| - 1] {
      PathInit(path, i);
    }
  }

  /** The last node of the path moves from there into its parent's list. */
  lemma Moved(s: State, t: State, p: nat, top: nat, i: nat)
    requires i < |s.nodes| && p < top < |s.nodes| && Related(s, i) && Related(s, p)
    requires s.nodes[top].parent == p && IsContainer(s.nodes[p].kind)
    requires forall k | 0 <= k < |s.nodes[p].children| :: s.nodes[p].children[k] < top
    requires t.nodes == s.nodes[p := s.nodes[p].(children := s.nodes[p].children + [top])]
    requires forall x: nat :: x in t.path <==> x in s.path && x != top
    ensures Related(t, i)
  {
    if i == p {
      assert t.nodes[p].children[|s.nodes[p].children|] == top;
    } else if i == top {
      assert top == t.nodes[p].children[|s.nodes[p].children|];
    }
    assert forall x | x in s.nodes[p].children :: x in t.nodes[p].children;
  }

  // Every step

  lemma StringKin(text: bytes, s: State, t: State)
    requires Machine.Wf(text, s) && s.mode.InString? && Step(text, s) == Next(t) && Kin(s)
    ensures Kin(t)
  {
    hide IsPath, Unescape, Finish, Kin, SetTop;
    assert Top(s) < |s.nodes|;
    var n := s.nodes[Top(s)];
    if !s.mode.escaped && Peek(text, s.ptr) == QUOTE {
      if n.kind == StringKind {
        var m := n.(str := s.mode.buf);
        SetTopKin(s, m, SetTop(s, m));
        FinishKin(SetTop(s, m), s.ptr + 1);
      } else {
        SetTopKin(s, n.(names := n.names + [s.mode.buf]), t);
      }
    } else {
      SameKin(s, t);
    }
  }

  lemma SeekKin(text: bytes, s: State, t: State)
    requires Machine.Wf(text, s) && s.mode.Seek? && Step(text, s) == Next(t) && Kin(s)
    ensures Kin(t)
  {
    hide IsPath, Finish, Push, Kin;
    var b := Peek(text, s.ptr);
    if IsSpace(b) {
      SameKin(s, t);
    } else if b == CLOSE_BRACKET {
      FinishKin(s, s.ptr + 1);
    } else if s.mode.comma || s.mode.colon {
      SameKin(s, t);
    } else if b == OPEN_BRACE {
      PushKin(s, Fresh(ObjectKind), t);
    } else if b == OPEN_BRACKET {
      PushKin(s, Fresh(ArrayKind), t);
    } else if b == QUOTE {
      PushKin(s, Fresh(StringKind), t);
    } else if b == LOWER_T {
      WordKin(s, Fresh(BooleanKind).(boolean := 1), s.ptr + 4);
    } else if b == LOWER_F {
      WordKin(s, Fresh(BooleanKind).(boolean := 0), s.ptr + 5);
    } else if b == LOWER_N {
      WordKin(s, Fresh(NullKind).(boolean := 0), s.ptr + 4);
    } else {
      PushKin(s, Fresh(IntegerKind), t);
    }
  }

  lemma WordKin(s: State, n: Node, ptr: nat)
    requires Fits(s) && s.mode == Seek(false, false) && Kin(s) && n.children == []
    ensures Kin(Finish(Push(s, n), ptr))
  {
    hide IsPath, Finish, Kin;
    PushKin(s, n, Push(s, n));
    FinishKin(Push(s, n), ptr);
  }

  lemma ObjectKin(text: bytes, s: State, t: State)
    requires Machine.Wf(text, s) && s.mode.InObject? && Step(text, s) == Next(t) && Kin(s)
    ensures Kin(t)
  {
    hide IsPath, Finish, Kin;
    if !IsSpace(Peek(text, s.ptr)) && Peek(text, s.ptr) == CLOSE_BRACE {
      FinishKin(s, s.ptr + 1);
    } else {
      SameKin(s, t);
    }
  }

  lemma NumberKin(text: bytes, s: State, t: State)
    requires Machine.Wf(text, s) && s.mode.InNumber? && Step(text, s) == Next(t) && Kin(s)
    ensures Kin(t)
  {
    hide IsPath, Finish, Kin, Step, SetTop;
    var n := NumberStepShape(text, s, t);
    SetTopKin(s, n, SetTop(s, n));
    if t.mode.InNumber? {
      SetTopKin(s, n, t);
    } else {
      FinishKin(SetTop(s, n), s.ptr);
    }
  }

  lemma StepKin(text: bytes, s: State, t: State)
    requires Machine.Wf(text, s) && Step(text, s) == Next(t) && Kin(s)
    ensures Kin(t)
  {
    hide IsPath, Finish, Kin, Step;
    match s.mode
    case InString(_, _) => StringKin(text, s, t);
    case Seek(_, _) => SeekKin(text, s, t);
    case InObject(_) => ObjectKin(text, s, t);
    case InNumber(_) => NumberKin(text, s, t);
    case Done => DoneSame(text, s, t); SameKin(s, t);
  }

  /** Node i of a whole tree: it stands among its parent's children, and its own children name it as their parent. */
  predicate Placed(f: seq<Node>, i: nat)
    requires i < |f|
  {
    var n := f[i];
    && (i > 0 ==> 0 <= n.parent < i && i in f[n.parent].children)
    && (n.children != [] ==> IsContainer(n.kind))
    && (forall k | 0 <= k < |n.children| :: i < n.children[k] < |f| && f[n.children[k]].parent == i)
    && (forall j, k | 0 <= j < k < |n.children| :: n.children[j] < n.children[k])
  }

  predicate OneTree(f: seq<Node>) {
    f != [] && f[0].parent == -1 && forall i | 0 <= i < |f| :: Placed(f, i)
  }

  lemma {:induction false} RunKin(text: bytes, s: State, f: seq<Node>)
    requires Machine.Wf(text, s) && Run(text, s) == Some(f) && Kin(s)
    ensures OneTree(f)
    decreases |text| - s.ptr, Rank(s)
  {
    hide Step, IsPath, Kin, OneTree;
    var o := Step(text, s);
    if o.Next? {
      StepKin(text, s, o.s);
      RunKin(text, o.s, f);
    } else {
      AcceptReaches(text, s);
      DoneTree(s);
    }
  }

  lemma DoneTree(s: State)
    requires Fits(s) && s.mode.Done? && Kin(s)
    ensures OneTree(s.nodes)
  {
    assert Related(s, s.path[0]) && s.path[0] == 0 && s.path == [0];
    forall i | 0 <= i < |s.nodes| ensures Placed(s.nodes, i) {
      assert Related(s, i) && (i > 0 ==> i !in s.path);
    }
  }

  /** The nodes of every accepted text form one tree. */
  lemma AcceptedTree(text: bytes)
    requires Run(text, START).Some?
    ensures OneTree(Run(text, START).value)
    ensures forall i | 0 <= i < |Run(text, START).value| ::
      var n := Run(text, START).value[i]; |n.names| == if n.kind == ObjectKind then |n.children| else 0
  {
    hide Run, OneTree;
    RunKin(text, START, Run(text, START).value);
    RunBalanced(text, START, Run(text, START).value);
  }
}
