/** json_builder_free: the tree is taken apart in place, with length as the cursor and parent as the way back. */
module Freeing {
  import opened Values
  import opened Walking

  /** What is handed to free(): a node, the values array of a container, a string's buffer, or the name of entry k. */
  datatype Block = NodeBlock(n: Node) | ValuesBlock(n: Node) | StringBlock(n: Node) | NameBlock(n: Node, k: nat)

  /** Every node but the root hangs from its parent. */
  ghost predicate Rooted(root: Node, h: map<Node, Role>)
    reads h.Keys`children, h.Keys`parent
  {
    forall n | n in h && n != root :: n.parent != null && n.parent in h && n in n.parent.children && h[n].level > 0
  }

  /** The links, which the destructor leaves alone. */
  ghost predicate Linked(root: Node, h: map<Node, Role>)
    reads h.Keys`children, h.Keys`parent
  {
    && root in h && h[root].level == 0 && root.parent == null && Rooted(root, h)
    && forall n | n in h :: Hangs(n, h)
  }

  predicate IsContainer(n: Node)
    reads n
  {
    n.kind == ArrayKind || n.kind == ObjectKind
  }

  /** How far a node has been taken apart. */
  ghost predicate Progress(n: Node, h: map<Node, Role>, path: seq<Node>, dead: set<Node>)
    requires n in h && forall c | c in n.children :: c in h
    reads n
  {
    && n.length <= |n.children|
    && if n in dead then
         !OnPath(n, h, path) && n.length == 0 && forall i | 0 <= i < |n.children| :: n.children[i] in dead
       else if !OnPath(n, h, path) then
         n.length == |n.children| && forall i | 0 <= i < |n.children| :: n.children[i] !in dead
       else
         && (forall i | 0 <= i < n.length :: n.children[i] !in dead && !OnPath(n.children[i], h, path))
         && (forall i | n.length <= i < |n.children| :: n.children[i] in dead || OnPath(n.children[i], h, path))
  }

  /** The destructor between two turns: path leads to the node it is at, dead are the nodes it has freed. */
  ghost predicate Halfway(root: Node, h: map<Node, Role>, path: seq<Node>, dead: set<Node>)
    reads h.Keys, path
  {
    && Linked(root, h)
    && (forall n, c | n in h && c in n.children :: c in h)
    && (if path == [] then root in dead else path[0] == root)
    && (forall k | 0 <= k < |path| :: path[k] in h && h[path[k]].level == k && path[k] !in dead)
    && (forall j, k | 0 <= j < k < |path| && k == j + 1 :: path[k].parent == path[j])
    && (forall n | n in h :: Progress(n, h, path, dead))
  }

  lemma HangFacts(root: Node, h: map<Node, Role>, n: Node, i: nat)
    requires Linked(root, h) && n in h && i < |n.children|
    ensures var c := n.children[i];
            && c in h && c.parent == n && c != root && h[c].level == h[n].level + 1
            && forall j | 0 <= j < |n.children| && j != i :: n.children[j] != c
  {
    assert Hangs(n, h);
  }

  /** value = values[--length]. */
  method TakeLast(root: Node, value: Node, ghost h: map<Node, Role>, ghost path: seq<Node>, ghost dead: set<Node>)
    returns (child: Node)
    requires Halfway(root, h, path, dead) && path != [] && value == path[|path| - 1] && value.length > 0
    modifies value`length
    ensures value.length == old(value.length) - 1 && Halfway(root, h, path + [child], dead)
    ensures value in h && child in h && old(value.length) <= |value.children|
  {
    hide Linked, Hangs, Rooted, OnPath;
    assert Progress(value, h, path, dead);
    Last(h, path);
    HangFacts(root, h, value, value.length - 1);
    value.length := value.length - 1;
    child := value.children[value.length];
    forall n | n in h ensures Progress(n, h, path + [child], dead) {
      assert n != value ==> old(Progress(n, h, path, dead));
      Longer(root, h, path, dead, value, n);
    }
  }

  lemma Last(h: map<Node, Role>, path: seq<Node>)
    requires path != [] && path[|path| - 1] in h && h[path[|path| - 1]].level == |path| - 1
    ensures OnPath(path[|path| - 1], h, path)
  {
  }

  /** The child behind the cursor of value has come onto the path. */
  lemma Longer(root: Node, h: map<Node, Role>, path: seq<Node>, dead: set<Node>, value: Node, n: Node)
    requires Linked(root, h) && value in h && n in h && h[value].level == |path| - 1 && OnPath(value, h, path)
    requires forall m, c | m in h && c in m.children :: c in h
    requires value.length < |value.children| && value !in dead && value.children[value.length] !in dead
    requires forall i | 0 <= i <= value.length :: value.children[i] !in dead && !OnPath(value.children[i], h, path)
    requires forall i | value.length < i < |value.children| ::
      value.children[i] in dead || OnPath(value.children[i], h, path)
    requires n != value ==> Progress(n, h, path, dead)
    ensures Progress(n, h, path + [value.children[value.length]], dead)
  {
    hide Linked, Hangs, Rooted, OnPath;
    var child := value.children[value.length];
    var longer := path + [child];
    HangFacts(root, h, value, value.length);
    forall i | 0 <= i < |n.children|
      ensures OnPath(n.children[i], h, longer) <==> OnPath(n.children[i], h, path) || n.children[i] == child
      ensures n.children[i] == child ==> n == value && i == value.length
    {
      HangFacts(root, h, n, i);
      OneLonger(n.children[i], h, path, child);
    }
    OneLonger(n, h, path, child);
    if n == child {
      forall i | 0 <= i < |n.children| ensures !OnPath(n.children[i], h, longer) {
        HangFacts(root, h, n, i);
        TooDeep(n.children[i], h, longer);
      }
    }
  }

  lemma TooDeep(n: Node, h: map<Node, Role>, path: seq<Node>)
    requires n in h && h[n].level >= |path|
    ensures !OnPath(n, h, path)
  {
  }

  lemma OneLonger(n: Node, h: map<Node, Role>, path: seq<Node>, child: Node)
    requires n in h && child in h && h[child].level == |path|
    ensures OnPath(n, h, path + [child]) <==> OnPath(n, h, path) || n == child
  {
  }

  /** The node under the walk has no children left: it is freed, and the walk goes up. */
  lemma Freed(root: Node, h: map<Node, Role>, path: seq<Node>, dead: set<Node>, value: Node)
    requires Halfway(root, h, path, dead) && path != [] && value == path[|path| - 1] && value.length == 0
    ensures Halfway(root, h, path[..|path| - 1], dead + {value}) && value !in dead && value in h
    ensures value.parent == if |path| == 1 then null else path[|path| - 2]
  {
    hide Linked, Hangs, Rooted;
    var up, all := path[..|path| - 1], dead + {value};
    assert value.parent == if |path| == 1 then null else path[|path| - 2] by {
      if |path| == 1 {
        RootFacts(root, h);
      }
    }
    forall n | n in h ensures Progress(n, h, up, all) {
      assert Progress(n, h, path, dead);
      OneShorter(n, h, path);
      forall i | 0 <= i < |n.children|
        ensures OnPath(n.children[i], h, up) <==> OnPath(n.children[i], h, path) && n.children[i] != value
      {
        HangFacts(root, h, n, i);
        OneShorter(n.children[i], h, path);
      }
      if value in n.children {
        var i :| 0 <= i < |n.children| && n.children[i] == value;
        HangFacts(root, h, n, i);
        assert OnPath(n, h, path);
      }
      if n == value {
        forall i | 0 <= i < |n.children| ensures n.children[i] in dead {
          HangFacts(root, h, n, i);
          assert !OnPath(n.children[i], h, path);
        }
      }
    }
  }

  lemma RootFacts(root: Node, h: map<Node, Role>)
    requires Linked(root, h)
    ensures root in h && root.parent == null && h[root].level == 0
  {
  }

  lemma OneShorter(n: Node, h: map<Node, Role>, path: seq<Node>)
    requires n in h && path != [] && path[|path| - 1] in h && h[path[|path| - 1]].level == |path| - 1
    ensures OnPath(n, h, path[..|path| - 1]) <==> OnPath(n, h, path) && n != path[|path| - 1]
  {
  }

  /** When the walk has left the root, no node is left. */
  lemma {:induction false} AllFreed(root: Node, h: map<Node, Role>, dead: set<Node>, n: Node)
    requires Halfway(root, h, [], dead) && n in h
    ensures n in dead
    decreases h[n].level
  {
    if n != root {
      var p := n.parent;
      assert Rooted(root, h);
      var i :| 0 <= i < |p.children| && p.children[i] == n;
      HangFacts(root, h, p, i);
      AllFreed(root, h, dead, p);
      assert Progress(p, h, [], dead);
    }
  }

  ghost predicate Owned(b: Block, h: map<Node, Role>)
    reads h.Keys
  {
    match b
    case NodeBlock(n) => n in h
    case ValuesBlock(n) => n in h && (n.kind == ArrayKind || n.kind == ObjectKind)
    case StringBlock(n) => n in h && n.kind == StringKind
    case NameBlock(n, k) => n in h && n.kind == ObjectKind && n.isBuilderValue && k < |n.children|
  }

  /** The blocks that are gone once the nodes in dead are freed and the lengths are what they are. */
  ghost predicate Gone(b: Block, h: map<Node, Role>, dead: set<Node>)
    reads h.Keys
  {
    Owned(b, h) && if b.NameBlock? then b.n.length <= b.k else b.n in dead
  }

  ghost predicate Distinct(log: seq<Block>) {
    forall i, j | 0 <= i < j < |log| :: log[i] != log[j]
  }

  /** The log lists exactly the blocks that are gone, each once. */
  ghost predicate Logged(log: seq<Block>, h: map<Node, Role>, dead: set<Node>)
    reads h.Keys
  {
    && Distinct(log)
    && (forall b | b in log :: Gone(b, h, dead))
    && (forall n | n in h ::
          && (n in dead ==> NodeBlock(n) in log && (IsContainer(n) ==> ValuesBlock(n) in log)
                            && (n.kind == StringKind ==> StringBlock(n) in log))
          && (n.kind == ObjectKind && n.isBuilderValue ==>
              forall k | n.length <= k < |n.children| :: NameBlock(n, k) in log))
  }

  lemma DistinctPush(log: seq<Block>, b: Block)
    requires Distinct(log) && b !in log
    ensures Distinct(log + [b])
  {
  }

  /** One turn at a node with children left: the last one is taken, its name freed if it has one of its own. */
  method FreeDown(root: Node, value: Node, log: seq<Block>, ghost h: map<Node, Role>, ghost path: seq<Node>,
                  ghost dead: set<Node>)
    returns (child: Node, more: seq<Block>)
    requires Halfway(root, h, path, dead) && path != [] && value == path[|path| - 1] && value.length > 0
      && IsContainer(value)
    requires Logged(log, h, dead)
    modifies value`length
    ensures value.length == old(value.length) - 1 && Halfway(root, h, path + [child], dead) && Logged(more, h, dead)
    ensures value in h && child in h && old(value.length) <= |value.children|
  {
    hide Halfway;
    child := TakeLast(root, value, h, path, dead);
    more := log;
    if value.kind == ObjectKind && value.isBuilderValue {
      assert NameBlock(value, value.length) !in log;
      DistinctPush(log, NameBlock(value, value.length));
      more := log + [NameBlock(value, value.length)];
    }
    forall b | b in more ensures Gone(b, h, dead) {
      if b in log {
        assert old(Gone(b, h, dead));
      }
    }
  }

  /** What is freed with a node: its array or its buffer, and then the node. */
  ghost function Own(n: Node): seq<Block>
    reads n
  {
    (if IsContainer(n) then [ValuesBlock(n)] else if n.kind == StringKind then [StringBlock(n)] else [])
        + [NodeBlock(n)]
  }

  lemma LoggedUp(log: seq<Block>, h: map<Node, Role>, dead: set<Node>, value: Node)
    requires Logged(log, h, dead) && value in h && value !in dead
    ensures Logged(log + Own(value), h, dead + {value})
  {
    var own, more, all := Own(value), log + Own(value), dead + {value};
    forall i, j | 0 <= i < j < |more| ensures more[i] != more[j] {
      if i < |log| {
        assert Gone(log[i], h, dead);
      }
    }
    forall b | b in more ensures Gone(b, h, all) {
      if b in log {
        assert Gone(b, h, dead);
      }
    }
    assert NodeBlock(value) == own[|own| - 1] && NodeBlock(value) in own;
    assert IsContainer(value) ==> own[0] == ValuesBlock(value);
    assert !IsContainer(value) && value.kind == StringKind ==> own[0] == StringBlock(value);
    assert forall b | b in log || b in own :: b in more;
  }

  /** One turn at a node with no children left: what it owns is freed, then the node. */
  method FreeUp(root: Node, value: Node, log: seq<Block>, ghost h: map<Node, Role>, ghost path: seq<Node>,
                ghost dead: set<Node>)
    returns (next: Node?, more: seq<Block>)
    requires Halfway(root, h, path, dead) && path != [] && value == path[|path| - 1] && value.length == 0
    requires Logged(log, h, dead)
    ensures Halfway(root, h, path[..|path| - 1], dead + {value}) && Logged(more, h, dead + {value})
    ensures next == (if |path| == 1 then null else path[|path| - 2]) && value in h && value !in dead
  {
    hide Halfway, Logged;
    Freed(root, h, path, dead, value);
    LoggedUp(log, h, dead, value);
    more := log;
    if IsContainer(value) {
      more := more + [ValuesBlock(value)];
    } else if value.kind == StringKind {
      more := more + [StringBlock(value)];
    }
    next := value.parent;
    more := more + [NodeBlock(value)];
    assert more == log + Own(value);
  }

  /** The node under the walk is not freed, and only containers have children. */
  lemma AtWork(root: Node, h: map<Node, Role>, path: seq<Node>, dead: set<Node>, log: seq<Block>)
    requires Halfway(root, h, path, dead) && path != [] && Logged(log, h, dead) && ChildrenOfContainers(h)
    ensures var n := path[|path| - 1]; n in h && n !in dead && NodeBlock(n) !in log && (n.length > 0 ==> IsContainer(n))
  {
    var n := path[|path| - 1];
    assert n in h && n !in dead && Progress(n, h, path, dead);
    assert !Gone(NodeBlock(n), h, dead);
  }

  ghost predicate ChildrenOfContainers(h: map<Node, Role>)
    reads h.Keys`children, h.Keys`kind
  {
    forall n | n in h && n.children != [] :: n.kind == ArrayKind || n.kind == ObjectKind
  }

  /** What holds of the loop between two turns. */
  ghost predicate Turning(root: Node, value: Node?, log: seq<Block>, h: map<Node, Role>, path: seq<Node>,
                          dead: set<Node>)
    reads h.Keys, path
  {
    && Halfway(root, h, path, dead) && value == (if path == [] then null else path[|path| - 1])
    && Logged(log, h, dead) && ChildrenOfContainers(h)
    && (value != null ==> value in h && NodeBlock(value) !in log)
  }

  /** One turn of the loop: a child is taken, or a node is freed. */
  method FreeTurn(root: Node, value: Node, log: seq<Block>, ghost h: map<Node, Role>, ghost path: seq<Node>,
                  ghost dead: set<Node>)
    returns (next: Node?, more: seq<Block>, ghost way: seq<Node>, ghost gone: set<Node>)
    requires Turning(root, value, log, h, path, dead)
    modifies value`length
    ensures Turning(root, next, more, h, way, gone)
    ensures Left(h) < old(Left(h)) || (Left(h) == old(Left(h)) && h.Keys - gone < h.Keys - dead)
  {
    hide Halfway, Logged, ChildrenOfContainers;
    AtWork(root, h, path, dead, log);
    if value.length > 0 {
      ghost var before := Left(h);
      assert (value, value.length - 1) in before;
      next, more := FreeDown(root, value, log, h, path, dead);
      assert Left(h) <= before && (value, value.length) !in Left(h);
      way, gone := path + [next], dead;
    } else {
      next, more := FreeUp(root, value, log, h, path, dead);
      way, gone := path[..|path| - 1], dead + {value};
    }
    if way != [] {
      AtWork(root, h, way, gone, more);
    }
  }

  /** The destructor. The log of freed blocks holds every block of the tree, each exactly once, and the node the
      loop is at is never one already freed. */
  method BuilderFree(root: Node, ghost h: map<Node, Role>) returns (log: seq<Block>)
    requires Family(root, h) && Rooted(root, h)
    modifies root`parent, h.Keys`length
    ensures Distinct(log)
    ensures forall b | b in log :: Owned(b, h)
    ensures forall n | n in h :: NodeBlock(n) in log && (IsContainer(n) ==> ValuesBlock(n) in log)
                                 && (n.kind == StringKind ==> StringBlock(n) in log)
    ensures forall n, k | n in h && n.kind == ObjectKind && n.isBuilderValue
      && 0 <= k < |n.children| :: NameBlock(n, k) in log
  {
    hide Halfway, Logged, Linked, Rooted, Family, Hangs, Spells, ChildrenOfContainers;
    Cut(root, h);
    log := [];
    var value: Node? := root;
    ghost var path: seq<Node>, dead: set<Node> := [root], {};
    while value != null
      invariant Turning(root, value, log, h, path, dead)
      decreases Left(h), h.Keys - dead
    {
      value, log, path, dead := FreeTurn(root, value, log, h, path, dead);
    }
    EndFree(root, h, dead, log);
  }

  /** value->parent = 0. */
  method Cut(root: Node, ghost h: map<Node, Role>)
    requires Family(root, h) && Rooted(root, h)
    modifies root`parent
    ensures root in h && Halfway(root, h, [root], {}) && Logged([], h, {}) && ChildrenOfContainers(h)
  {
    hide Spells, Hangs, Halfway, Logged;
    RootNoChild(root, h);
    root.parent := null;
    forall n | n in h ensures Spells(n, h[n].val) && Hangs(n, h) {
      assert old(Spells(n, h[n].val) && Hangs(n, h));
    }
    BeginFree(root, h);
    SpellsContainers(h);
  }

  lemma RootNoChild(root: Node, h: map<Node, Role>)
    requires Family(root, h)
    ensures forall n | n in h :: root !in n.children
  {
    forall n | n in h ensures root !in n.children {
      assert Hangs(n, h);
    }
  }

  lemma EndFree(root: Node, h: map<Node, Role>, dead: set<Node>, log: seq<Block>)
    requires Halfway(root, h, [], dead) && Logged(log, h, dead)
    ensures Distinct(log) && forall b | b in log :: Owned(b, h)
    ensures forall n | n in h :: NodeBlock(n) in log && (IsContainer(n) ==> ValuesBlock(n) in log)
                                 && (n.kind == StringKind ==> StringBlock(n) in log)
    ensures forall n, k | n in h && n.kind == ObjectKind && n.isBuilderValue
      && 0 <= k < |n.children| :: NameBlock(n, k) in log
  {
    hide Linked;
    forall b | b in log ensures Owned(b, h) {
      assert Gone(b, h, dead);
    }
    forall n | n in h ensures n in dead && n.length == 0 {
      AllFreed(root, h, dead, n);
      assert Progress(n, h, [], dead);
    }
  }

  /** The children not yet taken. */
  ghost function Left(h: map<Node, Role>): set<(Node, int)>
    reads h.Keys
  {
    set n, i | n in h && 0 <= i < n.length :: (n, i)
  }

  lemma BeginFree(root: Node, h: map<Node, Role>)
    requires root in h && root.parent == null && h[root].level == 0 && Rooted(root, h)
    requires forall n | n in h :: Spells(n, h[n].val) && Hangs(n, h)
    ensures Halfway(root, h, [root], {}) && Logged([], h, {})
  {
    hide Rooted, Spells, Hangs;
    assert Linked(root, h);
    forall n | n in h
      ensures n.length == |n.children| && forall c | c in n.children :: c in h && h[c].level == h[n].level + 1
    {
      AtBirth(h, n);
    }
    forall n | n in h ensures Progress(n, h, [root], {}) {
      Unbegun(root, h, n);
    }
    hide Linked, Progress;
  }

  lemma AtBirth(h: map<Node, Role>, n: Node)
    requires n in h && Spells(n, h[n].val) && Hangs(n, h)
    ensures n.length == |n.children| && forall c | c in n.children :: c in h && h[c].level == h[n].level + 1
  {
  }

  lemma Unbegun(root: Node, h: map<Node, Role>, n: Node)
    requires root in h && n in h && h[root].level == 0
    requires n.length == |n.children| && forall c | c in n.children :: c in h && h[c].level == h[n].level + 1
    ensures Progress(n, h, [root], {})
  {
  }

  lemma SpellsContainers(h: map<Node, Role>)
    requires forall n | n in h :: Spells(n, h[n].val)
    ensures ChildrenOfContainers(h)
  {
  }
}
