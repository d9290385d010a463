/** json_value nodes on the heap, and the walk that printing and measuring make over them: down through the children,
    up through parent, with length_iterated as the only memory of where it is. */
module Walking {
  import opened Bytes
  import opened Values
  import opened Printing

  /** A json_builder_value. Entries of an object keep their names beside their values. */
  class Node {
    var kind: Kind
    var parent: Node?
    var boolean: int
    var integer: int
    var str: bytes
    var length: nat
    var children: seq<Node>
    var names: seq<bytes>
    var isBuilderValue: bool
    var additionalLength: nat
    var lengthIterated: nat
    /** How many entries the values array has room for. */
    var capacity: nat

    /** json_array_new and its likes, with room for some entries. */
    constructor (kind: Kind, room: nat)
      ensures this.kind == kind && parent == null && length == 0 && children == [] && names == [] && lengthIterated == 0
      ensures boolean == 0 && integer == 0 && str == [] && isBuilderValue && additionalLength == capacity == room
    {
      this.kind := kind;
      parent, boolean, integer, str := null, 0, 0, [];
      length, children, names, isBuilderValue, lengthIterated := 0, [], [], true, 0;
      additionalLength, capacity := room, room;
    }
  }

  /** What a node of a well-formed tree stands for, and its distance from the root. */
  datatype Role = Role(val: Value, level: nat)

  /** The node's own fields spell its value. */
  ghost predicate Spells(n: Node, v: Value)
    reads n`kind, n`boolean, n`integer, n`str, n`length, n`children, n`names
  {
    && n.length == |n.children|
    && (!Container(v) ==> n.children == [])
    && match v
       case Null => n.kind == NullKind
       case Boolean(b) => n.kind == BooleanKind && n.boolean == b
       case Integer(i) => n.kind == IntegerKind && n.integer == i
       case Double(_) => n.kind == DoubleKind
       case Str(s) => n.kind == StringKind && n.str == s
       case Arr(items) => n.kind == ArrayKind && |n.children| == |items|
       case Obj(entries) =>
         && n.kind == ObjectKind && |n.children| == |n.names| == |entries|
         && forall k | 0 <= k < |entries| :: n.names[k] == entries[k].name
  }

  /** The children hang from the node, each one once, and stand for the children of its value. */
  ghost predicate Hangs(n: Node, h: map<Node, Role>)
    requires n in h
    reads n`children, (set c | c in n.children && c in h)`parent
  {
    && (Container(h[n].val) ==> |n.children| == Count(h[n].val))
    && (forall k | 0 <= k < |n.children| ::
          && n.children[k] in h && n.children[k].parent == n
          && h[n.children[k]].level == h[n].level + 1
          && Container(h[n].val) && k < Count(h[n].val) && h[n.children[k]].val == Kid(h[n].val, k))
    && (forall j, k | 0 <= j < k < |n.children| :: n.children[j] != n.children[k])
  }

  /** h assigns every node of the tree under root its role. */
  ghost predicate Family(root: Node, h: map<Node, Role>)
    reads h.Keys
  {
    && root in h && h[root].level == 0
    && forall n | n in h :: Spells(n, h[n].val) && Hangs(n, h)
  }

  /** A whole tree: above its root there is nothing. */
  ghost predicate Tree(root: Node, h: map<Node, Role>)
    reads h.Keys
  {
    Family(root, h) && root.parent == null
  }

  lemma InTree(root: Node, h: map<Node, Role>)
    requires Tree(root, h)
    ensures root in h
  {
  }

  // The walk, seen as a stack of values with cursors

  datatype Frame = Frame(val: Value, iter: nat)

  /** What is left to print of a value whose cursor is k. */
  function Rest(v: Value, k: nat, o: Options, depth: nat): bytes {
    if Container(v) && k <= Count(v) then PrintFrom(v, k, o, depth) else Print(v, o, depth)
  }

  /** What is left to print of a whole stack; the top is last. */
  function After(fs: seq<Frame>, o: Options): bytes {
    if fs == [] then [] else Rest(fs[|fs| - 1].val, fs[|fs| - 1].iter, o, |fs| - 1) + After(fs[..|fs| - 1], o)
  }

  /** The cursor of the top moves on and the child it leaves becomes the top. */
  function Down(fs: seq<Frame>): seq<Frame>
    requires fs != [] && Container(fs[|fs| - 1].val) && fs[|fs| - 1].iter < Count(fs[|fs| - 1].val)
  {
    var t := fs[|fs| - 1];
    fs[..|fs| - 1] + [Frame(t.val, t.iter + 1), Frame(Kid(t.val, t.iter), 0)]
  }

  /** The print of a container from child k on: what leads to the child, the child, and the rest. */
  lemma RestDown(v: Value, k: nat, o: Options, depth: nat)
    requires Container(v) && k < Count(v)
    ensures Rest(v, k, o, depth)
         == Lead(v, k, o, depth) + Label(v, k, o) + Rest(Kid(v, k), 0, o, depth + 1) + Rest(v, k + 1, o, depth)
  {
    hide Lead, Label, Tail;
    var kid := Kid(v, k);
    assert Rest(kid, 0, o, depth + 1) == Print(kid, o, depth + 1);
  }

  lemma AfterDown(fs: seq<Frame>, o: Options)
    requires fs != [] && Container(fs[|fs| - 1].val) && fs[|fs| - 1].iter < Count(fs[|fs| - 1].val)
    ensures var t := fs[|fs| - 1];
            After(fs, o) == Lead(t.val, t.iter, o, |fs| - 1) + Label(t.val, t.iter, o) + After(Down(fs), o)
  {
    hide Lead, Label, Rest, Kid;
    var t := fs[|fs| - 1];
    var d := Down(fs);
    RestDown(t.val, t.iter, o, |fs| - 1);
    assert d[..|d| - 1] == fs[..|fs| - 1] + [Frame(t.val, t.iter + 1)];
    assert d[..|d| - 1][..|fs| - 1] == fs[..|fs| - 1];
  }

  ghost predicate OnPath(n: Node, h: map<Node, Role>, path: seq<Node>)
    requires n in h
  {
    h[n].level < |path| && path[h[n].level] == n
  }

  ghost predicate Shows(n: Node, h: map<Node, Role>, level: nat, f: Frame)
    reads n
  {
    n in h && h[n].level == level && f == Frame(h[n].val, n.lengthIterated) && n.lengthIterated <= |n.children|
  }

  /** The cursor of p has just passed c. */
  ghost predicate Leads(p: Node, c: Node)
    reads p
  {
    0 < p.lengthIterated <= |p.children| && p.children[p.lengthIterated - 1] == c
  }

  /** The walk as the heap shows it: path is the way from the root to the node under the walk. */
  ghost predicate Walk(root: Node, h: map<Node, Role>, path: seq<Node>, fs: seq<Frame>)
    reads h.Keys, path
  {
    && |path| == |fs|
    && (path != [] ==> path[0] == root)
    && (forall k | 0 <= k < |path| :: Shows(path[k], h, k, fs[k]))
    && (forall j, k | 0 <= j < k < |path| && k == j + 1 :: Leads(path[j], path[k]))
    && (forall n | n in h && !OnPath(n, h, path) :: n.lengthIterated == 0)
  }

  ghost predicate AtRest(h: map<Node, Role>)
    reads h.Keys
  {
    forall n | n in h :: n.lengthIterated == 0
  }

  /** The way up: parent leads to the node before in the path. */
  lemma ParentIsBefore(root: Node, h: map<Node, Role>, path: seq<Node>, fs: seq<Frame>)
    requires Tree(root, h) && Walk(root, h, path, fs) && path != []
    ensures path[|path| - 1].parent == if |path| == 1 then null else path[|path| - 2]
  {
    if |path| > 1 {
      var p := path[|path| - 2];
      assert p in h && Hangs(p, h);
    }
  }

  /** Setting a cursor; the tree does not depend on it. */
  method SetCursor(n: Node, k: nat, ghost root: Node, ghost h: map<Node, Role>)
    requires Tree(root, h)
    modifies n`lengthIterated
    ensures Tree(root, h) && n.lengthIterated == k
  {
    n.lengthIterated := k;
    forall m | m in h ensures Spells(m, h[m].val) && Hangs(m, h) {
      assert old(Spells(m, h[m].val) && Hangs(m, h));
    }
  }

  lemma NextChild(root: Node, h: map<Node, Role>, path: seq<Node>, fs: seq<Frame>)
    requires Tree(root, h) && Walk(root, h, path, fs) && path != []
    ensures var n, t := path[|path| - 1], fs[|fs| - 1];
            && n in h && t == Frame(h[n].val, n.lengthIterated)
            && n.length == |n.children| && (Container(t.val) ==> |n.children| == Count(t.val))
            && (n.lengthIterated < |n.children| ==>
                  && Container(t.val) && t.iter < Count(t.val)
                  && var c := n.children[n.lengthIterated];
                     c in h && h[c].level == |path| && h[c].val == Kid(t.val, t.iter) && c.lengthIterated == 0)
  {
    var n := path[|path| - 1];
    assert n in h && Hangs(n, h) && Spells(n, h[n].val);
    if n.lengthIterated < |n.children| {
      assert !OnPath(n.children[n.lengthIterated], h, path);
    }
  }

  /** The node under the walk is nowhere else on its path. */
  lemma OthersOnPath(root: Node, h: map<Node, Role>, path: seq<Node>, fs: seq<Frame>)
    requires Walk(root, h, path, fs) && path != []
    ensures forall k | 0 <= k < |path| - 1 :: path[k] != path[|path| - 1]
    ensures path[|path| - 1] in h && h[path[|path| - 1]].level == |path| - 1
  {
    assert Shows(path[|path| - 1], h, |path| - 1, fs[|path| - 1]);
    forall k | 0 <= k < |path| - 1 ensures path[k] != path[|path| - 1] {
      assert Shows(path[k], h, k, fs[k]);
    }
  }

  /** ++length_iterated, and on to the child. */
  method Descend(root: Node, value: Node, ghost h: map<Node, Role>, ghost path: seq<Node>, ghost fs: seq<Frame>)
    returns (child: Node)
    requires Tree(root, h) && Walk(root, h, path, fs) && path != [] && value == path[|path| - 1]
    requires value.lengthIterated < value.length
    modifies value`lengthIterated
    ensures Container(fs[|fs| - 1].val) && fs[|fs| - 1].iter < Count(fs[|fs| - 1].val)
    ensures Walk(root, h, path + [child], Down(fs)) && value.lengthIterated == old(value.lengthIterated) + 1
    ensures Tree(root, h) && child in h && child.lengthIterated == 0
      && child == value.children[old(value.lengthIterated)]
  {
    hide Tree, Hangs, Spells, Container, Count, Kid, Shows, Leads;
    NextChild(root, h, path, fs);
    OthersOnPath(root, h, path, fs);
    SetCursor(value, value.lengthIterated + 1, root, h);
    child := value.children[value.lengthIterated - 1];
    ghost var t, d := fs[|fs| - 1], |path| - 1;
    ghost var longer, deeper := path + [child], Down(fs);
    NowShows(value, h, d, Frame(t.val, t.iter + 1));
    NowShows(child, h, d + 1, Frame(Kid(t.val, t.iter), 0));
    NowLeads(value, child);
    forall k | 0 <= k < |longer| ensures Shows(longer[k], h, k, deeper[k]) {
      if k < d {
        assert old(Shows(path[k], h, k, fs[k]));
      }
    }
    forall j, k | 0 <= j < k < |longer| && k == j + 1 ensures Leads(longer[j], longer[k]) {
      if k < |path| {
        assert old(Leads(path[j], path[k]));
      }
    }
    forall n | n in h && !OnPath(n, h, longer) ensures n.lengthIterated == 0 {
      if OnPath(n, h, path) {
        OnLongerPath(n, h, path, child);
      }
    }
  }

  lemma OnLongerPath(n: Node, h: map<Node, Role>, path: seq<Node>, child: Node)
    requires n in h && OnPath(n, h, path)
    ensures OnPath(n, h, path + [child])
  {
  }

  lemma NowShows(n: Node, h: map<Node, Role>, level: nat, f: Frame)
    requires n in h && h[n].level == level && f == Frame(h[n].val, n.lengthIterated) && n.lengthIterated <= |n.children|
    ensures Shows(n, h, level, f)
  {
  }

  lemma NowLeads(p: Node, c: Node)
    requires 0 < p.lengthIterated <= |p.children| && p.children[p.lengthIterated - 1] == c
    ensures Leads(p, c)
  {
  }

  /** length_iterated = 0 where it has come to the end, and back to the parent. */
  method Ascend(root: Node, value: Node, ghost h: map<Node, Role>, ghost path: seq<Node>, ghost fs: seq<Frame>)
    returns (parent: Node?)
    requires Tree(root, h) && Walk(root, h, path, fs) && path != [] && value == path[|path| - 1]
    modifies value`lengthIterated
    ensures Tree(root, h) && Walk(root, h, path[..|path| - 1], fs[..|fs| - 1])
    ensures parent == if |path| == 1 then null else path[|path| - 2]
  {
    ParentIsBefore(root, h, path, fs);
    hide Tree, Hangs, Spells;
    parent := value.parent;
    SetCursor(value, 0, root, h);
    ghost var up, ups := path[..|path| - 1], fs[..|fs| - 1];
    forall k | 0 <= k < |up| ensures Shows(up[k], h, k, ups[k]) {
      assert old(Shows(path[k], h, k, fs[k]) && Shows(value, h, |up|, fs[|up|]));
    }
    forall j, k | 0 <= j < k < |up| && k == j + 1 ensures Leads(up[j], up[k]) {
      assert old(Leads(path[j], path[k]) && Shows(path[j], h, j, fs[j]) && Shows(value, h, |up|, fs[|up|]));
    }
    forall n | n in h && !OnPath(n, h, up) ensures n.lengthIterated == 0 {
      assert OnPath(n, h, path) ==> n == value;
    }
  }

  /** A node without children is left as it was entered. */
  lemma LeaveUntouched(root: Node, h: map<Node, Role>, path: seq<Node>, fs: seq<Frame>)
    requires Tree(root, h) && Walk(root, h, path, fs) && path != [] && path[|path| - 1].lengthIterated == 0
    ensures Walk(root, h, path[..|path| - 1], fs[..|fs| - 1])
    ensures path[|path| - 1].parent == if |path| == 1 then null else path[|path| - 2]
  {
    ParentIsBefore(root, h, path, fs);
    hide Tree, Hangs, Spells, Shows, Leads;
    var up := path[..|path| - 1];
    forall n | n in h && !OnPath(n, h, up) ensures n.lengthIterated == 0 {
      assert OnPath(n, h, path) ==> n == path[|up|];
    }
  }

  /** The walk begins at the root, with every cursor at rest. */
  lemma Start(root: Node, h: map<Node, Role>)
    requires Tree(root, h) && AtRest(h)
    ensures Walk(root, h, [root], [Frame(h[root].val, 0)])
  {
  }
}
