/** The nodes that the parser leaves, as objects that point at one another: the tree that the printer walks and the
    destructor takes apart. */
module ParsedTrees {
  import opened Bytes
  import opened Values
  import opened Printing
  import opened Walking
  import opened Kinship
  import Building
  import M = Machine

  /** Objects laid out like the parser's nodes: each one's fields are its node's, and it points where the node's numbers
      say. Names lie in the values array's allocation, so they are nobody's own. */
  ghost predicate Mirrors(ns: seq<Node>, f: seq<M.Node>)
    reads ns
  {
    && |ns| == |f|
    && (forall j, k | 0 <= j < k < |ns| :: ns[j] != ns[k])
    && forall i | 0 <= i < |ns| :: MirrorsOne(ns, f, i)
  }

  ghost predicate MirrorsOne(ns: seq<Node>, f: seq<M.Node>, i: nat)
    requires i < |ns| == |f|
    reads ns[i]
  {
    var n, m := ns[i], f[i];
    && n.kind == m.kind && n.boolean == m.boolean && n.integer == m.integer && n.str == m.str && n.names == m.names
    && n.parent == (if 0 <= m.parent < |ns| then ns[m.parent] else null)
    && n.length == |n.children| == |m.children| == n.capacity
    && (forall k | 0 <= k < |m.children| :: m.children[k] < |ns| && n.children[k] == ns[m.children[k]])
    && !n.isBuilderValue && n.additionalLength == 0 && n.lengthIterated == 0
  }

  /** How deep a node stands. */
  function Depth(f: seq<M.Node>, i: nat): nat
    requires OneTree(f) && i < |f|
    decreases i
  {
    if i == 0 then 0 else
      assert Placed(f, i);
      Depth(f, f[i].parent) + 1
  }

  ghost function RolesOf(ns: seq<Node>, f: seq<M.Node>, m: nat): (h: map<Node, Role>)
    requires OneTree(f) && m <= |ns| == |f| && forall j, k | 0 <= j < k < |ns| :: ns[j] != ns[k]
    ensures forall i | 0 <= i < m :: ns[i] in h && h[ns[i]] == Role(M.TreeOf(f, i), Depth(f, i))
    ensures forall n | n in h :: n in ns[..m]
  {
    if m == 0 then map[] else RolesOf(ns, f, m - 1)[ns[m - 1] := Role(M.TreeOf(f, m - 1), Depth(f, m - 1))]
  }

  ghost function Roles(ns: seq<Node>, f: seq<M.Node>): (h: map<Node, Role>)
    requires OneTree(f) && |ns| == |f| && forall j, k | 0 <= j < k < |ns| :: ns[j] != ns[k]
    ensures forall i | 0 <= i < |ns| :: ns[i] in h && h[ns[i]] == Role(M.TreeOf(f, i), Depth(f, i))
    ensures forall n | n in h :: n in ns
  {
    RolesOf(ns, f, |ns|)
  }

  lemma {:induction false} TreesAt(f: seq<M.Node>, i: nat, kids: seq<nat>)
    requires i < |f| && forall k | 0 <= k < |kids| :: i < kids[k]
    ensures var vs := M.TreesOf(f, i, kids);
      |vs| == |kids| && forall k | 0 <= k < |kids| :: vs[k] == M.TreeOf(f, kids[k])
    decreases |kids|
  {
    hide M.TreeOf;
    if kids != [] {
      TreesAt(f, i, kids[1..]);
    }
  }

  lemma {:induction false} EntriesAt(f: seq<M.Node>, i: nat, names: seq<bytes>, kids: seq<nat>)
    requires i < |f| && |names| == |kids| && forall k | 0 <= k < |kids| :: i < kids[k]
    ensures var es := M.EntriesOf(f, i, names, kids);
      |es| == |kids| && forall k | 0 <= k < |kids| :: es[k] == Entry(names[k], M.TreeOf(f, kids[k]))
    decreases |kids|
  {
    hide M.TreeOf;
    if kids != [] {
      EntriesAt(f, i, names[1..], kids[1..]);
    }
  }

  predicate Named(f: seq<M.Node>) {
    forall i | 0 <= i < |f| :: |f[i].names| == if f[i].kind == ObjectKind then |f[i].children| else 0
  }

  lemma ValueAt(f: seq<M.Node>, i: nat)
    requires OneTree(f) && Named(f) && i < |f|
    ensures var v := M.TreeOf(f, i);
      && (Container(v) <==> M.IsContainer(f[i].kind))
      && (Container(v) ==>
            && Count(v) == |f[i].children|
            && forall k | 0 <= k < |f[i].children| :: Kid(v, k) == M.TreeOf(f, f[i].children[k]))
      && (v.Obj? ==> forall k | 0 <= k < |f[i].names| :: v.entries[k].name == f[i].names[k])
  {
    assert Placed(f, i);
    if f[i].kind == ArrayKind {
      TreesAt(f, i, f[i].children);
    } else if f[i].kind == ObjectKind {
      EntriesAt(f, i, f[i].names, f[i].children);
    }
    hide M.TreesOf, M.EntriesOf;
  }

  lemma SpellsAt(ns: seq<Node>, f: seq<M.Node>, i: nat)
    requires OneTree(f) && Named(f) && Mirrors(ns, f) && i < |f|
    ensures Spells(ns[i], M.TreeOf(f, i))
  {
    ValueAt(f, i);
    assert MirrorsOne(ns, f, i) && Placed(f, i);
    hide M.TreesOf, M.EntriesOf, Mirrors, OneTree;
  }

  lemma HangsAt(ns: seq<Node>, f: seq<M.Node>, i: nat)
    requires OneTree(f) && Named(f) && Mirrors(ns, f) && i < |f|
    ensures Hangs(ns[i], Roles(ns, f))
  {
    hide M.TreeOf, Roles;
    var h, n := Roles(ns, f), ns[i];
    ValueAt(f, i);
    assert MirrorsOne(ns, f, i) && Placed(f, i);
    if n.children != [] {
      assert Container(h[n].val) && Count(h[n].val) == |n.children|;
    }
    forall k | 0 <= k < |n.children|
      ensures n.children[k] in h && n.children[k].parent == n && h[n.children[k]].level == h[n].level + 1
      ensures h[n.children[k]].val == Kid(h[n].val, k)
    {
      var c := f[i].children[k];
      assert MirrorsOne(ns, f, c) && Placed(f, c) && ns[c] == n.children[k];
    }
  }

  ghost predicate Stands(n: Node, h: map<Node, Role>)
    requires n in h
    reads n`parent, if n.parent == null then {} else {n.parent}
  {
    n.parent != null && n.parent in h && n in n.parent.children && h[n].level > 0
  }

  lemma RootedAt(ns: seq<Node>, f: seq<M.Node>, i: nat)
    requires OneTree(f) && Mirrors(ns, f) && 0 < i < |f|
    ensures var n, h := ns[i], Roles(ns, f);
      n in h && Stands(n, h)
  {
    hide M.TreeOf, Roles;
    assert MirrorsOne(ns, f, i) && Placed(f, i);
    var p := f[i].parent;
    assert MirrorsOne(ns, f, p) && ns[i].parent == ns[p];
    var k :| 0 <= k < |f[p].children| && f[p].children[k] == i;
    assert ns[p].children[k] == ns[i];
  }

  /** Objects laid out like the nodes of an accepted text are a whole tree that stands for the parsed value, at rest and
      without strays: what printing, measuring, pushing and freeing ask for. */
  lemma ParsedTree(text: bytes, ns: seq<Node>)
    requires M.Run(M.StripBom(text), M.START).Some?
    requires Mirrors(ns, M.Run(M.StripBom(text), M.START).value)
    ensures var f := M.Run(M.StripBom(text), M.START).value;
      && OneTree(f) && ns != []
      && Tree(ns[0], Roles(ns, f)) && Building.Built(ns[0], Roles(ns, f))
      && Some(Roles(ns, f)[ns[0]].val) == M.Parse(text)
  {
    hide M.Run, M.TreeOf, OneTree, Spells, Hangs, Roles;
    var f := M.Run(M.StripBom(text), M.START).value;
    AcceptedTree(M.StripBom(text));
    First(f);
    var h := Roles(ns, f);
    forall i | 0 <= i < |ns| ensures Fits(ns[i], h) && (i == 0 ==> ns[i].parent == null)
        && (i > 0 ==> Stands(ns[i], h)) {
      SpellsAt(ns, f, i);
      HangsAt(ns, f, i);
      assert MirrorsOne(ns, f, i);
      if i > 0 {
        RootedAt(ns, f, i);
      }
    }
    hide Mirrors;
    Whole(ns, h);
  }

  ghost predicate Fits(n: Node, h: map<Node, Role>)
    requires n in h
    reads n, (set c | c in n.children && c in h)`parent
  {
    Spells(n, h[n].val) && Hangs(n, h) && n.lengthIterated == 0 && n.length + n.additionalLength == n.capacity
  }

  lemma Whole(ns: seq<Node>, h: map<Node, Role>)
    requires ns != [] && (forall n | n in h :: n in ns) && (forall i | 0 <= i < |ns| :: ns[i] in h)
    requires h[ns[0]].level == 0 && ns[0].parent == null
    requires forall i | 0 <= i < |ns| :: Fits(ns[i], h) && (i > 0 ==> Stands(ns[i], h))
    ensures Tree(ns[0], h) && Building.Built(ns[0], h)
  {
    hide Spells, Hangs;
  }

  lemma First(f: seq<M.Node>)
    requires OneTree(f)
    ensures f != [] && f[0].parent == -1 && Depth(f, 0) == 0
  {
  }
}
