/** json_array_push, json_object_push_nocopy, json_object_merge: trees grow in place and stay trees. */
module Building {
  import opened Bytes
  import opened Values
  import opened Printing
  import opened Walking
  import opened Freeing

  /** A whole tree with every cursor at rest, whose arrays are as large as their lengths and spare room say. */
  ghost predicate Built(root: Node, h: map<Node, Role>)
    reads h.Keys
  {
    Family(root, h) && Rooted(root, h) && AtRest(h) && Roomy(h)
  }

  ghost predicate Roomy(h: map<Node, Role>)
    reads h.Keys
  {
    forall n | n in h :: n.length + n.additionalLength == n.capacity
  }

  /** The tree h with another one under its root, whose value has become v. */
  function Grafted(root: Node, h: map<Node, Role>, v: Value, twig: map<Node, Role>): (g: map<Node, Role>)
    ensures g.Keys == h.Keys + twig.Keys + {root}
  {
    map n | n in h.Keys + twig.Keys + {root} ::
      if n == root then Role(v, 0) else if n in h then h[n] else Role(twig[n].val, twig[n].level + 1)
  }

  /** An object's names move to allocations of their own, one each. */
  method Builderize(n: Node, ghost root: Node, ghost h: map<Node, Role>)
    requires Built(root, h) && n in h
    modifies n`names, n`isBuilderValue
    ensures Built(root, h) && n.isBuilderValue && n.names == old(n.names)
  {
    hide Spells, Hangs, Rooted;
    if n.isBuilderValue {
      return;
    }
    if n.kind == ObjectKind {
      CopyNames(n);
    }
    n.isBuilderValue := true;
  }

  method CopyNames(n: Node)
    modifies n`names
    ensures n.names == old(n.names)
  {
    var copies := [];
    for i := 0 to |n.names|
      invariant copies == n.names[..i]
    {
      copies := copies + [n.names[i]];
    }
    n.names := copies;
  }

  /** The value of a container with one more entry; arrays have no use for the name. */
  function Extended(v: Value, name: bytes, x: Value): (w: Value)
    requires Container(v)
    ensures Container(w) && Count(w) == Count(v) + 1
    ensures (forall k: nat | k < Count(v) :: Kid(w, k) == Kid(v, k)) && Kid(w, Count(v)) == x
  {
    if v.Arr? then Arr(v.items + [x]) else Obj(v.entries + [Entry(name, x)])
  }

  /** The values array has a free place for one more entry. */
  method TakePlace(n: Node)
    requires n.length + n.additionalLength == n.capacity
    modifies n`additionalLength, n`capacity
    ensures n.length + 1 + n.additionalLength == n.capacity
  {
    if n.additionalLength > 0 {
      n.additionalLength := n.additionalLength - 1;
    } else {
      n.capacity := n.length + 1;
    }
  }

  /** A node other than the root keeps its links in the grafted tree. */
  lemma GraftHangs(n: Node, root: Node, h: map<Node, Role>, v: Value, twig: map<Node, Role>)
    requires root in h && h[root].level == 0 && h.Keys !! twig.Keys && n != root
    requires (n in h && Hangs(n, h)) || (n in twig && Hangs(n, twig))
    ensures Hangs(n, Grafted(root, h, v, twig))
  {
    var g := Grafted(root, h, v, twig);
    if n.children != [] {
      assert n.children[0] in if n in h then h else twig;
      assert Container(g[n].val) && Count(g[n].val) == |n.children|;
    }
    forall k | 0 <= k < |n.children|
      ensures n.children[k] in g && g[n.children[k]].level == g[n].level + 1
      ensures g[n.children[k]].val == Kid(g[n].val, k)
    {
      assert n in h ==> n.children[k] in h && h[n.children[k]].level == h[n].level + 1;
      assert n !in h ==> n.children[k] in twig && twig[n.children[k]].level == twig[n].level + 1;
    }
  }

  /** The new child hangs from the root beside the ones it had. */
  lemma RootHangs(root: Node, h: map<Node, Role>, name: bytes, value: Node, twig: map<Node, Role>, before: seq<Node>)
    requires root in h && Container(h[root].val) && value in twig && twig[value].level == 0 && h.Keys !! twig.Keys
    requires h[root].level == 0 && |before| == Count(h[root].val)
    requires forall k | 0 <= k < |before| ::
      before[k] in h && h[before[k]].val == Kid(h[root].val, k) && h[before[k]].level == 1 && before[k].parent == root
    requires forall j, k | 0 <= j < k < |before| :: before[j] != before[k]
    requires root.children == before + [value] && value.parent == root
    ensures Hangs(root, Grafted(root, h, Extended(h[root].val, name, twig[value].val), twig))
  {
    hide Extended;
  }

  method Attach(root: Node, value: Node, name: bytes, ghost h: map<Node, Role>, ghost twig: map<Node, Role>)
    requires Built(root, h) && Built(value, twig) && h.Keys !! twig.Keys && Container(h[root].val)
    modifies root`additionalLength, root`capacity, root`children, root`names, root`length, value`parent
    ensures Built(root, Grafted(root, h, Extended(h[root].val, name, twig[value].val), twig))
  {
    hide Hangs, Spells, Extended, Rooted;
    ghost var v := Extended(h[root].val, name, twig[value].val);
    ghost var g := Grafted(root, h, v, twig);
    AttachLinks(root, value, name, h, twig);
    forall n | n in g ensures Spells(n, g[n].val) && Hangs(n, g) {
      assert n in h && n != root ==> old(Spells(n, h[n].val));
      assert n in twig ==> old(Spells(n, twig[n].val));
      if n != root {
        GraftHangs(n, root, h, v, twig);
      }
    }
  }

  lemma NotBelow(root: Node, h: map<Node, Role>, n: Node)
    requires Family(root, h) && n in h
    ensures root !in n.children && forall c | c in n.children :: c in h
  {
    assert Hangs(n, h);
  }

  method AttachLinks(root: Node, value: Node, name: bytes, ghost h: map<Node, Role>, ghost twig: map<Node, Role>)
    requires Built(root, h) && Built(value, twig) && h.Keys !! twig.Keys && Container(h[root].val)
    modifies root`additionalLength, root`capacity, root`children, root`names, root`length, value`parent
    ensures Spells(root, Extended(h[root].val, name, twig[value].val))
      && root.length + root.additionalLength == root.capacity
    ensures forall n | n in h && n != root :: Hangs(n, h)
    ensures forall n | n in twig :: Hangs(n, twig)
    ensures var g := Grafted(root, h, Extended(h[root].val, name, twig[value].val), twig);
      Hangs(root, g) && Rooted(root, g)
  {
    hide Spells, Extended, Hangs, Rooted;
    ghost var before := root.children;
    ChildrenOf(root, h);
    forall n | n in h ensures forall c | c in n.children :: c in h { NotBelow(root, h, n); }
    forall n | n in twig ensures value !in n.children { NotBelow(value, twig, n); }
    AttachRooted(root, value, name, h, twig);
    forall n | n in h && n != root ensures Hangs(n, h) {
      assert old(Hangs(n, h)) && value !in n.children;
    }
    forall n | n in twig ensures Hangs(n, twig) {
      assert old(Hangs(n, twig));
    }
    RootHangs(root, h, name, value, twig, before);
  }

  lemma ChildrenOf(root: Node, h: map<Node, Role>)
    requires Family(root, h) && Container(h[root].val)
    ensures h[root].level == 0 && |root.children| == Count(h[root].val)
    ensures forall k | 0 <= k < |root.children| ::
      && root.children[k] in h && h[root.children[k]].val == Kid(h[root].val, k) && h[root.children[k]].level == 1
      && root.children[k].parent == root
    ensures forall j, k | 0 <= j < k < |root.children| :: root.children[j] != root.children[k]
  {
    assert Hangs(root, h);
  }

  method AttachRooted(root: Node, value: Node, name: bytes, ghost h: map<Node, Role>, ghost twig: map<Node, Role>)
    requires Built(root, h) && Built(value, twig) && h.Keys !! twig.Keys && Container(h[root].val)
    modifies root`additionalLength, root`capacity, root`children, root`names, root`length, value`parent
    ensures Spells(root, Extended(h[root].val, name, twig[value].val))
      && root.length + root.additionalLength == root.capacity
    ensures root.children == old(root.children) + [value] && value.parent == root
    ensures Rooted(root, Grafted(root, h, Extended(h[root].val, name, twig[value].val), twig))
  {
    hide Spells, Extended, Hangs;
    AttachFields(root, value, name, h, twig);
  }

  method AttachFields(root: Node, value: Node, name: bytes, ghost h: map<Node, Role>, ghost twig: map<Node, Role>)
    requires Built(root, h) && Built(value, twig) && h.Keys !! twig.Keys && Container(h[root].val)
    modifies root`additionalLength, root`capacity, root`children, root`names, root`length, value`parent
    ensures Spells(root, Extended(h[root].val, name, twig[value].val))
    ensures root.children == old(root.children) + [value] && value.parent == root
    ensures root.length + root.additionalLength == root.capacity
  {
    hide Hangs, Rooted;
    TakePlace(root);
    root.children := root.children + [value];
    if root.kind == ObjectKind {
      root.names := root.names + [name];
    }
    root.length := root.length + 1;
    value.parent := root;
  }

  /** json_array_push */
  method ArrayPush(into: Node, value: Node, ghost h: map<Node, Role>, ghost twig: map<Node, Role>)
    requires Built(into, h) && Built(value, twig) && h.Keys !! twig.Keys && h[into].val.Arr?
    modifies into`additionalLength, into`capacity, into`children, into`names, into`length, into`isBuilderValue
    modifies value`parent, value`names, value`isBuilderValue
    ensures Built(into, Grafted(into, h, Arr(h[into].val.items + [twig[value].val]), twig))
    ensures into.isBuilderValue && value.isBuilderValue
  {
    hide Built;
    InBuilt(into, h);
    InBuilt(value, twig);
    Builderize(into, into, h);
    Builderize(value, value, twig);
    Attach(into, value, [], h, twig);
  }

  /** json_object_push_nocopy, and json_object_push with its copy of the name. */
  method ObjectPush(into: Node, name: bytes, value: Node, ghost h: map<Node, Role>, ghost twig: map<Node, Role>)
    requires Built(into, h) && Built(value, twig) && h.Keys !! twig.Keys && h[into].val.Obj?
    modifies into`additionalLength, into`capacity, into`children, into`names, into`length, into`isBuilderValue
    modifies value`parent, value`names, value`isBuilderValue
    ensures Built(into, Grafted(into, h, Obj(h[into].val.entries + [Entry(name, twig[value].val)]), twig))
    ensures into.isBuilderValue && value.isBuilderValue
  {
    hide Built;
    InBuilt(into, h);
    InBuilt(value, twig);
    Builderize(into, into, h);
    Builderize(value, value, twig);
    Attach(into, value, name, h, twig);
  }

  lemma InBuilt(root: Node, h: map<Node, Role>)
    requires Built(root, h)
    ensures root in h
  {
  }

  // Merging

  /** The trees of two objects once the second one's entries follow the first one's. */
  function Merged(a: Node, h: map<Node, Role>, b: Node, hb: map<Node, Role>): (g: map<Node, Role>)
    requires a in h && b in hb && h[a].val.Obj? && hb[b].val.Obj?
    ensures g.Keys == h.Keys + (hb.Keys - {b})
  {
    map n | n in h.Keys + (hb.Keys - {b}) ::
      if n == a then Role(Obj(h[a].val.entries + hb[b].val.entries), 0) else if n in h then h[n] else hb[n]
  }

  /** The room for count more entries. */
  method MakeRoom(n: Node, count: nat)
    requires n.length + n.additionalLength == n.capacity
    modifies n`additionalLength, n`capacity
    ensures n.length + count + n.additionalLength == n.capacity
  {
    if count <= n.additionalLength {
      n.additionalLength := n.additionalLength - count;
    } else {
      n.capacity := n.length + n.additionalLength + count;
    }
  }

  /** The entries of b follow those of a, and hang from a. */
  method MoveEntries(a: Node, b: Node)
    requires a != b && a !in b.children && b.length == |b.children| == |b.names|
    requires a.length + a.additionalLength == a.capacity
    modifies a`additionalLength, a`capacity, a`children, a`names, a`length, (set c <- b.children)`parent
    ensures a.children == old(a.children) + b.children && a.names == old(a.names) + b.names
    ensures a.length == old(a.length) + b.length && a.length + a.additionalLength == a.capacity
    ensures forall k | 0 <= k < |b.children| :: b.children[k].parent == a
  {
    MakeRoom(a, b.length);
    ghost var names, kids := a.names, a.children;
    for i := 0 to b.length
      invariant a.children == kids + b.children[..i] && a.names == names + b.names[..i]
      invariant a.length == old(a.length) && a.length + b.length + a.additionalLength == a.capacity
      invariant forall k | 0 <= k < i :: b.children[k].parent == a
    {
      a.children := a.children + [b.children[i]];
      a.names := a.names + [b.names[i]];
      b.children[i].parent := a;
    }
    a.length := a.length + b.length;
  }

  /** A node that the merge moves with all its children. */
  lemma MergeHangs(n: Node, a: Node, h: map<Node, Role>, b: Node, hb: map<Node, Role>)
    requires a in h && b in hb && h[a].val.Obj? && hb[b].val.Obj? && h[a].level == hb[b].level == 0 && h.Keys !! hb.Keys
    requires n != a && n != b && ((n in h && Hangs(n, h)) || (n in hb && Hangs(n, hb)))
    ensures Hangs(n, Merged(a, h, b, hb))
  {
    var g := Merged(a, h, b, hb);
    if n in h {
      SameHangs(n, h, g);
    } else {
      SameHangs(n, hb, g);
    }
  }

  /** Hanging does not depend on the rest of the tree. */
  lemma SameHangs(n: Node, h: map<Node, Role>, g: map<Node, Role>)
    requires n in h && n in g && Hangs(n, h) && g[n] == h[n]
    requires forall c | c in h && h[c].level > 0 && h[c].level == h[n].level + 1 && c.parent == n ::
      c in g && g[c] == h[c]
    ensures Hangs(n, g)
  {
    if n.children != [] {
      assert n.children[0] in h;
      assert Container(g[n].val) && Count(g[n].val) == |n.children|;
    }
    forall k | 0 <= k < |n.children|
      ensures n.children[k] in g && g[n.children[k]] == h[n.children[k]]
    {
    }
  }

  lemma MergedRootHangs(a: Node, h: map<Node, Role>, b: Node, hb: map<Node, Role>, before: seq<Node>)
    requires a in h && b in hb && h[a].val.Obj? && hb[b].val.Obj? && h[a].level == hb[b].level == 0 && h.Keys !! hb.Keys
    requires |before| == |h[a].val.entries| && |b.children| == |hb[b].val.entries|
    requires forall k | 0 <= k < |before| ::
      before[k] in h && h[before[k]].val == Kid(h[a].val, k) && h[before[k]].level == 1 && before[k].parent == a
    requires forall k | 0 <= k < |b.children| ::
      b.children[k] in hb && hb[b.children[k]].val == Kid(hb[b].val, k) && hb[b.children[k]].level == 1
          && b.children[k].parent == a
    requires forall j, k | 0 <= j < k < |before| :: before[j] != before[k]
    requires forall j, k | 0 <= j < k < |b.children| :: b.children[j] != b.children[k]
    requires a.children == before + b.children
    ensures Hangs(a, Merged(a, h, b, hb))
  {
  }

  lemma NotShared(root: Node, h: map<Node, Role>, n: Node)
    requires Family(root, h) && n in h && n != root
    ensures n.children == [] || forall c | c in n.children :: c in h && c !in root.children
  {
    assert Hangs(n, h) && Hangs(root, h);
  }

  /** json_object_merge: the second object's entries move to the end of the first; its values array and its node are
      freed. */
  method Merge(a: Node, b: Node, ghost h: map<Node, Role>, ghost hb: map<Node, Role>) returns (freed: seq<Block>)
    requires Built(a, h) && Built(b, hb) && h.Keys !! hb.Keys && h[a].val.Obj? && hb[b].val.Obj?
    modifies a`additionalLength, a`capacity, a`children, a`names, a`length, a`isBuilderValue
    modifies b`names, b`isBuilderValue, (set c <- b.children)`parent
    ensures Built(a, Merged(a, h, b, hb)) && a.isBuilderValue
    ensures freed == [ValuesBlock(b), NodeBlock(b)]
  {
    hide Built;
    InBuilt(a, h);
    InBuilt(b, hb);
    Builderize(a, a, h);
    Builderize(b, b, hb);
    MergeTrees(a, b, h, hb);
    freed := [ValuesBlock(b), NodeBlock(b)];
  }

  method MergeTrees(a: Node, b: Node, ghost h: map<Node, Role>, ghost hb: map<Node, Role>)
    requires Built(a, h) && Built(b, hb) && h.Keys !! hb.Keys && h[a].val.Obj? && hb[b].val.Obj?
    modifies a`additionalLength, a`capacity, a`children, a`names, a`length, (set c <- b.children)`parent
    ensures Built(a, Merged(a, h, b, hb))
  {
    hide Hangs, Spells, Rooted;
    ghost var g := Merged(a, h, b, hb);
    MergeLinks(a, b, h, hb);
    forall n | n in g ensures Spells(n, g[n].val) && Hangs(n, g) {
      assert n in h && n != a ==> old(Spells(n, h[n].val));
      assert n in hb ==> old(Spells(n, hb[n].val));
      if n != a {
        MergeHangs(n, a, h, b, hb);
      }
    }
  }

  method MergeLinks(a: Node, b: Node, ghost h: map<Node, Role>, ghost hb: map<Node, Role>)
    requires Built(a, h) && Built(b, hb) && h.Keys !! hb.Keys && h[a].val.Obj? && hb[b].val.Obj?
    modifies a`additionalLength, a`capacity, a`children, a`names, a`length, (set c <- b.children)`parent
    ensures Spells(a, Obj(h[a].val.entries + hb[b].val.entries)) && a.length + a.additionalLength == a.capacity
    ensures forall n | n in h && n != a :: Hangs(n, h)
    ensures forall n | n in hb && n != b :: Hangs(n, hb)
    ensures var g := Merged(a, h, b, hb); Hangs(a, g) && Rooted(a, g)
  {
    hide Hangs, Rooted;
    ghost var before := a.children;
    ChildrenOf(a, h);
    ChildrenOf(b, hb);
    forall n | n in h ensures forall c | c in n.children :: c in h { NotBelow(a, h, n); }
    forall n | n in hb && n != b
      ensures forall c | c in n.children :: c in hb && c !in b.children
    {
      NotShared(b, hb, n);
    }
    MergeRooted(a, b, h, hb);
    forall n | n in h && n != a ensures Hangs(n, h) {
      assert old(Hangs(n, h));
    }
    forall n | n in hb && n != b ensures Hangs(n, hb) {
      assert old(Hangs(n, hb));
    }
    MergedRootHangs(a, h, b, hb, before);
  }

  method MergeRooted(a: Node, b: Node, ghost h: map<Node, Role>, ghost hb: map<Node, Role>)
    requires Built(a, h) && Built(b, hb) && h.Keys !! hb.Keys && h[a].val.Obj? && hb[b].val.Obj?
    modifies a`additionalLength, a`capacity, a`children, a`names, a`length, (set c <- b.children)`parent
    ensures Spells(a, Obj(h[a].val.entries + hb[b].val.entries)) && a.length + a.additionalLength == a.capacity
    ensures a.children == old(a.children) + b.children && forall k | 0 <= k < |b.children| :: b.children[k].parent == a
    ensures Rooted(a, Merged(a, h, b, hb))
  {
    hide Hangs, Spells;
    NotBelow(b, hb, b);
    MergeSpells(a, b, h, hb);
  }

  method MergeSpells(a: Node, b: Node, ghost h: map<Node, Role>, ghost hb: map<Node, Role>)
    requires Built(a, h) && Built(b, hb) && h.Keys !! hb.Keys && h[a].val.Obj? && hb[b].val.Obj?
    modifies a`additionalLength, a`capacity, a`children, a`names, a`length, (set c <- b.children)`parent
    ensures Spells(a, Obj(h[a].val.entries + hb[b].val.entries)) && a.length + a.additionalLength == a.capacity
    ensures a.children == old(a.children) + b.children && forall k | 0 <= k < |b.children| :: b.children[k].parent == a
  {
    hide Hangs, Rooted;
    NotBelow(b, hb, b);
    assert Spells(a, h[a].val) && Spells(b, hb[b].val);
    MoveEntries(a, b);
  }
}
