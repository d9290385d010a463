/** json_nodesort: an object's entries in the order of a prototype's names, the others after them. */
module Sorting {
  import opened Bytes
  import opened Values
  import opened Printing
  import opened Walking
  import opened Freeing
  import opened Building
  import opened Grafting

  /** The place of a name in the prototype; names that it does not have come last. */
  function Rank(proto: seq<bytes>, name: bytes): (i: nat)
    ensures i <= |proto| && (i < |proto| ==> proto[i] == name) && forall j | 0 <= j < i :: proto[j] != name
  {
    if proto == [] || proto[0] == name then 0 else
      assert forall j | 0 < j < |proto| :: proto[j] == proto[1..][j - 1];
      Rank(proto[1..], name) + 1
  }

  predicate Unrepeated(proto: seq<bytes>) {
    forall i, j | 0 <= i < j < |proto| :: proto[i] != proto[j]
  }

  /** In the order of the prototype. */
  predicate InOrder(proto: seq<bytes>, es: seq<Entry>) {
    forall a, b | 0 <= a < b < |es| :: Rank(proto, es[a].name) <= Rank(proto, es[b].name)
  }

  function Swapped<T>(s: seq<T>, a: nat, b: nat): (r: seq<T>)
    requires a < |s| && b < |s|
    ensures |r| == |s|
  {
    s[a := s[b]][b := s[a]]
  }

  lemma SwappedAll<T>(s: seq<T>, a: nat, b: nat)
    requires a < |s| && b < |s|
    ensures multiset(Swapped(s, a, b)) == multiset(s)
  {
  }

  /** The object's entries are es, and nothing else of the tree h has changed. */
  ghost function Arranged(node: Node, h: map<Node, Role>, es: seq<Entry>): map<Node, Role>
    requires node in h
  {
    h[node := Role(Obj(es), h[node].level)]
  }

  lemma Sizes(node: Node, h: map<Node, Role>)
    requires Built(node, h) && h[node].val.Obj?
    ensures var es := h[node].val.entries;
      && node.kind == ObjectKind && node.length == |node.children| == |node.names| == |es|
      && forall k | 0 <= k < |es| :: node.names[k] == es[k].name
  {
    assert Spells(node, h[node].val);
  }

  lemma SwapSpells(node: Node, es: seq<Entry>, a: nat, b: nat, names: seq<bytes>)
    requires a < |es| && b < |es| && node.kind == ObjectKind && node.length == |node.children| == |names| == |es|
    requires (forall k | 0 <= k < |es| :: names[k] == es[k].name) && node.names == Swapped(names, a, b)
    ensures Spells(node, Obj(Swapped(es, a, b)))
  {
  }

  lemma SwapHangs(node: Node, h: map<Node, Role>, es: seq<Entry>, a: nat, b: nat, kids: seq<Node>)
    requires node in h && |kids| == |es| && a < |es| && b < |es| && node.children == Swapped(kids, a, b)
    requires forall k | 0 <= k < |kids| ::
      && kids[k] in h && kids[k] != node && kids[k].parent == node
      && h[kids[k]].val == es[k].value && h[kids[k]].level == h[node].level + 1
    requires forall j, k | 0 <= j < k < |kids| :: kids[j] != kids[k]
    ensures Hangs(node, Arranged(node, h, Swapped(es, a, b)))
  {
    var g := Arranged(node, h, Swapped(es, a, b));
    forall k | 0 <= k < |kids|
      ensures node.children[k] in g && node.children[k].parent == node
      ensures g[node.children[k]].level == g[node].level + 1 && g[node.children[k]].val == Kid(g[node].val, k)
    {
      assert node.children[k] == kids[if k == a then b else if k == b then a else k];
    }
  }

  /** Two entries change places. */
  method SwapEntries(node: Node, a: nat, b: nat, ghost h: map<Node, Role>, ghost es: seq<Entry>)
    requires node in h && Built(node, Arranged(node, h, es)) && a < |es| && b < |es|
    modifies node`names, node`children
    ensures Built(node, Arranged(node, h, Swapped(es, a, b)))
    ensures node.names == Swapped(old(node.names), a, b)
  {
    hide Spells, Hangs, Rooted, Arranged;
    ghost var before := Arranged(node, h, es);
    ghost var after := Arranged(node, h, Swapped(es, a, b));
    ArrangedFacts(node, h, es);
    ArrangedFacts(node, h, Swapped(es, a, b));
    SwapLinks(node, a, b, h, es);
    forall n | n in after && n != node ensures Spells(n, after[n].val) && Hangs(n, after) {
      assert old(Spells(n, before[n].val));
      SameHangs(n, before, after);
    }
  }

  method SwapLinks(node: Node, a: nat, b: nat, ghost h: map<Node, Role>, ghost es: seq<Entry>)
    requires node in h && Built(node, Arranged(node, h, es)) && a < |es| && b < |es|
    modifies node`names, node`children
    ensures Spells(node, Obj(Swapped(es, a, b))) && node.names == Swapped(old(node.names), a, b)
    ensures var after := Arranged(node, h, Swapped(es, a, b)); Hangs(node, after) && Rooted(node, after)
    ensures forall n | n in h && n != node :: Hangs(n, Arranged(node, h, es))
  {
    hide Spells, Hangs, Rooted, Arranged, Swapped;
    ghost var before := Arranged(node, h, es);
    ghost var kids, names := node.children, node.names;
    ArrangedFacts(node, h, es);
    ArrangedFacts(node, h, Swapped(es, a, b));
    Sizes(node, before);
    ChildrenOf(node, before);
    forall n | n in before ensures node !in n.children { NotBelow(node, before, n); }
    SwapFields(node, a, b, before);
    SwapSpells(node, es, a, b, names);
    SwapHangs(node, h, es, a, b, kids);
    SwapRooted(node, before, Arranged(node, h, Swapped(es, a, b)), kids, a, b);
    forall n | n in h && n != node ensures Hangs(n, before) {
      assert old(Hangs(n, before));
    }
  }

  method SwapFields(node: Node, a: nat, b: nat, ghost h: map<Node, Role>)
    requires Built(node, h) && a < |node.names| && b < |node.names| && |node.children| == |node.names|
    modifies node`names, node`children
    ensures node.names == Swapped(old(node.names), a, b) && node.children == Swapped(old(node.children), a, b)
    ensures forall n | n in h && n != node ::
      && n.parent != null && n.parent in h && h[n].level > 0
      && n in (if n.parent == node then old(node.children) else n.parent.children)
  {
    hide Spells, Hangs;
    node.names := node.names[a := node.names[b]][b := node.names[a]];
    node.children := node.children[a := node.children[b]][b := node.children[a]];
  }

  lemma ArrangedFacts(node: Node, h: map<Node, Role>, es: seq<Entry>)
    requires node in h
    ensures var g := Arranged(node, h, es);
      && g.Keys == h.Keys && g[node] == Role(Obj(es), h[node].level)
      && forall n | n in h && n != node :: g[n] == h[n]
  {
  }

  lemma SwapRooted(node: Node, before: map<Node, Role>, after: map<Node, Role>, kids: seq<Node>, a: nat, b: nat)
    requires node in before && after.Keys == before.Keys && forall n | n in before
      && n != node :: after[n].level == before[n].level
    requires a < |kids| && b < |kids| && node.children == Swapped(kids, a, b)
    requires forall n | n in before && n != node ::
      && n.parent != null && n.parent in before && before[n].level > 0
      && n in (if n.parent == node then kids else n.parent.children)
    ensures Rooted(node, after)
  {
    forall x | x in kids ensures x in node.children {
      var k :| 0 <= k < |kids| && kids[k] == x;
      assert node.children[if k == a then b else if k == b then a else k] == x;
    }
  }

  // The sort

  /** After i names of the prototype: the first out entries are in order and have those names, and no other has. */
  ghost predicate Placed(proto: seq<bytes>, es: seq<Entry>, i: nat, out: nat) {
    && out <= |es|
    && (forall k | 0 <= k < out :: Rank(proto, es[k].name) < i)
    && (forall k | out <= k < |es| :: Rank(proto, es[k].name) >= i)
    && (forall j, k | 0 <= j < k < out :: Rank(proto, es[j].name) <= Rank(proto, es[k].name))
  }

  /** In the pass for name i, which has come to entry j. */
  ghost predicate Passing(proto: seq<bytes>, es: seq<Entry>, i: nat, out: nat, j: nat) {
    && out <= |es| && j <= |es|
    && (forall k | 0 <= k < out :: Rank(proto, es[k].name) <= i && (j < out ==> Rank(proto, es[k].name) < i))
    && (forall k | out <= k < |es| :: Rank(proto, es[k].name) >= i && (k < j ==> Rank(proto, es[k].name) > i))
    && (forall a, b | 0 <= a < b < out :: Rank(proto, es[a].name) <= Rank(proto, es[b].name))
  }

  lemma TakeEntry(proto: seq<bytes>, es: seq<Entry>, i: nat, out: nat, j: nat)
    requires Passing(proto, es, i, out, j) && j < |es| && i < |proto| && Unrepeated(proto)
    ensures es[j].name == proto[i] ==> out <= j && Passing(proto, Swapped(es, out, j), i, out + 1, j + 1)
    ensures es[j].name != proto[i] ==> Passing(proto, es, i, out, j + 1)
  {
    hide Rank;
    RankOf(proto, i);
    assert es[j].name == proto[i] ==> Rank(proto, es[j].name) == i;
    assert Rank(proto, es[j].name) == i ==> es[j].name == proto[i];
  }

  lemma RankOf(proto: seq<bytes>, i: nat)
    requires Unrepeated(proto) && i < |proto|
    ensures Rank(proto, proto[i]) == i
  {
  }

  /** json_object_sort: the entries come to stand in the order of the prototype's names, those without a name there
      last; they are the same entries, and the tree is whole with them. */
  method ObjectSort(node: Node, proto: Node, ghost h: map<Node, Role>) returns (ghost es: seq<Entry>)
    requires Built(node, h) && h[node].val.Obj? && proto != node && Unrepeated(proto.names)
    modifies node`names, node`children, node`isBuilderValue
    ensures Built(node, Arranged(node, h, es)) && InOrder(proto.names, es)
    ensures multiset(es) == multiset(h[node].val.entries)
  {
    hide Built, Arranged, Rank;
    InBuilt(node, h);
    Builderize(node, node, h);
    es := Unmoved(node, h);
    var out := 0;
    ghost var names := proto.names;
    for i := 0 to |proto.names|
      invariant node in h && Built(node, Arranged(node, h, es)) && |node.names| == |es|
      invariant proto.names == names && Placed(names, es, i, out)
      invariant multiset(es) == multiset(h[node].val.entries)
    {
      out, es := SortPass(node, proto, i, out, h, es);
    }
    PlacedInOrder(names, es, out);
  }

  ghost method Unmoved(node: Node, h: map<Node, Role>) returns (es: seq<Entry>)
    requires Built(node, h) && h[node].val.Obj?
    ensures node in h && es == h[node].val.entries && Built(node, Arranged(node, h, es)) && |node.names| == |es|
  {
    es := h[node].val.entries;
    Sizes(node, h);
    assert h[node] == Role(Obj(es), h[node].level);
    assert Arranged(node, h, es) == h;
  }

  lemma PlacedInOrder(proto: seq<bytes>, es: seq<Entry>, out: nat)
    requires Placed(proto, es, |proto|, out)
    ensures InOrder(proto, es)
  {
    hide Rank;
    forall a, b | 0 <= a < b < |es| ensures Rank(proto, es[a].name) <= Rank(proto, es[b].name) {
      if b >= out {
        assert Rank(proto, es[b].name) >= |proto|;
      }
    }
  }

  /** The inner loop, for one name of the prototype. */
  method SortPass(node: Node, proto: Node, i: nat, out: nat, ghost h: map<Node, Role>, ghost es: seq<Entry>)
    returns (next: nat, ghost fs: seq<Entry>)
    requires node in h && Built(node, Arranged(node, h, es)) && |node.names| == |es| && proto != node
    requires Unrepeated(proto.names) && i < |proto.names| && Placed(proto.names, es, i, out)
    modifies node`names, node`children
    ensures Built(node, Arranged(node, h, fs)) && |node.names| == |fs| && Placed(proto.names, fs, i + 1, next)
    ensures multiset(fs) == multiset(es)
  {
    hide Built, Arranged, Rank, Passing, Placed, Swapped;
    next, fs := out, es;
    PassBegins(proto.names, es, i, out);
    for j := 0 to |node.names|
      invariant Built(node, Arranged(node, h, fs)) && |node.names| == |fs| == |es|
      invariant Passing(proto.names, fs, i, next, j) && multiset(fs) == multiset(es)
    {
      TakeEntry(proto.names, fs, i, next, j);
      NamesShown(node, h, fs);
      if node.names[j] == proto.names[i] {
        SwapEntries(node, next, j, h, fs);
        SwappedAll(fs, next, j);
        fs := Swapped(fs, next, j);
        next := next + 1;
      }
    }
    PassEnds(proto.names, fs, i, next);
  }

  lemma PassBegins(proto: seq<bytes>, es: seq<Entry>, i: nat, out: nat)
    requires Placed(proto, es, i, out)
    ensures Passing(proto, es, i, out, 0)
  {
  }

  lemma PassEnds(proto: seq<bytes>, es: seq<Entry>, i: nat, out: nat)
    requires Passing(proto, es, i, out, |es|)
    ensures Placed(proto, es, i + 1, out)
  {
  }

  lemma NamesShown(node: Node, h: map<Node, Role>, es: seq<Entry>)
    requires node in h && Built(node, Arranged(node, h, es))
    ensures |node.names| == |es| && forall k | 0 <= k < |es| :: node.names[k] == es[k].name
  {
    Sizes(node, Arranged(node, h, es));
  }

  /** json_object_sort of any object of a tree. */
  method ObjectSortAt(root: Node, node: Node, proto: Node, ghost h: map<Node, Role>)
    returns (ghost f: map<Node, Role>, ghost es: seq<Entry>)
    requires Built(root, h) && node in h && h[node].val.Obj? && proto != node && Unrepeated(proto.names)
    modifies node`names, node`children, node`isBuilderValue
    ensures Follows(root, h, node, Arranged(node, Subtree(node, h), es), f)
    ensures InOrder(proto.names, es) && multiset(es) == multiset(h[node].val.entries)
  {
    hide Built, Around, Follows, Below, Rank;
    ghost var s := Cutting(root, h, node);
    assert node !in Outside(h, s.Keys);
    es := ObjectSort(node, proto, s);
    assert Around(root, h, node, s.Keys);
    ghost var g := Arranged(node, s, es);
    f := Replant(root, h, node, s.Keys, g);
  }
}
