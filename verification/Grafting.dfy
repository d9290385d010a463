/** Pushing and merging at any node of a tree: the subtree grows, the values above it follow, and nothing else
    changes. */
module Grafting {
  import opened Bytes
  import opened Values
  import opened Printing
  import opened Walking
  import opened Freeing
  import opened Building

  /** Following parent from n leads to top. */
  ghost predicate Below(n: Node, top: Node, h: map<Node, Role>)
    requires n in h
    reads h.Keys`parent
    decreases h[n].level
  {
    n == top || (n.parent != null && n.parent in h && h[n.parent].level < h[n].level && Below(n.parent, top, h))
  }

  lemma {:induction false} BelowLevel(n: Node, top: Node, h: map<Node, Role>)
    requires n in h && top in h && Below(n, top, h)
    ensures h[top].level <= h[n].level && (n != top ==> h[top].level < h[n].level)
    decreases h[n].level
  {
    if n != top {
      BelowLevel(n.parent, top, h);
    }
  }

  /** Being below depends on the levels alone. */
  lemma {:induction false} BelowSame(n: Node, top: Node, root: Node, h: map<Node, Role>, g: map<Node, Role>)
    requires n in h && root in h && h[root].level == 0
    requires forall m | m in h && m != root :: m.parent != null && m.parent in h
    requires forall m | m in h :: m in g && g[m].level == h[m].level
    ensures Below(n, top, h) <==> Below(n, top, g)
    decreases h[n].level
  {
    if n != top && n != root && h[n.parent].level < h[n].level {
      BelowSame(n.parent, top, root, h, g);
    }
  }

  /** The tree under one node, with levels counted from there. */
  ghost function Subtree(top: Node, h: map<Node, Role>): map<Node, Role>
    requires top in h
    reads h.Keys`parent
  {
    map m | m in h && Below(m, top, h) ::
      Role(h[m].val, if h[top].level <= h[m].level then h[m].level - h[top].level else 0)
  }

  lemma SubtreeBuilt(root: Node, h: map<Node, Role>, top: Node)
    requires Built(root, h) && top in h
    ensures Built(top, Subtree(top, h))
  {
    hide Spells, Hangs, Rooted, Below;
    var s := Subtree(top, h);
    assert Below(top, top, h) by { AtTop(top, h); }
    forall m | m in s ensures h[top].level <= h[m].level && Hangs(m, s) {
      BelowLevel(m, top, h);
      SubtreeHangs(root, h, top, m);
    }
    SubtreeRooted(root, h, top);
  }

  lemma AtTop(top: Node, h: map<Node, Role>)
    requires top in h
    ensures Below(top, top, h)
  {
  }

  lemma SubtreeRooted(root: Node, h: map<Node, Role>, top: Node)
    requires Rooted(root, h) && root in h && h[root].level == 0 && top in h
    ensures Rooted(top, Subtree(top, h))
  {
    var s := Subtree(top, h);
    forall m | m in s && m != top
      ensures m.parent != null && m.parent in s && m in m.parent.children && s[m].level > 0
    {
      BelowLevel(m, top, h);
    }
  }

  lemma SubtreeHangs(root: Node, h: map<Node, Role>, top: Node, m: Node)
    requires Built(root, h) && top in h && m in Subtree(top, h) && h[top].level <= h[m].level
    ensures Hangs(m, Subtree(top, h))
  {
    hide Spells, Rooted;
    var s := Subtree(top, h);
    if m.children != [] {
      assert m.children[0] in h;
      assert Container(s[m].val) && Count(s[m].val) == |m.children|;
    }
    forall k | 0 <= k < |m.children|
      ensures m.children[k] in s && s[m.children[k]].level == s[m].level + 1
        && s[m.children[k]].val == h[m.children[k]].val
    {
      assert m.children[k] in h && m.children[k].parent == m && h[m.children[k]].level == h[m].level + 1;
    }
  }

  // The values above a node that has changed

  /** The value with another child k. */
  function WithKid(v: Value, k: nat, x: Value): (w: Value)
    requires Container(v) && k < Count(v)
    ensures Container(w) && Count(w) == Count(v)
    ensures forall j: nat | j < Count(v) :: Kid(w, j) == if j == k then x else Kid(v, j)
  {
    if v.Arr? then Arr(v.items[k := x]) else Obj(v.entries[k := v.entries[k].(value := x)])
  }

  /** The children hang from m, but the value of n may not be the one that m's value says. */
  ghost predicate HangsBut(m: Node, h: map<Node, Role>, n: Node)
    requires m in h
    reads m`children, (set c | c in m.children && c in h)`parent
  {
    && (Container(h[m].val) ==> |m.children| == Count(h[m].val))
    && (forall k | 0 <= k < |m.children| ::
          && m.children[k] in h && m.children[k].parent == m
          && h[m.children[k]].level == h[m].level + 1
          && Container(h[m].val) && k < Count(h[m].val)
          && (m.children[k] != n ==> h[m.children[k]].val == Kid(h[m].val, k)))
    && (forall j, k | 0 <= j < k < |m.children| :: m.children[j] != m.children[k])
  }

  /** A tree but for the value of n. */
  ghost predicate Torn(root: Node, h: map<Node, Role>, n: Node)
    reads h.Keys
  {
    && root in h && n in h && h[root].level == 0 && Rooted(root, h)
    && forall m | m in h :: Spells(m, h[m].val) && HangsBut(m, h, n)
  }

  /** The parent's value follows. */
  lemma MendOne(root: Node, h: map<Node, Role>, n: Node, k: nat)
    requires Torn(root, h, n) && n != root && n.parent != null && n.parent in h
    requires k < |n.parent.children| && n.parent.children[k] == n
    ensures var p := n.parent;
      && HangsBut(p, h, n) && Container(h[p].val) && k < Count(h[p].val)
      && Torn(root, h[p := Role(WithKid(h[p].val, k, h[n].val), h[p].level)], p)
      && h[p].level < h[n].level
  {
    hide WithKid, Spells, HangsBut, Rooted;
    var p := n.parent;
    ParentHolds(h, n, k);
    var w := WithKid(h[p].val, k, h[n].val);
    var g := h[p := Role(w, h[p].level)];
    WithKidSpells(p, h[p].val, k, h[n].val);
    forall m | m in g ensures Spells(m, g[m].val) && HangsBut(m, g, p) {
      MendHangs(h, n, k, m, g);
    }
    SameRooted(root, h, g);
  }

  lemma ParentHolds(h: map<Node, Role>, n: Node, k: nat)
    requires n in h && n.parent != null && n.parent in h && HangsBut(n.parent, h, n)
    requires k < |n.parent.children| && n.parent.children[k] == n
    ensures Container(h[n.parent].val) && k < Count(h[n.parent].val) && h[n.parent].level < h[n].level
  {
  }

  lemma SameRooted(root: Node, h: map<Node, Role>, g: map<Node, Role>)
    requires Rooted(root, h) && g.Keys == h.Keys && forall m | m in h :: g[m].level == h[m].level
    ensures Rooted(root, g)
  {
  }

  lemma WithKidSpells(p: Node, v: Value, k: nat, x: Value)
    requires Spells(p, v) && Container(v) && k < Count(v)
    ensures Spells(p, WithKid(v, k, x))
  {
  }

  lemma MendHangs(h: map<Node, Role>, n: Node, k: nat, m: Node, g: map<Node, Role>)
    requires n in h && m in h && n.parent != null && n.parent in h && HangsBut(m, h, n) && HangsBut(n.parent, h, n)
    requires k < |n.parent.children| && n.parent.children[k] == n && Container(h[n.parent].val)
      && k < Count(h[n.parent].val)
    requires g == h[n.parent := Role(WithKid(h[n.parent].val, k, h[n].val), h[n.parent].level)]
    ensures HangsBut(m, g, n.parent)
  {
    hide WithKid;
    var p := n.parent;
    if m.children != [] {
      assert m.children[0] in h;
      assert Container(g[m].val) && Count(g[m].val) == |m.children|;
    }
    forall j | 0 <= j < |m.children|
      ensures m.children[j] in g && g[m.children[j]].level == g[m].level + 1
      ensures m.children[j] != p ==> g[m.children[j]].val == Kid(g[m].val, j)
    {
      assert m.children[j] in h && m.children[j].parent == m;
    }
  }

  lemma {:induction false} Mend(root: Node, h: map<Node, Role>, n: Node) returns (g: map<Node, Role>)
    requires Torn(root, h, n)
    ensures Family(root, g) && Rooted(root, g) && g.Keys == h.Keys
    ensures forall m | m in h :: g[m].level == h[m].level
    ensures forall m | m in h && (m == n || !Below(n, m, h)) :: g[m] == h[m]
    decreases h[n].level
  {
    hide Torn, Rooted, Family, Spells, HangsBut, Below, WithKid;
    if n == root {
      Whole(root, h);
      g := h;
    } else {
      var k := PlaceOf(root, h, n);
      MendOne(root, h, n, k);
      var f := h[n.parent := Role(WithKid(h[n.parent].val, k, h[n].val), h[n.parent].level)];
      g := Mend(root, f, n.parent);
      forall m | m in h && (m == n || !Below(n, m, h)) ensures g[m] == h[m] {
        NotAbove(root, h, f, n, m);
      }
    }
  }

  lemma PlaceOf(root: Node, h: map<Node, Role>, n: Node) returns (k: nat)
    requires Torn(root, h, n) && n != root
    ensures n.parent != null && n.parent in h && k < |n.parent.children| && n.parent.children[k] == n
    ensures n in h && root in h && h[root].level == 0 && Rooted(root, h)
  {
    hide Spells, HangsBut;
    k :| 0 <= k < |n.parent.children| && n.parent.children[k] == n;
  }

  /** What is not above n is not above its parent, nor its parent. */
  lemma NotAbove(root: Node, h: map<Node, Role>, f: map<Node, Role>, n: Node, m: Node)
    requires root in h && h[root].level == 0 && n in h && m in h && n != root && Rooted(root, h)
    requires h[n.parent].level < h[n].level
    requires f.Keys == h.Keys && forall x | x in h :: f[x].level == h[x].level
    requires m == n || !Below(n, m, h)
    ensures m != n.parent && !Below(n.parent, m, f)
  {
    BelowSame(n.parent, m, root, h, f);
    if Below(n.parent, m, h) {
      BelowLevel(n.parent, m, h);
    }
  }

  /** Nothing is torn at the root. */
  lemma Whole(root: Node, h: map<Node, Role>)
    requires Torn(root, h, root)
    ensures Family(root, h) && Rooted(root, h)
  {
    hide Spells;
    forall m | m in h ensures Hangs(m, h) {
      WholeHangs(root, h, m);
    }
  }

  lemma WholeHangs(root: Node, h: map<Node, Role>, m: Node)
    requires m in h && root in h && h[root].level == 0 && HangsBut(m, h, root)
    ensures Hangs(m, h)
  {
    if m.children != [] {
      assert m.children[0] in h;
      assert Container(h[m].val) && Count(h[m].val) == |m.children|;
    }
    forall k | 0 <= k < |m.children|
      ensures m.children[k] != root && h[m.children[k]].val == Kid(h[m].val, k)
    {
      assert m.children[k] in h && h[m.children[k]].level > 0;
    }
  }

  // A subtree that has grown

  ghost function Outside(h: map<Node, Role>, keys: set<Node>): set<Node> {
    set m | m in h && m !in keys
  }

  /** What the nodes outside a subtree say; they do not look into it further than its top. */
  ghost predicate Around(root: Node, h: map<Node, Role>, top: Node, keys: set<Node>)
    reads Outside(h, keys), h.Keys`parent
  {
    && root in h && h[root].level == 0 && top in h && top in keys && (root in keys ==> root == top)
    && (top != root ==>
          top.parent != null && top.parent in Outside(h, keys) && top in top.parent.children && h[top].level > 0)
    && keys <= h.Keys && (forall m | m in keys && m != top :: m.parent != null && m.parent in keys)
    && forall m | m in Outside(h, keys) :: Stands(m, root, h, top, keys)
  }

  ghost predicate Stands(m: Node, root: Node, h: map<Node, Role>, top: Node, keys: set<Node>)
    requires m in Outside(h, keys)
    reads Outside(h, keys), h.Keys`parent
  {
    && Spells(m, h[m].val) && Hangs(m, h)
    && m.lengthIterated == 0 && m.length + m.additionalLength == m.capacity
    && (forall c | c in m.children && c in keys :: c == top)
    && (m != root ==>
          m.parent != null && m.parent in Outside(h, keys) && m in m.parent.children && h[m].level > 0)
  }

  lemma AroundSubtree(root: Node, h: map<Node, Role>, top: Node)
    requires Built(root, h) && top in h
    ensures Around(root, h, top, Subtree(top, h).Keys)
  {
    hide Spells, Hangs;
    var keys := Subtree(top, h).Keys;
    if root != top {
      if Below(root, top, h) {
        BelowLevel(root, top, h);
      }
      ParentLevel(root, h, top);
      if Below(top.parent, top, h) {
        BelowLevel(top.parent, top, h);
      }
    }
    forall m | m in Outside(h, keys) ensures Stands(m, root, h, top, keys) {
      StandsOutside(root, h, top, m);
    }
  }

  lemma ParentLevel(root: Node, h: map<Node, Role>, n: Node)
    requires Built(root, h) && n in h && n != root
    ensures n.parent != null && n.parent in h && n in n.parent.children && h[n.parent].level < h[n].level
  {
    hide Spells;
    assert Hangs(n.parent, h);
  }

  lemma StandsOutside(root: Node, h: map<Node, Role>, top: Node, m: Node)
    requires Built(root, h) && top in h && m in h && !Below(m, top, h)
    ensures Stands(m, root, h, top, Subtree(top, h).Keys)
  {
    hide Spells;
    forall c | c in m.children && c in Subtree(top, h).Keys ensures c == top {
      assert Hangs(m, h);
      assert c.parent == m && h[m].level < h[c].level;
    }
    if m != root {
      assert Hangs(m.parent, h);
    }
  }

  /** The whole tree with the grown subtree in its place; the values above it are not yet right. */
  function Replaced(h: map<Node, Role>, top: Node, g: map<Node, Role>): (f: map<Node, Role>)
    requires top in h
    ensures f.Keys == h.Keys + g.Keys
  {
    map m | m in h.Keys + g.Keys :: if m in g then Role(g[m].val, g[m].level + h[top].level) else h[m]
  }

  ghost predicate Regrown(h: map<Node, Role>, top: Node, keys: set<Node>, g: map<Node, Role>) {
    && top in h && keys <= h.Keys && keys <= g.Keys
    && (forall m | m in g && m in h :: m in keys && g[m].level + h[top].level == h[m].level)
  }

  lemma ReplacedTorn(root: Node, h: map<Node, Role>, top: Node, keys: set<Node>, g: map<Node, Role>)
    requires Around(root, h, top, keys) && Regrown(h, top, keys, g) && Built(top, g)
    ensures Torn(root, Replaced(h, top, g), top)
  {
    hide Spells, Hangs, HangsBut, Rooted;
    var f := Replaced(h, top, g);
    forall m | m in f ensures Spells(m, f[m].val) && HangsBut(m, f, top) {
      ReplacedHangs(root, h, top, keys, g, m);
    }
    ReplacedRooted(root, h, top, keys, g);
  }

  lemma ReplacedHangs(root: Node, h: map<Node, Role>, top: Node, keys: set<Node>, g: map<Node, Role>, m: Node)
    requires Around(root, h, top, keys) && Regrown(h, top, keys, g) && Built(top, g) && m in Replaced(h, top, g)
    ensures Spells(m, Replaced(h, top, g)[m].val) && HangsBut(m, Replaced(h, top, g), top)
  {
    hide Spells, Rooted;
    var f := Replaced(h, top, g);
    if m in g {
      assert Hangs(m, g);
    } else {
      assert Stands(m, root, h, top, keys);
    }
    if m.children != [] {
      assert m.children[0] in f;
      assert Container(f[m].val) && Count(f[m].val) == |m.children|;
    }
    forall k | 0 <= k < |m.children|
      ensures m.children[k] in f && m.children[k].parent == m && f[m.children[k]].level == f[m].level + 1
      ensures m.children[k] != top ==> f[m.children[k]].val == Kid(f[m].val, k)
    {
      assert m.children[k] in if m in g then g else h;
    }
  }

  lemma ReplacedRooted(root: Node, h: map<Node, Role>, top: Node, keys: set<Node>, g: map<Node, Role>)
    requires Around(root, h, top, keys) && Regrown(h, top, keys, g) && Built(top, g)
    ensures Rooted(root, Replaced(h, top, g))
  {
    hide Spells, Hangs;
    var f := Replaced(h, top, g);
    forall m | m in f && m != root
      ensures m.parent != null && m.parent in f && m in m.parent.children && f[m].level > 0
    {
      assert m !in g ==> Stands(m, root, h, top, keys);
    }
  }

  /** What a tree becomes when the subtree under top grows to g: the grown part keeps its roles, the values above it
      follow, and every other node keeps its role. */
  ghost predicate Follows(root: Node, h: map<Node, Role>, top: Node, g: map<Node, Role>, f: map<Node, Role>)
    requires top in h
    reads h.Keys`parent, f.Keys
  {
    && Built(root, f) && f.Keys == h.Keys + g.Keys
    && (forall m | m in g :: f[m] == Role(g[m].val, g[m].level + h[top].level))
    && (forall m | m in h && m !in g && !Below(top, m, h) :: f[m] == h[m])
  }

  lemma Replant(root: Node, h: map<Node, Role>, top: Node, keys: set<Node>, g: map<Node, Role>)
    returns (f: map<Node, Role>)
    requires Around(root, h, top, keys) && Regrown(h, top, keys, g) && Built(top, g)
    ensures Follows(root, h, top, g, f)
  {
    hide Spells, Hangs, HangsBut, Torn, Below;
    var e := Replaced(h, top, g);
    ReplacedTorn(root, h, top, keys, g);
    f := Mend(root, e, top);
    ReplacedAtRest(root, h, top, keys, g);
    forall m | m in g ensures f[m] == e[m] {
      NotAboveTop(top, g, e, h[top].level, m);
    }
    forall m | m in h && m !in g && !Below(top, m, h) ensures f[m] == h[m] {
      AboveSame(root, h, top, keys, g, m);
    }
  }

  lemma ReplacedAtRest(root: Node, h: map<Node, Role>, top: Node, keys: set<Node>, g: map<Node, Role>)
    requires Around(root, h, top, keys) && Regrown(h, top, keys, g) && Built(top, g)
    ensures AtRest(Replaced(h, top, g)) && Roomy(Replaced(h, top, g))
  {
    hide Spells, Hangs;
    forall m | m in Replaced(h, top, g)
      ensures m.lengthIterated == 0 && m.length + m.additionalLength == m.capacity
    {
      assert m !in g ==> Stands(m, root, h, top, keys);
    }
  }

  /** Nothing in the subtree but its top is above the top. */
  lemma NotAboveTop(top: Node, g: map<Node, Role>, e: map<Node, Role>, level: nat, m: Node)
    requires Built(top, g) && m in g && top in e && m in e
    requires e[top].level == level && e[m].level == g[m].level + level
    ensures m == top || !Below(top, m, e)
  {
    hide Spells, Hangs;
    if m != top && Below(top, m, e) {
      BelowLevel(top, m, e);
    }
  }

  lemma AboveSame(root: Node, h: map<Node, Role>, top: Node, keys: set<Node>, g: map<Node, Role>, m: Node)
    requires Around(root, h, top, keys) && Regrown(h, top, keys, g) && Built(top, g) && m in h && m !in g
    ensures Below(top, m, h) <==> Below(top, m, Replaced(h, top, g))
  {
    hide Spells, Hangs;
    forall x | x in h && x != root ensures x.parent != null && x.parent in h {
      assert x !in keys ==> Stands(x, root, h, top, keys);
    }
    BelowSame(top, m, root, h, Replaced(h, top, g));
  }

  // The operations at any node

  /** json_array_push into any array of a tree. */
  method ArrayPushAt(root: Node, into: Node, value: Node, ghost h: map<Node, Role>, ghost twig: map<Node, Role>)
    returns (ghost f: map<Node, Role>)
    requires Built(root, h) && into in h && Built(value, twig) && h.Keys !! twig.Keys && h[into].val.Arr?
    modifies into`additionalLength, into`capacity, into`children, into`names, into`length, into`isBuilderValue
    modifies value`parent, value`names, value`isBuilderValue
    ensures Follows(root, h, into,
                    Grafted(into, Subtree(into, h), Arr(h[into].val.items + [twig[value].val]), twig), f)
  {
    hide Built, Around, Follows, Below;
    InBuilt(value, twig);
    ghost var s := Cutting(root, h, into);
    assert into !in Outside(h, s.Keys) && value !in h;
    ArrayPush(into, value, s, twig);
    assert Around(root, h, into, s.Keys);
    ghost var g := Grafted(into, s, Arr(h[into].val.items + [twig[value].val]), twig);
    f := Replant(root, h, into, s.Keys, g);
  }

  /** json_object_push into any object of a tree. */
  method ObjectPushAt(root: Node, into: Node, name: bytes, value: Node, ghost h: map<Node, Role>,
                      ghost twig: map<Node, Role>)
    returns (ghost f: map<Node, Role>)
    requires Built(root, h) && into in h && Built(value, twig) && h.Keys !! twig.Keys && h[into].val.Obj?
    modifies into`additionalLength, into`capacity, into`children, into`names, into`length, into`isBuilderValue
    modifies value`parent, value`names, value`isBuilderValue
    ensures Follows(root, h, into,
                    Grafted(into, Subtree(into, h), Obj(h[into].val.entries + [Entry(name, twig[value].val)]), twig), f)
  {
    hide Built, Around, Follows, Below;
    InBuilt(value, twig);
    ghost var s := Cutting(root, h, into);
    assert into !in Outside(h, s.Keys) && value !in h;
    ObjectPush(into, name, value, s, twig);
    assert Around(root, h, into, s.Keys);
    ghost var g := Grafted(into, s, Obj(h[into].val.entries + [Entry(name, twig[value].val)]), twig);
    f := Replant(root, h, into, s.Keys, g);
  }

  /** json_object_merge into any object of a tree; the object that is merged in is a root, since its node is freed. */
  method MergeAt(root: Node, a: Node, b: Node, ghost h: map<Node, Role>, ghost hb: map<Node, Role>)
    returns (freed: seq<Block>, ghost f: map<Node, Role>)
    requires Built(root, h) && a in h && Built(b, hb) && h.Keys !! hb.Keys && h[a].val.Obj? && hb[b].val.Obj?
    modifies a`additionalLength, a`capacity, a`children, a`names, a`length, a`isBuilderValue
    modifies b`names, b`isBuilderValue, (set c <- b.children)`parent
    ensures Follows(root, h, a, Merged(a, Subtree(a, h), b, hb), f) && freed == [ValuesBlock(b), NodeBlock(b)]
  {
    hide Built, Around, Follows, Below;
    ghost var s := Cutting(root, h, a);
    KidsIn(b, hb);
    assert a !in Outside(h, s.Keys) && b !in h && forall c | c in b.children :: c !in h;
    freed := Merge(a, b, s, hb);
    assert Around(root, h, a, s.Keys);
    ghost var g := Merged(a, s, b, hb);
    f := Replant(root, h, a, s.Keys, g);
  }

  ghost method Cutting(root: Node, h: map<Node, Role>, top: Node) returns (s: map<Node, Role>)
    requires Built(root, h) && top in h
    ensures s == Subtree(top, h) && Built(top, s) && Around(root, h, top, s.Keys)
    ensures top in s && s[top] == Role(h[top].val, 0) && s.Keys <= h.Keys
    ensures forall m | m in s :: s[m].level + h[top].level == h[m].level
  {
    s := Subtree(top, h);
    SubtreeBuilt(root, h, top);
    AroundSubtree(root, h, top);
    AtTop(top, h);
    forall m | m in s ensures h[top].level <= h[m].level { BelowLevel(m, top, h); }
  }

  lemma KidsIn(b: Node, hb: map<Node, Role>)
    requires Built(b, hb)
    ensures b in hb && forall c | c in b.children :: c in hb
  {
    NotBelow(b, hb, b);
  }
}
