/**
 Growing the tree by one level under its stable root page, and its inverse.
 */
module RootSteps {
  import opened Keys
  import opened Pages
  import opened Trees

  /** The root's page moves to the fresh page `l`; the root becomes an inner node with `l` as its only child. */
  ghost function Grow(t: Tree, l: Pid): Tree
    requires t.root in t.pages
  {
    t.(pages := t.pages[l := t.pages[t.root]][t.root := Inner([], l)],
       lo := t.lo[l := Lo(t, t.root)],
       level := t.level[l := Level(t, t.root)][t.root := Level(t, t.root) + 1])
  }

  /** The root takes over the page of its only child. */
  ghost function Collapse(t: Tree): Tree
    requires IsInner(t, t.root) && t.pages[t.root].upper in t.pages
  {
    var c := t.pages[t.root].upper;
    t.(pages := t.pages[t.root := t.pages[c]] - {c},
       lo := t.lo - {c},
       level := t.level[t.root := Level(t, c)] - {c})
  }

  ghost predicate GrownBy(u: Tree, g: Tree, l: Pid)
  {
    && l != 0 && l != u.root && u.root in u.pages && l !in u.pages && g.pages.Keys == u.pages.Keys + {l}
    && g.root == u.root && g.orphans == u.orphans && l !in u.orphans
    && (forall p :: p != l ==> Lo(g, p) == Lo(u, p)) && Lo(g, l) == Lo(u, u.root)
    && (forall p :: p != l && p != u.root ==> Level(g, p) == Level(u, p))
    && Level(g, l) == Level(u, u.root) && Level(g, u.root) == Level(u, u.root) + 1
    && IsInner(g, u.root) && Slots(g, u.root) == [] && (forall j :: Kid(g, u.root, j) == l)
    && (IsLeaf(g, l) <==> IsLeaf(u, u.root)) && (IsInner(g, l) <==> IsInner(u, u.root))
    && Entries(g, l) == Entries(u, u.root) && Right(g, l) == Right(u, u.root) && Slots(g, l) == Slots(u, u.root)
    && (forall j :: Kid(g, l, j) == Kid(u, u.root, j))
    && (forall p :: p != l && p != u.root ==> (IsLeaf(g, p) <==> IsLeaf(u, p)) && (IsInner(g, p) <==> IsInner(u, p)))
    && (forall p :: p != l && p != u.root ==> Entries(g, p) == Entries(u, p) && Right(g, p) == Right(u, p))
    && (forall p :: p != l && p != u.root ==> Slots(g, p) == Slots(u, p))
    && (forall p, j :: p != l && p != u.root ==> Kid(g, p, j) == Kid(u, p, j))
  }

  lemma GrowGrows(t: Tree, l: Pid)
    requires t.root in t.pages && l != 0 && l !in t.pages && l !in t.orphans
    ensures GrownBy(t, Grow(t, l), l)
  {
  }

  lemma CollapseShrinks(t: Tree)
    requires IsInner(t, t.root) && Slots(t, t.root) == [] && t.pages[t.root].upper in t.pages
    requires Typed(t) && Kids(t) && KidsUp(t) && t.orphans == {}
    ensures GrownBy(Collapse(t), t, t.pages[t.root].upper)
  {
    var c := Kid(t, t.root, 0);
    assert Level(t, c) + 1 == Level(t, t.root);
    assert Lo(t, c) == Lo(t, t.root);
    CollapsePages(t, c);
  }

  lemma CollapsePages(t: Tree, c: Pid)
    requires IsInner(t, t.root) && c == t.pages[t.root].upper && c in t.pages
    requires Lo(t, c) == Lo(t, t.root) && Level(t, c) + 1 == Level(t, t.root)
    requires t.orphans == {} && Slots(t, t.root) == [] && c != 0
    ensures GrownBy(Collapse(t), t, c)
  {
  }

  /** The page that holds, in the other tree, what `p` holds. */
  function Moved(u: Tree, l: Pid, p: Pid): Pid
  {
    if p == u.root then l else p
  }

  lemma GrownEntries(u: Tree, g: Tree, l: Pid)
    requires GrownBy(u, g, l)
    ensures forall p :: p in u.pages ==>
      var q := Moved(u, l, p);
      && q in g.pages && Entries(g, q) == Entries(u, p) && Lo(g, q) == Lo(u, p) && Right(g, q) == Right(u, p)
      && (IsLeaf(g, q) <==> IsLeaf(u, p)) && (IsInner(g, q) <==> IsInner(u, p))
    ensures forall p :: p in g.pages && p != u.root ==> (if p == l then u.root else p) in u.pages
    ensures Entries(g, u.root) == [] && Entries(u, l) == []
  {
  }

  lemma GrownBounds(u: Tree, g: Tree, l: Pid, bound: real, x: real)
    requires GrownBy(u, g, l)
    ensures AllBelow(u, bound, x) <==> AllBelow(g, bound, x)
    ensures AtMost(u, bound, x) <==> AtMost(g, bound, x)
  {
    GrownEntries(u, g, l);
    forall z, j | Lo(g, z) < bound && 0 <= j < |Entries(g, z)|
      ensures AllBelow(u, bound, x) ==> Num(Entries(g, z)[j].key) < x
      ensures AtMost(u, bound, x) ==> Num(Entries(g, z)[j].key) <= x
    {
      var y := if z == l then u.root else z;
      assert Entries(u, y) == Entries(g, z);
    }
    forall z, j | Lo(u, z) < bound && 0 <= j < |Entries(u, z)|
      ensures AllBelow(g, bound, x) ==> Num(Entries(u, z)[j].key) < x
      ensures AtMost(g, bound, x) ==> Num(Entries(u, z)[j].key) <= x
    {
      var y := Moved(u, l, z);
      assert Entries(g, y) == Entries(u, z);
    }
  }

  lemma GrownSep(u: Tree, g: Tree, l: Pid, sep: Key, bound: real)
    requires GrownBy(u, g, l)
    ensures SepOk(u, sep, bound) <==> SepOk(g, sep, bound)
  {
    hide AllBelow, AtMost, Num;
    GrownBounds(u, g, l, bound, Num(sep));
    if SepOk(u, sep, bound) {
      GrownSepUp(u, g, l, sep, bound);
    }
    if SepOk(g, sep, bound) {
      GrownSepDown(u, g, l, sep, bound);
    }
  }

  lemma GrownSepUp(u: Tree, g: Tree, l: Pid, sep: Key, bound: real)
    requires GrownBy(u, g, l) && SepOk(u, sep, bound)
    ensures SepOk(g, sep, bound)
  {
    hide AllBelow, AtMost, Num;
    GrownBounds(u, g, l, bound, Num(sep));
    forall y | IsLeaf(g, y) && Lo(g, y) < bound
      ensures AllBelow(g, Lo(g, y), Num(sep))
    {
      var x := if y == l then u.root else y;
      assert IsLeaf(u, x) && Lo(u, x) == Lo(g, y);
      GrownBounds(u, g, l, Lo(u, x), Num(sep));
    }
  }

  lemma GrownSepDown(u: Tree, g: Tree, l: Pid, sep: Key, bound: real)
    requires GrownBy(u, g, l) && SepOk(g, sep, bound)
    ensures SepOk(u, sep, bound)
  {
    hide AllBelow, AtMost, Num;
    GrownBounds(u, g, l, bound, Num(sep));
    forall y | IsLeaf(u, y) && Lo(u, y) < bound
      ensures AllBelow(u, Lo(u, y), Num(sep))
    {
      var x := Moved(u, l, y);
      assert IsLeaf(g, x) && Lo(g, x) == Lo(u, y);
      GrownBounds(u, g, l, Lo(u, y), Num(sep));
    }
  }

  /** What `z` holds in the tall tree, the short tree holds in `Back(u, l, z)`. */
  function Back(u: Tree, l: Pid, z: Pid): Pid
  {
    if z == l then u.root else z
  }

  lemma GrownEntry(u: Tree, g: Tree, l: Pid, z: Pid)
    requires GrownBy(u, g, l)
    ensures |Entries(g, z)| > 0 ==> Entries(u, Back(u, l, z)) == Entries(g, z) && Lo(u, Back(u, l, z)) == Lo(g, z)
    ensures |Entries(u, z)| > 0 ==> Entries(g, Moved(u, l, z)) == Entries(u, z) && Lo(g, Moved(u, l, z)) == Lo(u, z)
  {
  }

  lemma GrowSorted(u: Tree, g: Tree, l: Pid)
    requires GrownBy(u, g, l) && SortedLeaves(u) && SortedAcross(u)
    ensures SortedLeaves(g) && SortedAcross(g)
  {
    hide GrownBy;
    forall y, z, i, j | Lo(g, y) < Lo(g, z) && 0 <= i < |Entries(g, y)| && 0 <= j < |Entries(g, z)|
      ensures Num(Entries(g, y)[i].key) < Num(Entries(g, z)[j].key)
    {
      GrownEntry(u, g, l, y);
      GrownEntry(u, g, l, z);
    }
    forall z, i, j | 0 <= i < j < |Entries(g, z)|
      ensures Num(Entries(g, z)[i].key) < Num(Entries(g, z)[j].key)
    {
      GrownEntry(u, g, l, z);
    }
  }

  lemma ShrinkSorted(u: Tree, g: Tree, l: Pid)
    requires GrownBy(u, g, l) && SortedLeaves(g) && SortedAcross(g)
    ensures SortedLeaves(u) && SortedAcross(u)
  {
    hide GrownBy;
    forall y, z, i, j | Lo(u, y) < Lo(u, z) && 0 <= i < |Entries(u, y)| && 0 <= j < |Entries(u, z)|
      ensures Num(Entries(u, y)[i].key) < Num(Entries(u, z)[j].key)
    {
      GrownEntry(u, g, l, y);
      GrownEntry(u, g, l, z);
    }
    forall z, i, j | 0 <= i < j < |Entries(u, z)|
      ensures Num(Entries(u, z)[i].key) < Num(Entries(u, z)[j].key)
    {
      GrownEntry(u, g, l, z);
    }
  }

  // ----- growing -----

  lemma GrowTyped(u: Tree, g: Tree, l: Pid)
    requires GrownBy(u, g, l) && Typed(u) && RootFirst(u) && Distinct(u)
    ensures Typed(g) && RootFirst(g) && Distinct(g)
  {
  }

  lemma GrowKids(u: Tree, g: Tree, l: Pid)
    requires GrownBy(u, g, l) && Typed(u) && Kids(u) && KidsUp(u)
    ensures Kids(g) && KidsUp(g)
  {
    forall p, j | IsInner(u, p) && 0 <= j <= |Slots(u, p)|
      ensures Kid(u, p, j) in u.pages && Kid(u, p, j) != u.root && Level(u, Kid(u, p, j)) + 1 == Level(u, p)
    {
    }
    forall p, j | IsInner(g, p) && 0 <= j <= |Slots(g, p)|
      ensures Kid(g, p, j) in g.pages && Level(g, Kid(g, p, j)) + 1 == Level(g, p)
      ensures p != u.root ==> Lo(g, Kid(g, p, j)) == Lo(u, Kid(g, p, j))
    {
      var q := if p == l then u.root else p;
      assert p != u.root ==> Kid(g, p, j) == Kid(u, q, j) && IsInner(u, q);
    }
    forall p, a, b | IsInner(g, p) && 0 <= a < b <= |Slots(g, p)|
      ensures Lo(g, Kid(g, p, a)) < Lo(g, Kid(g, p, b))
    {
      var q := if p == l then u.root else p;
      assert Lo(u, Kid(u, q, a)) < Lo(u, Kid(u, q, b));
    }
  }

  lemma GrowNested(u: Tree, g: Tree, l: Pid)
    requires GrownBy(u, g, l) && Typed(u) && Kids(u) && Nested(u)
    ensures Nested(g)
  {
    forall p, q | IsInner(g, p) && q in g.pages && Level(g, p) == Level(g, q) && Lo(g, p) < Lo(g, q)
      ensures Lo(g, Kid(g, p, |Slots(g, p)|)) < Lo(g, q)
    {
      assert p != u.root && q != u.root && p != l && q != l;
      assert Kid(u, p, |Slots(u, p)|) in u.pages;
      assert Lo(u, Kid(u, p, |Slots(u, p)|)) < Lo(u, q);
    }
  }

  lemma GrowParented(u: Tree, g: Tree, l: Pid)
    requires GrownBy(u, g, l) && Parented(u) && Kids(u)
    ensures Parented(g)
  {
    forall c | c in g.pages && c != g.root && c !in g.orphans
      ensures HasParent(g, c)
    {
      if c == l {
        assert Edge(g, u.root, 0, l);
      } else {
        assert HasParent(u, c);
        var p, i :| Edge(u, p, i, c);
        assert Edge(g, Moved(u, l, p), i, c);
      }
    }
    forall c, p, i | c in g.orphans
      ensures !Edge(g, p, i, c)
    {
      assert !Edge(u, if p == l then u.root else p, i, c);
    }
  }

  lemma GrowLinked(u: Tree, g: Tree, l: Pid)
    requires GrownBy(u, g, l) && Typed(u) && Linked(u)
    ensures Linked(g)
  {
    forall z | IsLeaf(g, z)
      ensures NextLeaf(g, Lo(g, z), Right(g, z))
    {
      LinkedAt(u, if z == l then u.root else z);
    }
  }

  lemma GrowRouted(u: Tree, g: Tree, l: Pid)
    requires GrownBy(u, g, l) && Typed(u) && Kids(u) && Routed(u)
    ensures Routed(g)
  {
    hide SepOk;
    forall p, i | 0 <= i < |Slots(g, p)|
      ensures SepOk(g, Slots(g, p)[i].sep, Lo(g, Kid(g, p, i + 1)))
    {
      var q := if p == l then u.root else p;
      assert SepOk(u, Slots(u, q)[i].sep, Lo(u, Kid(u, q, i + 1)));
      assert Kid(u, q, i + 1) in u.pages;
      GrownSep(u, g, l, Slots(u, q)[i].sep, Lo(u, Kid(u, q, i + 1)));
    }
  }

  lemma GrowKeeps(t: Tree, l: Pid)
    requires Inv(t) && l != 0 && l !in t.pages
    ensures Inv(Grow(t, l)) && GrownBy(t, Grow(t, l), l)
  {
    var g := Grow(t, l);
    assert Shaped(t) && Typed(t);
    assert l !in t.orphans;
    GrowGrows(t, l);
    GrowTyped(t, g, l);
    GrowKids(t, g, l);
    GrowNested(t, g, l);
    GrowParented(t, g, l);
    GrowLinked(t, g, l);
    GrowSorted(t, g, l);
    GrowRouted(t, g, l);
  }

  // ----- collapsing -----

  /** With one edge at the root and no orphans, the root's child is alone on its level. */
  lemma OnlyChild(g: Tree, c: Pid)
    requires Typed(g) && Kids(g) && Parented(g) && g.orphans == {}
    requires IsInner(g, g.root) && Slots(g, g.root) == []
    requires c in g.pages && Level(g, c) + 1 == Level(g, g.root)
    ensures c == Kid(g, g.root, 0)
  {
    assert HasParent(g, c);
    var p, i :| Edge(g, p, i, c);
    assert Level(g, Kid(g, p, i)) + 1 == Level(g, p);
  }

  lemma ShrinkTyped(u: Tree, g: Tree, l: Pid)
    requires GrownBy(u, g, l) && Typed(g) && RootFirst(g) && Distinct(g) && Kids(g) && Parented(g) && g.orphans == {}
    ensures Typed(u) && RootFirst(u) && Distinct(u)
  {
    hide Kids, Parented;
    forall p | p in u.pages && p != u.root
      ensures Level(u, p) < Level(u, u.root)
    {
      ShrinkBelow(u, g, l, p);
    }
    ShrinkDistinct(u, g, l);
  }

  lemma ShrinkBelow(u: Tree, g: Tree, l: Pid, p: Pid)
    requires GrownBy(u, g, l) && Typed(g) && Kids(g) && Parented(g) && g.orphans == {} && p in u.pages && p != u.root
    ensures Level(u, p) < Level(u, u.root)
  {
    hide Kids, Parented;
    if Level(g, p) + 1 == Level(g, u.root) {
      OnlyChild(g, p);
    }
  }

  lemma ShrinkDistinct(u: Tree, g: Tree, l: Pid)
    requires GrownBy(u, g, l) && Distinct(g)
    requires (forall p :: p in u.pages && p != u.root ==> Level(u, p) < Level(u, u.root))
    ensures Distinct(u)
  {
  }

  lemma ShrinkKids(u: Tree, g: Tree, l: Pid)
    requires GrownBy(u, g, l) && Typed(g) && Kids(g) && KidsUp(g)
    ensures Kids(u) && KidsUp(u)
  {
    hide GrownBy, Typed, Kids, KidsUp;
    forall p, j | IsInner(u, p) && 0 <= j <= |Slots(u, p)|
      ensures Kid(u, p, j) in u.pages && Level(u, Kid(u, p, j)) + 1 == Level(u, p)
    {
      ShrinkKid(u, g, l, p, j);
    }
    assert Kids(u) by {
      KidsAre(u);
    }
    forall p, a, b | IsInner(u, p) && 0 <= a < b <= |Slots(u, p)|
      ensures Lo(u, Kid(u, p, a)) < Lo(u, Kid(u, p, b))
    {
      ShrinkKidsUp(u, g, l, p, a, b);
    }
    forall p | IsInner(u, p)
      ensures Lo(u, Kid(u, p, 0)) == Lo(u, p)
    {
      ShrinkFirst(u, g, l, p);
    }
    KidsUpAre(u);
  }

  lemma KidsAre(u: Tree)
    requires forall p, i :: IsInner(u, p) && 0 <= i <= |Slots(u, p)| ==>
      Kid(u, p, i) in u.pages && Level(u, Kid(u, p, i)) + 1 == Level(u, p)
    ensures Kids(u)
  {
  }

  lemma KidsUpAre(u: Tree)
    requires forall p :: IsInner(u, p) ==> Lo(u, Kid(u, p, 0)) == Lo(u, p)
    requires forall p, a, b :: IsInner(u, p) && 0 <= a < b <= |Slots(u, p)| ==>
      Lo(u, Kid(u, p, a)) < Lo(u, Kid(u, p, b))
    ensures KidsUp(u)
  {
  }

  lemma ShrinkKid(u: Tree, g: Tree, l: Pid, p: Pid, j: nat)
    requires GrownBy(u, g, l) && Typed(g) && Kids(g) && IsInner(u, p) && j <= |Slots(u, p)|
    ensures Kid(u, p, j) in u.pages && Level(u, Kid(u, p, j)) + 1 == Level(u, p)
    ensures Lo(g, Kid(u, p, j)) == Lo(u, Kid(u, p, j))
  {
    var q := Moved(u, l, p);
    assert Kid(g, q, j) in g.pages && Level(g, Kid(g, q, j)) + 1 == Level(g, q);
    assert Level(g, l) + 1 == Level(g, u.root);
    assert Level(g, q) <= Level(g, l);
  }

  lemma ShrinkKidsUp(u: Tree, g: Tree, l: Pid, p: Pid, a: nat, b: nat)
    requires GrownBy(u, g, l) && Typed(g) && Kids(g) && KidsUp(g) && IsInner(u, p) && a < b <= |Slots(u, p)|
    ensures Lo(u, Kid(u, p, a)) < Lo(u, Kid(u, p, b))
  {
    ShrinkKid(u, g, l, p, a);
    ShrinkKid(u, g, l, p, b);
    assert Lo(g, Kid(g, Moved(u, l, p), a)) < Lo(g, Kid(g, Moved(u, l, p), b));
  }

  lemma ShrinkFirst(u: Tree, g: Tree, l: Pid, p: Pid)
    requires GrownBy(u, g, l) && Typed(g) && Kids(g) && KidsUp(g) && IsInner(u, p)
    ensures Lo(u, Kid(u, p, 0)) == Lo(u, p)
  {
    ShrinkKid(u, g, l, p, 0);
    assert Lo(g, Kid(g, Moved(u, l, p), 0)) == Lo(g, Moved(u, l, p));
  }

  lemma ShrinkNested(u: Tree, g: Tree, l: Pid)
    requires GrownBy(u, g, l) && Typed(u) && Kids(u) && Nested(g)
    ensures Nested(u)
  {
    forall p, q | IsInner(u, p) && q in u.pages && Level(u, p) == Level(u, q) && Lo(u, p) < Lo(u, q)
      ensures Lo(u, Kid(u, p, |Slots(u, p)|)) < Lo(u, q)
    {
      assert p != u.root && q != u.root;
      assert Kid(u, p, |Slots(u, p)|) in u.pages;
      assert Lo(g, Kid(g, p, |Slots(g, p)|)) < Lo(g, q);
    }
  }

  lemma ShrinkParented(u: Tree, g: Tree, l: Pid)
    requires GrownBy(u, g, l) && Parented(g) && g.orphans == {}
    ensures Parented(u)
  {
    forall c | c in u.pages && c != u.root
      ensures HasParent(u, c)
    {
      assert HasParent(g, c);
      var p, i :| Edge(g, p, i, c);
      assert Edge(u, if p == l then u.root else p, i, c);
    }
  }

  /** A leaf root is the only page, so it links nowhere. */
  lemma LeafRootAlone(t: Tree)
    requires Typed(t) && IsLeaf(t, t.root)
    ensures t.pages.Keys == {t.root}
  {
  }

  lemma ShrinkLinkedLeaf(u: Tree, g: Tree, l: Pid)
    requires GrownBy(u, g, l) && Typed(u) && Linked(g) && IsLeaf(u, u.root)
    ensures Linked(u)
  {
    LeafRootAlone(u);
    LinkedAt(g, l);
    assert g.pages.Keys == {u.root, l};
  }

  lemma ShrinkLinkedInner(u: Tree, g: Tree, l: Pid)
    requires GrownBy(u, g, l) && Linked(g) && IsInner(u, u.root)
    ensures Linked(u)
  {
    forall z | IsLeaf(u, z)
      ensures NextLeaf(u, Lo(u, z), Right(u, z))
    {
      LinkedAt(g, z);
    }
  }

  lemma ShrinkRouted(u: Tree, g: Tree, l: Pid)
    requires GrownBy(u, g, l) && Kids(u) && Routed(g)
    ensures Routed(u)
  {
    hide SepOk;
    forall p, i | 0 <= i < |Slots(u, p)|
      ensures SepOk(u, Slots(u, p)[i].sep, Lo(u, Kid(u, p, i + 1)))
    {
      var q := Moved(u, l, p);
      assert SepOk(g, Slots(g, q)[i].sep, Lo(g, Kid(g, q, i + 1)));
      assert Kid(u, p, i + 1) in u.pages;
      GrownSep(u, g, l, Slots(u, p)[i].sep, Lo(u, Kid(u, p, i + 1)));
    }
  }

  /** Collapsing a root with a single child keeps the invariant. */
  lemma CollapseKeeps(t: Tree)
    requires Inv(t) && t.orphans == {} && IsInner(t, t.root) && Slots(t, t.root) == []
    ensures t.pages[t.root].upper in t.pages
    ensures Inv(Collapse(t)) && GrownBy(Collapse(t), t, t.pages[t.root].upper)
  {
    assert Shaped(t) && Typed(t);
    var c := Kid(t, t.root, 0);
    assert c in t.pages;
    var u := Collapse(t);
    CollapseShrinks(t);
    ShrinkTyped(u, t, c);
    ShrinkKids(u, t, c);
    ShrinkNested(u, t, c);
    ShrinkParented(u, t, c);
    if IsLeaf(u, u.root) {
      ShrinkLinkedLeaf(u, t, c);
    } else {
      ShrinkLinkedInner(u, t, c);
    }
    ShrinkSorted(u, t, c);
    ShrinkRouted(u, t, c);
  }

  // ----- what is stored -----

  lemma GrownStore(u: Tree, g: Tree, l: Pid, m: map<Key, Value>)
    requires GrownBy(u, g, l)
    ensures Stores(u, m) <==> Stores(g, m)
  {
    forall e: Entry
      ensures Holds(u, e) <==> Holds(g, e)
    {
      if Holds(g, e) {
        var z, j :| 0 <= j < |Entries(g, z)| && Entries(g, z)[j] == e;
        GrownEntry(u, g, l, z);
        HoldsAt(u, Back(u, l, z), j);
      }
      if Holds(u, e) {
        var z, j :| 0 <= j < |Entries(u, z)| && Entries(u, z)[j] == e;
        GrownEntry(u, g, l, z);
        HoldsAt(g, Moved(u, l, z), j);
      }
    }
  }
}
