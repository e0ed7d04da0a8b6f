/**
 Publishing a right sibling in its parent, and its inverse; changing a separator.
 */
module EdgeSteps {
  import opened Keys
  import opened Pages
  import opened Trees

  /** Insert separator `sep` after edge `i` and child `r` behind it. */
  function InsertEdge(n: Node, i: nat, sep: Key, r: Pid): Node
    requires n.Inner? && i <= |n.slots|
  {
    if i < |n.slots| then
      Inner(n.slots[..i] + [Slot(sep, n.slots[i].child), Slot(n.slots[i].sep, r)] + n.slots[i + 1..], n.upper)
    else
      Inner(n.slots + [Slot(sep, n.upper)], r)
  }

  /** Remove separator `i` together with the child behind it. */
  function RemoveEdge(n: Node, i: nat): Node
    requires n.Inner? && i < |n.slots|
  {
    if i + 1 < |n.slots| then
      Inner(n.slots[..i] + [Slot(n.slots[i + 1].sep, n.slots[i].child)] + n.slots[i + 2..], n.upper)
    else
      Inner(n.slots[..i], n.slots[i].child)
  }

  function Publish(t: Tree, p: Pid, i: nat, sep: Key, r: Pid): Tree
    requires IsInner(t, p) && i <= |Slots(t, p)|
  {
    t.(pages := t.pages[p := InsertEdge(t.pages[p], i, sep, r)], orphans := t.orphans - {r})
  }

  function Unpublish(t: Tree, p: Pid, i: nat): Tree
    requires IsInner(t, p) && i < |Slots(t, p)|
  {
    t.(pages := t.pages[p := RemoveEdge(t.pages[p], i)], orphans := t.orphans + {Kid(t, p, i + 1)})
  }

  /** The two trees agree on everything but inner slots and orphans. */
  ghost predicate SameLeaves(u: Tree, s: Tree)
  {
    && s.root == u.root && s.lo == u.lo && s.level == u.level && s.pages.Keys == u.pages.Keys
    && (forall z :: IsLeaf(s, z) <==> IsLeaf(u, z))
    && (forall z :: IsInner(s, z) <==> IsInner(u, z))
    && (forall z :: Entries(s, z) == Entries(u, z))
    && (forall z :: Right(s, z) == Right(u, z))
  }

  /** `s` is `u` with child `r` inserted behind edge `i` of `p`. */
  ghost predicate EdgeAdded(u: Tree, s: Tree, p: Pid, i: nat, r: Pid)
  {
    && SameLeaves(u, s) && IsInner(u, p) && i <= |Slots(u, p)|
    && |Slots(s, p)| == |Slots(u, p)| + 1
    && (forall q :: q != p ==> Slots(s, q) == Slots(u, q))
    && (forall q, j :: q != p ==> Kid(s, q, j) == Kid(u, q, j))
    && Kid(s, p, i + 1) == r
    && (forall j :: 0 <= j <= i ==> Kid(s, p, j) == Kid(u, p, j))
    && (forall j :: i < j <= |Slots(u, p)| ==> Kid(s, p, j + 1) == Kid(u, p, j))
    && (forall j :: 0 <= j < i ==> Slots(s, p)[j].sep == Slots(u, p)[j].sep)
    && (forall j :: i <= j < |Slots(u, p)| ==> Slots(s, p)[j + 1].sep == Slots(u, p)[j].sep)
    && u.orphans == s.orphans + {r} && r !in s.orphans
  }

  lemma PublishAdds(t: Tree, p: Pid, i: nat, sep: Key, r: Pid)
    requires IsInner(t, p) && i <= |Slots(t, p)| && r in t.orphans
    ensures EdgeAdded(t, Publish(t, p, i, sep, r), p, i, r)
    ensures Slots(Publish(t, p, i, sep, r), p)[i].sep == sep
  {
  }

  lemma UnpublishRemoves(t: Tree, p: Pid, i: nat)
    requires IsInner(t, p) && i < |Slots(t, p)| && Kid(t, p, i + 1) !in t.orphans
    ensures EdgeAdded(Unpublish(t, p, i), t, p, i, Kid(t, p, i + 1))
  {
    hide RemoveEdge;
    var u := Unpublish(t, p, i);
    EdgeRemoved(t.pages[p], i);
    assert u.pages[p] == RemoveEdge(t.pages[p], i);
  }

  /** Without edge `i + 1`, the edges and separators before it stand and those after it move down. */
  lemma EdgeRemoved(n: Node, i: nat)
    requires n.Inner? && i < |n.slots|
    ensures var m := RemoveEdge(n, i);
      && m.Inner? && |m.slots| + 1 == |n.slots|
      && (forall j :: 0 <= j < i ==> m.slots[j] == n.slots[j])
      && (if i < |m.slots| then m.slots[i] == Slot(n.slots[i + 1].sep, n.slots[i].child) && m.upper == n.upper
          else m.upper == n.slots[i].child)
      && (forall j :: i < j < |m.slots| ==> m.slots[j] == n.slots[j + 1])
  {
  }

  lemma SameLeavesSorted(u: Tree, s: Tree)
    requires SameLeaves(u, s) && SortedLeaves(u) && SortedAcross(u)
    ensures SortedLeaves(s) && SortedAcross(s)
  {
  }

  lemma SameLeavesTyped(u: Tree, s: Tree)
    requires SameLeaves(u, s) && Typed(u) && RootFirst(u) && Distinct(u)
    ensures Typed(s) && RootFirst(s) && Distinct(s)
  {
  }

  lemma SameLeavesKeep(u: Tree, s: Tree)
    requires SameLeaves(u, s)
    requires SortedLeaves(u) && SortedAcross(u) && Typed(u) && RootFirst(u) && Distinct(u) && Linked(u)
    ensures SortedLeaves(s) && SortedAcross(s) && Typed(s) && RootFirst(s) && Distinct(s) && Linked(s)
  {
    SameLeavesSorted(u, s);
    SameLeavesTyped(u, s);
    SameLeavesLinked(u, s);
  }

  lemma SameLeavesLinked(u: Tree, s: Tree)
    requires SameLeaves(u, s) && Linked(u)
    ensures Linked(s)
  {
    forall z | IsLeaf(s, z)
      ensures NextLeaf(s, Lo(s, z), Right(s, z))
    {
      LinkedAt(u, z);
    }
  }

  lemma SameLeavesSep(u: Tree, s: Tree, sep: Key, bound: real)
    requires SameLeaves(u, s) && SepOk(u, sep, bound)
    ensures SepOk(s, sep, bound)
  {
    forall y | IsLeaf(s, y) && Lo(s, y) < bound
      ensures AllBelow(s, Lo(s, y), Num(sep))
    {
      assert AllBelow(u, Lo(u, y), Num(sep));
    }
  }

  /** `r` is the page right after `l` on their level. */
  ghost predicate NextAt(t: Tree, l: Pid, r: Pid)
  {
    && l in t.pages && r in t.pages && Level(t, l) == Level(t, r) && Lo(t, l) < Lo(t, r)
    && (forall q :: q in t.pages && Level(t, q) == Level(t, l) && Lo(t, l) < Lo(t, q) ==> Lo(t, r) <= Lo(t, q))
  }

  // ----- adding an edge -----

  lemma AddedKids(u: Tree, s: Tree, p: Pid, i: nat, r: Pid)
    requires EdgeAdded(u, s, p, i, r) && NextAt(u, Kid(u, p, i), r)
    requires Kids(u)
    ensures Kids(s)
  {
    assert Level(u, Kid(u, p, i)) + 1 == Level(u, p);
    forall q, j | IsInner(s, q) && 0 <= j <= |Slots(s, q)|
      ensures Kid(s, q, j) in s.pages && Level(s, Kid(s, q, j)) + 1 == Level(s, q)
    {
      if q == p && j > i + 1 {
        assert Kid(u, p, j - 1) in u.pages;
      } else if q != p || j <= i {
        assert Kid(u, q, j) in u.pages;
      }
    }
  }

  /** The page right after edge `i` comes before the children that already follow that edge. */
  lemma NextBeforeRest(u: Tree, p: Pid, i: nat, r: Pid, j: nat)
    requires IsInner(u, p) && i < j <= |Slots(u, p)| && NextAt(u, Kid(u, p, i), r)
    requires Kids(u) && KidsUp(u) && Distinct(u) && !Edge(u, p, j, r)
    ensures Lo(u, r) < Lo(u, Kid(u, p, j))
  {
    var c := Kid(u, p, j);
    assert c in u.pages && Level(u, c) + 1 == Level(u, p);
    assert Level(u, Kid(u, p, i)) + 1 == Level(u, p);
    assert c != r;
  }

  /** Where an edge of the old node went. */
  function Shifted(i: nat, j: int): int
  {
    if j > i then j + 1 else j
  }

  lemma AddedKidsOrder(u: Tree, s: Tree, p: Pid, i: nat, r: Pid, a: nat, b: nat)
    requires EdgeAdded(u, s, p, i, r) && NextAt(u, Kid(u, p, i), r) && KidsUp(u)
    requires forall j :: i < j <= |Slots(u, p)| ==> Lo(u, r) < Lo(u, Kid(u, p, j))
    requires a < b <= |Slots(s, p)|
    ensures Lo(u, Kid(s, p, a)) < Lo(u, Kid(s, p, b))
  {
    var a' := if a <= i then a else a - 1;
    var b' := if b <= i then b else b - 1;
    assert a != i + 1 ==> a == Shifted(i, a') && Kid(s, p, a) == Kid(u, p, a');
    assert b != i + 1 ==> b == Shifted(i, b') && Kid(s, p, b) == Kid(u, p, b');
    assert a' < b' ==> Lo(u, Kid(u, p, a')) < Lo(u, Kid(u, p, b'));
    assert a' < i ==> Lo(u, Kid(u, p, a')) < Lo(u, Kid(u, p, i));
  }

  lemma AddedKidsUp(u: Tree, s: Tree, p: Pid, i: nat, r: Pid)
    requires EdgeAdded(u, s, p, i, r) && NextAt(u, Kid(u, p, i), r)
    requires Kids(u) && KidsUp(u) && Distinct(u) && (forall j :: !Edge(u, p, j, r))
    ensures KidsUp(s)
  {
    hide NextAt, Kids, Distinct;
    forall j | i < j <= |Slots(u, p)|
      ensures Lo(u, r) < Lo(u, Kid(u, p, j))
    {
      NextBeforeRest(u, p, i, r, j);
    }
    forall q, a, b | IsInner(s, q) && 0 <= a < b <= |Slots(s, q)|
      ensures Lo(s, Kid(s, q, a)) < Lo(s, Kid(s, q, b))
    {
      if q == p {
        AddedKidsOrder(u, s, p, i, r, a, b);
      } else {
        assert Lo(u, Kid(u, q, a)) < Lo(u, Kid(u, q, b));
      }
    }
    forall q | IsInner(s, q)
      ensures Lo(s, Kid(s, q, 0)) == Lo(s, q)
    {
      assert Kid(s, q, 0) == Kid(u, q, 0);
    }
  }

  /** A page right after the last child of `p` comes before every later node of `p`'s level. */
  lemma NextBeforeNode(u: Tree, p: Pid, r: Pid, q: Pid)
    requires IsInner(u, p) && NextAt(u, Kid(u, p, |Slots(u, p)|), r)
    requires Typed(u) && Kids(u) && KidsUp(u) && Distinct(u)
    requires q in u.pages && Level(u, q) == Level(u, p) && Lo(u, Kid(u, p, |Slots(u, p)|)) < Lo(u, q)
    requires !Edge(u, q, 0, r)
    ensures Lo(u, r) < Lo(u, q)
  {
    assert IsInner(u, q);
    var c := Kid(u, q, 0);
    assert c in u.pages && Level(u, c) + 1 == Level(u, q) && Lo(u, c) == Lo(u, q);
    assert Level(u, Kid(u, p, |Slots(u, p)|)) + 1 == Level(u, p);
    assert c != r;
  }

  lemma AddedNested(u: Tree, s: Tree, p: Pid, i: nat, r: Pid)
    requires EdgeAdded(u, s, p, i, r) && NextAt(u, Kid(u, p, i), r)
    requires Typed(u) && Kids(u) && KidsUp(u) && Distinct(u) && Nested(u) && (forall q :: !Edge(u, q, 0, r))
    ensures Nested(s)
  {
    hide Typed, Kids, KidsUp, Distinct, NextAt;
    forall a, q | IsInner(s, a) && q in s.pages && Level(s, a) == Level(s, q) && Lo(s, a) < Lo(s, q)
      ensures Lo(s, Kid(s, a, |Slots(s, a)|)) < Lo(s, q)
    {
      assert Lo(u, Kid(u, a, |Slots(u, a)|)) < Lo(u, q);
      if a == p && i == |Slots(u, p)| {
        NextBeforeNode(u, p, r, q);
      }
    }
  }

  lemma AddedParented(u: Tree, s: Tree, p: Pid, i: nat, r: Pid)
    requires EdgeAdded(u, s, p, i, r) && Parented(u)
    ensures Parented(s)
  {
    forall c | c in s.pages && c != s.root && c !in s.orphans
      ensures HasParent(s, c)
    {
      if c == r {
        assert Edge(s, p, i + 1, r);
      } else {
        assert HasParent(u, c);
        var q, j :| Edge(u, q, j, c);
        assert Edge(s, q, if q == p && j > i then j + 1 else j, c);
      }
    }
    forall c, q, j | c in s.orphans
      ensures !Edge(s, q, j, c)
    {
      assert !Edge(u, q, j, c) && !Edge(u, q, j - 1, c);
    }
  }

  lemma AddedRouted(u: Tree, s: Tree, p: Pid, i: nat, r: Pid)
    requires EdgeAdded(u, s, p, i, r) && Routed(u)
    requires SepOk(u, Slots(s, p)[i].sep, Lo(u, r))
    ensures Routed(s)
  {
    hide SepOk;
    forall q, j | 0 <= j < |Slots(s, q)|
      ensures SepOk(s, Slots(s, q)[j].sep, Lo(s, Kid(s, q, j + 1)))
    {
      if q == p && j > i {
        assert SepOk(u, Slots(u, p)[j - 1].sep, Lo(u, Kid(u, p, j)));
      } else if q != p || j < i {
        assert SepOk(u, Slots(u, q)[j].sep, Lo(u, Kid(u, q, j + 1)));
      }
      SameLeavesSep(u, s, Slots(s, q)[j].sep, Lo(s, Kid(s, q, j + 1)));
    }
  }

  /** Publishing the page right after edge `i` under a valid separator keeps the invariant. */
  lemma PublishKeeps(t: Tree, p: Pid, i: nat, sep: Key, r: Pid)
    requires Inv(t) && IsInner(t, p) && i <= |Slots(t, p)| && r in t.orphans
    requires NextAt(t, Kid(t, p, i), r) && SepOk(t, sep, Lo(t, r))
    ensures Inv(Publish(t, p, i, sep, r))
  {
    var s := Publish(t, p, i, sep, r);
    PublishAdds(t, p, i, sep, r);
    SameLeavesKeep(t, s);
    AddedKids(t, s, p, i, r);
    AddedKidsUp(t, s, p, i, r);
    AddedNested(t, s, p, i, r);
    AddedParented(t, s, p, i, r);
    AddedRouted(t, s, p, i, r);
  }

  // ----- removing an edge -----

  lemma RemovedKids(u: Tree, s: Tree, p: Pid, i: nat, r: Pid)
    requires EdgeAdded(u, s, p, i, r) && Kids(s) && KidsUp(s)
    ensures Kids(u) && KidsUp(u)
  {
    forall q, j | IsInner(u, q) && 0 <= j <= |Slots(u, q)|
      ensures Kid(u, q, j) in u.pages && Level(u, Kid(u, q, j)) + 1 == Level(u, q)
    {
      var j' := if q == p && j > i then j + 1 else j;
      assert Kid(s, q, j') in s.pages && Kid(s, q, j') == Kid(u, q, j);
    }
    forall q, a, b | IsInner(u, q) && 0 <= a < b <= |Slots(u, q)|
      ensures Lo(u, Kid(u, q, a)) < Lo(u, Kid(u, q, b))
    {
      var a' := if q == p && a > i then a + 1 else a;
      var b' := if q == p && b > i then b + 1 else b;
      assert Lo(s, Kid(s, q, a')) < Lo(s, Kid(s, q, b'));
    }
    forall q | IsInner(u, q)
      ensures Lo(u, Kid(u, q, 0)) == Lo(u, q)
    {
      assert Kid(s, q, 0) == Kid(u, q, 0);
    }
  }

  lemma RemovedNested(u: Tree, s: Tree, p: Pid, i: nat, r: Pid)
    requires EdgeAdded(u, s, p, i, r) && KidsUp(s) && Nested(s)
    ensures Nested(u)
  {
    hide KidsUp, Nested;
    forall a, q | IsInner(u, a) && q in u.pages && Level(u, a) == Level(u, q) && Lo(u, a) < Lo(u, q)
      ensures Lo(u, Kid(u, a, |Slots(u, a)|)) < Lo(u, q)
    {
      RemovedNestedAt(u, s, p, i, r, a, q);
    }
    NestedIs(u);
  }

  lemma NestedIs(u: Tree)
    requires forall a, q :: IsInner(u, a) && q in u.pages && Level(u, a) == Level(u, q) && Lo(u, a) < Lo(u, q) ==>
      Lo(u, Kid(u, a, |Slots(u, a)|)) < Lo(u, q)
    ensures Nested(u)
  {
  }

  lemma RemovedNestedAt(u: Tree, s: Tree, p: Pid, i: nat, r: Pid, a: Pid, q: Pid)
    requires EdgeAdded(u, s, p, i, r) && KidsUp(s) && Nested(s)
    requires IsInner(u, a) && q in u.pages && Level(u, a) == Level(u, q) && Lo(u, a) < Lo(u, q)
    ensures Lo(u, Kid(u, a, |Slots(u, a)|)) < Lo(u, q)
  {
    hide Nested;
    assert Lo(s, Kid(s, a, |Slots(s, a)|)) < Lo(s, q) by {
      NestedAt(s, a, q);
    }
    if a == p && i == |Slots(u, p)| {
      assert Lo(s, Kid(s, p, i)) < Lo(s, Kid(s, p, i + 1));
    }
  }

  lemma NestedAt(s: Tree, a: Pid, q: Pid)
    requires Nested(s) && IsInner(s, a) && q in s.pages && Level(s, a) == Level(s, q) && Lo(s, a) < Lo(s, q)
    ensures Lo(s, Kid(s, a, |Slots(s, a)|)) < Lo(s, q)
  {
  }

  lemma RemovedParented(u: Tree, s: Tree, p: Pid, i: nat, r: Pid)
    requires EdgeAdded(u, s, p, i, r) && Parented(s) && r in s.pages && r != s.root
    requires forall q, j :: Edge(s, q, j, r) ==> q == p && j == i + 1
    ensures Parented(u)
  {
    forall c | c in u.pages && c != u.root && c !in u.orphans
      ensures HasParent(u, c)
    {
      assert HasParent(s, c);
      var q, j :| Edge(s, q, j, c);
      assert Edge(u, q, if q == p && j > i then j - 1 else j, c);
    }
    forall c, q, j | c in u.orphans
      ensures !Edge(u, q, j, c)
    {
      var j' := if q == p && j > i then j + 1 else j;
      assert Edge(u, q, j, c) ==> Edge(s, q, j', c);
    }
  }

  lemma RemovedRoutedAt(u: Tree, s: Tree, p: Pid, i: nat, r: Pid, q: Pid, j: nat)
    requires EdgeAdded(u, s, p, i, r) && Routed(s) && j < |Slots(u, q)|
    ensures SepOk(s, Slots(u, q)[j].sep, Lo(u, Kid(u, q, j + 1)))
  {
    hide SepOk;
    var j' := if q == p && j >= i then j + 1 else j;
    assert SepOk(s, Slots(s, q)[j'].sep, Lo(s, Kid(s, q, j' + 1)));
    assert Kid(s, q, j' + 1) == Kid(u, q, j + 1);
    assert Slots(s, q)[j'].sep == Slots(u, q)[j].sep;
  }

  lemma RemovedRouted(u: Tree, s: Tree, p: Pid, i: nat, r: Pid)
    requires EdgeAdded(u, s, p, i, r) && SameLeaves(s, u) && Routed(s)
    ensures Routed(u)
  {
    hide SepOk;
    forall q, j | 0 <= j < |Slots(u, q)|
      ensures SepOk(u, Slots(u, q)[j].sep, Lo(u, Kid(u, q, j + 1)))
    {
      RemovedRoutedAt(u, s, p, i, r, q, j);
      SameLeavesSep(s, u, Slots(u, q)[j].sep, Lo(u, Kid(u, q, j + 1)));
    }
  }

  /** A page has at most one parent edge. */
  lemma UniqueParent(t: Tree, p: Pid, i: nat, q: Pid, j: nat, c: Pid)
    requires Typed(t) && Kids(t) && KidsUp(t) && Distinct(t) && Nested(t)
    requires Edge(t, p, i, c) && Edge(t, q, j, c)
    ensures p == q && i == j
  {
    EdgeWithin(t, p, i);
    EdgeWithin(t, q, j);
    assert Lo(t, p) == Lo(t, q) ==> p == q;
    assert i < j <= |Slots(t, p)| ==> Lo(t, Kid(t, p, i)) < Lo(t, Kid(t, p, j));
    assert j < i <= |Slots(t, q)| ==> Lo(t, Kid(t, q, j)) < Lo(t, Kid(t, q, i));
  }

  lemma EdgeWithin(t: Tree, p: Pid, i: nat)
    requires Kids(t) && KidsUp(t) && IsInner(t, p) && i <= |Slots(t, p)|
    ensures Lo(t, p) <= Lo(t, Kid(t, p, i)) <= Lo(t, Kid(t, p, |Slots(t, p)|))
    ensures Kid(t, p, i) in t.pages && Level(t, Kid(t, p, i)) + 1 == Level(t, p)
  {
    assert i > 0 ==> Lo(t, Kid(t, p, 0)) < Lo(t, Kid(t, p, i));
  }

  /** Two neighbouring children are neighbours on their level, as long as no orphan sits between. */
  lemma KidsAreNext(t: Tree, p: Pid, i: nat)
    requires Typed(t) && Kids(t) && KidsUp(t) && Distinct(t) && Nested(t) && Parented(t)
    requires IsInner(t, p) && i < |Slots(t, p)|
    requires forall c :: c in t.orphans ==> Level(t, c) != Level(t, Kid(t, p, i))
    ensures NextAt(t, Kid(t, p, i), Kid(t, p, i + 1))
  {
    var l, r := Kid(t, p, i), Kid(t, p, i + 1);
    EdgeWithin(t, p, i);
    EdgeWithin(t, p, i + 1);
    forall z | z in t.pages && Level(t, z) == Level(t, l) && Lo(t, l) < Lo(t, z)
      ensures Lo(t, r) <= Lo(t, z)
    {
      assert z != t.root;
      assert HasParent(t, z);
      var q, j :| Edge(t, q, j, z);
      NeighbourEdge(t, p, i, q, j);
    }
  }

  lemma NeighbourEdge(t: Tree, p: Pid, i: nat, q: Pid, j: nat)
    requires Typed(t) && Kids(t) && KidsUp(t) && Distinct(t) && Nested(t)
    requires IsInner(t, p) && i < |Slots(t, p)| && IsInner(t, q) && j <= |Slots(t, q)|
    requires Level(t, p) == Level(t, q)
    requires Lo(t, Kid(t, p, i)) < Lo(t, Kid(t, q, j))
    ensures Lo(t, Kid(t, p, i + 1)) <= Lo(t, Kid(t, q, j))
  {
    EdgeWithin(t, p, i);
    EdgeWithin(t, p, i + 1);
    EdgeWithin(t, q, j);
    if p == q {
      SameNodeEdges(t, p, i, j);
    } else {
      assert Lo(t, p) != Lo(t, q);
      OtherNodeEdges(t, p, q);
    }
  }

  lemma SameNodeEdges(t: Tree, p: Pid, i: nat, j: nat)
    requires KidsUp(t) && IsInner(t, p) && i < |Slots(t, p)| && j <= |Slots(t, p)|
    requires Lo(t, Kid(t, p, i)) < Lo(t, Kid(t, p, j))
    ensures Lo(t, Kid(t, p, i + 1)) <= Lo(t, Kid(t, p, j))
  {
  }

  lemma OtherNodeEdges(t: Tree, p: Pid, q: Pid)
    requires Nested(t) && IsInner(t, p) && IsInner(t, q) && Level(t, p) == Level(t, q)
    ensures Lo(t, p) < Lo(t, q) ==> Lo(t, Kid(t, p, |Slots(t, p)|)) < Lo(t, q)
    ensures Lo(t, q) < Lo(t, p) ==> Lo(t, Kid(t, q, |Slots(t, q)|)) < Lo(t, p)
  {
  }

  /** Taking a child out of its parent leaves it an orphan and keeps the invariant. */
  lemma UnpublishKeeps(t: Tree, p: Pid, i: nat)
    requires Inv(t) && IsInner(t, p) && i < |Slots(t, p)|
    ensures Inv(Unpublish(t, p, i))
  {
    hide Typed, Kids, KidsUp, RootFirst, Distinct, Nested, Parented, Linked, SortedLeaves, SortedAcross, Routed,
      RemoveEdge;
    var u := Unpublish(t, p, i);
    var r := Kid(t, p, i + 1);
    UnpublishFacts(t, p, i);
    UnpublishRemoves(t, p, i);
    SameLeavesKeep(t, u);
    RemovedKids(u, t, p, i, r);
    RemovedNested(u, t, p, i, r);
    RemovedParented(u, t, p, i, r);
    RemovedRouted(u, t, p, i, r);
  }

  lemma UnpublishFacts(t: Tree, p: Pid, i: nat)
    requires Shaped(t) && IsInner(t, p) && i < |Slots(t, p)|
    ensures var r := Kid(t, p, i + 1);
      && r in t.pages && r != t.root && r !in t.orphans
      && (forall q, j :: Edge(t, q, j, r) ==> q == p && j == i + 1)
  {
    var r := Kid(t, p, i + 1);
    assert Edge(t, p, i + 1, r);
    EdgeWithin(t, p, i + 1);
    forall q, j | Edge(t, q, j, r)
      ensures q == p && j == i + 1
    {
      UniqueParent(t, p, i + 1, q, j, r);
    }
  }

  // ----- changing a separator -----

  function SetSep(t: Tree, p: Pid, i: nat, sep: Key): Tree
    requires IsInner(t, p) && i < |Slots(t, p)|
  {
    var n := t.pages[p];
    t.(pages := t.pages[p := n.(slots := n.slots[i := n.slots[i].(sep := sep)])])
  }

  ghost predicate SepChanged(t: Tree, t': Tree, p: Pid, i: nat)
  {
    && SameLeaves(t, t') && t'.orphans == t.orphans
    && (forall q :: |Slots(t', q)| == |Slots(t, q)|)
    && (forall q, j :: Kid(t', q, j) == Kid(t, q, j))
    && (forall q, j :: 0 <= j < |Slots(t', q)| && (q != p || j != i) ==> Slots(t', q)[j] == Slots(t, q)[j])
  }

  lemma SetSepChanges(t: Tree, p: Pid, i: nat, sep: Key)
    requires IsInner(t, p) && i < |Slots(t, p)|
    ensures SepChanged(t, SetSep(t, p, i, sep), p, i)
    ensures Slots(SetSep(t, p, i, sep), p)[i].sep == sep
  {
  }

  lemma ChangedKids(t: Tree, t': Tree, p: Pid, i: nat)
    requires SepChanged(t, t', p, i) && Kids(t) && KidsUp(t)
    ensures Kids(t') && KidsUp(t')
  {
    forall q, j | IsInner(t', q) && 0 <= j <= |Slots(t', q)|
      ensures Kid(t', q, j) in t'.pages && Level(t', Kid(t', q, j)) + 1 == Level(t', q)
    {
      assert Kid(t, q, j) in t.pages;
    }
  }

  lemma ChangedNested(t: Tree, t': Tree, p: Pid, i: nat)
    requires SepChanged(t, t', p, i) && Nested(t)
    ensures Nested(t')
  {
  }

  lemma ChangedParented(t: Tree, t': Tree, p: Pid, i: nat)
    requires SepChanged(t, t', p, i) && Parented(t)
    ensures Parented(t')
  {
    forall c | c in t'.pages && c != t'.root && c !in t'.orphans
      ensures HasParent(t', c)
    {
      assert HasParent(t, c);
      var q, j :| Edge(t, q, j, c);
      assert Edge(t', q, j, c);
    }
    forall c, q, j | c in t'.orphans
      ensures !Edge(t', q, j, c)
    {
      assert !Edge(t, q, j, c);
    }
  }

  lemma ChangedRouted(t: Tree, t': Tree, p: Pid, i: nat)
    requires SepChanged(t, t', p, i) && Routed(t) && IsInner(t, p) && i < |Slots(t, p)|
    requires SepOk(t, Slots(t', p)[i].sep, Lo(t, Kid(t, p, i + 1)))
    ensures Routed(t')
  {
    hide SepOk;
    forall q, j | 0 <= j < |Slots(t', q)|
      ensures SepOk(t', Slots(t', q)[j].sep, Lo(t', Kid(t', q, j + 1)))
    {
      if q != p || j != i {
        assert SepOk(t, Slots(t, q)[j].sep, Lo(t, Kid(t, q, j + 1)));
      }
      SameLeavesSep(t, t', Slots(t', q)[j].sep, Lo(t', Kid(t', q, j + 1)));
    }
  }

  /** Replacing a separator by another valid one keeps the invariant. */
  lemma SetSepKeeps(t: Tree, p: Pid, i: nat, sep: Key)
    requires Inv(t) && IsInner(t, p) && i < |Slots(t, p)|
    requires SepOk(t, sep, Lo(t, Kid(t, p, i + 1)))
    ensures Inv(SetSep(t, p, i, sep))
  {
    var t' := SetSep(t, p, i, sep);
    SetSepChanges(t, p, i, sep);
    SameLeavesKeep(t, t');
    ChangedKids(t, t', p, i);
    ChangedNested(t, t', p, i);
    ChangedParented(t, t', p, i);
    ChangedRouted(t, t', p, i);
  }

  // ----- what is stored -----

  lemma SameLeavesStore(u: Tree, s: Tree, m: map<Key, Value>)
    requires SameLeaves(u, s) && Stores(u, m)
    ensures Stores(s, m)
  {
    forall e: Entry
      ensures Holds(u, e) <==> Holds(s, e)
    {
      if Holds(s, e) {
        var z, j :| 0 <= j < |Entries(s, z)| && Entries(s, z)[j] == e;
        HoldsAt(u, z, j);
      }
      if Holds(u, e) {
        var z, j :| 0 <= j < |Entries(u, z)| && Entries(u, z)[j] == e;
        HoldsAt(s, z, j);
      }
    }
  }
}
