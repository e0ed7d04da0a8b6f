/**
 Descents to a leaf: by routing alone, and by routing and chasing right.
 */
module Descents {
  import opened Keys
  import opened Pages
  import opened Trees
  import opened LeafSteps
  import opened EdgeSteps
  import opened SplitSteps
  import opened Splits

  /** The leaf that routing alone reaches. */
  ghost function RouteLeaf(t: Tree, p: Pid, key: Key): (z: Pid)
    requires Typed(t) && Kids(t) && p in t.pages
    ensures IsLeaf(t, z)
    decreases Level(t, p)
  {
    if IsLeaf(t, p) then p else
      assert Kid(t, p, Route(t.pages[p], key)) in t.pages;
      RouteLeaf(t, Kid(t, p, Route(t.pages[p], key)), key)
  }

  /** A search for `key` is stranded when routing ends on an empty leaf that is not the last one. */
  ghost predicate Stranded(t: Tree, key: Key)
  {
    Inv(t) && var z := RouteLeaf(t, t.root, key); |Entries(t, z)| == 0 && Right(t, z) != 0
  }

  /** No empty leaf has a right sibling. */
  ghost predicate NoHollow(t: Tree)
  {
    forall z :: IsLeaf(t, z) && |Entries(t, z)| == 0 ==> Right(t, z) == 0
  }

  /** An inner root has at least two children. */
  ghost predicate Lean(t: Tree)
  {
    IsInner(t, t.root) ==> |Slots(t, t.root)| > 0
  }

  /** Without empty leaves before the last one, no search is stranded. */
  lemma NoHollowNoStrand(t: Tree, key: Key)
    requires NoHollow(t)
    ensures !Stranded(t, key)
  {
  }

  /** There is only one leaf at which a search for `key` can stop. */
  lemma StopUnique(t: Tree, y: Pid, z: Pid, key: Key)
    requires Inv(t)
    requires IsLeaf(t, y) && Standing(t, y, key) && !ChaseRight(t.pages[y], key)
    requires IsLeaf(t, z) && Standing(t, z, key) && !ChaseRight(t.pages[z], key)
    ensures y == z
  {
    StopNotBefore(t, y, z, key);
    StopNotBefore(t, z, y, key);
    assert Distinct(t) && Typed(t);
  }

  lemma StopNotBefore(t: Tree, y: Pid, z: Pid, key: Key)
    requires Inv(t)
    requires IsLeaf(t, y) && Standing(t, y, key) && !ChaseRight(t.pages[y], key)
    requires IsLeaf(t, z) && Standing(t, z, key)
    ensures Lo(t, z) <= Lo(t, y)
  {
    var es := t.pages[y].entries;
    LinkedAt(t, y);
    if |es| > 0 {
      NumIsOrder(es[|es| - 1].key, key);
      var last := Entries(t, y)[|es| - 1];
      assert Lo(t, y) < Lo(t, z) ==> Num(last.key) < Num(key);
    }
  }

  /** Pages of a descent path: inner nodes, each above the next, all above level `k`. */
  ghost predicate PathOk(t: Tree, path: seq<Pid>, k: nat)
  {
    && (forall i :: 0 <= i < |path| ==> IsInner(t, path[i]) && Level(t, path[i]) > k)
    && (forall i, j :: 0 <= i < j < |path| ==> Level(t, path[i]) > Level(t, path[j]))
  }

  /** After a leaf split the search for `key` stops in one of the halves. */
  lemma SplitStops(u: Tree, s: Tree, l: Pid, r: Pid, key: Key)
    requires Inv(u) && Inv(s) && LeafHalves(u, s, l, r) && |Entries(s, l)| > 0 && |Entries(s, r)| > 0
    requires Standing(u, l, key) && !ChaseRight(u.pages[l], key)
    ensures var z := if LexLess(Entries(s, l)[|Entries(s, l)| - 1].key, key) then r else l;
      Standing(s, z, key) && !ChaseRight(s.pages[z], key)
  {
    hide Num, LexLess, Typed, Kids, KidsUp, RootFirst, Distinct, Nested, Parented, Linked, SortedLeaves, SortedAcross,
      Routed,
      Standing;
    var a, b := Entries(s, l), Entries(s, r);
    var e := a[|a| - 1];
    NumIsOrder(e.key, key);
    LinkedAt(u, l);
    LinkedAt(s, l);
    HalvesStandLeft(u, s, l, r, key);
    if LexLess(e.key, key) {
      ChaseStands(s, l, key);
      assert Entries(u, l)[|a| + |b| - 1] == b[|b| - 1];
      assert Standing(s, r, key) && !ChaseRight(s.pages[r], key);
    } else {
      assert Standing(s, l, key) && !ChaseRight(s.pages[l], key);
    }
  }

  lemma HalvesStandLeft(u: Tree, s: Tree, l: Pid, r: Pid, key: Key)
    requires LeafHalves(u, s, l, r) && Standing(u, l, key) && Linked(s) && Lo(s, l) < Lo(s, r)
    ensures Standing(s, l, key)
  {
    forall y, j | Lo(s, y) < Lo(s, l) && 0 <= j < |Entries(s, y)|
      ensures Num(Entries(s, y)[j].key) < Num(key)
    {
      assert y != r && y != l;
      assert Entries(s, y) == Entries(u, y);
    }
  }

  // ----- reader steps, from the whole invariant -----

  ghost function InvRouteLeafFrom(t: Tree, p: Pid, key: Key): Pid
    requires Inv(t) && p in t.pages
  {
    RouteLeaf(t, p, key)
  }

  ghost function InvRouteLeaf(t: Tree, key: Key): Pid
    requires Inv(t)
  {
    RouteLeaf(t, t.root, key)
  }

  /** The inner pages that routing passes on its way down from `p`. */
  ghost function RoutePath(t: Tree, p: Pid, key: Key): seq<Pid>
    requires Inv(t) && p in t.pages
    decreases Level(t, p)
  {
    if IsLeaf(t, p) then [] else
      assert Typed(t);
      EdgeWithin(t, p, Route(t.pages[p], key));
      [p] + RoutePath(t, Kid(t, p, Route(t.pages[p], key)), key)
  }

  lemma RootReader(t: Tree, key: Key)
    requires Inv(t)
    ensures t.root in t.pages && Standing(t, t.root, key)
    ensures InvRouteLeafFrom(t, t.root, key) == InvRouteLeaf(t, key)
  {
    RootStands(t, key);
  }

  lemma HopReader(t: Tree, p: Pid, key: Key)
    requires Inv(t) && p in t.pages && Standing(t, p, key) && NextHop(t.pages[p], key) != 0
    ensures var h := NextHop(t.pages[p], key);
      && h in t.pages && Standing(t, h, key)
      && (|| Level(t, h) < Level(t, p)
          || (Level(t, h) == Level(t, p) == 0 && |LeavesAfter(t, Lo(t, h))| < |LeavesAfter(t, Lo(t, p))|))
    ensures IsLeaf(t, p) ==> Level(t, NextHop(t.pages[p], key)) == Level(t, p)
  {
    HopStands(t, p, key);
    if IsLeaf(t, p) {
      ChaseStands(t, p, key);
      assert Typed(t);
      LinkedAt(t, p);
    }
  }

  lemma RouteReader(t: Tree, p: Pid, key: Key)
    requires Inv(t) && p in t.pages && Standing(t, p, key)
    ensures IsInner(t, p) ==>
      var c := Child(t.pages[p], Route(t.pages[p], key));
      && c in t.pages && Standing(t, c, key) && Level(t, c) + 1 == Level(t, p)
      && InvRouteLeafFrom(t, c, key) == InvRouteLeafFrom(t, p, key)
      && RoutePath(t, p, key) == [p] + RoutePath(t, c, key)
    ensures IsLeaf(t, p) ==> InvRouteLeafFrom(t, p, key) == p && Level(t, p) == 0 && RoutePath(t, p, key) == []
    ensures IsLeaf(t, p) || IsInner(t, p)
  {
    assert Typed(t);
    if IsInner(t, p) {
      RouteStands(t, p, key);
      EdgeWithin(t, p, Route(t.pages[p], key));
      assert Child(t.pages[p], Route(t.pages[p], key)) == Kid(t, p, Route(t.pages[p], key));
    }
  }

  lemma StopReader(t: Tree, p: Pid, key: Key)
    requires Inv(t) && p in t.pages && NextHop(t.pages[p], key) == 0
    ensures IsLeaf(t, p) && Level(t, p) == 0
    ensures !ChaseRight(t.pages[p], key)
  {
    StopIsLeaf(t, p, key);
  }

  // ----- positions in a leaf -----

  /** Where an insert looks first: after the last key, at the last key, else by binary search. */
  function InsertBound(es: seq<Entry>, key: Key): (nat, bool)
  {
    if |es| == 0 then (0, false)
    else if LexLess(es[|es| - 1].key, key) then (|es|, false)
    else if es[|es| - 1].key == key then (|es| - 1, true)
    else LowerBound(EntryKeys(es), key)
  }

  /** On a sorted leaf the short cuts change nothing. */
  lemma InsertBoundAgrees(es: seq<Entry>, key: Key)
    requires SortedEntries(es)
    ensures InsertBound(es, key) == LowerBound(EntryKeys(es), key)
  {
    hide LowerBound, Num, LexLess;
    BoundMeans(es, key);
    if |es| > 0 {
      var last := |es| - 1;
      NumIsOrder(es[last].key, key);
      var (pos, exact) := LowerBound(EntryKeys(es), key);
      if LexLess(es[last].key, key) {
        BoundIs(es, key, |es|);
      } else if es[last].key == key {
        assert exact;
        assert forall i :: 0 <= i < last ==> Num(es[i].key) < Num(es[last].key);
      }
    }
  }
}
