/**
 Four promises the tree does not keep, each with a tree on which it fails.

 1. A descent that records its path stops on an empty leaf even when the key belongs
    further right.  A delete then reports a stored key as absent.
 2. An insert that has to split goes the same way, and writes its entry into the empty leaf.
    Keys that were found before are lost.
 3. Separator repair after a delete may need a longer separator than its node has room for.
 4. Overwriting a value in a leaf of two entries may need a split that takes the entry for
    a new one.

 All four trees satisfy the whole invariant, and the first three hold only small entries.
 */
module Findings {
  import opened Keys
  import opened Pages
  import opened Trees
  import opened LeafSteps
  import opened LeftLinks
  import opened Splits
  import opened Levels
  import opened Descents
  import opened Removals
  import opened Stale
  import opened Deletes
  import opened Room
  import opened Walks
  import opened SequentialTree
  import opened Fans

  // ----- the tree with an empty leaf in front -----

  /** Page 2 is empty, page 3 holds keys 5 and 6, and the separator between them is 9. */
  ghost function Hollow(v: Value): Tree
  {
    Fan([[], [Entry(K(5), v), Entry(K(6), v)]], [K(9)])
  }

  lemma HollowOk(v: Value)
    ensures Inv(Hollow(v)) && LeftLinked(Hollow(v)) && Stores(Hollow(v), map[K(5) := v, K(6) := v])
  {
    hide Fan, Num;
    ByteOrder(5, 6);
    var leaves := [[], [Entry(K(5), v), Entry(K(6), v)]];
    FanOk(leaves, [K(9)]);
    var m := map[K(5) := v, K(6) := v];
    forall e: Entry
      ensures (exists i, a :: 0 <= i < |leaves| && 0 <= a < |leaves[i]| && leaves[i][a] == e) <==>
        e.key in m && m[e.key] == e.value
    {
      assert leaves[1][0] == Entry(K(5), v) && leaves[1][1] == Entry(K(6), v);
    }
    FanStores(leaves, [K(9)], m);
  }

  lemma OneSlotRoute(n: Node, sep: Key, c: Pid, key: Key)
    requires n.Inner? && n.slots == [Slot(sep, c)] && Num(key) < Num(sep)
    ensures Route(n, key) == 0 && Child(n, 0) == c
  {
    hide LowerBound, Num;
    var ks := Separators(n.slots);
    assert ks == [sep];
    LowerBoundSorted(ks, key);
  }

  /** Keys below 9 route to the empty page. */
  lemma HollowRoutes(v: Value, b: byte)
    requires b < 9
    ensures var t := Hollow(v);
      && Inv(t) && t.root == 1 && 1 in t.pages && t.pages[1].Inner? && NextHop(t.pages[1], K(b)) == 2
      && InvRouteLeaf(t, K(b)) == 2 && Stranded(t, K(b))
  {
    hide Fan, Num, LowerBound, Typed, Kids, KidsUp, RootFirst, Distinct, Nested, Parented, Linked, SortedLeaves,
      SortedAcross, Routed;
    var leaves := [[], [Entry(K(5), v), Entry(K(6), v)]];
    HollowOk(v);
    FanPages(leaves, [K(9)]);
    ByteOrder(b, 9);
    var t := Hollow(v);
    assert t.pages[1].slots == Slots(t, 1) == [Slot(K(9), 2)];
    OneSlotRoute(t.pages[1], K(9), 2, K(b));
    assert Kid(t, 1, 0) == 2;
    RouteOneDown(t, 1, K(b), 2);
  }

  lemma RouteOneDown(t: Tree, p: Pid, key: Key, z: Pid)
    requires Typed(t) && Kids(t) && IsInner(t, p) && Kid(t, p, Route(t.pages[p], key)) == z && IsLeaf(t, z)
    ensures RouteLeaf(t, p, key) == z
  {
  }

  /** A delete of key 5 on this tree finds an empty leaf, although the key is stored. */
  lemma StrandedDelete(v: Value)
    ensures var t := Hollow(v);
      && Inv(t) && LeftLinked(t) && t.orphans == {} && Stranded(t, K(5))
      && Stores(t, map[K(5) := v, K(6) := v]) && Lookup(t, K(5)) == Some(v)
  {
    hide Fan, Num, Lookup, Inv, Stores, LeftLinked, Stranded;
    HollowOk(v);
    HollowRoutes(v, 5);
    FanPages([[], [Entry(K(5), v), Entry(K(6), v)]], [K(9)]);
    LookupAgrees(Hollow(v), K(5), map[K(5) := v, K(6) := v]);
  }

  // ----- an insert into the empty leaf -----

  /** Inserting 7 into this tree: the leaf of 7 is full, so the insert descends again, strands on the empty page
      and writes there. */
  lemma InsertStrands(v: Value)
    requires |v| == 30000
    ensures var t := Hollow(v);
      && Inv(t) && AllFit(t.pages) && AllSmall(t.pages, Limits(0, true)) && SmallEntry(Entry(K(7), v), Limits(0, true))
      && IsLeaf(t, 3) && Standing(t, 3, K(7)) && !ChaseRight(t.pages[3], K(7))
      && SplitNeeded(Entries(t, 3), Entry(K(7), v))
      && InvRouteLeaf(t, K(7)) == 2 && Blocked(t, Entry(K(7), v))
  {
    hide Fan, Num, LowerBound, Inv, Stranded, InvRouteLeaf, Standing, StopLeaf, AllFit, AllSmall;
    HollowRoutes(v, 7);
    HollowSpace(v);
    HollowStop(v);
    StopIs(Hollow(v), K(7), 3);
  }

  /** On this tree the insert does write into the empty page, and afterwards the stored keys 5 and 6 are not found. */
  method InsertLoses(tree: BTree, v: Value) returns (o: Outcome)
    requires tree.Settled() && tree.t == Hollow(v) && |v| == 30000
    modifies tree
    ensures o.Misplaced? && old(tree.contents) == map[K(5) := v, K(6) := v]
    ensures LooksUp(tree.pages, tree.root, K(5), None) && LooksUp(tree.pages, tree.root, K(6), None)
    ensures LooksUp(tree.pages, tree.root, K(7), Some(v))
  {
    hide Fan, Num, LowerBound, Inv, Stranded, InvRouteLeaf, Standing, StopLeaf, AllFit, AllSmall, LooksUp, Meets,
      Stores, Blocked, LeftLinked, LexLess;
    ghost var t := Hollow(v);
    ghost var m := map[K(5) := v, K(6) := v];
    InsertStrands(v);
    HollowOk(v);
    StoresUnique(t, m, tree.contents);
    HollowMeets(v);
    ByteOrder(7, 5);
    ByteOrder(7, 6);
    ByteOrder(7, 7);
    ghost var before;
    o, before := tree.Insert(K(7), v);
    assert AnswerAfter(t, m, 2, Entry(K(7), v), K(5)) == None;
    assert AnswerAfter(t, m, 2, Entry(K(7), v), K(6)) == None;
    assert AnswerAfter(t, m, 2, Entry(K(7), v), K(7)) == Some(v);
  }

  lemma HollowMeets(v: Value)
    ensures Inv(Hollow(v)) && Meets(Hollow(v), K(5), 2) && Meets(Hollow(v), K(6), 2) && Meets(Hollow(v), K(7), 2)
  {
    hide Fan, Num, Inv, Stranded, InvRouteLeaf, Meets;
    HollowRoutes(v, 5);
    HollowRoutes(v, 6);
    HollowRoutes(v, 7);
    RouteMeets(Hollow(v), K(5));
    RouteMeets(Hollow(v), K(6));
    RouteMeets(Hollow(v), K(7));
  }

  /** On this tree the delete of the stored key 5 reports it as absent and leaves it there. */
  method DeleteMisses(tree: BTree, v: Value, here: set<Pid>) returns (o: Outcome)
    requires tree.Settled() && tree.t == Hollow(v)
    modifies tree
    ensures o == Done(false) && K(5) in tree.contents && tree.contents == old(tree.contents)
  {
    hide Fan, Num, Inv, Stranded, Stores, AllFit, AllSmall, LeftLinked, Lookup;
    ghost var m := map[K(5) := v, K(6) := v];
    StrandedDelete(v);
    StoresUnique(Hollow(v), m, tree.contents);
    o := tree.Remove(K(5), here);
  }

  lemma HollowSpace(v: Value)
    requires |v| == 30000
    ensures var t := Hollow(v);
      && AllFit(t.pages) && AllSmall(t.pages, Limits(0, true)) && SmallEntry(Entry(K(7), v), Limits(0, true))
  {
    hide Num;
    var e, f := Entry(K(5), v), Entry(K(6), v);
    TwoCost(e, f);
    SlotCost(Slot(K(9), 2));
    var t := Hollow(v);
    FanPages([[], [e, f]], [K(9)]);
    assert t.pages[1].slots == Slots(t, 1) == [Slot(K(9), 2)];
    assert t.pages[2].entries == Entries(t, 2) == [];
    assert t.pages[3].entries == Entries(t, 3) == [e, f];
  }

  lemma HollowStop(v: Value)
    requires |v| == 30000
    ensures var t := Hollow(v);
      && IsLeaf(t, 3) && Standing(t, 3, K(7)) && !ChaseRight(t.pages[3], K(7))
      && SplitNeeded(Entries(t, 3), Entry(K(7), v))
  {
    hide Fan, Num, LowerBound;
    var e, f := Entry(K(5), v), Entry(K(6), v);
    var t := Hollow(v);
    FanPages([[], [e, f]], [K(9)]);
    FanLabels([[], [e, f]], [K(9)]);
    ByteOrder(5, 6);
    ByteOrder(5, 7);
    ByteOrder(6, 7);
    assert forall z: Pid :: |Entries(t, z)| > 0 ==> IsLeaf(t, z) && z == 3;
    BoundIs([e, f], K(7), 2);
    TwoCost(e, f);
  }

  /** Exactly when a write into an empty leaf keeps the tree in order: the key is below everything to its right, and
      the separators behind the leaf admit it. */
  lemma MisplacedKeeps(t: Tree, y: Pid, e: Entry)
    requires Inv(t) && IsLeaf(t, y) && |Entries(t, y)| == 0 && Standing(t, y, e.key)
    ensures Inv(WithEntries(t, y, [e])) <==>
      && (forall z, j :: Lo(t, y) < Lo(t, z) && 0 <= j < |Entries(t, z)| ==> Num(e.key) < Num(Entries(t, z)[j].key))
      && (forall p, i :: 0 <= i < |Slots(t, p)| && Lo(t, y) < Lo(t, Kid(t, p, i + 1)) ==>
            Num(e.key) <= Num(Slots(t, p)[i].sep))
      && (forall p, i, x :: 0 <= i < |Slots(t, p)| && IsLeaf(t, x) && Lo(t, y) < Lo(t, x) < Lo(t, Kid(t, p, i + 1)) ==>
            Num(e.key) < Num(Slots(t, p)[i].sep))
  {
    hide Num, Typed, Kids, KidsUp, RootFirst, Distinct, Nested, Parented, Linked, SortedLeaves, SortedAcross, Routed,
      SameShape, Rewritten, Standing;
    var u := WithEntries(t, y, [e]);
    WithEntriesFrame(t, y, [e]);
    SameShapeKeeps(t, u);
    if Inv(u) {
      OrderedBehind(t, u, y, e);
      AdmittedBehind(t, u, y, e);
    }
    if
      && (forall z, j :: Lo(t, y) < Lo(t, z) && 0 <= j < |Entries(t, z)| ==> Num(e.key) < Num(Entries(t, z)[j].key))
      && (forall p, i :: 0 <= i < |Slots(t, p)| && Lo(t, y) < Lo(t, Kid(t, p, i + 1)) ==>
            Num(e.key) <= Num(Slots(t, p)[i].sep))
      && (forall p, i, x :: 0 <= i < |Slots(t, p)| && IsLeaf(t, x) && Lo(t, y) < Lo(t, x) < Lo(t, Kid(t, p, i + 1)) ==>
            Num(e.key) < Num(Slots(t, p)[i].sep))
    {
      OneEntrySorted(t, u, y, e);
      OneEntryRouted(t, u, y, e);
    }
  }

  lemma OrderedBehind(t: Tree, u: Tree, y: Pid, e: Entry)
    requires SortedAcross(u) && Rewritten(t, u, y, [e])
    ensures forall z, j :: Lo(t, y) < Lo(t, z) && 0 <= j < |Entries(t, z)| ==> Num(e.key) < Num(Entries(t, z)[j].key)
  {
    hide Num;
    forall z, j | Lo(t, y) < Lo(t, z) && 0 <= j < |Entries(t, z)|
      ensures Num(e.key) < Num(Entries(t, z)[j].key)
    {
      assert Entries(u, y)[0] == e && Entries(u, z) == Entries(t, z);
    }
  }

  lemma AdmittedBehind(t: Tree, u: Tree, y: Pid, e: Entry)
    requires Routed(u) && Rewritten(t, u, y, [e]) && SameShape(t, u) && (forall q :: Slots(u, q) == Slots(t, q))
    ensures forall p, i :: 0 <= i < |Slots(t, p)| && Lo(t, y) < Lo(t, Kid(t, p, i + 1)) ==>
      Num(e.key) <= Num(Slots(t, p)[i].sep)
    ensures forall p, i, x ::
      0 <= i < |Slots(t, p)| && IsLeaf(t, x) && Lo(t, y) < Lo(t, x) < Lo(t, Kid(t, p, i + 1)) ==>
        Num(e.key) < Num(Slots(t, p)[i].sep)
  {
    hide Num;
    assert Entries(u, y)[0] == e;
    forall p, i | 0 <= i < |Slots(t, p)| && Lo(t, y) < Lo(t, Kid(t, p, i + 1))
      ensures Num(e.key) <= Num(Slots(t, p)[i].sep)
      ensures forall x :: IsLeaf(t, x) && Lo(t, y) < Lo(t, x) < Lo(t, Kid(t, p, i + 1)) ==>
        Num(e.key) < Num(Slots(t, p)[i].sep)
    {
      assert SepOk(u, Slots(u, p)[i].sep, Lo(u, Kid(u, p, i + 1)));
      forall x | IsLeaf(t, x) && Lo(t, y) < Lo(t, x) < Lo(t, Kid(t, p, i + 1))
        ensures Num(e.key) < Num(Slots(t, p)[i].sep)
      {
        assert AllBelow(u, Lo(u, x), Num(Slots(u, p)[i].sep));
      }
    }
  }

  lemma OneEntrySorted(t: Tree, u: Tree, y: Pid, e: Entry)
    requires SortedLeaves(t) && SortedAcross(t) && Rewritten(t, u, y, [e]) && Standing(t, y, e.key)
    requires forall z, j :: Lo(t, y) < Lo(t, z) && 0 <= j < |Entries(t, z)| ==> Num(e.key) < Num(Entries(t, z)[j].key)
    ensures SortedLeaves(u) && SortedAcross(u)
  {
    hide Num;
    forall a, b, i, j | Lo(u, a) < Lo(u, b) && 0 <= i < |Entries(u, a)| && 0 <= j < |Entries(u, b)|
      ensures Num(Entries(u, a)[i].key) < Num(Entries(u, b)[j].key)
    {
      if a == y {
        assert Entries(u, b) == Entries(t, b);
      } else if b == y {
        assert Entries(u, a) == Entries(t, a);
      } else {
        assert Entries(u, a) == Entries(t, a) && Entries(u, b) == Entries(t, b);
      }
    }
  }

  lemma OneEntryRouted(t: Tree, u: Tree, y: Pid, e: Entry)
    requires Routed(t) && Rewritten(t, u, y, [e]) && SameShape(t, u) && (forall q :: Slots(u, q) == Slots(t, q))
    requires forall p, i :: 0 <= i < |Slots(t, p)| && Lo(t, y) < Lo(t, Kid(t, p, i + 1)) ==>
      Num(e.key) <= Num(Slots(t, p)[i].sep)
    requires forall p, i, x ::
      0 <= i < |Slots(t, p)| && IsLeaf(t, x) && Lo(t, y) < Lo(t, x) < Lo(t, Kid(t, p, i + 1)) ==>
        Num(e.key) < Num(Slots(t, p)[i].sep)
    ensures Routed(u)
  {
    hide Num;
    forall p, i | 0 <= i < |Slots(u, p)|
      ensures SepOk(u, Slots(u, p)[i].sep, Lo(u, Kid(u, p, i + 1)))
    {
      var sep, bound := Slots(t, p)[i].sep, Lo(t, Kid(t, p, i + 1));
      assert SepOk(t, sep, bound);
      forall z, j | Lo(u, z) < bound && 0 <= j < |Entries(u, z)|
        ensures Num(Entries(u, z)[j].key) <= Num(sep)
      {
        assert z != y ==> Entries(u, z) == Entries(t, z);
      }
      forall x | IsLeaf(u, x) && Lo(u, x) < bound
        ensures AllBelow(u, Lo(u, x), Num(sep))
      {
        assert AllBelow(t, Lo(t, x), Num(sep));
        forall z, j | Lo(u, z) < Lo(u, x) && 0 <= j < |Entries(u, z)|
          ensures Num(Entries(u, z)[j].key) < Num(sep)
        {
          assert z != y ==> Entries(u, z) == Entries(t, z);
        }
      }
    }
  }

  // ----- a separator that does not fit -----

  /** A key of 21800 bytes. */
  function Long(b: byte): (k: Key)
    ensures |k| == 21800 && k[0] == b
  {
    [b] + seq(21799, _ => 0)
  }

  lemma LongOrder(a: byte, b: byte)
    ensures a < b ==> Num(Long(a)) < Num(Long(b)) && Num(Long(a)) < Num(K(b)) && Num(K(a)) < Num(Long(b))
    ensures Num(K(a)) < Num(Long(a))
  {
    hide Num;
    NumIsOrder(Long(a), Long(b));
    NumIsOrder(Long(a), K(b));
    NumIsOrder(K(a), Long(b));
    NumIsOrder(K(a), Long(a));
    assert K(a)[1..] == [];
  }

  ghost function WideLeaves(v: Value): seq<seq<Entry>>
  {
    [[Entry(K(1), v), Entry(Long(1), []), Entry(K(2), [])],
     [Entry(Long(3), [])], [Entry(Long(4), [])], [Entry(Long(5), [])], [Entry(K(9), [])]]
  }

  ghost function WideSeps(): seq<Key>
  {
    [K(2), Long(3), Long(4), Long(5)]
  }

  /** Five leaves under a root whose four separators are a short key and three long ones. */
  ghost function Wide(v: Value): Tree
  {
    Fan(WideLeaves(v), WideSeps())
  }

  lemma WideSorted(v: Value)
    ensures FanSorted(WideLeaves(v), WideSeps())
  {
    hide Num, Long, K;
    LongOrder(1, 2);
    ByteOrder(1, 2);
    ByteOrder(1, 9);
    ByteOrder(2, 9);
    LongOrder(1, 3);
    LongOrder(1, 9);
    LongOrder(2, 3);
    LongOrder(3, 4);
    LongOrder(4, 5);
    LongOrder(5, 9);
    var leaves, seps := WideLeaves(v), WideSeps();
    assert leaves[0] == [Entry(K(1), v), Entry(Long(1), []), Entry(K(2), [])];
    assert leaves[1] == [Entry(Long(3), [])] && leaves[2] == [Entry(Long(4), [])];
    assert leaves[3] == [Entry(Long(5), [])] && leaves[4] == [Entry(K(9), [])];
  }

  /** Deleting key 2 from the first leaf overflows, whatever is at hand: the leaf is not underfull, its new largest
      key is long, and the root has no room to take it in place of the short separator. */
  lemma RepairOverflows(v: Value, here: set<Pid>)
    requires |v| == 30000
    ensures var t := Wide(v);
      && Inv(t) && LeftLinked(t) && t.orphans == {} && AllFit(t.pages) && AllSmall(t.pages, Limits(0, true))
      && Holds(t, Entry(K(2), [])) && !Stranded(t, K(2)) && DeleteSticks(t, K(2), here)
  {
    hide Fan, Num, Long, Inv, LeftLinked, AllFit, AllSmall, Underfull, RewriteFits, WideLeaves, WideSeps, Standing,
      LexLess,
      Stranded, DeleteSticks, RoutePath, InvRouteLeaf, LowerBound, ChaseRight, InvRouteLeafFrom, Typed;
    var t := Wide(v);
    WideSorted(v);
    WideShape(v);
    FanOk(WideLeaves(v), WideSeps());
    FanPages(WideLeaves(v), WideSeps());
    WideSpace(v);
    WideLeaf(v);
    HoldsAt(t, 2, 2);
    WideRoute(v);
    RootReader(t, K(2));
    RouteReader(t, 1, K(2));
    RouteReader(t, 2, K(2));
    LastStays(t.pages[2], K(2));
    StrandedMeans(t, K(2), 2);
    SticksMeans(t, K(2), 2, 2, here);
    assert RoutePath(t, 1, K(2)) == [1];
    assert Dropped(t, 2, 2).pages[2] == Leaf(RemovedAt(Entries(t, 2), 2), 0, 3);
    assert FirstBehind(t, [1], 2, Spot(1, 0));
    assert !RepairFits(t, Spot(1, 0), Long(1));
  }

  lemma LastStays(n: Node, key: Key)
    requires n.Leaf? && |n.entries| > 0 && n.entries[|n.entries| - 1].key == key
    ensures !ChaseRight(n, key)
  {
    NumIsOrder(key, key);
  }

  /** The modelled delete panics there. */
  method DeletePanics(tree: BTree, v: Value, here: set<Pid>) returns (o: Outcome)
    requires tree.Settled() && tree.t == Wide(v) && |v| == 30000
    modifies tree
    ensures o.Panicked?
  {
    hide Fan, Num, Inv, Stranded, AllFit, AllSmall, LeftLinked, DeleteSticks, Wide;
    RepairOverflows(v, here);
    assert K(2) in tree.contents;
    o := tree.Remove(K(2), here);
  }

  lemma WideRoute(v: Value)
    ensures IsInner(Wide(v), 1) && Route(Wide(v).pages[1], K(2)) == 0 && Child(Wide(v).pages[1], 0) == 2
  {
    hide Fan, Num, Long, K, LowerBound, WideLeaves;
    WideShape(v);
    FanPages(WideLeaves(v), WideSeps());
    var t := Wide(v);
    var ks := Separators(t.pages[1].slots);
    assert t.pages[1].slots == Slots(t, 1);
    assert ks == WideSeps() && ks[0] == K(2) && ks[1] == Long(3) && ks[2] == Long(4) && ks[3] == Long(5);
    LongOrder(2, 3);
    LongOrder(3, 4);
    LongOrder(4, 5);
    LowerBoundSorted(ks, K(2));
    assert ks[0] == K(2) && Kid(t, 1, 0) == 2;
  }

  lemma WideShape(v: Value)
    ensures |WideLeaves(v)| == 5 && |WideSeps()| == 4
    ensures WideLeaves(v)[0] == [Entry(K(1), v), Entry(Long(1), []), Entry(K(2), [])]
    ensures WideSeps()[0] == K(2) && K(2) != Long(1)
  {
    assert |K(2)| == 1;
  }

  lemma WideLeaf(v: Value)
    requires |v| == 30000
    ensures var es := RemovedAt([Entry(K(1), v), Entry(Long(1), []), Entry(K(2), [])], 2);
      es == [Entry(K(1), v), Entry(Long(1), [])] && !Underfull(Leaf(es, 0, 3))
  {
    hide Long;
    TwoCost(Entry(K(1), v), Entry(Long(1), []));
    assert [Entry(K(1), v), Entry(Long(1), []), Entry(K(2), [])][..2] == [Entry(K(1), v), Entry(Long(1), [])];
  }

  lemma WideRootCost()
    ensures InnerCost([Slot(K(2), 2), Slot(Long(3), 3), Slot(Long(4), 4), Slot(Long(5), 5)]) == 65481
  {
    hide Long;
    var a, b, c, d := Slot(K(2), 2), Slot(Long(3), 3), Slot(Long(4), 4), Slot(Long(5), 5);
    assert [a, b, c, d] == [a] + [b] + [c] + [d];
    InnerCostConcat([a] + [b] + [c], [d]);
    InnerCostConcat([a] + [b], [c]);
    InnerCostConcat([a], [b]);
    SlotCost(a);
    SlotCost(b);
    SlotCost(c);
    SlotCost(d);
  }

  lemma WideSpace(v: Value)
    requires |v| == 30000
    ensures var t := Wide(v);
      && AllFit(t.pages) && AllSmall(t.pages, Limits(0, true)) && SmallSep(Long(1), Limits(0, true))
      && IsInner(t, 1) && |Slots(t, 1)| == 4 && !RewriteFits(t.pages[1], 0, Long(1))
  {
    hide Fan, Num, Long, InnerCost, LeafCost;
    WideRootCost();
    WideLeafCosts(v);
    FanPages(WideLeaves(v), WideSeps());
    var t := Wide(v);
    assert t.pages[1].slots == Slots(t, 1) == [Slot(K(2), 2), Slot(Long(3), 3), Slot(Long(4), 4), Slot(Long(5), 5)];
    forall p | p in t.pages
      ensures Fits(t.pages[p]) && SmallNode(t.pages[p], Limits(0, true))
    {
      if p != 1 {
        assert IsLeaf(t, p);
        assert t.pages[p].entries == Entries(t, p) == WideLeaves(v)[p - 2];
      }
    }
  }

  lemma WideLeafCosts(v: Value)
    requires |v| == 30000
    ensures forall i :: 0 <= i < |WideLeaves(v)| ==>
      && LeafCost(WideLeaves(v)[i]) <= LEAF_CAPACITY
      && forall a :: 0 <= a < |WideLeaves(v)[i]| ==> SmallEntry(WideLeaves(v)[i][a], Limits(0, true))
  {
    hide Long;
    var a, b, c := Entry(K(1), v), Entry(Long(1), []), Entry(K(2), []);
    assert [a, b, c] == [a, b] + [c];
    LeafCostConcat([a, b], [c]);
    TwoCost(a, b);
    LeafCostOne(c);
    LeafCostOne(Entry(Long(3), []));
    LeafCostOne(Entry(Long(4), []));
    LeafCostOne(Entry(Long(5), []));
    LeafCostOne(Entry(K(9), []));
  }

  // ----- a stored value that cannot be overwritten -----

  /** One leaf with two entries. */
  ghost function Pair(u: Value): Tree
  {
    Tree(map[1 := Leaf([Entry(K(1), u), Entry(K(2), u)], 0, 0)], 1, map[1 := 0.0], map[1 := 0], {})
  }

  /** Overwriting one of them with an entry that fits a leaf, but not together with the other one, panics: a leaf of two
      entries is split around the new entry, and that one is not new. */
  method OverwritePanics(tree: BTree, u: Value, w: Value) returns (o: Outcome)
    requires tree.Settled() && tree.t == Pair(u) && |u| == 30000 && |w| == 40000 && tree.limits == Limits(0, false)
    modifies tree
    ensures o.Panicked? && K(2) in old(tree.contents) && EntryCost(Entry(K(2), w)) <= LEAF_CAPACITY
  {
    hide Num, Inv, Stranded, AllFit, LeftLinked, RoomFor, StopEntries, Standing, Blocked, Slips, Strayed;
    ghost var es := [Entry(K(1), u), Entry(K(2), u)];
    ghost var t := tree.t;
    ByteOrder(1, 2);
    assert Entries(t, 1) == es;
    HoldsAt(t, 1, 1);
    RootReader(t, K(2));
    StoppedAt(t, K(2), 1);
    OverwriteInPair(es, 1, Entry(K(2), w));
    assert AllSmall(tree.pages, tree.limits);
    ghost var before;
    o, before := tree.Upsert(K(2), w);
  }
}
