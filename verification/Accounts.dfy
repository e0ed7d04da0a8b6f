/**
 Space, page count and height across each structural change.
 */
module Accounts {
  import opened Keys
  import opened Pages
  import opened Trees
  import opened LeafSteps
  import opened SplitSteps
  import opened EdgeSteps
  import opened InnerSteps
  import opened RootSteps
  import opened LeftLinks
  import opened Splits
  import opened Search
  import opened Levels
  import opened Descents

  lemma InvParts(t: Tree)
    requires Inv(t)
    ensures Shaped(t) && Typed(t) && Kids(t) && KidsUp(t) && Distinct(t) && Nested(t) && Parented(t) && Linked(t)
    ensures SortedLeaves(t) && SortedAcross(t) && Routed(t)
    ensures t.root in t.pages && 0 !in t.pages && t.orphans <= t.pages.Keys
  {
  }

  lemma RootIn(t: Tree)
    requires Inv(t)
    ensures t.root in t.pages && 0 !in t.pages
  {
  }

  /** Space and page count after an inner split. */
  lemma SplitInnerAccounts(t: Tree, p: Pid, r: Pid, h: nat, w: Limits)
    requires Inv(t) && AllFit(t.pages) && IsInner(t, p) && p != t.root && h < |Slots(t, p)| && r !in t.pages
    ensures var s := SplitInner(t, p, r, h);
      && s.pages == t.pages[r := UpperHalf(t.pages[p], h)][p := LowerHalf(t.pages[p], h)]
      && s.root == t.root && Level(s, t.root) == Level(t, t.root)
      && AllFit(s.pages) && |s.pages| == |t.pages| + 1
      && (AllSmall(t.pages, w) ==> AllSmall(s.pages, w))
  {
    hide Inv, AllFit, AllSmall, Fits, SmallNode;
    RootIn(t);
    var n := t.pages[p];
    PageAt(t.pages, p, w);
    HalvesFit(n, h);
    if SmallNode(n, w) {
      HalvesSmall(n, h, w);
    }
    PutPage(t.pages, r, UpperHalf(n, h), w);
    PutPage(t.pages[r := UpperHalf(n, h)], p, LowerHalf(n, h), w);
    assert SplitInner(t, p, r, h).pages == t.pages[r := UpperHalf(n, h)][p := LowerHalf(n, h)];
  }

  lemma OneSlotFits(n: Node, h: nat, l: Pid, r: Pid, w: Limits)
    requires n.Inner? && h < |n.slots| && Fits(n)
    ensures Fits(Inner([Slot(n.slots[h].sep, l)], r))
    ensures SmallNode(n, w) ==> SmallNode(Inner([Slot(n.slots[h].sep, l)], r), w)
  {
    SlotSplit(n.slots, h);
    SlotCost(Slot(n.slots[h].sep, l));
  }

  /** Space and page count after a root split. */
  lemma RootInnerSplitAccounts(t: Tree, l: Pid, r: Pid, h: nat, w: Limits)
    requires Inv(t) && AllFit(t.pages) && IsInner(t, t.root) && h < |Slots(t, t.root)|
    requires l !in t.pages && r !in t.pages && l != r
    ensures var s := RootInnerSplit(t, l, r, h);
      var n := t.pages[t.root];
      && s.pages == t.pages[l := LowerHalf(n, h)][r := UpperHalf(n, h)][t.root := Inner([Slot(n.slots[h].sep, l)], r)]
      && s.root == t.root && Level(s, t.root) == Level(t, t.root) + 1
      && AllFit(s.pages) && |s.pages| == |t.pages| + 2
      && (AllSmall(t.pages, w) ==> AllSmall(s.pages, w))
  {
    hide Inv, AllFit, AllSmall, Fits, SmallNode, RootInnerSplit;
    RootIn(t);
    var n := t.pages[t.root];
    RootInnerSplitPages(t, l, r, h);
    PageAt(t.pages, t.root, w);
    HalvesFit(n, h);
    if SmallNode(n, w) {
      HalvesSmall(n, h, w);
    }
    OneSlotFits(n, h, l, r, w);
    PutPage(t.pages, l, LowerHalf(n, h), w);
    PutPage(t.pages[l := LowerHalf(n, h)], r, UpperHalf(n, h), w);
    PutPage(t.pages[l := LowerHalf(n, h)][r := UpperHalf(n, h)], t.root, Inner([Slot(n.slots[h].sep, l)], r), w);
  }

  lemma NewTree(p: Pid)
    requires p != 0
    ensures var t := Tree(map[p := Leaf([], 0, 0)], p, map[p := 0.0], map[p := 0], {});
      Inv(t) && LeftLinked(t) && Stores(t, map[]) && AllFit(t.pages) && Level(t, p) == 0 && |t.pages| == 1
  {
    var t := Tree(map[p := Leaf([], 0, 0)], p, map[p := 0.0], map[p := 0], {});
    assert forall q :: IsLeaf(t, q) <==> q == p;
    assert forall q :: !IsInner(t, q);
    assert forall q :: Entries(t, q) == [] && Slots(t, q) == [] && Right(t, q) == 0;
    assert Shaped(t);
  }

  /** Space and page count after publishing a sibling. */
  lemma PublishAccounts(t: Tree, p: Pid, i: nat, sep: Key, r: Pid, w: Limits)
    requires Inv(t) && AllFit(t.pages) && IsInner(t, p) && i <= |Slots(t, p)|
    requires InnerCost(Slots(t, p)) + SeparatorCost(sep) <= INNER_CAPACITY
    ensures var s := Publish(t, p, i, sep, r);
      && s.pages == t.pages[p := InsertEdge(t.pages[p], i, sep, r)]
      && s.root == t.root && Level(s, t.root) == Level(t, t.root)
      && AllFit(s.pages) && |s.pages| == |t.pages|
      && (AllSmall(t.pages, w) && SmallSep(sep, w) ==> AllSmall(s.pages, w))
  {
    hide Inv, AllFit, AllSmall, InnerCost, SmallNode;
    var n := t.pages[p];
    PageAt(t.pages, p, w);
    InsertEdgeCost(n, i, sep, r);
    if SmallNode(n, w) && SmallSep(sep, w) {
      InsertEdgeSmall(n, i, sep, r, w);
    }
    PutPage(t.pages, p, InsertEdge(n, i, sep, r), w);
  }

  lemma InsertEdgeSmall(n: Node, i: nat, sep: Key, r: Pid, w: Limits)
    requires n.Inner? && i <= |n.slots| && SmallNode(n, w) && SmallSep(sep, w)
    ensures SmallNode(InsertEdge(n, i, sep, r), w)
  {
    var n' := InsertEdge(n, i, sep, r);
    forall j | 0 <= j < |n'.slots|
      ensures SmallSep(n'.slots[j].sep, w)
    {
      if j < i {
        assert n'.slots[j] == n.slots[j];
      } else if j > i {
        assert n'.slots[j].sep == n.slots[j - 1].sep;
      }
    }
  }

  /** Publishing keeps what the tree stores and its left links. */
  lemma PublishStores(t: Tree, p: Pid, i: nat, sep: Key, r: Pid, m: map<Key, Value>)
    requires Inv(t) && LeftLinked(t) && Stores(t, m) && IsInner(t, p) && i <= |Slots(t, p)| && r in t.orphans
    requires NextAt(t, Kid(t, p, i), r) && SepOk(t, sep, Lo(t, r))
    ensures var s := Publish(t, p, i, sep, r);
      Inv(s) && LeftLinked(s) && Stores(s, m)
  {
    hide Inv, LeftLinked, Stores, NextAt, SepOk;
    var s := Publish(t, p, i, sep, r);
    PublishKeeps(t, p, i, sep, r);
    PublishAdds(t, p, i, sep, r);
    SameLeavesStore(t, s, m);
    assert forall z :: Left(s, z) == Left(t, z);
    SameLeavesLeft(t, s);
  }

  // ----- levels and orphans -----

  lemma EdgeLevel(t: Tree, p: Pid, i: nat, c: Pid)
    requires Inv(t) && Edge(t, p, i, c)
    ensures p in t.pages && c in t.pages && Level(t, p) == Level(t, c) + 1
  {
    EdgeWithin(t, p, i);
  }

  lemma SameUpToOrphans(t: Tree, t': Tree, k: nat)
    requires SameUpTo(t, t', k) && t'.orphans == t.orphans && t.orphans <= t.pages.Keys && OrphansBelow(t, k)
    ensures OrphansBelow(t', k)
    ensures forall c :: c in t.orphans ==> Level(t', c) == Level(t, c)
  {
  }

  /** The orphans after cutting a node at level `k + 1`. */
  lemma CutOrphans(t: Tree, p: Pid, b: Pid, h: nat, k: nat)
    requires Inv(t) && IsInner(t, p) && h < |Slots(t, p)| && b !in t.pages && Level(t, p) == k + 1 && OrphansBelow(t, k)
    ensures var s := SplitInner(t, p, b, h);
      && s.orphans == t.orphans + {b} && b !in t.orphans && p !in s.orphans && p in s.pages
      && Level(s, p) == k + 1 && OrphansBelow(s, k + 1)
      && (forall c :: c in t.pages ==> Level(s, c) == Level(t, c))
  {
    hide Inv, LowerHalf, UpperHalf;
    OrphansAreRealPages(t);
  }

  lemma FewerAboveInv(t: Tree, k: nat, r: Pid)
    requires Inv(t) && r in t.orphans && Level(t, r) == k
    ensures |PagesAt(t, k + 1)| < |PagesAt(t, k)|
  {
    FewerAbove(t, k, r);
  }

  lemma OrphansAreRealPages(t: Tree)
    requires Inv(t)
    ensures t.orphans <= t.pages.Keys
  {
  }

  lemma InvTyped(t: Tree)
    requires Inv(t)
    ensures Typed(t)
  {
  }

  lemma SameUpToSelf(t: Tree, k: nat)
    ensures SameUpTo(t, t, k)
  {
  }

  lemma SameUpToAt(t: Tree, t': Tree, k: nat, q: Pid)
    requires SameUpTo(t, t', k) && q in t.pages && Level(t, q) <= k
    ensures q in t'.pages && t'.pages[q] == t.pages[q] && Lo(t', q) == Lo(t, q) && Level(t', q) == Level(t, q)
  {
  }

  lemma NextLevel(t: Tree, l: Pid, r: Pid)
    requires NextAt(t, l, r)
    ensures l in t.pages && r in t.pages && Level(t, r) == Level(t, l)
  {
  }

  lemma SmallSlotAt(pages: map<Pid, Node>, p: Pid, h: nat, w: Limits)
    requires p in pages && pages[p].Inner? && h < |pages[p].slots|
    ensures AllSmall(pages, w) ==> SmallSep(pages[p].slots[h].sep, w)
  {
    assert AllSmall(pages, w) ==> SmallNode(pages[p], w);
  }

  /** A full node of small separators can be split. */
  lemma FullSplits(n: Node, sep: Key, w: Limits)
    requires n.Inner? && InnerCost(n.slots) + SeparatorCost(sep) > INNER_CAPACITY
    ensures SmallNode(n, w) && SmallSep(sep, w) ==> |n.slots| >= 2
  {
    if SmallNode(n, w) {
      FullHasMany(n.slots, w);
    }
  }

  // ----- leaf writes -----

  /** Space and page count after rewriting the entries of a leaf. */
  lemma WithEntriesAccounts(t: Tree, z: Pid, es: seq<Entry>, w: Limits)
    requires Inv(t) && AllFit(t.pages) && IsLeaf(t, z) && LeafCost(es) <= LEAF_CAPACITY
    ensures var s := WithEntries(t, z, es);
      && s.pages == t.pages[z := t.pages[z].(entries := es)]
      && s.root == t.root && s.level == t.level && s.orphans == t.orphans
      && AllFit(s.pages) && |s.pages| == |t.pages|
      && (AllSmall(t.pages, w) && (forall i :: 0 <= i < |es| ==> SmallEntry(es[i], w)) ==> AllSmall(s.pages, w))
  {
    hide Inv, AllFit, AllSmall, LeafCost, SmallEntry;
    PutPage(t.pages, z, t.pages[z].(entries := es), w);
  }

  /** Inserting an absent key where its search stops. */
  lemma InsertKeeps(t: Tree, z: Pid, e: Entry, pos: nat, m: map<Key, Value>)
    requires Inv(t) && LeftLinked(t) && Stores(t, m) && IsLeaf(t, z)
    requires Standing(t, z, e.key) && !ChaseRight(t.pages[z], e.key)
    requires (pos, false) == LowerBound(EntryKeys(Entries(t, z)), e.key)
    ensures e.key !in m
    ensures var s := WithEntries(t, z, InsertedAt(Entries(t, z), pos, e));
      Inv(s) && LeftLinked(s) && Stores(s, m[e.key := e.value])
  {
    hide LeftLinked, Stores, LowerBound, Typed, Kids, KidsUp, RootFirst, Distinct, Nested, Parented, Linked,
      SortedLeaves, SortedAcross, Routed, MayHold, InsertedAt;
    var es := InsertedAt(Entries(t, z), pos, e);
    MayInsert(t, z, e, pos);
    WithEntriesKeeps(t, z, es);
    WithEntriesLeft(t, z, es);
    StopAnswers(t, z, e.key, m);
    InsertStores(t, z, e, pos, m);
  }

  lemma UpdateKeeps(t: Tree, z: Pid, pos: nat, v: Value, m: map<Key, Value>)
    requires Inv(t) && LeftLinked(t) && Stores(t, m) && IsLeaf(t, z) && pos < |Entries(t, z)|
    ensures var e := Entry(Entries(t, z)[pos].key, v);
      var s := WithEntries(t, z, Entries(t, z)[pos := e]);
      Inv(s) && LeftLinked(s) && Stores(s, m[e.key := v])
  {
    hide LeftLinked, Stores, Typed, Kids, KidsUp, RootFirst, Distinct, Nested, Parented, Linked,
      SortedLeaves, SortedAcross, Routed, MayHold;
    var es := Entries(t, z)[pos := Entry(Entries(t, z)[pos].key, v)];
    MayUpdate(t, z, pos, v);
    WithEntriesKeeps(t, z, es);
    WithEntriesLeft(t, z, es);
    UpdateStores(t, z, pos, v, m);
  }

  lemma RemoveKeeps(t: Tree, z: Pid, pos: nat, m: map<Key, Value>)
    requires Inv(t) && LeftLinked(t) && Stores(t, m) && IsLeaf(t, z) && pos < |Entries(t, z)|
    ensures var s := WithEntries(t, z, RemovedAt(Entries(t, z), pos));
      Inv(s) && LeftLinked(s) && Stores(s, m - {Entries(t, z)[pos].key})
  {
    hide LeftLinked, Stores, Typed, Kids, KidsUp, RootFirst, Distinct, Nested, Parented, Linked,
      SortedLeaves, SortedAcross, Routed, MayHold;
    MayRemove(t, z, pos);
    WithEntriesKeeps(t, z, RemovedAt(Entries(t, z), pos));
    WithEntriesLeft(t, z, RemovedAt(Entries(t, z), pos));
    RemoveStores(t, z, pos, m);
  }

  lemma InsertSmall(pages: map<Pid, Node>, z: Pid, pos: nat, e: Entry, w: Limits)
    requires z in pages && pages[z].Leaf? && pos <= |pages[z].entries|
    ensures var es := InsertedAt(pages[z].entries, pos, e);
      AllSmall(pages, w) && SmallEntry(e, w) ==> forall i :: 0 <= i < |es| ==> SmallEntry(es[i], w)
  {
    assert AllSmall(pages, w) ==> SmallNode(pages[z], w);
  }

  lemma UpdateSmall(pages: map<Pid, Node>, z: Pid, pos: nat, e: Entry, w: Limits)
    requires z in pages && pages[z].Leaf? && pos < |pages[z].entries|
    ensures var es := pages[z].entries[pos := e];
      AllSmall(pages, w) && SmallEntry(e, w) ==> forall i :: 0 <= i < |es| ==> SmallEntry(es[i], w)
  {
    assert AllSmall(pages, w) ==> SmallNode(pages[z], w);
  }

  lemma RemoveSmall(pages: map<Pid, Node>, z: Pid, pos: nat, w: Limits)
    requires z in pages && pages[z].Leaf? && pos < |pages[z].entries|
    ensures var es := RemovedAt(pages[z].entries, pos);
      AllSmall(pages, w) ==> forall i :: 0 <= i < |es| ==> SmallEntry(es[i], w)
  {
    assert AllSmall(pages, w) ==> SmallNode(pages[z], w);
  }

  // ----- leaf splits -----

  /** Space and page count after a leaf split with its relink. */
  lemma LeafSplitAccounts(t: Tree, z: Pid, r: Pid, plan: SplitPlan, w: Limits)
    requires Inv(t) && AllFit(t.pages) && IsLeaf(t, z) && z != t.root && r !in t.pages && r != 0
    requires plan.SplitPlan? && Entries(Installed(t, z, plan), z) == plan.left + plan.right
    requires LeafCost(plan.left) <= LEAF_CAPACITY && LeafCost(plan.right) <= LEAF_CAPACITY
    ensures var s := LeafSplit(t, z, r, plan);
      var n := t.pages[z];
      var halves := t.pages[r := Leaf(plan.right, z, n.right)][z := Leaf(plan.left, n.left, r)];
      && (n.right != 0 ==> n.right in t.pages && t.pages[n.right].Leaf? && n.right != z && n.right != r)
      && s.pages == (if n.right == 0 then halves else halves[n.right := t.pages[n.right].(left := r)])
      && s.root == t.root && Level(s, t.root) == Level(t, t.root)
      && AllFit(s.pages) && |s.pages| == |t.pages| + 1
      && (AllSmall(t.pages, w) && SmallNode(Leaf(plan.left + plan.right, 0, 0), w) ==> AllSmall(s.pages, w))
  {
    hide Inv, AllFit, AllSmall, LeafCost, SmallEntry;
    RootIn(t);
    RightIn(t, z);
    var n := t.pages[z];
    var a, b := Leaf(plan.right, z, n.right), Leaf(plan.left, n.left, r);
    PutPage(t.pages, r, a, w);
    PutPage(t.pages[r := a], z, b, w);
    if SmallNode(Leaf(plan.left + plan.right, 0, 0), w) {
      SmallParts(plan.left, plan.right, w);
    }
    if n.right != 0 {
      PageAt(t.pages, n.right, w);
      PutPage(t.pages[r := a][z := b], n.right, t.pages[n.right].(left := r), w);
    }
    LeafSplitPages(t, z, r, plan);
  }

  lemma SmallParts(a: seq<Entry>, b: seq<Entry>, w: Limits)
    requires SmallNode(Leaf(a + b, 0, 0), w)
    ensures forall i :: 0 <= i < |a| ==> SmallEntry(a[i], w)
    ensures forall i :: 0 <= i < |b| ==> SmallEntry(b[i], w)
  {
    assert forall i :: 0 <= i < |a| ==> (a + b)[i] == a[i];
    assert forall i :: 0 <= i < |b| ==> (a + b)[|a| + i] == b[i];
  }

  lemma RightIn(t: Tree, z: Pid)
    requires Inv(t) && IsLeaf(t, z)
    ensures Right(t, z) != 0 ==> IsLeaf(t, Right(t, z)) && Right(t, z) != z
    ensures z == t.root ==> Right(t, z) == 0
  {
    LinkedAt(t, z);
    if z == t.root {
      LeafRootAlone(t);
    }
  }

  lemma LeafSplitPages(t: Tree, z: Pid, r: Pid, plan: SplitPlan)
    requires IsLeaf(t, z) && r !in t.pages && r != 0 && 0 !in t.pages && t.root in t.pages
    requires Right(t, z) != 0 ==> IsLeaf(t, Right(t, z)) && Right(t, z) != z
    requires plan.SplitPlan? && Entries(Installed(t, z, plan), z) == plan.left + plan.right
    ensures var s := LeafSplit(t, z, r, plan);
      var n := t.pages[z];
      var halves := t.pages[r := Leaf(plan.right, z, n.right)][z := Leaf(plan.left, n.left, r)];
      && s.pages == (if n.right == 0 then halves else halves[n.right := t.pages[n.right].(left := r)])
      && s.root == t.root && Level(s, t.root) == Level(t, t.root)
  {
    var u := Installed(t, z, plan);
    var n := t.pages[z];
    var s := SplitLeaf(u, z, r, |plan.left|);
    assert (plan.left + plan.right)[..|plan.left|] == plan.left;
    assert (plan.left + plan.right)[|plan.left|..] == plan.right;
    assert u.pages[z] == Leaf(plan.left + plan.right, n.left, n.right);
    assert s.pages == u.pages[z := Leaf(plan.left, n.left, r)][r := Leaf(plan.right, z, n.right)];
    assert s.pages == t.pages[r := Leaf(plan.right, z, n.right)][z := Leaf(plan.left, n.left, r)];
  }

  lemma RootLeafSplitPages(t: Tree, l: Pid, r: Pid, plan: SplitPlan)
    requires IsLeaf(t, t.root) && plan.SplitPlan? && |plan.left| > 0 && l != r && l != t.root && r != t.root
    requires Entries(Installed(t, t.root, plan), t.root) == plan.left + plan.right
    ensures var s := RootLeafSplit(t, l, r, plan);
      var n := t.pages[t.root];
      && s.pages == t.pages[l := Leaf(plan.left, n.left, r)][r := Leaf(plan.right, l, n.right)]
                           [t.root := Inner([Slot(plan.left[|plan.left| - 1].key, l)], r)]
      && s.root == t.root && Level(s, t.root) == Level(t, t.root) + 1
  {
    var u := Installed(t, t.root, plan);
    var n := t.pages[t.root];
    var g := Grow(u, l);
    var s := SplitLeaf(g, l, r, |plan.left|);
    assert (plan.left + plan.right)[..|plan.left|] == plan.left;
    assert (plan.left + plan.right)[|plan.left|..] == plan.right;
    assert u.pages[t.root] == Leaf(plan.left + plan.right, n.left, n.right);
    assert g.pages[l] == u.pages[t.root];
    assert s.pages == g.pages[l := Leaf(plan.left, n.left, r)][r := Leaf(plan.right, l, n.right)];
    assert s.pages[t.root] == Inner([], l);
    var sep := plan.left[|plan.left| - 1].key;
    assert InsertEdge(Inner([], l), 0, sep, r) == Inner([Slot(sep, l)], r);
  }

  lemma OneSeparatorFits(sep: Key, l: Pid, r: Pid, w: Limits)
    requires SeparatorCost(sep) <= INNER_CAPACITY
    ensures Fits(Inner([Slot(sep, l)], r))
    ensures SmallSep(sep, w) ==> SmallNode(Inner([Slot(sep, l)], r), w)
  {
    SlotCost(Slot(sep, l));
  }

  /** The key of an entry that fits a leaf fits an empty inner node. */
  lemma LastKeyFits(es: seq<Entry>)
    requires |es| > 0 && LeafCost(es) <= LEAF_CAPACITY
    ensures SeparatorCost(es[|es| - 1].key) <= INNER_CAPACITY
  {
    RemoveCost(es, |es| - 1);
  }

  /** Space and page count after splitting a leaf root. */
  lemma RootLeafSplitAccounts(t: Tree, l: Pid, r: Pid, plan: SplitPlan, w: Limits)
    requires Inv(t) && AllFit(t.pages) && IsLeaf(t, t.root) && l !in t.pages && r !in t.pages && l != r
    requires plan.SplitPlan? && |plan.left| > 0 && Entries(Installed(t, t.root, plan), t.root) == plan.left + plan.right
    requires LeafCost(plan.left) <= LEAF_CAPACITY && LeafCost(plan.right) <= LEAF_CAPACITY
    ensures var s := RootLeafSplit(t, l, r, plan);
      var n := t.pages[t.root];
      && s.pages == t.pages[l := Leaf(plan.left, n.left, r)][r := Leaf(plan.right, l, n.right)]
                           [t.root := Inner([Slot(plan.left[|plan.left| - 1].key, l)], r)]
      && s.root == t.root && Level(s, t.root) == Level(t, t.root) + 1
      && AllFit(s.pages) && |s.pages| == |t.pages| + 2
      && (AllSmall(t.pages, w) && SmallNode(Leaf(plan.left + plan.right, 0, 0), w) ==> AllSmall(s.pages, w))
  {
    hide Inv, AllFit, AllSmall, LeafCost, SmallEntry, InnerCost, RootLeafSplit;
    RootIn(t);
    RootLeafSplitPages(t, l, r, plan);
    var n := t.pages[t.root];
    var sep := plan.left[|plan.left| - 1].key;
    var a, b := Leaf(plan.left, n.left, r), Leaf(plan.right, l, n.right);
    LastKeyFits(plan.left);
    OneSeparatorFits(sep, l, r, w);
    if SmallNode(Leaf(plan.left + plan.right, 0, 0), w) {
      SmallParts(plan.left, plan.right, w);
      SmallKey(plan.left, w);
    }
    PutPage(t.pages, l, a, w);
    PutPage(t.pages[l := a], r, b, w);
    PutPage(t.pages[l := a][r := b], t.root, Inner([Slot(sep, l)], r), w);
  }

  lemma SmallKey(es: seq<Entry>, w: Limits)
    requires |es| > 0 && (forall i :: 0 <= i < |es| ==> SmallEntry(es[i], w))
    ensures SmallSep(es[|es| - 1].key, w)
  {
  }

  // ----- where a search stops after a split -----

  /** A search for `key` stops at a leaf with the entries `es`. */
  ghost predicate StopsOn(t: Tree, key: Key, es: seq<Entry>)
  {
    exists z :: IsLeaf(t, z) && Standing(t, z, key) && !ChaseRight(t.pages[z], key) && Entries(t, z) == es
  }

  lemma StopsOnAt(t: Tree, key: Key, es: seq<Entry>, z: Pid)
    requires Inv(t) && StopsOn(t, key, es) && IsLeaf(t, z) && Standing(t, z, key) && !ChaseRight(t.pages[z], key)
    ensures Entries(t, z) == es
  {
    var y :| IsLeaf(t, y) && Standing(t, y, key) && !ChaseRight(t.pages[y], key) && Entries(t, y) == es;
    StopUnique(t, y, z, key);
  }

  lemma SplitStopsOn(u: Tree, s: Tree, l: Pid, r: Pid, key: Key, plan: SplitPlan)
    requires Inv(u) && Inv(s) && LeafHalves(u, s, l, r) && Standing(u, l, key) && !ChaseRight(u.pages[l], key)
    requires plan.SplitPlan? && Entries(s, l) == plan.left && Entries(s, r) == plan.right && |plan.left| > 0
    requires |plan.right| > 0
    ensures StopsOn(s, key, HalfFor(plan, key))
  {
    hide LexLess, Standing;
    SplitStops(u, s, l, r, key);
  }

  lemma SameLeavesStops(u: Tree, s: Tree, key: Key, es: seq<Entry>)
    requires SameLeaves(u, s) && StopsOn(u, key, es)
    ensures StopsOn(s, key, es)
  {
    var z :| IsLeaf(u, z) && Standing(u, z, key) && !ChaseRight(u.pages[z], key) && Entries(u, z) == es;
    assert Entries(s, z) == Entries(u, z) && Right(s, z) == Right(u, z);
    assert Standing(s, z, key) && !ChaseRight(s.pages[z], key);
  }

  lemma SameUpToStops(t: Tree, t': Tree, k: nat, key: Key, es: seq<Entry>)
    requires SameUpTo(t, t', k) && Inv(t) && Inv(t') && StopsOn(t, key, es)
    ensures StopsOn(t', key, es)
  {
    var z :| IsLeaf(t, z) && Standing(t, z, key) && !ChaseRight(t.pages[z], key) && Entries(t, z) == es;
    assert Typed(t) && Typed(t');
    SameUpToLeaves(t, t', k);
    SameUpToBelow(t, t', k, Lo(t, z), Num(key));
    assert Entries(t', z) == Entries(t, z) && Right(t', z) == Right(t, z);
    assert Standing(t', z, key) && !ChaseRight(t'.pages[z], key);
  }

  lemma LeafSplitStops(t: Tree, z: Pid, r: Pid, pending: Entry, plan: SplitPlan)
    requires Inv(t) && IsLeaf(t, z) && z != t.root && r != 0 && r !in t.pages
    requires Standing(t, z, pending.key) && !ChaseRight(t.pages[z], pending.key)
    requires plan.SplitPlan? && !plan.installed && GoodPlan(Entries(t, z), pending, plan)
    ensures Entries(Installed(t, z, plan), z) == plan.left + plan.right
    ensures |plan.left| > 0 && StopsOn(LeafSplit(t, z, r, plan), pending.key, HalfFor(plan, pending.key))
  {
    hide Inv, Standing, StopsOn;
    PlanSizes(Entries(t, z), pending, plan);
    var s := SplitLeaf(t, z, r, |plan.left|);
    SplitIsNext(t, z, r, |plan.left|);
    assert Entries(s, z) == Entries(t, z)[..|plan.left|] && Entries(s, r) == Entries(t, z)[|plan.left|..];
    SplitStopsOn(t, s, z, r, pending.key, plan);
    if IsLeaf(s, Right(t, z)) {
      WithLeftChanges(s, Right(t, z), r);
      SameLeavesStops(s, WithLeft(s, Right(t, z), r), pending.key, HalfFor(plan, pending.key));
    }
  }

  lemma RootLeafSplitStops(t: Tree, l: Pid, r: Pid, pending: Entry, plan: SplitPlan)
    requires Inv(t) && IsLeaf(t, t.root) && l != 0 && r != 0 && l !in t.pages && r !in t.pages && l != r
    requires !ChaseRight(t.pages[t.root], pending.key)
    requires plan.SplitPlan? && !plan.installed && GoodPlan(Entries(t, t.root), pending, plan)
    ensures Entries(Installed(t, t.root, plan), t.root) == plan.left + plan.right
    ensures |plan.left| > 0 && StopsOn(RootLeafSplit(t, l, r, plan), pending.key, HalfFor(plan, pending.key))
  {
    hide Inv, StopsOn, Standing, AllBelow, LeafHalves, GrownBy, SepOk, NextAt, LeafCost, LowerBound, LeftLinked,
      LeftLinkedBut, EdgeAdded, SameLeaves, InsertedAt;
    RootIn(t);
    OrphansAreRealPages(t);
    PlanSizes(Entries(t, t.root), pending, plan);
    var g := Grow(t, l);
    GrowKeeps(t, l);
    LeftmostStands(g, l, pending.key);
    var s := SplitLeaf(g, l, r, |plan.left|);
    SplitIsNext(g, l, r, |plan.left|);
    assert Entries(s, l) == Entries(g, l)[..|plan.left|] && Entries(s, r) == Entries(g, l)[|plan.left|..];
    SplitStopsOn(g, s, l, r, pending.key, plan);
    PublishAdds(s, t.root, 0, plan.left[|plan.left| - 1].key, r);
    SameLeavesStops(s, Publish(s, t.root, 0, plan.left[|plan.left| - 1].key, r), pending.key,
      HalfFor(plan, pending.key));
  }

  lemma LeftmostStands(t: Tree, l: Pid, key: Key)
    requires Inv(t) && l in t.pages && Lo(t, l) == Lo(t, t.root)
    ensures Standing(t, l, key)
  {
    RootStands(t, key);
  }

  lemma PlanFits(es: seq<Entry>, pending: Entry, plan: SplitPlan)
    requires plan.SplitPlan? && GoodPlan(es, pending, plan)
    ensures LeafCost(plan.left) <= LEAF_CAPACITY && LeafCost(plan.right) <= LEAF_CAPACITY
    ensures |plan.left| > 0 && |plan.right| > 0
  {
  }

  lemma PlanSmall(pages: map<Pid, Node>, z: Pid, pending: Entry, plan: SplitPlan, w: Limits)
    requires z in pages && pages[z].Leaf? && plan.SplitPlan? && GoodPlan(pages[z].entries, pending, plan)
    ensures AllSmall(pages, w) && SmallEntry(pending, w) ==>
      && SmallNode(Leaf(plan.left + plan.right, 0, 0), w)
      && SmallSep(plan.left[|plan.left| - 1].key, w)
  {
    hide LowerBound, LeafCost;
    if AllSmall(pages, w) && SmallEntry(pending, w) {
      assert SmallNode(pages[z], w);
      var es := plan.left + plan.right;
      var pos := LowerBound(EntryKeys(pages[z].entries), pending.key).0;
      forall i | 0 <= i < |es|
        ensures SmallEntry(es[i], w)
      {
        if plan.installed {
          assert es[i] == pending || es[i] in pages[z].entries;
        }
      }
      SmallParts(plan.left, plan.right, w);
    }
  }

  /** The plan for a leaf where a search stopped is good, and an entry it installs was not there before. */
  lemma PlanHolds(t: Tree, z: Pid, pending: Entry, m: map<Key, Value>, w: Limits)
    requires Inv(t) && AllFit(t.pages) && Stores(t, m)
    requires IsLeaf(t, z) && Standing(t, z, pending.key) && !ChaseRight(t.pages[z], pending.key)
    requires SplitNeeded(Entries(t, z), pending)
    ensures var plan := PlanLeafSplit(t.pages[z].entries, pending);
      plan.SplitPlan? ==> GoodPlan(Entries(t, z), pending, plan) && (plan.installed ==> pending.key !in m)
  {
    hide PlanLeafSplit, SplitNeeded, LowerBound, AllFit;
    EntriesSorted(t, z);
    PageAt(t.pages, z, w);
    PlanIsGood(Entries(t, z), pending);
    StopAnswers(t, z, pending.key, m);
  }

  lemma PlanSucceeds(t: Tree, z: Pid, pending: Entry, w: Limits)
    requires Inv(t) && IsLeaf(t, z) && SplitNeeded(Entries(t, z), pending)
    ensures AllSmall(t.pages, w) && SmallEntry(pending, w) && w.light ==>
      PlanLeafSplit(t.pages[z].entries, pending).SplitPlan?
  {
    hide PlanLeafSplit, SplitNeeded, LowerBound;
    EntriesSorted(t, z);
    if AllSmall(t.pages, w) && SmallEntry(pending, w) && w.light {
      assert SmallNode(t.pages[z], w);
      SmallEntriesSplit(Entries(t, z), pending);
    }
  }

  lemma OrphanBesideLeaf(t: Tree, z: Pid, r: Pid)
    requires Inv(t) && t.orphans == {r} && IsLeaf(t, z) && z != t.root && NextAt(t, z, r)
    ensures z !in t.orphans && OrphansBelow(t, Level(t, z))
  {
  }

  // ----- the parent -----

  /** The node takes another separator. */
  predicate HasRoom(t: Tree, p: Pid, sep: Key)
  {
    InnerCost(Slots(t, p)) + SeparatorCost(sep) <= INNER_CAPACITY
  }

  lemma EdgeIsOne(t: Tree, p: Pid, i: nat, c: Pid)
    requires Inv(t) && Edge(t, p, i, c)
    ensures forall q, j: nat :: Edge(t, q, j, c) ==> q == p && j == i
  {
    hide Inv;
    forall q, j: nat | Edge(t, q, j, c)
      ensures q == p && j == i
    {
      OneParent(t, p, i, q, j, c);
    }
  }

  lemma OneParent(t: Tree, p: Pid, i: nat, q: Pid, j: nat, c: Pid)
    requires Inv(t) && Edge(t, p, i, c) && Edge(t, q, j, c)
    ensures q == p && j == i
  {
    UniqueParent(t, p, i, q, j, c);
  }

  // ----- the root -----

  lemma SplitLean(t: Tree, p: Pid, r: Pid, h: nat)
    requires Lean(t) && IsInner(t, p) && p != t.root && h < |Slots(t, p)| && r !in t.pages && t.root in t.pages
    ensures Lean(SplitInner(t, p, r, h))
  {
    hide LowerHalf, UpperHalf;
  }

  lemma RootSplitLean(t: Tree, l: Pid, r: Pid, h: nat)
    requires IsInner(t, t.root) && h < |Slots(t, t.root)| && l != t.root && r != t.root && l != r
    ensures Lean(RootInnerSplit(t, l, r, h))
  {
    hide RootInnerSplit, LowerHalf, UpperHalf;
    RootInnerSplitPages(t, l, r, h);
  }

  lemma PublishLean(t: Tree, p: Pid, i: nat, sep: Key, r: Pid)
    requires Lean(t) && IsInner(t, p) && i <= |Slots(t, p)|
    ensures Lean(Publish(t, p, i, sep, r))
  {
  }

  lemma LeafSplitLean(t: Tree, z: Pid, r: Pid, plan: SplitPlan)
    requires Inv(t) && Lean(t) && IsLeaf(t, z) && z != t.root && r != 0 && r !in t.pages
    requires plan.SplitPlan? && Entries(Installed(t, z, plan), z) == plan.left + plan.right
    ensures Lean(LeafSplit(t, z, r, plan))
  {
    hide LeafSplit, Installed, Inv;
    RootIn(t);
    LeafSplitPagesOf(t, z, r, plan);
    LeafSplitRoot(t, z, r, plan);
  }

  lemma LeafSplitRoot(t: Tree, z: Pid, r: Pid, plan: SplitPlan)
    requires IsLeaf(t, z) && plan.SplitPlan? && Entries(Installed(t, z, plan), z) == plan.left + plan.right
    ensures LeafSplit(t, z, r, plan).root == t.root
  {
  }

  // ----- no empty leaf before the last one -----

  lemma SameUpToHollow(t: Tree, t': Tree, k: nat)
    requires SameUpTo(t, t', k) && Inv(t) && Inv(t') && NoHollow(t)
    ensures NoHollow(t')
  {
    assert Typed(t) && Typed(t');
    SameUpToLeaves(t, t', k);
  }

  lemma InsertHollow(t: Tree, z: Pid, es: seq<Entry>)
    requires NoHollow(t) && IsLeaf(t, z) && |es| > 0
    ensures NoHollow(WithEntries(t, z, es))
  {
    var s := WithEntries(t, z, es);
    forall y | IsLeaf(s, y) && |Entries(s, y)| == 0
      ensures Right(s, y) == 0
    {
      assert y != z;
      assert Entries(s, y) == Entries(t, y) && Right(s, y) == Right(t, y);
    }
  }

  lemma LeafSplitHollow(t: Tree, z: Pid, r: Pid, plan: SplitPlan)
    requires Inv(t) && NoHollow(t) && IsLeaf(t, z) && z != t.root && r != 0 && r !in t.pages
    requires plan.SplitPlan? && Entries(Installed(t, z, plan), z) == plan.left + plan.right && |plan.left| > 0
    requires |plan.right| > 0
    ensures NoHollow(LeafSplit(t, z, r, plan))
  {
    LeafSplitPagesOf(t, z, r, plan);
    var s := LeafSplit(t, z, r, plan);
    forall y | IsLeaf(s, y) && |Entries(s, y)| == 0
      ensures Right(s, y) == 0
    {
      assert y != z && y != r;
      assert Entries(s, y) == Entries(t, y) && Right(s, y) == Right(t, y);
    }
  }

  lemma LeafSplitPagesOf(t: Tree, z: Pid, r: Pid, plan: SplitPlan)
    requires Inv(t) && IsLeaf(t, z) && z != t.root && r != 0 && r !in t.pages
    requires plan.SplitPlan? && Entries(Installed(t, z, plan), z) == plan.left + plan.right
    ensures var s := LeafSplit(t, z, r, plan);
      var n := t.pages[z];
      var halves := t.pages[r := Leaf(plan.right, z, n.right)][z := Leaf(plan.left, n.left, r)];
      s.pages == (if IsLeaf(t, n.right) then halves[n.right := t.pages[n.right].(left := r)] else halves)
  {
    RootIn(t);
    RightIn(t, z);
    LeafSplitPages(t, z, r, plan);
  }

  lemma RootLeafSplitHollow(t: Tree, l: Pid, r: Pid, plan: SplitPlan)
    requires Inv(t) && NoHollow(t) && IsLeaf(t, t.root) && l !in t.pages && r !in t.pages && l != r
    requires plan.SplitPlan? && |plan.left| > 0 && |plan.right| > 0
    requires Entries(Installed(t, t.root, plan), t.root) == plan.left + plan.right
    ensures NoHollow(RootLeafSplit(t, l, r, plan))
  {
    hide Inv, RootLeafSplit, Installed;
    RootIn(t);
    RootLeafSplitPages(t, l, r, plan);
    var s := RootLeafSplit(t, l, r, plan);
    forall y | IsLeaf(s, y) && |Entries(s, y)| == 0
      ensures Right(s, y) == 0
    {
      assert y != t.root && y != l && y != r;
      assert Entries(s, y) == Entries(t, y) && Right(s, y) == Right(t, y);
    }
  }

  lemma InsertedSize(es: seq<Entry>, pos: nat, e: Entry)
    requires pos <= |es|
    ensures |InsertedAt(es, pos, e)| == |es| + 1
  {
  }

  // ----- searching for room -----

  /** What the page says at the leaf where the search stops. */
  lemma StopPosition(t: Tree, z: Pid, key: Key, m: map<Key, Value>)
    requires Inv(t) && Stores(t, m) && IsLeaf(t, z) && Standing(t, z, key) && !ChaseRight(t.pages[z], key)
    ensures InsertBound(t.pages[z].entries, key) == LowerBound(EntryKeys(t.pages[z].entries), key)
    ensures var (pos, exact) := InsertBound(t.pages[z].entries, key);
      && pos <= |t.pages[z].entries| && (exact <==> key in m)
      && (exact ==> pos < |t.pages[z].entries| && t.pages[z].entries[pos].key == key)
  {
    hide LowerBound, InsertBound;
    EntriesSorted(t, z);
    InsertBoundAgrees(t.pages[z].entries, key);
    BoundMeans(t.pages[z].entries, key);
    StopAnswers(t, z, key, m);
  }

  lemma StrandedAt(t: Tree, key: Key, y: Pid)
    requires Inv(t) && IsLeaf(t, y) && ChaseRight(t.pages[y], key) && |Entries(t, y)| == 0 && y == InvRouteLeaf(t, key)
    ensures Stranded(t, key) && !NoHollow(t) && Right(t, y) != 0
  {
  }

  lemma SmallFits(e: Entry, w: Limits)
    ensures SmallEntry(e, w) && w.light ==> EntryCost(e) <= LEAF_CAPACITY
  {
  }
}
