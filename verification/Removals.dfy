/**
 The changes a delete makes to the tree beyond its leaf: merges with the relink of
 the successor, the collapse of an empty root, and separator repair.
 */
module Removals {
  import opened Keys
  import opened Pages
  import opened Trees
  import opened LeafSteps
  import opened EdgeSteps
  import opened InnerSteps
  import opened RootSteps
  import opened LeftLinks
  import opened SeparatorBounds
  import opened Merges
  import opened Splits
  import opened Levels
  import opened Accounts
  import opened Descents

  /** Separator `i` can be rewritten to `sep` without overflowing the node. */
  predicate RewriteFits(n: Node, i: nat, sep: Key)
    requires n.Inner? && i < |n.slots|
  {
    InnerCost(n.slots) - SeparatorCost(n.slots[i].sep) + SeparatorCost(sep) <= INNER_CAPACITY
  }

  lemma SetSlotCost(ss: seq<Slot>, i: nat, s: Slot)
    requires i < |ss|
    ensures InnerCost(ss[i := s]) == InnerCost(ss) - SeparatorCost(ss[i].sep) + SeparatorCost(s.sep)
  {
    SlotSplit(ss, i);
    SlotSplit(ss[i := s], i);
    assert ss[i := s][..i] == ss[..i] && ss[i := s][i + 1..] == ss[i + 1..];
  }

  lemma DropSlotCost(ss: seq<Slot>, i: nat)
    requires i < |ss|
    ensures InnerCost(ss[..i] + ss[i + 1..]) == InnerCost(ss) - SeparatorCost(ss[i].sep)
  {
    SlotSplit(ss, i);
    InnerCostConcat(ss[..i], ss[i + 1..]);
  }

  // ----- merged nodes -----

  lemma ParentFits(n: Node, i: nat, merged: seq<Entry>)
    requires n.Inner? && i < |n.slots| && Fits(n)
    requires i + 1 < |n.slots| ==> RewriteFits(n, i, MergedSep(n, i, merged))
    ensures Fits(ParentAfterLeafMerge(n, i, merged))
  {
    var ss := n.slots;
    if i + 1 < |ss| {
      var s := Slot(MergedSep(n, i, merged), ss[i].child);
      SetSlotCost(ss, i, s);
      var wide := ss[i := s];
      DropSlotCost(wide, i + 1);
      assert ss[..i] + [s] + ss[i + 2..] == wide[..i + 1] + wide[i + 2..];
    } else {
      CutSlots(ss, i);
    }
  }

  lemma ParentSmall(n: Node, i: nat, merged: seq<Entry>, w: Limits)
    requires n.Inner? && i < |n.slots| && SmallNode(n, w) && SmallNode(Leaf(merged, 0, 0), w)
    ensures SmallNode(ParentAfterLeafMerge(n, i, merged), w)
  {
    hide SeparatorCost;
    if |merged| > 0 {
      assert SmallEntry(merged[|merged| - 1], w);
    }
  }

  lemma RemoveEdgeFits(n: Node, i: nat, w: Limits)
    requires n.Inner? && i < |n.slots| && Fits(n)
    ensures Fits(RemoveEdge(n, i)) && (SmallNode(n, w) ==> SmallNode(RemoveEdge(n, i), w))
  {
    var ss := n.slots;
    if i + 1 < |ss| {
      var s := Slot(ss[i + 1].sep, ss[i].child);
      var wide := ss[i := s];
      SetSlotCost(ss, i, s);
      DropSlotCost(wide, i + 1);
      assert ss[..i] + [s] + ss[i + 2..] == wide[..i + 1] + wide[i + 2..];
    } else {
      CutSlots(ss, i);
    }
  }

  lemma MergedInnerFits(a: Node, sep: Key, b: Node, w: Limits)
    requires a.Inner? && b.Inner? && InnerCost(a.slots) + SeparatorCost(sep) + InnerCost(b.slots) <= INNER_CAPACITY
    ensures Fits(MergedInner(a, sep, b))
    ensures SmallNode(a, w) && SmallNode(b, w) && SmallSep(sep, w) ==> SmallNode(MergedInner(a, sep, b), w)
  {
    var s := Slot(sep, a.upper);
    SlotCost(s);
    InnerCostConcat(a.slots, [s]);
    InnerCostConcat(a.slots + [s], b.slots);
  }

  // ----- leaf merges -----

  /** The tree after merging the leaves at edges `i` and `i + 1` of `p` and relinking the successor. */
  ghost function LeafMerge(t: Tree, p: Pid, i: nat): Tree
    requires IsInner(t, p) && i < |Slots(t, p)| && IsLeaf(t, Kid(t, p, i)) && IsLeaf(t, Kid(t, p, i + 1))
    requires Kid(t, p, i) != Kid(t, p, i + 1)
  {
    var u := MergeLeaves(t, p, i);
    var x := Right(t, Kid(t, p, i + 1));
    if IsLeaf(u, x) then WithLeft(u, x, Kid(t, p, i)) else u
  }

  /** The merged leaf and its successor. */
  lemma SuccessorOfPair(t: Tree, p: Pid, i: nat)
    requires Inv(t) && IsInner(t, p) && i < |Slots(t, p)|
    requires IsLeaf(t, Kid(t, p, i)) && IsLeaf(t, Kid(t, p, i + 1)) && Right(t, Kid(t, p, i)) == Kid(t, p, i + 1)
    ensures var l, r := Kid(t, p, i), Kid(t, p, i + 1);
      var x := Right(t, r);
      && l != 0 && l != r && p != l && p != r && r != t.root && l != t.root && 0 !in t.pages && t.root in t.pages
      && (x != 0 ==> IsLeaf(t, x) && x != l && x != r && x != p)
  {
    var l, r := Kid(t, p, i), Kid(t, p, i + 1);
    assert Typed(t);
    EdgeWithin(t, p, i);
    EdgeWithin(t, p, i + 1);
    LinkedAt(t, l);
    LinkedAt(t, r);
  }

  lemma LeafMergePages(t: Tree, p: Pid, i: nat)
    requires Inv(t) && t.orphans == {} && IsInner(t, p) && i < |Slots(t, p)|
    requires IsLeaf(t, Kid(t, p, i)) && IsLeaf(t, Kid(t, p, i + 1)) && Right(t, Kid(t, p, i)) == Kid(t, p, i + 1)
    ensures Kid(t, p, i) != Kid(t, p, i + 1)
    ensures var l, r := Kid(t, p, i), Kid(t, p, i + 1);
      var x := Right(t, r);
      var merged := Entries(t, l) + Entries(t, r);
      var parent := ParentAfterLeafMerge(t.pages[p], i, merged);
      var base := t.pages[l := MergedLeaf(t.pages[l], t.pages[r])][p := parent] - {r};
      var s := LeafMerge(t, p, i);
      && (x != 0 ==> x in base && base[x].Leaf? && base[x] == t.pages[x])
      && s.pages == (if x != 0 then base[x := base[x].(left := l)] else base)
      && s.root == t.root && s.orphans == {}
      && (forall q :: q != r ==> Level(s, q) == Level(t, q))
  {
    hide Inv, MergeLeaves, MergedLeaf, ParentAfterLeafMerge;
    SuccessorOfPair(t, p, i);
    MergeLeavesPages(t, p, i);
  }

  /** Merging neighbouring leaves and relinking keeps everything. */
  lemma LeafMergeKeeps(t: Tree, p: Pid, i: nat, m: map<Key, Value>)
    requires Inv(t) && t.orphans == {} && LeftLinked(t) && Stores(t, m) && IsInner(t, p) && i < |Slots(t, p)|
    requires IsLeaf(t, Kid(t, p, i)) && IsLeaf(t, Kid(t, p, i + 1)) && Right(t, Kid(t, p, i)) == Kid(t, p, i + 1)
    ensures Kid(t, p, i) != Kid(t, p, i + 1)
    ensures var s := LeafMerge(t, p, i); Inv(s) && LeftLinked(s) && Stores(s, m)
  {
    hide Inv, MergeLeaves, LeftLinked, LeftLinkedBut, Stores, MergedLeaf, ParentAfterLeafMerge;
    var l, r := Kid(t, p, i), Kid(t, p, i + 1);
    var x := Right(t, r);
    SuccessorOfPair(t, p, i);
    MergeLeavesKeeps(t, p, i, m);
    MergeLeavesPages(t, p, i);
    var u := MergeLeaves(t, p, i);
    MergedLeafRight(t, u, l, r);
    if x != 0 {
      WithLeftKeeps(u, x, l, m);
      RelinkRepairs(u, x, l);
    } else {
      NoSuccessor(u);
    }
  }

  lemma MergedLeafRight(t: Tree, u: Tree, l: Pid, r: Pid)
    requires IsLeaf(t, l) && IsLeaf(t, r) && l in u.pages && u.pages[l] == MergedLeaf(t.pages[l], t.pages[r])
    ensures IsLeaf(u, l) && Right(u, l) == Right(t, r)
  {
  }

  lemma NoSuccessor(u: Tree)
    requires Inv(u) && LeftLinkedBut(u, 0)
    ensures LeftLinked(u)
  {
  }

  /** Space and page count after a leaf merge. */
  lemma LeafMergeAccounts(t: Tree, p: Pid, i: nat, w: Limits)
    requires Inv(t) && t.orphans == {} && AllFit(t.pages) && IsInner(t, p) && i < |Slots(t, p)|
    requires IsLeaf(t, Kid(t, p, i)) && IsLeaf(t, Kid(t, p, i + 1)) && Right(t, Kid(t, p, i)) == Kid(t, p, i + 1)
    requires var merged := Entries(t, Kid(t, p, i)) + Entries(t, Kid(t, p, i + 1));
      && LeafCost(merged) <= LEAF_CAPACITY
      && (i + 1 < |Slots(t, p)| ==> RewriteFits(t.pages[p], i, MergedSep(t.pages[p], i, merged)))
    ensures Kid(t, p, i) != Kid(t, p, i + 1)
    ensures var s := LeafMerge(t, p, i);
      && AllFit(s.pages) && |s.pages| == |t.pages| - 1 && Level(s, t.root) == Level(t, t.root)
      && (AllSmall(t.pages, w) ==> AllSmall(s.pages, w))
      && IsInner(s, p) && Level(s, p) == Level(t, p)
      && (forall q :: IsInner(t, q) ==> IsInner(s, q) && Level(s, q) == Level(t, q))
  {
    hide Inv, AllFit, AllSmall, LeafMerge, ParentAfterLeafMerge, MergedSep, RewriteFits, LeafCost, Fits, SmallNode,
      MergedLeaf;
    LeafMergePages(t, p, i);
    SuccessorOfPair(t, p, i);
    var l, r := Kid(t, p, i), Kid(t, p, i + 1);
    var x := Right(t, r);
    var merged := Entries(t, l) + Entries(t, r);
    var n := t.pages[p];
    var a, b := MergedLeaf(t.pages[l], t.pages[r]), ParentAfterLeafMerge(n, i, merged);
    PageAt(t.pages, p, w);
    PageAt(t.pages, l, w);
    PageAt(t.pages, r, w);
    MergedLeafSpace(t.pages[l], t.pages[r], w);
    ParentFits(n, i, merged);
    ParentIsInner(n, i, merged);
    if AllSmall(t.pages, w) {
      ParentSmall(n, i, merged, w);
    }
    PutPage(t.pages, l, a, w);
    PutPage(t.pages[l := a], p, b, w);
    DropPage(t.pages[l := a][p := b], r, w);
    var base := t.pages[l := a][p := b] - {r};
    if x != 0 {
      PageAt(base, x, w);
      RelinkedPage(base[x], l, w);
      PutPage(base, x, base[x].(left := l), w);
    }
  }

  lemma RelinkedPage(n: Node, l: Pid, w: Limits)
    requires n.Leaf? && Fits(n)
    ensures Fits(n.(left := l)) && (SmallNode(n, w) ==> SmallNode(n.(left := l), w))
  {
  }

  lemma ParentIsInner(n: Node, i: nat, merged: seq<Entry>)
    requires n.Inner? && i < |n.slots|
    ensures ParentAfterLeafMerge(n, i, merged).Inner?
  {
  }

  lemma MergedLeafSpace(a: Node, b: Node, w: Limits)
    requires a.Leaf? && b.Leaf? && LeafCost(a.entries + b.entries) <= LEAF_CAPACITY
    ensures Fits(MergedLeaf(a, b)) && MergedLeaf(a, b).Leaf?
    ensures SmallNode(a, w) && SmallNode(b, w) ==>
      SmallNode(MergedLeaf(a, b), w) && SmallNode(Leaf(a.entries + b.entries, 0, 0), w)
  {
  }

  // ----- inner merges -----

  lemma InnerMergeAccounts(t: Tree, p: Pid, i: nat, w: Limits)
    requires Inv(t) && t.orphans == {} && AllFit(t.pages) && IsInner(t, p) && i < |Slots(t, p)|
    requires IsInner(t, Kid(t, p, i)) && IsInner(t, Kid(t, p, i + 1))
    requires p != Kid(t, p, i) && p != Kid(t, p, i + 1) && Kid(t, p, i) != Kid(t, p, i + 1)
    requires InnersFit(t.pages, Kid(t, p, i), Slots(t, p)[i].sep, Kid(t, p, i + 1))
    ensures var l, r := Kid(t, p, i), Kid(t, p, i + 1);
      var s := MergeInners(t, p, i);
      && var joined := MergedInner(t.pages[l], Slots(t, p)[i].sep, t.pages[r]);
      && s.pages == t.pages[l := joined][p := RemoveEdge(t.pages[p], i)] - {r}
      && s.root == t.root && s.orphans == {}
      && AllFit(s.pages) && |s.pages| == |t.pages| - 1 && Level(s, t.root) == Level(t, t.root)
      && (AllSmall(t.pages, w) ==> AllSmall(s.pages, w))
      && IsInner(s, p) && Level(s, p) == Level(t, p)
      && (forall q :: IsInner(t, q) && Level(t, q) > Level(t, p) ==> IsInner(s, q) && Level(s, q) == Level(t, q))
  {
    hide Inv, AllFit, AllSmall, MergeInners, MergedInner, InnerCost, Fits, SmallNode, RemoveEdge;
    var l, r := Kid(t, p, i), Kid(t, p, i + 1);
    var n := t.pages[p];
    var sep := Slots(t, p)[i].sep;
    EdgeLevel(t, p, i, l);
    EdgeLevel(t, p, i + 1, r);
    RootAbove(t, p, i + 1, r);
    MergeInnersPages(t, p, i);
    PageAt(t.pages, p, w);
    PageAt(t.pages, l, w);
    PageAt(t.pages, r, w);
    MergedInnerFits(t.pages[l], sep, t.pages[r], w);
    RemoveEdgeFits(n, i, w);
    if AllSmall(t.pages, w) {
      SmallSlotAt(t.pages, p, i, w);
    }
    var a, b := MergedInner(t.pages[l], sep, t.pages[r]), RemoveEdge(n, i);
    MergedInnerIsInner(t.pages[l], sep, t.pages[r], n, i);
    PutPage(t.pages, l, a, w);
    PutPage(t.pages[l := a], p, b, w);
    DropPage(t.pages[l := a][p := b], r, w);
  }

  lemma MergedInnerIsInner(a: Node, sep: Key, b: Node, n: Node, i: nat)
    requires a.Inner? && b.Inner? && n.Inner? && i < |n.slots|
    ensures MergedInner(a, sep, b).Inner? && RemoveEdge(n, i).Inner?
  {
  }

  lemma RootAbove(t: Tree, p: Pid, i: nat, c: Pid)
    requires Inv(t) && Edge(t, p, i, c)
    ensures c != t.root && t.root in t.pages && c in t.pages
  {
    EdgeWithin(t, p, i);
    assert Typed(t);
  }

  // ----- paths -----

  lemma PathKept(t: Tree, s: Tree, path: seq<Pid>, k: nat)
    requires PathOk(t, path, k)
    requires forall q :: IsInner(t, q) && Level(t, q) > k ==> IsInner(s, q) && Level(s, q) == Level(t, q)
    ensures PathOk(s, path, k)
  {
  }

  lemma PathPop(t: Tree, path: seq<Pid>, k: nat)
    requires PathOk(t, path, k) && |path| > 0
    ensures IsInner(t, path[|path| - 1]) && Level(t, path[|path| - 1]) > k
    ensures PathOk(t, path[..|path| - 1], Level(t, path[|path| - 1]))
  {
  }

  // ----- root collapse -----

  /** Collapsing a root without separators keeps everything, one level lower. */
  lemma CollapseAccounts(t: Tree, m: map<Key, Value>, w: Limits)
    requires Inv(t) && t.orphans == {} && LeftLinked(t) && Stores(t, m) && AllFit(t.pages)
    requires IsInner(t, t.root) && Slots(t, t.root) == []
    ensures t.pages[t.root].upper in t.pages
    ensures var c := t.pages[t.root].upper;
      var s := Collapse(t);
      && Inv(s) && LeftLinked(s) && Stores(s, m) && s.orphans == {} && s.root == t.root
      && s.pages == t.pages[t.root := t.pages[c]] - {c}
      && AllFit(s.pages) && |s.pages| == |t.pages| - 1 && Level(s, t.root) + 1 == Level(t, t.root)
      && (AllSmall(t.pages, w) ==> AllSmall(s.pages, w))
  {
    hide Stores, LeftLinked, AllFit, AllSmall, Kids, KidsUp, RootFirst, Distinct, Nested, Parented, Linked,
      SortedLeaves, SortedAcross, Routed;
    CollapseKeeps(t);
    var c := t.pages[t.root].upper;
    var s := Collapse(t);
    GrownStore(s, t, c, m);
    CollapseLeft(t);
    PageAt(t.pages, c, w);
    PutPage(t.pages, t.root, t.pages[c], w);
    DropPage(t.pages[t.root := t.pages[c]], c, w);
  }

  // ----- separator repair -----

  /** Rewriting a separator to the largest key under its edge keeps everything. */
  lemma RepairKeeps(t: Tree, p: Pid, i: nat, sep: Key, m: map<Key, Value>, w: Limits)
    requires Inv(t) && t.orphans == {} && LeftLinked(t) && Stores(t, m) && AllFit(t.pages)
    requires IsInner(t, p) && i < |Slots(t, p)| && RewriteFits(t.pages[p], i, sep)
    requires EndsWith(t, Kid(t, p, i), sep)
    ensures var s := SetSep(t, p, i, sep);
      && Inv(s) && LeftLinked(s) && Stores(s, m) && AllFit(s.pages) && |s.pages| == |t.pages|
      && s.orphans == {} && s.root == t.root && Level(s, t.root) == Level(t, t.root)
      && (AllSmall(t.pages, w) && SmallSep(sep, w) ==> AllSmall(s.pages, w))
  {
    hide Stores, LeftLinked, AllFit, AllSmall, Typed, Kids, KidsUp, RootFirst, Distinct, Nested, Parented, Linked,
      SortedLeaves, SortedAcross, Routed, SepOk, SepChanged, Rightmost;
    SpineSeparates(t, p, i);
    SetSepKeeps(t, p, i, sep);
    SetSepChanges(t, p, i, sep);
    RepairLeaves(t, p, i, sep, m);
    var n := t.pages[p];
    SetSlotCost(n.slots, i, n.slots[i].(sep := sep));
    PageAt(t.pages, p, w);
    PutPage(t.pages, p, n.(slots := n.slots[i := n.slots[i].(sep := sep)]), w);
  }

  lemma RepairLeaves(t: Tree, p: Pid, i: nat, sep: Key, m: map<Key, Value>)
    requires IsInner(t, p) && i < |Slots(t, p)| && LeftLinked(t) && Stores(t, m)
    ensures LeftLinked(SetSep(t, p, i, sep)) && Stores(SetSep(t, p, i, sep), m)
  {
    hide Stores;
    var s := SetSep(t, p, i, sep);
    SetSepChanges(t, p, i, sep);
    SameLeavesStore(t, s, m);
    assert forall z :: Left(s, z) == Left(t, z);
    SameLeavesLeft(t, s);
  }

  /** The rightmost leaf under `c` is not empty and its last key is `sep`. */
  ghost predicate EndsWith(t: Tree, c: Pid, sep: Key)
  {
    && Inv(t) && c in t.pages
    && var es := Entries(t, Rightmost(t, c)); |es| > 0 && es[|es| - 1].key == sep
  }

  /** Two leaves that are neighbours by their links and in the order of their keys, and fit one page. */
  predicate LeavesFit(pages: map<Pid, Node>, l: Pid, r: Pid)
  {
    && l in pages && r in pages && pages[l].Leaf? && pages[r].Leaf? && l != r && pages[l].right == r
    && var a, b := pages[l].entries, pages[r].entries;
       && !(|a| > 0 && |b| > 0 && LexLess(b[0].key, a[|a| - 1].key))
       && LeafCost(a + b) <= LEAF_CAPACITY
  }

  /** Two inner nodes that fit one page together with the separator between them. */
  predicate InnersFit(pages: map<Pid, Node>, l: Pid, sep: Key, r: Pid)
  {
    && l in pages && r in pages && pages[l].Inner? && pages[r].Inner?
    && InnerCost(pages[l].slots) + SeparatorCost(sep) + InnerCost(pages[r].slots) <= INNER_CAPACITY
  }

  function PathEnd(path: seq<Pid>): Pid
  {
    if |path| > 0 then path[|path| - 1] else 0
  }

  /** Leaf `z` under `p` is merged with edge `i` and the next: with its right sibling if it has one and the two fit,
      else with its left sibling.  `here` are the pages at hand, resident and with a free latch; a right sibling that
      is not at hand ends the attempt. */
  ghost predicate LeafPair(t: Tree, p: Pid, z: Pid, here: set<Pid>, i: nat)
  {
    var l, r := Kid(t, p, i), Kid(t, p, i + 1);
    && IsInner(t, p) && i < |Slots(t, p)| && IsLeaf(t, l) && IsLeaf(t, r) && LeavesFit(t.pages, l, r)
    && (if l == z then r in here else
        && r == z && l in here
        && (i + 1 < |Slots(t, p)| ==> Kid(t, p, i + 2) in here && !LeavesFit(t.pages, z, Kid(t, p, i + 2))))
  }

  /** The same for an inner node. */
  ghost predicate InnerPair(t: Tree, p: Pid, c: Pid, here: set<Pid>, i: nat)
  {
    var l, r := Kid(t, p, i), Kid(t, p, i + 1);
    && IsInner(t, p) && i < |Slots(t, p)| && IsInner(t, l) && IsInner(t, r)
    && InnersFit(t.pages, l, Slots(t, p)[i].sep, r)
    && (if l == c then r in here else
        && r == c && l in here
        && (i + 1 < |Slots(t, p)| ==>
              Kid(t, p, i + 2) in here && !InnersFit(t.pages, c, Slots(t, p)[i + 1].sep, Kid(t, p, i + 2))))
  }

  ghost predicate LeafMergeDue(t: Tree, path: seq<Pid>, z: Pid, here: set<Pid>)
  {
    |path| > 0 && exists i: nat :: LeafPair(t, PathEnd(path), z, here, i)
  }

  ghost predicate InnerMergeDue(t: Tree, path: seq<Pid>, c: Pid, here: set<Pid>)
  {
    |path| > 0 && exists i: nat :: InnerPair(t, PathEnd(path), c, here, i)
  }

  /** The merge at edge `i` of `p` has no room for the separator behind the pair, or a merge further up has none. */
  ghost predicate LeafMergeSticks(t: Tree, rest: seq<Pid>, p: Pid, here: set<Pid>, i: nat)
    requires IsInner(t, p) && i < |Slots(t, p)| && IsLeaf(t, Kid(t, p, i)) && IsLeaf(t, Kid(t, p, i + 1))
    requires Kid(t, p, i) != Kid(t, p, i + 1)
  {
    var merged := Entries(t, Kid(t, p, i)) + Entries(t, Kid(t, p, i + 1));
    || (i + 1 < |Slots(t, p)| && !RewriteFits(t.pages[p], i, MergedSep(t.pages[p], i, merged)))
    || UpwardSticks(LeafMerge(t, p, i), rest, p, here)
  }

  ghost predicate InnerMergeSticks(t: Tree, rest: seq<Pid>, p: Pid, here: set<Pid>, i: nat)
    requires IsInner(t, p) && i < |Slots(t, p)| && IsInner(t, Kid(t, p, i)) && IsInner(t, Kid(t, p, i + 1))
    decreases |rest|, 2
  {
    || (i + 1 < |Slots(t, p)| && !RewriteFits(t.pages[p], i, Slots(t, p)[i + 1].sep))
    || UpwardSticks(MergeInners(t, p, i), rest, p, here)
  }

  /** After a merge below it, `p` is to be merged in turn, and that merge sticks. */
  ghost predicate UpwardSticks(t: Tree, path: seq<Pid>, p: Pid, here: set<Pid>)
    decreases |path|, 1
  {
    p != t.root && IsInner(t, p) && Underfull(t.pages[p]) && InnerSticks(t, path, p, here)
  }

  ghost predicate InnerSticks(t: Tree, path: seq<Pid>, c: Pid, here: set<Pid>)
    decreases |path|, 0
  {
    && |path| > 0
    && exists i: nat :: InnerPair(t, PathEnd(path), c, here, i)
         && InnerMergeSticks(t, path[..|path| - 1], PathEnd(path), here, i)
  }

  ghost predicate LeafSticks(t: Tree, path: seq<Pid>, z: Pid, here: set<Pid>)
  {
    && |path| > 0
    && exists i: nat :: LeafPair(t, PathEnd(path), z, here, i)
         && LeafMergeSticks(t, path[..|path| - 1], PathEnd(path), here, i)
  }

  lemma InnerSticksAt(t: Tree, path: seq<Pid>, c: Pid, here: set<Pid>, i: nat)
    requires |path| > 0 && InnerPair(t, PathEnd(path), c, here, i)
    requires forall j: nat :: InnerPair(t, PathEnd(path), c, here, j) ==> j == i
    ensures InnerMergeDue(t, path, c, here)
    ensures InnerSticks(t, path, c, here) <==> InnerMergeSticks(t, path[..|path| - 1], PathEnd(path), here, i)
  {
  }

  lemma LeafSticksAt(t: Tree, path: seq<Pid>, z: Pid, here: set<Pid>, i: nat)
    requires |path| > 0 && LeafPair(t, PathEnd(path), z, here, i)
    requires forall j: nat :: LeafPair(t, PathEnd(path), z, here, j) ==> j == i
    ensures LeafMergeDue(t, path, z, here)
    ensures LeafSticks(t, path, z, here) <==> LeafMergeSticks(t, path[..|path| - 1], PathEnd(path), here, i)
  {
  }

  lemma NothingDue(t: Tree, path: seq<Pid>, c: Pid, here: set<Pid>)
    ensures |path| == 0 || (forall i: nat :: !InnerPair(t, PathEnd(path), c, here, i)) ==>
      !InnerMergeDue(t, path, c, here) && !InnerSticks(t, path, c, here)
    ensures |path| == 0 || (forall i: nat :: !LeafPair(t, PathEnd(path), c, here, i)) ==>
      !LeafMergeDue(t, path, c, here) && !LeafSticks(t, path, c, here)
  {
  }

  lemma NoPair(t: Tree, p: Pid, c: Pid, here: set<Pid>)
    requires forall j :: 0 <= j <= |Slots(t, p)| ==> Kid(t, p, j) != c
    ensures forall i: nat :: !LeafPair(t, p, c, here, i) && !InnerPair(t, p, c, here, i)
  {
  }

  /** Which pair is merged for the page at edge `pos`. */
  lemma LeafPairAt(t: Tree, p: Pid, z: Pid, here: set<Pid>, pos: nat)
    requires Inv(t) && IsInner(t, p) && pos <= |Slots(t, p)| && Kid(t, p, pos) == z && IsLeaf(t, z)
    ensures forall i: nat :: LeafPair(t, p, z, here, i) <==>
      if i == pos then pos < |Slots(t, p)| && Kid(t, p, pos + 1) in here && LeavesFit(t.pages, z, Kid(t, p, pos + 1))
      else
        && i + 1 == pos && Kid(t, p, pos - 1) in here && LeavesFit(t.pages, Kid(t, p, pos - 1), z)
        && (pos < |Slots(t, p)| ==> Kid(t, p, pos + 1) in here && !LeavesFit(t.pages, z, Kid(t, p, pos + 1)))
  {
    hide Inv, LeavesFit;
    forall i | 0 <= i <= |Slots(t, p)|
      ensures Kid(t, p, i) == z ==> i == pos
      ensures IsLeaf(t, Kid(t, p, i))
    {
      KidsOf(t, p, i);
      KidsOf(t, p, pos);
      if Kid(t, p, i) == z {
        OneEdge(t, p, z, i, pos);
      }
    }
  }

  lemma InnerPairAt(t: Tree, p: Pid, c: Pid, here: set<Pid>, pos: nat)
    requires Inv(t) && IsInner(t, p) && pos <= |Slots(t, p)| && Kid(t, p, pos) == c && IsInner(t, c)
    ensures forall i: nat :: InnerPair(t, p, c, here, i) <==>
      if i == pos then
        && pos < |Slots(t, p)| && Kid(t, p, pos + 1) in here
        && InnersFit(t.pages, c, Slots(t, p)[pos].sep, Kid(t, p, pos + 1))
      else
        && i + 1 == pos && Kid(t, p, pos - 1) in here
        && InnersFit(t.pages, Kid(t, p, pos - 1), Slots(t, p)[pos - 1].sep, c)
        && (pos < |Slots(t, p)| ==>
              Kid(t, p, pos + 1) in here && !InnersFit(t.pages, c, Slots(t, p)[pos].sep, Kid(t, p, pos + 1)))
  {
    hide Inv, InnersFit;
    forall i | 0 <= i <= |Slots(t, p)|
      ensures Kid(t, p, i) == c ==> i == pos
      ensures IsInner(t, Kid(t, p, i))
    {
      KidsOf(t, p, i);
      KidsOf(t, p, pos);
      if Kid(t, p, i) == c {
        OneEdge(t, p, c, i, pos);
      }
    }
  }

  lemma OneEdge(t: Tree, p: Pid, c: Pid, i: nat, j: nat)
    requires Inv(t) && IsInner(t, p) && i <= |Slots(t, p)| && j <= |Slots(t, p)| && Kid(t, p, i) == Kid(t, p, j) == c
    ensures i == j
  {
    UniqueParent(t, p, i, p, j, c);
  }

  // ----- what merging is for -----

  /** A node is underfull if less than two fifths of a page are in use, slots and all. */
  lemma UnderfullMeans(n: Node)
    ensures n.Leaf? ==> (Underfull(n) <==> LeafCost(n.entries) < 26175)
    ensures n.Inner? ==> (Underfull(n) <==> InnerCost(n.slots) < 26183)
  {
    hide LeafCost, InnerCost;
  }

  /** Two underfull leaves that are neighbours fit one page. */
  lemma ThinLeavesFit(t: Tree, l: Pid, r: Pid)
    requires Inv(t) && IsLeaf(t, l) && IsLeaf(t, r) && Right(t, l) == r && Underfull(t.pages[l])
    requires Underfull(t.pages[r])
    ensures LeavesFit(t.pages, l, r)
  {
    hide LeafCost, LexLess, Num, Routed, Kids, KidsUp, Nested, Parented, RootFirst, Distinct;
    LeafCostConcat(t.pages[l].entries, t.pages[r].entries);
    LinkedAt(t, l);
    var a, b := Entries(t, l), Entries(t, r);
    if |a| > 0 && |b| > 0 {
      assert Num(a[|a| - 1].key) < Num(b[0].key);
      NumIsOrder(b[0].key, a[|a| - 1].key);
    }
  }

  /** A leaf that is underfull, like the next one under the same parent, is merged if that one is at hand. */
  lemma ThinLeavesMerge(t: Tree, path: seq<Pid>, z: Pid, pos: nat, here: set<Pid>)
    requires Inv(t) && |path| > 0 && IsLeaf(t, z) && pos < |Slots(t, PathEnd(path))| && Kid(t, PathEnd(path), pos) == z
    requires var r := Kid(t, PathEnd(path), pos + 1);
      r in here && IsLeaf(t, r) && Right(t, z) == r && Underfull(t.pages[z]) && Underfull(t.pages[r])
    ensures LeafMergeDue(t, path, z, here)
  {
    hide Inv, LeavesFit, Underfull;
    ThinLeavesFit(t, z, Kid(t, PathEnd(path), pos + 1));
    LeafPairAt(t, PathEnd(path), z, here, pos);
    assert LeafPair(t, PathEnd(path), z, here, pos);
  }

  /** Two underfull inner nodes fit one page with a separator of at most a fifth of a page. */
  lemma ThinInnersFit(pages: map<Pid, Node>, l: Pid, sep: Key, r: Pid)
    requires l in pages && r in pages && pages[l].Inner? && pages[r].Inner? && Underfull(pages[l])
    requires Underfull(pages[r])
    requires |sep| <= 13000
    ensures InnersFit(pages, l, sep, r)
  {
    hide InnerCost;
  }

  /** After a leaf merge the separator behind the merged leaf is its largest key. */
  lemma MergeTightens(t: Tree, p: Pid, i: nat)
    requires Inv(t) && t.orphans == {} && IsInner(t, p) && i + 1 < |Slots(t, p)|
    requires IsLeaf(t, Kid(t, p, i)) && IsLeaf(t, Kid(t, p, i + 1)) && Right(t, Kid(t, p, i)) == Kid(t, p, i + 1)
    ensures Kid(t, p, i) != Kid(t, p, i + 1)
    ensures var s, l := LeafMerge(t, p, i), Kid(t, p, i);
      && i < |Slots(s, p)| && Kid(s, p, i) == l && Entries(s, l) == Entries(t, l) + Entries(t, Kid(t, p, i + 1))
      && (|Entries(s, l)| > 0 ==> Slots(s, p)[i].sep == Entries(s, l)[|Entries(s, l)| - 1].key)
      && (|Entries(s, l)| == 0 ==> Slots(s, p)[i].sep == Slots(t, p)[i].sep)
  {
    hide Inv, LeafMerge;
    LeafMergePages(t, p, i);
  }

  // ----- the root -----

  /** The root has two children, or one that is a leaf or has two. */
  ghost predicate LeanBelow(t: Tree)
  {
    Lean(t) || var c := Kid(t, t.root, 0); IsLeaf(t, c) || (IsInner(t, c) && |Slots(t, c)| > 0)
  }

  lemma LeafMergeLean(t: Tree, p: Pid, i: nat)
    requires Inv(t) && t.orphans == {} && Lean(t) && IsInner(t, p) && i < |Slots(t, p)|
    requires IsLeaf(t, Kid(t, p, i)) && IsLeaf(t, Kid(t, p, i + 1)) && Right(t, Kid(t, p, i)) == Kid(t, p, i + 1)
    ensures Kid(t, p, i) != Kid(t, p, i + 1)
    ensures if p == t.root then LeanBelow(LeafMerge(t, p, i)) else Lean(LeafMerge(t, p, i))
  {
    hide Inv, LeafMerge;
    LeafMergePages(t, p, i);
  }

  lemma InnerMergeLean(t: Tree, p: Pid, i: nat)
    requires Inv(t) && Lean(t) && IsInner(t, p) && i < |Slots(t, p)|
    requires IsInner(t, Kid(t, p, i)) && IsInner(t, Kid(t, p, i + 1))
    ensures if p == t.root then LeanBelow(MergeInners(t, p, i)) else Lean(MergeInners(t, p, i))
  {
    hide Inv, MergeInners;
    RootIsNoKid(t, p, i);
    RootIsNoKid(t, p, i + 1);
    KidsDiffer(t, p, i);
    MergeInnersPages(t, p, i);
  }

  lemma KidsDiffer(t: Tree, p: Pid, i: nat)
    requires Inv(t) && IsInner(t, p) && i < |Slots(t, p)|
    ensures Kid(t, p, i) != Kid(t, p, i + 1)
  {
    hide Inv;
    if Kid(t, p, i) == Kid(t, p, i + 1) {
      OneEdge(t, p, Kid(t, p, i), i, i + 1);
    }
  }

  lemma RootIsNoKid(t: Tree, p: Pid, i: nat)
    requires Inv(t) && IsInner(t, p) && i <= |Slots(t, p)|
    ensures Kid(t, p, i) != t.root && Kid(t, p, i) != p
  {
    EdgeWithin(t, p, i);
    assert Typed(t);
  }

  lemma CollapseLean(t: Tree)
    requires LeanBelow(t) && IsInner(t, t.root) && Slots(t, t.root) == [] && t.pages[t.root].upper in t.pages
    ensures Lean(Collapse(t))
  {
  }

  // ----- no new empty leaf before the last one -----

  lemma RemoveHollow(t: Tree, z: Pid, es: seq<Entry>)
    requires NoHollow(t) && IsLeaf(t, z) && (|es| > 0 || Right(t, z) == 0)
    ensures NoHollow(WithEntries(t, z, es))
  {
    var s := WithEntries(t, z, es);
    forall y | IsLeaf(s, y) && |Entries(s, y)| == 0
      ensures Right(s, y) == 0
    {
      assert Right(s, y) == Right(t, y) && (y != z ==> Entries(s, y) == Entries(t, y));
    }
  }

  lemma LeafMergeHollow(t: Tree, p: Pid, i: nat)
    requires Inv(t) && t.orphans == {} && NoHollow(t) && IsInner(t, p) && i < |Slots(t, p)|
    requires IsLeaf(t, Kid(t, p, i)) && IsLeaf(t, Kid(t, p, i + 1)) && Right(t, Kid(t, p, i)) == Kid(t, p, i + 1)
    ensures Kid(t, p, i) != Kid(t, p, i + 1) && NoHollow(LeafMerge(t, p, i))
  {
    hide Inv, LeafMerge, ParentAfterLeafMerge;
    LeafMergePages(t, p, i);
    ParentIsInner(t.pages[p], i, Entries(t, Kid(t, p, i)) + Entries(t, Kid(t, p, i + 1)));
    var l, r := Kid(t, p, i), Kid(t, p, i + 1);
    var s := LeafMerge(t, p, i);
    forall y | IsLeaf(s, y) && |Entries(s, y)| == 0
      ensures Right(s, y) == 0
    {
      if y == l {
        assert Entries(s, l) == Entries(t, l) + Entries(t, r) && Right(s, l) == Right(t, r);
      } else {
        assert Entries(s, y) == Entries(t, y) && Right(s, y) == Right(t, y);
      }
    }
  }

  lemma InnerMergeHollow(t: Tree, p: Pid, i: nat)
    requires NoHollow(t) && IsInner(t, p) && i < |Slots(t, p)| && IsInner(t, Kid(t, p, i))
    requires IsInner(t, Kid(t, p, i + 1))
    ensures NoHollow(MergeInners(t, p, i))
  {
    var s := MergeInners(t, p, i);
    forall y | IsLeaf(s, y)
      ensures Entries(s, y) == Entries(t, y) && Right(s, y) == Right(t, y) && IsLeaf(t, y)
    {
    }
  }

  lemma CollapseHollow(t: Tree)
    requires NoHollow(t) && IsInner(t, t.root) && t.pages[t.root].upper in t.pages
    ensures NoHollow(Collapse(t))
  {
    var c := t.pages[t.root].upper;
    var s := Collapse(t);
    forall y | IsLeaf(s, y)
      ensures y != t.root ==> Entries(s, y) == Entries(t, y) && Right(s, y) == Right(t, y) && IsLeaf(t, y)
      ensures y == t.root ==> Entries(s, y) == Entries(t, c) && Right(s, y) == Right(t, c) && IsLeaf(t, c)
    {
    }
  }

  lemma RepairHollow(t: Tree, p: Pid, i: nat, sep: Key)
    requires NoHollow(t) && IsInner(t, p) && i < |Slots(t, p)|
    ensures NoHollow(SetSep(t, p, i, sep))
  {
    var s := SetSep(t, p, i, sep);
    forall y | IsLeaf(s, y)
      ensures Entries(s, y) == Entries(t, y) && Right(s, y) == Right(t, y) && IsLeaf(t, y)
    {
    }
  }

  /** Slot `i` of page `p`. */
  datatype Spot = Spot(p: Pid, i: nat)

  /** The first separator behind `c` going up the path: `c` is not the last child of the page that has it, or it is
      and the separator is the first one behind that page. */
  ghost predicate FirstBehind(t: Tree, path: seq<Pid>, c: Pid, s: Spot)
    decreases |path|
  {
    && |path| > 0
    && var q := path[|path| - 1];
       || (s.p == q && s.i < |Slots(t, q)| && Kid(t, q, s.i) == c)
       || (Kid(t, q, |Slots(t, q)|) == c && FirstBehind(t, path[..|path| - 1], q, s))
  }

  /** The page has room for the new separator, or has it already. */
  ghost predicate RepairFits(t: Tree, s: Spot, sep: Key)
  {
    IsInner(t, s.p) && s.i < |Slots(t, s.p)| && (Slots(t, s.p)[s.i].sep == sep || RewriteFits(t.pages[s.p], s.i, sep))
  }

  /** The separator is now the largest key in front of it, and nothing else has changed. */
  ghost predicate Repaired(t: Tree, t': Tree, s: Spot, sep: Key)
  {
    && IsInner(t, s.p) && s.i < |Slots(t, s.p)|
    && EndsWith(t, Kid(t, s.p, s.i), sep) && t' == SetSep(t, s.p, s.i, sep)
  }

  lemma NoneBehind(t: Tree, path: seq<Pid>, c: Pid)
    requires |path| > 0 ==> var q := path[|path| - 1]; forall j :: 0 <= j <= |Slots(t, q)| ==> Kid(t, q, j) != c
    ensures forall s :: !FirstBehind(t, path, c, s)
  {
  }

  lemma BehindHere(t: Tree, path: seq<Pid>, c: Pid, i: nat)
    requires |path| > 0 && i < |Slots(t, path[|path| - 1])| && Kid(t, path[|path| - 1], i) == c
    ensures FirstBehind(t, path, c, Spot(path[|path| - 1], i))
  {
  }

  lemma BehindAbove(t: Tree, path: seq<Pid>, c: Pid)
    requires |path| > 0
    requires var q := path[|path| - 1];
      Kid(t, q, |Slots(t, q)|) == c && forall j :: 0 <= j < |Slots(t, q)| ==> Kid(t, q, j) != c
    ensures forall s :: FirstBehind(t, path, c, s) <==> FirstBehind(t, path[..|path| - 1], path[|path| - 1], s)
  {
  }

  lemma SameSep(t: Tree, p: Pid, i: nat)
    requires IsInner(t, p) && i < |Slots(t, p)|
    ensures SetSep(t, p, i, Slots(t, p)[i].sep) == t
  {
    var n := t.pages[p];
    assert n.slots[i := n.slots[i]] == n.slots;
    assert t.pages[p := n] == t.pages;
  }

  lemma EndsUp(t: Tree, p: Pid, sep: Key)
    requires Inv(t) && IsInner(t, p) && EndsWith(t, Kid(t, p, |Slots(t, p)|), sep)
    ensures EndsWith(t, p, sep)
  {
    hide Rightmost, KidsUp, RootFirst, Distinct, Nested, Parented, Linked, SortedLeaves, SortedAcross, Routed, Kids,
      Typed;
    RightmostUp(t, p);
  }

  lemma RightmostUp(t: Tree, p: Pid)
    requires Typed(t) && Kids(t) && IsInner(t, p)
    ensures Kid(t, p, |Slots(t, p)|) in t.pages && Rightmost(t, p) == Rightmost(t, Kid(t, p, |Slots(t, p)|))
  {
  }

  lemma EndsAt(t: Tree, z: Pid)
    requires Inv(t) && IsLeaf(t, z) && |Entries(t, z)| > 0
    ensures EndsWith(t, z, Entries(t, z)[|Entries(t, z)| - 1].key)
  {
  }

  // ----- facts about one delete -----

  lemma KidsOf(t: Tree, p: Pid, i: nat)
    requires Inv(t) && IsInner(t, p) && i <= |Slots(t, p)|
    ensures var c := Child(t.pages[p], i);
      && c == Kid(t, p, i) && c in t.pages && Level(t, c) + 1 == Level(t, p)
      && (IsLeaf(t, c) <==> Level(t, p) == 1) && (IsInner(t, c) <==> Level(t, p) != 1)
  {
    EdgeWithin(t, p, i);
    assert Typed(t);
  }

  lemma PathLower(t: Tree, path: seq<Pid>, k: nat, j: nat)
    requires PathOk(t, path, k) && j <= k
    ensures PathOk(t, path, j)
  {
  }

  /** Routing ends at `z`: the search is stranded exactly if `z` is empty and has a right sibling. */
  lemma StrandedMeans(t: Tree, key: Key, z: Pid)
    requires Inv(t) && IsLeaf(t, z) && z == InvRouteLeaf(t, key)
    ensures Stranded(t, key) <==> ChaseRight(t.pages[z], key) && |Entries(t, z)| == 0
  {
  }

  /** Where a delete looks: at the leaf where the search stops, or at an empty one. */
  lemma DeletePosition(t: Tree, z: Pid, key: Key, m: map<Key, Value>)
    requires Inv(t) && Stores(t, m) && IsLeaf(t, z) && Standing(t, z, key)
    requires !ChaseRight(t.pages[z], key) || |Entries(t, z)| == 0
    ensures var (pos, exact) := LowerBound(EntryKeys(t.pages[z].entries), key);
      && (exact <==> key in m && !ChaseRight(t.pages[z], key))
      && (exact ==> pos < |Entries(t, z)| && Entries(t, z)[pos].key == key)
  {
    hide LowerBound;
    if !ChaseRight(t.pages[z], key) {
      EntriesSorted(t, z);
      BoundMeans(t.pages[z].entries, key);
      StopAnswers(t, z, key, m);
    } else {
      EmptyBound(t.pages[z].entries, key);
    }
  }

  lemma EmptyBound(es: seq<Entry>, key: Key)
    requires |es| == 0
    ensures LowerBound(EntryKeys(es), key) == (0, false)
  {
    BoundIs(es, key, 0);
  }

  lemma LeafPathKept(t: Tree, z: Pid, es: seq<Entry>, path: seq<Pid>)
    requires IsLeaf(t, z) && PathOk(t, path, 0)
    ensures PathOk(WithEntries(t, z, es), path, 0)
  {
    PathKept(t, WithEntries(t, z, es), path, 0);
  }

  lemma LastKeySmall(pages: map<Pid, Node>, z: Pid, w: Limits)
    requires z in pages && pages[z].Leaf? && |pages[z].entries| > 0
    ensures AllSmall(pages, w) ==> SmallSep(pages[z].entries[|pages[z].entries| - 1].key, w)
  {
    if AllSmall(pages, w) {
      assert SmallNode(pages[z], w);
    }
  }

  // ----- keys of one length -----

  /** A separator can always be replaced by one of the same length. */
  lemma SameWidthFits(pages: map<Pid, Node>, p: Pid, i: nat, sep: Key, w: Limits)
    requires AllFit(pages) && p in pages && pages[p].Inner? && i < |pages[p].slots|
    ensures AllSmall(pages, w) && SmallSep(sep, w) && w.width > 0 ==> RewriteFits(pages[p], i, sep)
  {
    hide InnerCost;
    PageAt(pages, p, w);
  }

  lemma RewriteSameWidth(pages: map<Pid, Node>, p: Pid, i: nat, ss: seq<Slot>, w: Limits)
    requires AllFit(pages) && p in pages && pages[p].Inner? && pages[p].slots == ss && i < |ss|
    ensures AllSmall(pages, w) && w.width > 0 && i + 1 < |ss| ==> RewriteFits(pages[p], i, ss[i + 1].sep)
  {
    hide InnerCost, RewriteFits;
    if AllSmall(pages, w) && w.width > 0 && i + 1 < |ss| {
      PageAt(pages, p, w);
      SameWidthFits(pages, p, i, ss[i + 1].sep, w);
    }
  }

  lemma MergedSameWidth(pages: map<Pid, Node>, p: Pid, i: nat, l: Pid, r: Pid, w: Limits)
    requires AllFit(pages) && p in pages && pages[p].Inner? && i < |pages[p].slots|
    requires l in pages && r in pages && pages[l].Leaf? && pages[r].Leaf?
    ensures AllSmall(pages, w) && w.width > 0 ==>
      RewriteFits(pages[p], i, MergedSep(pages[p], i, pages[l].entries + pages[r].entries))
  {
    hide InnerCost, RewriteFits, LeafCost;
    if AllSmall(pages, w) && w.width > 0 {
      PageAt(pages, p, w);
      PageAt(pages, l, w);
      PageAt(pages, r, w);
      var merged := pages[l].entries + pages[r].entries;
      if |merged| > 0 {
        assert merged[|merged| - 1] in pages[l].entries || merged[|merged| - 1] in pages[r].entries;
      }
      SameWidthFits(pages, p, i, MergedSep(pages[p], i, merged), w);
    }
  }
}
