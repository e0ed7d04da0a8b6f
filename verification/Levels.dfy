/**
 What a change to the upper levels of the tree leaves alone below, and what it costs in space.
 */
module Levels {
  import opened Keys
  import opened Pages
  import opened Trees
  import opened EdgeSteps
  import opened InnerSteps
  import opened RootSteps
  import opened Splits
  import opened Search

  /** Everything up to level `k` is the same in both trees. */
  ghost predicate SameUpTo(t: Tree, t': Tree, k: nat)
  {
    && (forall q :: q in t.pages && Level(t, q) <= k ==>
          q in t'.pages && t'.pages[q] == t.pages[q] && Lo(t', q) == Lo(t, q) && Level(t', q) == Level(t, q))
    && (forall q :: q in t'.pages && Level(t', q) <= k ==> q in t.pages && Level(t, q) <= k)
  }

  lemma SameUpToTrans(a: Tree, b: Tree, c: Tree, k: nat, j: nat)
    requires SameUpTo(a, b, k) && SameUpTo(b, c, j) && k <= j
    ensures SameUpTo(a, c, k)
  {
  }

  lemma SameUpToNext(t: Tree, t': Tree, k: nat, l: Pid, r: Pid)
    requires SameUpTo(t, t', k) && NextAt(t, l, r) && Level(t, l) <= k
    ensures NextAt(t', l, r)
  {
  }

  lemma SameUpToLeaves(t: Tree, t': Tree, k: nat)
    requires SameUpTo(t, t', k) && Typed(t) && Typed(t')
    ensures forall z :: IsLeaf(t, z) <==> IsLeaf(t', z)
    ensures forall z :: Entries(t, z) == Entries(t', z)
    ensures forall z :: Right(t, z) == Right(t', z)
    ensures forall z :: IsLeaf(t, z) ==> Lo(t, z) == Lo(t', z)
  {
    forall z
      ensures IsLeaf(t, z) <==> IsLeaf(t', z)
      ensures IsLeaf(t, z) ==> t'.pages[z] == t.pages[z] && Lo(t, z) == Lo(t', z)
    {
      if IsLeaf(t, z) {
        assert Level(t, z) == 0;
      }
      if IsLeaf(t', z) {
        assert Level(t', z) == 0;
      }
    }
  }

  lemma SameUpToBelow(t: Tree, t': Tree, k: nat, bound: real, x: real)
    requires SameUpTo(t, t', k) && Typed(t) && Typed(t')
    ensures AllBelow(t, bound, x) ==> AllBelow(t', bound, x)
    ensures AtMost(t, bound, x) ==> AtMost(t', bound, x)
  {
    SameUpToLeaves(t, t', k);
    forall z, j | Lo(t', z) < bound && 0 <= j < |Entries(t', z)|
      ensures AllBelow(t, bound, x) ==> Num(Entries(t', z)[j].key) < x
      ensures AtMost(t, bound, x) ==> Num(Entries(t', z)[j].key) <= x
    {
      assert IsLeaf(t, z) && Lo(t, z) == Lo(t', z);
    }
  }

  lemma SameUpToSep(t: Tree, t': Tree, k: nat, sep: Key, bound: real)
    requires SameUpTo(t, t', k) && Typed(t) && Typed(t') && SepOk(t, sep, bound)
    ensures SepOk(t', sep, bound)
  {
    SameUpToLeaves(t, t', k);
    SameUpToBelow(t, t', k, bound, Num(sep));
    forall y | IsLeaf(t', y) && Lo(t', y) < bound
      ensures AllBelow(t', Lo(t', y), Num(sep))
    {
      assert IsLeaf(t, y) && AllBelow(t, Lo(t, y), Num(sep));
      SameUpToBelow(t, t', k, Lo(t, y), Num(sep));
    }
  }

  lemma SameUpToCount(t: Tree, t': Tree, k: nat)
    requires SameUpTo(t, t', k)
    ensures PagesAt(t, k) == PagesAt(t', k)
  {
  }

  lemma SameUpToEdge(t: Tree, t': Tree, k: nat, p: Pid, i: nat, c: Pid)
    requires SameUpTo(t, t', k) && Edge(t, p, i, c) && Level(t, p) <= k
    ensures Edge(t', p, i, c) && Slots(t', p) == Slots(t, p)
  {
  }

  lemma PublishAbove(t: Tree, p: Pid, i: nat, sep: Key, r: Pid, k: nat)
    requires IsInner(t, p) && i <= |Slots(t, p)| && k < Level(t, p)
    ensures SameUpTo(t, Publish(t, p, i, sep, r), k)
  {
  }

  lemma SplitInnerAbove(t: Tree, p: Pid, r: Pid, h: nat, k: nat)
    requires IsInner(t, p) && h < |Slots(t, p)| && k < Level(t, p) && r !in t.pages
    ensures SameUpTo(t, SplitInner(t, p, r, h), k)
  {
  }

  /** Both halves keep their edges. */
  lemma SplitInnerEdge(t: Tree, p: Pid, r: Pid, h: nat, i: nat, c: Pid)
    requires IsInner(t, p) && h < |Slots(t, p)| && r !in t.pages && Edge(t, p, i, c)
    ensures var s := SplitInner(t, p, r, h);
      && |Slots(s, p)| == h && |Slots(s, r)| == |Slots(t, p)| - h - 1
      && if i <= h then Edge(s, p, i, c) else Edge(s, r, i - h - 1, c)
  {
  }

  lemma RootInnerSplitPages(t: Tree, l: Pid, r: Pid, h: nat)
    requires IsInner(t, t.root) && h < |Slots(t, t.root)| && l != t.root && r != t.root && l != r
    ensures var n := t.pages[t.root];
      RootInnerSplit(t, l, r, h).pages ==
        t.pages[l := LowerHalf(n, h)][r := UpperHalf(n, h)][t.root := Inner([Slot(n.slots[h].sep, l)], r)]
    ensures RootInnerSplit(t, l, r, h).root == t.root
    ensures Level(RootInnerSplit(t, l, r, h), t.root) == Level(t, t.root) + 1
    ensures Level(RootInnerSplit(t, l, r, h), l) == Level(t, t.root)
    ensures Level(RootInnerSplit(t, l, r, h), r) == Level(t, t.root)
    ensures forall q :: q != l && q != r && q != t.root ==>
      Level(RootInnerSplit(t, l, r, h), q) == Level(t, q) && Lo(RootInnerSplit(t, l, r, h), q) == Lo(t, q)
  {
    var g := Grow(t, l);
    var s := SplitInner(g, l, r, h);
    assert g.pages[l] == t.pages[t.root];
    assert s.pages[t.root] == Inner([], l);
    assert InsertEdge(Inner([], l), 0, t.pages[t.root].slots[h].sep, r).slots ==
      [Slot(t.pages[t.root].slots[h].sep, l)];
  }

  lemma RootInnerSplitAbove(t: Tree, l: Pid, r: Pid, h: nat, k: nat)
    requires IsInner(t, t.root) && h < |Slots(t, t.root)| && l != t.root && r != t.root && l != r
    requires l !in t.pages && r !in t.pages && k < Level(t, t.root)
    ensures SameUpTo(t, RootInnerSplit(t, l, r, h), k)
  {
    RootInnerSplitPages(t, l, r, h);
  }

  lemma RootInnerSplitEdge(t: Tree, l: Pid, r: Pid, h: nat, i: nat, c: Pid)
    requires IsInner(t, t.root) && h < |Slots(t, t.root)| && l != t.root && r != t.root && l != r
    requires Edge(t, t.root, i, c)
    ensures var s := RootInnerSplit(t, l, r, h);
      && |Slots(s, l)| == h && |Slots(s, r)| == |Slots(t, t.root)| - h - 1
      && if i <= h then Edge(s, l, i, c) else Edge(s, r, i - h - 1, c)
  {
    RootInnerSplitPages(t, l, r, h);
  }

  // ----- space -----

  predicate AllFit(pages: map<Pid, Node>)
  {
    forall p :: p in pages ==> Fits(pages[p])
  }

  /** What is known of the entries: the length all keys have, or 0 if it varies, and whether each takes at most half
      a leaf. */
  datatype Limits = Limits(width: nat, light: bool)

  /** A key that takes at most a third of an inner node and, if the width is not 0, has that length. */
  predicate SmallSep(key: Key, w: Limits)
  {
    3 * SeparatorCost(key) <= INNER_CAPACITY && (w.width == 0 || |key| == w.width)
  }

  /** An entry with a small key that takes at most half a leaf, if entries are light. */
  predicate SmallEntry(e: Entry, w: Limits)
  {
    (w.light ==> 2 * EntryCost(e) <= LEAF_CAPACITY) && SmallSep(e.key, w)
  }

  predicate SmallNode(n: Node, w: Limits)
  {
    match n
    case Leaf(es, _, _) => forall i :: 0 <= i < |es| ==> SmallEntry(es[i], w)
    case Inner(ss, _) => forall i :: 0 <= i < |ss| ==> SmallSep(ss[i].sep, w)
  }

  predicate AllSmall(pages: map<Pid, Node>, w: Limits)
  {
    forall p :: p in pages ==> SmallNode(pages[p], w)
  }

  lemma SlotCost(s: Slot)
    ensures InnerCost([s]) == SeparatorCost(s.sep)
  {
    assert InnerCost([s]) == SeparatorCost(s.sep) + InnerCost([s][1..]);
  }

  lemma CutSlots(ss: seq<Slot>, k: nat)
    requires k <= |ss|
    ensures InnerCost(ss[..k]) + InnerCost(ss[k..]) == InnerCost(ss)
  {
    assert ss == ss[..k] + ss[k..];
    InnerCostConcat(ss[..k], ss[k..]);
  }

  lemma SlotSplit(ss: seq<Slot>, k: nat)
    requires k < |ss|
    ensures InnerCost(ss) == InnerCost(ss[..k]) + SeparatorCost(ss[k].sep) + InnerCost(ss[k + 1..])
  {
    CutSlots(ss, k);
    CutSlots(ss[k..], 1);
    assert ss[k..][..1] == [ss[k]] && ss[k..][1..] == ss[k + 1..];
    SlotCost(ss[k]);
  }

  lemma InsertEdgeCost(n: Node, i: nat, sep: Key, r: Pid)
    requires n.Inner? && i <= |n.slots|
    ensures InnerCost(InsertEdge(n, i, sep, r).slots) == InnerCost(n.slots) + SeparatorCost(sep)
  {
    var ss := n.slots;
    if i < |ss| {
      var a, b := Slot(sep, ss[i].child), Slot(ss[i].sep, r);
      SlotSplit(ss, i);
      InnerCostConcat(ss[..i] + [a, b], ss[i + 1..]);
      InnerCostConcat(ss[..i], [a, b]);
      assert [a, b] == [a] + [b];
      InnerCostConcat([a], [b]);
      SlotCost(a);
      SlotCost(b);
    } else {
      InnerCostConcat(ss, [Slot(sep, n.upper)]);
      SlotCost(Slot(sep, n.upper));
    }
  }

  lemma HalvesFit(n: Node, h: nat)
    requires n.Inner? && h < |n.slots| && Fits(n)
    ensures Fits(LowerHalf(n, h)) && Fits(UpperHalf(n, h))
  {
    SlotSplit(n.slots, h);
  }

  /** A node that cannot take another small separator has at least three. */
  lemma {:induction false} FullHasMany(ss: seq<Slot>, w: Limits)
    requires forall i :: 0 <= i < |ss| ==> SmallSep(ss[i].sep, w)
    ensures 3 * InnerCost(ss) <= |ss| * INNER_CAPACITY
  {
    if |ss| > 0 {
      FullHasMany(ss[1..], w);
    }
  }

  // ----- accounting for page writes -----

  /** One page write keeps all pages within their space if the new page is. */
  lemma PutPage(pages: map<Pid, Node>, p: Pid, n: Node, w: Limits)
    requires AllFit(pages) && Fits(n)
    ensures AllFit(pages[p := n]) && |pages[p := n]| == |pages| + if p in pages then 0 else 1
    ensures AllSmall(pages, w) && SmallNode(n, w) ==> AllSmall(pages[p := n], w)
  {
    assert pages[p := n].Keys == pages.Keys + {p};
  }

  lemma DropPage(pages: map<Pid, Node>, p: Pid, w: Limits)
    requires AllFit(pages) && p in pages
    ensures AllFit(pages - {p}) && |pages - {p}| == |pages| - 1
    ensures AllSmall(pages, w) ==> AllSmall(pages - {p}, w)
  {
    assert (pages - {p}).Keys == pages.Keys - {p};
  }

  lemma PageAt(pages: map<Pid, Node>, p: Pid, w: Limits)
    requires AllFit(pages) && p in pages
    ensures Fits(pages[p]) && (AllSmall(pages, w) ==> SmallNode(pages[p], w))
  {
  }

  lemma HalvesSmall(n: Node, h: nat, w: Limits)
    requires n.Inner? && h < |n.slots| && SmallNode(n, w)
    ensures SmallNode(LowerHalf(n, h), w) && SmallNode(UpperHalf(n, h), w)
  {
  }
}
