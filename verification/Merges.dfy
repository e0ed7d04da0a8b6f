/**
 Merging two neighbouring children of one parent, as one change of the tree.
 */
module Merges {
  import opened Keys
  import opened Pages
  import opened Trees
  import opened SplitSteps
  import opened EdgeSteps
  import opened InnerSteps
  import opened SeparatorBounds
  import opened LeftLinks

  /** The leaf that replaces leaves `a` and `b`. */
  function MergedLeaf(a: Node, b: Node): Node
    requires a.Leaf? && b.Leaf?
  {
    Leaf(a.entries + b.entries, a.left, b.right)
  }

  /** The separator a leaf merge leaves at slot `i`: the merged maximum, or the old one if nothing is left. */
  function MergedSep(n: Node, i: nat, merged: seq<Entry>): Key
    requires n.Inner? && i < |n.slots|
  {
    if |merged| > 0 then merged[|merged| - 1].key else n.slots[i].sep
  }

  /** The parent after merging the leaves at edges `i` and `i + 1`. */
  function ParentAfterLeafMerge(n: Node, i: nat, merged: seq<Entry>): Node
    requires n.Inner? && i < |n.slots|
  {
    if i + 1 < |n.slots| then
      Inner(n.slots[..i] + [Slot(MergedSep(n, i, merged), n.slots[i].child)] + n.slots[i + 2..], n.upper)
    else
      Inner(n.slots[..i], n.slots[i].child)
  }

  /** The tree after merging the leaves at edges `i` and `i + 1` of `p`. */
  ghost function MergeLeaves(t: Tree, p: Pid, i: nat): Tree
    requires IsInner(t, p) && i < |Slots(t, p)| && IsLeaf(t, Kid(t, p, i)) && IsLeaf(t, Kid(t, p, i + 1))
    requires Kid(t, p, i) != Kid(t, p, i + 1)
  {
    var l, r := Kid(t, p, i), Kid(t, p, i + 1);
    var u := JoinLeaf(Unpublish(t, p, i), l, r);
    if i + 1 < |Slots(t, p)| then SetSep(u, p, i, MergedSep(t.pages[p], i, Entries(u, l))) else u
  }

  lemma MergeLeavesPages(t: Tree, p: Pid, i: nat)
    requires IsInner(t, p) && i < |Slots(t, p)| && IsLeaf(t, Kid(t, p, i)) && IsLeaf(t, Kid(t, p, i + 1))
    requires Kid(t, p, i) != Kid(t, p, i + 1)
    ensures var l, r := Kid(t, p, i), Kid(t, p, i + 1);
      var merged := Entries(t, l) + Entries(t, r);
      MergeLeaves(t, p, i).pages ==
        t.pages[l := MergedLeaf(t.pages[l], t.pages[r])][p := ParentAfterLeafMerge(t.pages[p], i, merged)] - {r}
    ensures MergeLeaves(t, p, i).root == t.root
    ensures MergeLeaves(t, p, i).orphans == t.orphans - {Kid(t, p, i + 1)}
    ensures forall q :: q != Kid(t, p, i + 1) ==>
      Level(MergeLeaves(t, p, i), q) == Level(t, q) && Lo(MergeLeaves(t, p, i), q) == Lo(t, q)
  {
    var l, r := Kid(t, p, i), Kid(t, p, i + 1);
    var n := t.pages[p];
    var v := Unpublish(t, p, i);
    var u := JoinLeaf(v, l, r);
    assert v.pages[l] == t.pages[l] && v.pages[r] == t.pages[r];
    assert u.pages == t.pages[p := RemoveEdge(n, i)][l := MergedLeaf(t.pages[l], t.pages[r])] - {r};
    if i + 1 < |n.slots| {
      var sep := MergedSep(n, i, Entries(t, l) + Entries(t, r));
      var n' := RemoveEdge(n, i);
      assert n'.(slots := n'.slots[i := n'.slots[i].(sep := sep)]) ==
             ParentAfterLeafMerge(n, i, Entries(t, l) + Entries(t, r));
    }
  }

  lemma SameLeavesBack(u: Tree, s: Tree)
    requires SameLeaves(u, s)
    ensures SameLeaves(s, u)
  {
  }

  /** `v` is `t` with the right child of an adjacent pair taken out; `u` is `v` with that leaf joined in. */
  ghost predicate PairJoined(t: Tree, v: Tree, u: Tree, p: Pid, i: nat, l: Pid, r: Pid)
  {
    && IsInner(t, p) && i < |Slots(t, p)| && Kid(t, p, i) == l && Kid(t, p, i + 1) == r
    && IsLeaf(t, l) && IsLeaf(t, r) && l != r
    && SameLeaves(t, v) && EdgeAdded(v, t, p, i, r) && LeafHalves(u, v, l, r)
  }

  /** Taking the right leaf out and joining it keeps the invariant and the stored map. */
  lemma JoinedPair(t: Tree, p: Pid, i: nat, m: map<Key, Value>)
    requires Inv(t) && t.orphans == {} && IsInner(t, p) && i < |Slots(t, p)| && Stores(t, m)
    requires IsLeaf(t, Kid(t, p, i)) && IsLeaf(t, Kid(t, p, i + 1)) && Right(t, Kid(t, p, i)) == Kid(t, p, i + 1)
    ensures Kid(t, p, i) != Kid(t, p, i + 1)
    ensures var v := Unpublish(t, p, i);
      var u := JoinLeaf(v, Kid(t, p, i), Kid(t, p, i + 1));
      && Inv(v) && Inv(u) && Stores(u, m)
      && PairJoined(t, v, u, p, i, Kid(t, p, i), Kid(t, p, i + 1))
  {
    var l, r := Kid(t, p, i), Kid(t, p, i + 1);
    LinkedAt(t, l);
    var v := Unpublish(t, p, i);
    UnpublishKeeps(t, p, i);
    UnpublishRemoves(t, p, i);
    SameLeavesBack(v, t);
    SameLeavesStore(t, v, m);
    JoinLeafKeeps(v, l, r);
    SplitSteps.HalvesStore(JoinLeaf(v, l, r), v, l, r, m);
  }

  /** The next edge of the parent names the leaf right behind the pair. */
  lemma BehindPair(t: Tree, p: Pid, i: nat, r: Pid)
    requires Shaped(t) && t.orphans == {} && IsInner(t, p) && i + 1 < |Slots(t, p)|
    requires Kid(t, p, i + 1) == r && IsLeaf(t, r)
    ensures var c := Kid(t, p, i + 2);
      && IsLeaf(t, c) && Lo(t, r) < Lo(t, c) && Lo(t, Kid(t, p, i)) < Lo(t, c)
      && (forall z :: IsLeaf(t, z) && Lo(t, r) < Lo(t, z) ==> Lo(t, c) <= Lo(t, z))
  {
    KidsAreNext(t, p, i + 1);
    assert Lo(t, Kid(t, p, i)) < Lo(t, Kid(t, p, i + 2));
  }

  lemma JoinedEdge(t: Tree, v: Tree, u: Tree, p: Pid, i: nat, l: Pid, r: Pid, c: Pid)
    requires PairJoined(t, v, u, p, i, l, r) && i + 1 < |Slots(t, p)|
    requires c == Kid(t, p, i + 2) && IsLeaf(t, c) && c != r
    ensures IsLeaf(u, c) && Lo(u, c) == Lo(t, c) && Lo(v, c) == Lo(t, c) && Lo(u, l) == Lo(t, l)
    ensures IsInner(u, p) && i < |Slots(u, p)| && Kid(u, p, i + 1) == c
  {
    assert Kid(t, p, (i + 1) + 1) == Kid(v, p, i + 1);
  }

  /** What lies behind the joined leaf. */
  lemma BehindJoined(t: Tree, v: Tree, u: Tree, p: Pid, i: nat, l: Pid, r: Pid)
    requires Shaped(t) && t.orphans == {} && PairJoined(t, v, u, p, i, l, r) && i + 1 < |Slots(t, p)|
    requires Right(t, l) == r
    ensures var c := Kid(t, p, i + 2);
      && IsLeaf(u, c) && IsLeaf(t, c) && c != r && Lo(u, c) == Lo(t, c) && Lo(v, c) == Lo(t, c)
      && Lo(u, l) == Lo(t, l) < Lo(t, c)
      && IsInner(u, p) && i < |Slots(u, p)| && Kid(u, p, i + 1) == c
      && (forall z :: IsLeaf(t, z) && Lo(t, r) < Lo(t, z) ==> Lo(t, c) <= Lo(t, z))
      && (forall z :: IsLeaf(u, z) && Lo(u, l) < Lo(u, z) ==> Lo(t, c) <= Lo(u, z))
  {
    hide Kids, KidsUp, RootFirst, Nested, Parented, EdgeAdded;
    var c := Kid(t, p, i + 2);
    BehindPair(t, p, i, r);
    JoinedEdge(t, v, u, p, i, l, r, c);
    LinkedAt(t, l);
    forall z | IsLeaf(u, z) && Lo(u, l) < Lo(u, z)
      ensures Lo(t, c) <= Lo(u, z)
    {
      assert IsLeaf(t, z) && z != r && Lo(t, r) <= Lo(t, z);
      assert Lo(t, z) != Lo(t, r);
    }
  }

  /** The separator a leaf merge writes is valid behind the merged leaf. */
  lemma MergedSepOk(t: Tree, v: Tree, u: Tree, p: Pid, i: nat, l: Pid, r: Pid)
    requires Inv(t) && Inv(v) && Inv(u) && t.orphans == {} && PairJoined(t, v, u, p, i, l, r)
    requires i + 1 < |Slots(t, p)| && Right(t, l) == r
    ensures SepOk(u, MergedSep(t.pages[p], i, Entries(u, l)), Lo(t, Kid(t, p, i + 2)))
  {
    hide Kids, KidsUp, Nested, Parented, Routed, RootFirst, EdgeAdded;
    var c := Kid(t, p, i + 2);
    BehindJoined(t, v, u, p, i, l, r);
    if |Entries(u, l)| > 0 {
      LastKeySeparates(u, l, Lo(t, c));
    } else {
      EmptyMergeSep(t, p, i, c);
      SameLeavesSep(t, v, Slots(t, p)[i].sep, Lo(t, c));
      LinkedAt(v, l);
      JoinedSep(u, v, l, r, Slots(t, p)[i].sep, c);
    }
  }

  lemma EmptyMergeSep(t: Tree, p: Pid, i: nat, c: Pid)
    requires Inv(t) && IsInner(t, p) && i + 1 < |Slots(t, p)|
    requires IsLeaf(t, Kid(t, p, i)) && IsLeaf(t, Kid(t, p, i + 1)) && Right(t, Kid(t, p, i)) == Kid(t, p, i + 1)
    requires |Entries(t, Kid(t, p, i))| == 0 && |Entries(t, Kid(t, p, i + 1))| == 0
    requires forall z :: IsLeaf(t, z) && Lo(t, Kid(t, p, i + 1)) < Lo(t, z) ==> Lo(t, c) <= Lo(t, z)
    ensures SepOk(t, Slots(t, p)[i].sep, Lo(t, c))
  {
    var l, r := Kid(t, p, i), Kid(t, p, i + 1);
    assert SepOk(t, Slots(t, p)[i].sep, Lo(t, r));
    LinkedAt(t, l);
    EmptyPairSeparates(t, Slots(t, p)[i].sep, l, r, Lo(t, c));
  }

  /** Merging two neighbouring leaves keeps the invariant, the stored map and, once the successor is
      relinked, the left links. */
  lemma MergeLeavesKeeps(t: Tree, p: Pid, i: nat, m: map<Key, Value>)
    requires Inv(t) && t.orphans == {} && LeftLinked(t) && Stores(t, m) && IsInner(t, p) && i < |Slots(t, p)|
    requires IsLeaf(t, Kid(t, p, i)) && IsLeaf(t, Kid(t, p, i + 1)) && Right(t, Kid(t, p, i)) == Kid(t, p, i + 1)
    ensures Kid(t, p, i) != Kid(t, p, i + 1)
    ensures var u := MergeLeaves(t, p, i);
      Inv(u) && Stores(u, m) && LeftLinkedBut(u, Right(t, Kid(t, p, i + 1)))
  {
    hide Typed, Kids, KidsUp, RootFirst, Distinct, Nested, Parented, Linked, SortedLeaves, SortedAcross, Routed,
      LeafHalves, EdgeAdded, LeftLinked, LeftLinkedBut;
    var l, r := Kid(t, p, i), Kid(t, p, i + 1);
    var v := Unpublish(t, p, i);
    JoinedPair(t, p, i, m);
    assert forall z :: Left(v, z) == Left(t, z);
    SameLeavesLeft(t, v);
    JoinLeft(v, l, r);
    if i + 1 < |Slots(t, p)| {
      MergeSetsSep(t, v, JoinLeaf(v, l, r), p, i, l, r, m);
    }
  }

  lemma MergeSetsSep(t: Tree, v: Tree, u: Tree, p: Pid, i: nat, l: Pid, r: Pid, m: map<Key, Value>)
    requires Inv(t) && Inv(v) && Inv(u) && t.orphans == {} && PairJoined(t, v, u, p, i, l, r)
    requires i + 1 < |Slots(t, p)| && Right(t, l) == r && Stores(u, m) && LeftLinkedBut(u, Right(t, r))
    ensures IsInner(u, p) && i < |Slots(u, p)|
    ensures var s := SetSep(u, p, i, MergedSep(t.pages[p], i, Entries(u, l)));
      Inv(s) && Stores(s, m) && LeftLinkedBut(s, Right(t, r))
  {
    hide SepOk, Typed, Kids, KidsUp, RootFirst, Distinct, Nested, Parented, Linked, SortedLeaves, SortedAcross, Routed;
    var sep := MergedSep(t.pages[p], i, Entries(u, l));
    MergedSepOk(t, v, u, p, i, l, r);
    BehindJoined(t, v, u, p, i, l, r);
    SetSepKeeps(u, p, i, sep);
    SetSepChanges(u, p, i, sep);
    SameLeavesStore(u, SetSep(u, p, i, sep), m);
    SetSepLeft(u, p, i, sep, Right(t, r));
  }

  lemma SetSepLeft(t: Tree, p: Pid, i: nat, sep: Key, x: Pid)
    requires IsInner(t, p) && i < |Slots(t, p)| && LeftLinkedBut(t, x)
    ensures LeftLinkedBut(SetSep(t, p, i, sep), x)
  {
    var t' := SetSep(t, p, i, sep);
    SetSepChanges(t, p, i, sep);
    assert forall z :: Left(t', z) == Left(t, z);
    forall z | IsLeaf(t', z) && z != x
      ensures LeftOk(t', z)
    {
      assert LeftOk(t, z);
    }
  }

  // ----- inner nodes -----

  /** The tree after merging the inner nodes at edges `i` and `i + 1` of `p`. */
  ghost function MergeInners(t: Tree, p: Pid, i: nat): Tree
    requires IsInner(t, p) && i < |Slots(t, p)| && IsInner(t, Kid(t, p, i)) && IsInner(t, Kid(t, p, i + 1))
  {
    JoinInner(Unpublish(t, p, i), Kid(t, p, i), Kid(t, p, i + 1), Slots(t, p)[i].sep)
  }

  lemma MergeInnersPages(t: Tree, p: Pid, i: nat)
    requires IsInner(t, p) && i < |Slots(t, p)| && IsInner(t, Kid(t, p, i)) && IsInner(t, Kid(t, p, i + 1))
    requires p != Kid(t, p, i) && p != Kid(t, p, i + 1)
    ensures var l, r := Kid(t, p, i), Kid(t, p, i + 1);
      MergeInners(t, p, i).pages ==
        t.pages[l := MergedInner(t.pages[l], Slots(t, p)[i].sep, t.pages[r])][p := RemoveEdge(t.pages[p], i)] - {r}
    ensures MergeInners(t, p, i).root == t.root
    ensures MergeInners(t, p, i).orphans == t.orphans - {Kid(t, p, i + 1)}
    ensures forall q :: q != Kid(t, p, i + 1) ==> Level(MergeInners(t, p, i), q) == Level(t, q)
  {
    var l, r := Kid(t, p, i), Kid(t, p, i + 1);
    var v := Unpublish(t, p, i);
    assert v.pages[l] == t.pages[l] && v.pages[r] == t.pages[r];
  }

  /** Merging two neighbouring inner nodes keeps the invariant, the stored map and the left links. */
  lemma MergeInnersKeeps(t: Tree, p: Pid, i: nat, m: map<Key, Value>)
    requires Inv(t) && t.orphans == {} && Stores(t, m) && IsInner(t, p) && i < |Slots(t, p)|
    requires IsInner(t, Kid(t, p, i)) && IsInner(t, Kid(t, p, i + 1))
    ensures p != Kid(t, p, i) && p != Kid(t, p, i + 1) && Kid(t, p, i) != Kid(t, p, i + 1)
    ensures Inv(MergeInners(t, p, i)) && Stores(MergeInners(t, p, i), m)
    ensures LeftLinked(t) ==> LeftLinked(MergeInners(t, p, i))
  {
    var l, r := Kid(t, p, i), Kid(t, p, i + 1);
    var v := Unpublish(t, p, i);
    EdgeWithin(t, p, i);
    EdgeWithin(t, p, i + 1);
    InnersTakenOut(t, v, p, i, l, r, m);
    JoinInnerKeeps(v, l, r, Slots(t, p)[i].sep);
    var u := JoinInner(v, l, r, Slots(t, p)[i].sep);
    InnerSteps.HalvesStore(u, v, l, r, |Slots(v, l)|, m);
    if LeftLinked(t) {
      MergeInnersLeft(t, p, i);
    }
  }

  lemma InnersTakenOut(t: Tree, v: Tree, p: Pid, i: nat, l: Pid, r: Pid, m: map<Key, Value>)
    requires Inv(t) && t.orphans == {} && Stores(t, m) && IsInner(t, p) && i < |Slots(t, p)|
    requires l == Kid(t, p, i) && r == Kid(t, p, i + 1) && IsInner(t, l) && IsInner(t, r)
    requires v == Unpublish(t, p, i)
    ensures Inv(v) && Stores(v, m) && NextAt(v, l, r) && r in v.orphans && IsInner(v, l) && IsInner(v, r)
    ensures l != r && SepOk(v, Slots(t, p)[i].sep, Lo(v, r))
  {
    hide SepOk, Typed, Kids, KidsUp, RootFirst, Distinct, Nested, Parented, Linked, SortedLeaves, SortedAcross;
    KidsAreNext(t, p, i);
    assert SepOk(t, Slots(t, p)[i].sep, Lo(t, r));
    UnpublishFacts(t, p, i);
    UnpublishKeeps(t, p, i);
    UnpublishRemoves(t, p, i);
    SameLeavesBack(v, t);
    SameLeavesStore(t, v, m);
    SameLeavesSep(t, v, Slots(t, p)[i].sep, Lo(t, r));
  }

  lemma MergeInnersLeft(t: Tree, p: Pid, i: nat)
    requires LeftLinked(t) && IsInner(t, p) && i < |Slots(t, p)|
    requires IsInner(t, Kid(t, p, i)) && IsInner(t, Kid(t, p, i + 1)) && p != Kid(t, p, i) && p != Kid(t, p, i + 1)
    ensures LeftLinked(MergeInners(t, p, i))
  {
    var u := MergeInners(t, p, i);
    assert forall z :: IsLeaf(u, z) <==> IsLeaf(t, z);
    assert forall z :: IsLeaf(t, z) ==> Left(u, z) == Left(t, z) && Right(u, z) == Right(t, z) && Lo(u, z) == Lo(t, z);
    forall z | IsLeaf(u, z)
      ensures LeftOk(u, z)
    {
      assert LeftOk(t, z);
    }
  }
}
