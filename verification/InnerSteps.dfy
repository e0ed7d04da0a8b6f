/**
 Splitting an inner node in two around a promoted separator, and its inverse.
 */
module InnerSteps {
  import opened Keys
  import opened Pages
  import opened Trees
  import opened EdgeSteps

  /** The left half keeps slots `[..k]`; its upper child is the child of slot `k`, whose separator is promoted. */
  function LowerHalf(n: Node, k: nat): Node
    requires n.Inner? && k < |n.slots|
  {
    Inner(n.slots[..k], n.slots[k].child)
  }

  function UpperHalf(n: Node, k: nat): Node
    requires n.Inner? && k < |n.slots|
  {
    Inner(n.slots[k + 1..], n.upper)
  }

  function MergedInner(a: Node, boundary: Key, b: Node): Node
    requires a.Inner? && b.Inner?
  {
    Inner(a.slots + [Slot(boundary, a.upper)] + b.slots, b.upper)
  }

  ghost function SplitInner(t: Tree, p: Pid, r: Pid, k: nat): Tree
    requires IsInner(t, p) && k < |Slots(t, p)|
  {
    t.(pages := t.pages[p := LowerHalf(t.pages[p], k)][r := UpperHalf(t.pages[p], k)],
       lo := t.lo[r := Lo(t, Kid(t, p, k + 1))],
       level := t.level[r := Level(t, p)],
       orphans := t.orphans + {r})
  }

  ghost function JoinInner(t: Tree, p: Pid, r: Pid, boundary: Key): Tree
    requires IsInner(t, p) && IsInner(t, r)
  {
    t.(pages := t.pages[p := MergedInner(t.pages[p], boundary, t.pages[r])] - {r},
       lo := t.lo - {r},
       level := t.level - {r},
       orphans := t.orphans - {r})
  }

  /** How node `p` split into `p` and `r` (in `s`) relates to the unsplit tree (`u`). */
  ghost predicate InnerHalves(u: Tree, s: Tree, p: Pid, r: Pid, k: nat)
  {
    && p != r && r != 0 && IsInner(u, p) && IsInner(s, p) && IsInner(s, r)
    && r !in u.pages && s.pages.Keys == u.pages.Keys + {r}
    && s.root == u.root && s.orphans == u.orphans + {r} && r !in u.orphans
    && (forall q :: q != r ==> Lo(s, q) == Lo(u, q) && Level(s, q) == Level(u, q))
    && Level(s, r) == Level(u, p) && Lo(s, r) == Lo(u, Kid(u, p, k + 1))
    && (forall z :: IsLeaf(s, z) <==> IsLeaf(u, z))
    && (forall z :: z != r ==> (IsInner(s, z) <==> IsInner(u, z)))
    && (forall z :: Entries(s, z) == Entries(u, z))
    && (forall z :: Right(s, z) == Right(u, z))
    && |Slots(s, p)| == k && |Slots(s, r)| == |Slots(u, p)| - k - 1
    && (forall q :: q != p && q != r ==> Slots(s, q) == Slots(u, q))
    && (forall q, j :: q != p && q != r ==> Kid(s, q, j) == Kid(u, q, j))
    && (forall j :: 0 <= j <= k ==> Kid(s, p, j) == Kid(u, p, j))
    && (forall j :: 0 <= j <= |Slots(s, r)| ==> Kid(s, r, j) == Kid(u, p, k + 1 + j))
    && (forall j :: 0 <= j < k ==> Slots(s, p)[j].sep == Slots(u, p)[j].sep)
    && (forall j :: 0 <= j < |Slots(s, r)| ==> Slots(s, r)[j].sep == Slots(u, p)[k + 1 + j].sep)
  }

  lemma SplitInnerHalves(t: Tree, p: Pid, r: Pid, k: nat)
    requires IsInner(t, p) && k < |Slots(t, p)| && r != 0 && r !in t.pages && r !in t.orphans
    ensures InnerHalves(t, SplitInner(t, p, r, k), p, r, k)
  {
  }

  lemma JoinInnerHalves(t: Tree, p: Pid, r: Pid, boundary: Key)
    requires IsInner(t, p) && IsInner(t, r) && p != r && r != 0 && r in t.orphans
    requires Typed(t) && Kids(t) && KidsUp(t) && Level(t, p) == Level(t, r)
    requires forall q, j :: !Edge(t, q, j, r)
    ensures InnerHalves(JoinInner(t, p, r, boundary), t, p, r, |Slots(t, p)|)
    ensures Slots(JoinInner(t, p, r, boundary), p)[|Slots(t, p)|].sep == boundary
  {
    hide MergedInner, Typed, Kids, KidsUp;
    var u := JoinInner(t, p, r, boundary);
    var k := |Slots(t, p)|;
    MergedSlots(t.pages[p], boundary, t.pages[r]);
    assert u.pages[p] == MergedInner(t.pages[p], boundary, t.pages[r]);
    FirstChild(t, r);
    assert !Edge(t, r, 0, r);
    assert forall j :: 0 <= j <= |Slots(t, r)| ==> Kid(t, r, j) == Kid(u, p, k + 1 + j);
    assert Kid(u, p, k + 1) == Kid(t, r, 0);
  }

  lemma FirstChild(t: Tree, r: Pid)
    requires Kids(t) && KidsUp(t) && IsInner(t, r)
    ensures Kid(t, r, 0) in t.pages && Lo(t, Kid(t, r, 0)) == Lo(t, r)
  {
  }

  lemma MergedSlots(a: Node, boundary: Key, b: Node)
    requires a.Inner? && b.Inner?
    ensures var m := MergedInner(a, boundary, b);
      && m.Inner? && |m.slots| == |a.slots| + 1 + |b.slots| && m.upper == b.upper
      && m.slots[|a.slots|] == Slot(boundary, a.upper)
      && (forall j :: 0 <= j < |a.slots| ==> m.slots[j] == a.slots[j])
      && (forall j :: 0 <= j < |b.slots| ==> m.slots[|a.slots| + 1 + j] == b.slots[j])
  {
  }

  /** Where an edge of the whole node went. */
  lemma HalfEdge(u: Tree, s: Tree, p: Pid, r: Pid, k: nat, q: Pid, j: nat) returns (q': Pid, j': nat)
    requires InnerHalves(u, s, p, r, k) && IsInner(u, q) && j <= |Slots(u, q)|
    ensures IsInner(s, q') && j' <= |Slots(s, q')| && Kid(s, q', j') == Kid(u, q, j)
    ensures q != p ==> q' == q && j' == j
    ensures q == p ==> if j <= k then q' == p && j' == j else q' == r && j' == j - k - 1
  {
    if q != p {
      q', j' := q, j;
    } else if j <= k {
      q', j' := p, j;
    } else {
      q', j' := r, j - k - 1;
    }
  }

  /** Where an edge of a half came from. */
  lemma WholeEdge(u: Tree, s: Tree, p: Pid, r: Pid, k: nat, q: Pid, j: nat) returns (q': Pid, j': nat)
    requires InnerHalves(u, s, p, r, k) && IsInner(s, q) && j <= |Slots(s, q)|
    ensures IsInner(u, q') && j' <= |Slots(u, q')| && Kid(u, q', j') == Kid(s, q, j)
    ensures q' == if q == r then p else q
    ensures j' == if q == r then k + 1 + j else j
  {
    q' := if q == r then p else q;
    j' := if q == r then k + 1 + j else j;
  }

  lemma HalvesSameSep(u: Tree, s: Tree, p: Pid, r: Pid, k: nat, sep: Key, bound: real)
    requires InnerHalves(u, s, p, r, k) && Typed(u)
    ensures SepOk(u, sep, bound) <==> SepOk(s, sep, bound)
  {
    forall y | IsLeaf(s, y)
      ensures Lo(s, y) == Lo(u, y)
      ensures AllBelow(s, Lo(s, y), Num(sep)) <==> AllBelow(u, Lo(s, y), Num(sep))
    {
    }
  }

  lemma HalvesLeaves(u: Tree, s: Tree, p: Pid, r: Pid, k: nat)
    requires InnerHalves(u, s, p, r, k)
    ensures SortedLeaves(u) <==> SortedLeaves(s)
    ensures SortedAcross(u) <==> SortedAcross(s)
  {
    hide Num;
    assert Entries(s, r) == [];
    assert forall z :: Entries(s, z) == Entries(u, z);
    SameEntriesSorted(u, s);
    SameEntriesSorted(s, u);
  }

  lemma SameEntriesSorted(u: Tree, s: Tree)
    requires forall z :: Entries(s, z) == Entries(u, z)
    requires forall z :: |Entries(u, z)| > 0 ==> Lo(s, z) == Lo(u, z)
    ensures SortedLeaves(u) ==> SortedLeaves(s)
    ensures SortedAcross(u) ==> SortedAcross(s)
  {
    hide Num, Entries, Lo;
  }

  lemma HalvesLinks(u: Tree, s: Tree, p: Pid, r: Pid, k: nat)
    requires InnerHalves(u, s, p, r, k)
    ensures Linked(u) ==> Linked(s)
    ensures Linked(s) ==> Linked(u)
  {
    forall z | IsLeaf(s, z)
      ensures NextLeaf(s, Lo(s, z), Right(s, z)) <==> NextLeaf(u, Lo(u, z), Right(u, z))
    {
    }
  }

  // ----- splitting -----

  lemma SplitTyped(u: Tree, s: Tree, p: Pid, r: Pid, k: nat)
    requires InnerHalves(u, s, p, r, k) && Typed(u) && RootFirst(u) && p != u.root
    requires Kid(u, p, k + 1) in u.pages
    ensures Typed(s) && RootFirst(s)
  {
  }

  lemma SplitKids(u: Tree, s: Tree, p: Pid, r: Pid, k: nat)
    requires InnerHalves(u, s, p, r, k) && Kids(u) && KidsUp(u)
    ensures Kids(s) && KidsUp(s)
  {
    forall q, j | IsInner(s, q) && 0 <= j <= |Slots(s, q)|
      ensures Kid(s, q, j) in s.pages && Level(s, Kid(s, q, j)) + 1 == Level(s, q)
      ensures Lo(s, Kid(s, q, j)) == Lo(u, Kid(s, q, j))
    {
      var q', j' := WholeEdge(u, s, p, r, k, q, j);
      assert Kid(u, q', j') in u.pages && Level(u, Kid(u, q', j')) + 1 == Level(u, q');
    }
    forall q, a, b | IsInner(s, q) && 0 <= a < b <= |Slots(s, q)|
      ensures Lo(s, Kid(s, q, a)) < Lo(s, Kid(s, q, b))
    {
      var q', a' := WholeEdge(u, s, p, r, k, q, a);
      var q'', b' := WholeEdge(u, s, p, r, k, q, b);
      assert Lo(u, Kid(u, q', a')) < Lo(u, Kid(u, q', b'));
    }
    forall q | IsInner(s, q)
      ensures Lo(s, Kid(s, q, 0)) == Lo(s, q)
    {
      var q', j' := WholeEdge(u, s, p, r, k, q, 0);
      assert Lo(s, Kid(s, q, 0)) == Lo(u, Kid(s, q, 0));
    }
  }

  lemma SplitNewLabel(u: Tree, s: Tree, p: Pid, r: Pid, k: nat, q: Pid)
    requires InnerHalves(u, s, p, r, k) && Kids(u) && KidsUp(u) && Distinct(u) && Nested(u)
    requires q in u.pages && Level(u, q) == Level(u, p)
    ensures Lo(u, p) < Lo(s, r)
    ensures q != p ==> (Lo(s, r) < Lo(u, q) <==> Lo(u, p) < Lo(u, q)) && Lo(u, q) != Lo(s, r)
    ensures q != p && Lo(u, p) < Lo(u, q) ==> Lo(u, Kid(u, p, |Slots(u, p)|)) < Lo(u, q)
  {
    EdgeWithin(u, p, k + 1);
    assert Lo(u, Kid(u, p, 0)) < Lo(u, Kid(u, p, k + 1));
  }

  lemma SplitDistinct(u: Tree, s: Tree, p: Pid, r: Pid, k: nat)
    requires InnerHalves(u, s, p, r, k) && Kids(u) && KidsUp(u) && Distinct(u) && Nested(u)
    ensures Distinct(s)
  {
    forall q | q in u.pages && Level(u, q) == Level(u, p)
      ensures Lo(u, q) != Lo(s, r)
    {
      SplitNewLabel(u, s, p, r, k, q);
    }
  }

  /** The last child of a half stays below every node that comes after that half. */
  lemma SplitNestedAt(u: Tree, s: Tree, p: Pid, r: Pid, k: nat, a: Pid, q: Pid, c: Pid)
    requires InnerHalves(u, s, p, r, k) && Kids(u) && KidsUp(u) && Distinct(u) && Nested(u)
    requires Typed(u) && IsInner(s, a) && q in s.pages && Level(s, a) == Level(s, q) && Lo(s, a) < Lo(s, q)
    requires c == Kid(s, a, |Slots(s, a)|)
    ensures Lo(u, c) < Lo(s, q)
  {
    if q == r {
      if a == p {
        assert Lo(u, Kid(u, p, k)) < Lo(u, Kid(u, p, k + 1));
      } else {
        SplitNewLabel(u, s, p, r, k, a);
        OtherNodeEdges(u, a, p);
        EdgeWithin(u, p, k + 1);
      }
    } else if a == p || a == r {
      SplitNewLabel(u, s, p, r, k, q);
      if a == p {
        EdgeWithin(u, p, k);
      }
    } else {
      assert Lo(u, Kid(u, a, |Slots(u, a)|)) < Lo(u, q);
    }
  }

  lemma SplitNested(u: Tree, s: Tree, p: Pid, r: Pid, k: nat)
    requires InnerHalves(u, s, p, r, k) && Typed(u) && Kids(u) && KidsUp(u) && Distinct(u) && Nested(u)
    ensures Nested(s)
  {
    hide Distinct, KidsUp, Typed;
    forall a, q | IsInner(s, a) && q in s.pages && Level(s, a) == Level(s, q) && Lo(s, a) < Lo(s, q)
      ensures Lo(s, Kid(s, a, |Slots(s, a)|)) < Lo(s, q)
    {
      var a', j' := WholeEdge(u, s, p, r, k, a, |Slots(s, a)|);
      assert Kid(u, a', j') in u.pages;
      SplitNestedAt(u, s, p, r, k, a, q, Kid(s, a, |Slots(s, a)|));
    }
  }

  lemma SplitParented(u: Tree, s: Tree, p: Pid, r: Pid, k: nat)
    requires InnerHalves(u, s, p, r, k) && Kids(u) && Parented(u) && u.root in u.pages
    ensures Parented(s)
  {
    forall c | c in s.pages && c != s.root && c !in s.orphans
      ensures HasParent(s, c)
    {
      assert HasParent(u, c);
      var q, j :| Edge(u, q, j, c);
      var q', j' := HalfEdge(u, s, p, r, k, q, j);
      assert Edge(s, q', j', c);
    }
    forall c, q, j | c in s.orphans
      ensures !Edge(s, q, j, c)
    {
      if IsInner(s, q) && 0 <= j <= |Slots(s, q)| {
        var q', j' := WholeEdge(u, s, p, r, k, q, j);
        assert !Edge(u, q', j', c) || c == r;
        assert Kid(u, q', j') in u.pages;
      }
    }
  }

  lemma SplitRouted(u: Tree, s: Tree, p: Pid, r: Pid, k: nat)
    requires InnerHalves(u, s, p, r, k) && Typed(u) && Kids(u) && Routed(u)
    ensures Routed(s)
  {
    hide SepOk, Typed;
    forall q, j | 0 <= j < |Slots(s, q)|
      ensures SepOk(s, Slots(s, q)[j].sep, Lo(s, Kid(s, q, j + 1)))
    {
      var q', j' := WholeEdge(u, s, p, r, k, q, j + 1);
      assert SepOk(u, Slots(u, q')[j' - 1].sep, Lo(u, Kid(u, q', j')));
      assert Kid(u, q', j') in u.pages;
      HalvesSameSep(u, s, p, r, k, Slots(s, q)[j].sep, Lo(s, Kid(s, q, j + 1)));
    }
  }

  /** An inner split keeps the invariant; the promoted separator may be published in front of the new half. */
  lemma SplitInnerKeeps(t: Tree, p: Pid, r: Pid, k: nat)
    requires Inv(t) && IsInner(t, p) && p != t.root && k < |Slots(t, p)|
    requires r != 0 && r !in t.pages
    ensures Inv(SplitInner(t, p, r, k))
    ensures SepOk(SplitInner(t, p, r, k), Slots(t, p)[k].sep, Lo(SplitInner(t, p, r, k), r))
    ensures InnerHalves(t, SplitInner(t, p, r, k), p, r, k)
  {
    hide Typed, KidsUp, RootFirst, Distinct, Nested, SortedLeaves, SortedAcross, SepOk, Linked, InnerHalves;
    var s := SplitInner(t, p, r, k);
    assert Shaped(t);
    assert r !in t.orphans;
    SplitInnerHalves(t, p, r, k);
    assert Kid(t, p, k + 1) in t.pages;
    SplitTyped(t, s, p, r, k);
    SplitKids(t, s, p, r, k);
    SplitDistinct(t, s, p, r, k);
    SplitNested(t, s, p, r, k);
    SplitParented(t, s, p, r, k);
    HalvesLinks(t, s, p, r, k);
    HalvesLeaves(t, s, p, r, k);
    SplitRouted(t, s, p, r, k);
    assert SepOk(t, Slots(t, p)[k].sep, Lo(t, Kid(t, p, k + 1)));
    HalvesSameSep(t, s, p, r, k, Slots(t, p)[k].sep, Lo(t, Kid(t, p, k + 1)));
  }

  // ----- joining -----

  lemma JoinTyped(u: Tree, s: Tree, p: Pid, r: Pid, k: nat)
    requires InnerHalves(u, s, p, r, k) && Typed(s) && RootFirst(s) && Distinct(s) && r != s.root
    ensures Typed(u) && RootFirst(u) && Distinct(u)
  {
  }

  lemma JoinKidsOrder(u: Tree, s: Tree, p: Pid, r: Pid, k: nat, a: nat, b: nat)
    requires InnerHalves(u, s, p, r, k) && Kids(s) && KidsUp(s) && Nested(s) && Lo(s, p) < Lo(s, r)
    requires a < b <= |Slots(u, p)|
    ensures Lo(s, Kid(u, p, a)) < Lo(s, Kid(u, p, b))
  {
    var a', i := HalfEdge(u, s, p, r, k, p, a);
    var b', j := HalfEdge(u, s, p, r, k, p, b);
    EdgeWithin(s, a', i);
    EdgeWithin(s, b', j);
    assert Lo(s, Kid(s, p, |Slots(s, p)|)) < Lo(s, r);
    assert a' == b' ==> Lo(s, Kid(s, a', i)) < Lo(s, Kid(s, a', j));
  }

  lemma JoinKids(u: Tree, s: Tree, p: Pid, r: Pid, k: nat)
    requires InnerHalves(u, s, p, r, k) && Kids(s) && KidsUp(s) && Nested(s) && Lo(s, p) < Lo(s, r)
    requires forall q, j :: !Edge(s, q, j, r)
    ensures Kids(u) && KidsUp(u)
  {
    forall q, j | IsInner(u, q) && 0 <= j <= |Slots(u, q)|
      ensures Kid(u, q, j) in u.pages && Level(u, Kid(u, q, j)) + 1 == Level(u, q)
      ensures Lo(s, Kid(u, q, j)) == Lo(u, Kid(u, q, j))
    {
      var q', j' := HalfEdge(u, s, p, r, k, q, j);
      assert Kid(s, q', j') in s.pages && !Edge(s, q', j', r);
    }
    forall q, a, b | IsInner(u, q) && 0 <= a < b <= |Slots(u, q)|
      ensures Lo(u, Kid(u, q, a)) < Lo(u, Kid(u, q, b))
    {
      if q == p {
        JoinKidsOrder(u, s, p, r, k, a, b);
      } else {
        assert Lo(s, Kid(s, q, a)) < Lo(s, Kid(s, q, b));
      }
    }
    forall q | IsInner(u, q)
      ensures Lo(u, Kid(u, q, 0)) == Lo(u, q)
    {
      var q', j' := HalfEdge(u, s, p, r, k, q, 0);
      assert Lo(s, Kid(u, q, 0)) == Lo(u, Kid(u, q, 0));
    }
  }

  lemma JoinNested(u: Tree, s: Tree, p: Pid, r: Pid, k: nat)
    requires InnerHalves(u, s, p, r, k) && Nested(s) && NextAt(s, p, r) && Distinct(s) && Kids(s)
    requires forall q, j :: !Edge(s, q, j, r)
    ensures Nested(u)
  {
    forall a, q | IsInner(u, a) && q in u.pages && Level(u, a) == Level(u, q) && Lo(u, a) < Lo(u, q)
      ensures Lo(u, Kid(u, a, |Slots(u, a)|)) < Lo(u, q)
    {
      var a', j' := HalfEdge(u, s, p, r, k, a, |Slots(u, a)|);
      assert !Edge(s, a', j', r);
      if a == p {
        assert Lo(s, r) <= Lo(s, q) && Lo(s, r) != Lo(s, q);
      }
      assert Lo(s, Kid(s, a', |Slots(s, a')|)) < Lo(s, q);
    }
  }

  lemma JoinParented(u: Tree, s: Tree, p: Pid, r: Pid, k: nat)
    requires InnerHalves(u, s, p, r, k) && Parented(s)
    ensures Parented(u)
  {
    forall c | c in u.pages && c != u.root && c !in u.orphans
      ensures HasParent(u, c)
    {
      assert HasParent(s, c);
      var q, j :| Edge(s, q, j, c);
      var q', j' := WholeEdge(u, s, p, r, k, q, j);
      assert Edge(u, q', j', c);
    }
    forall c, q, j | c in u.orphans
      ensures !Edge(u, q, j, c)
    {
      if IsInner(u, q) && 0 <= j <= |Slots(u, q)| {
        var q', j' := HalfEdge(u, s, p, r, k, q, j);
        assert !Edge(s, q', j', c);
      }
    }
  }

  lemma JoinRoutedAt(u: Tree, s: Tree, p: Pid, r: Pid, k: nat, q: Pid, j: nat)
    requires InnerHalves(u, s, p, r, k) && Kids(u) && Routed(s)
    requires SepOk(s, Slots(u, p)[k].sep, Lo(s, r))
    requires j < |Slots(u, q)|
    ensures SepOk(s, Slots(u, q)[j].sep, Lo(u, Kid(u, q, j + 1)))
  {
    hide SepOk;
    assert Kid(u, q, j + 1) in u.pages;
    if q != p || j != k {
      var q', j' := HalfEdge(u, s, p, r, k, q, j + 1);
      assert SepOk(s, Slots(s, q')[j' - 1].sep, Lo(s, Kid(s, q', j')));
    }
  }

  lemma JoinRouted(u: Tree, s: Tree, p: Pid, r: Pid, k: nat)
    requires InnerHalves(u, s, p, r, k) && k < |Slots(u, p)| && Typed(u) && Kids(u) && Routed(s)
    requires SepOk(s, Slots(u, p)[k].sep, Lo(s, r))
    ensures Routed(u)
  {
    hide SepOk, Typed, InnerHalves;
    forall q, j | 0 <= j < |Slots(u, q)|
      ensures SepOk(u, Slots(u, q)[j].sep, Lo(u, Kid(u, q, j + 1)))
    {
      JoinRoutedAt(u, s, p, r, k, q, j);
      HalvesSameSep(u, s, p, r, k, Slots(u, q)[j].sep, Lo(u, Kid(u, q, j + 1)));
    }
  }

  /** Merging an orphaned inner node into its left neighbour around a valid boundary keeps the invariant. */
  lemma JoinInnerKeeps(t: Tree, p: Pid, r: Pid, boundary: Key)
    requires Inv(t) && IsInner(t, p) && IsInner(t, r) && NextAt(t, p, r) && r in t.orphans
    requires SepOk(t, boundary, Lo(t, r))
    ensures Inv(JoinInner(t, p, r, boundary))
    ensures InnerHalves(JoinInner(t, p, r, boundary), t, p, r, |Slots(t, p)|)
  {
    hide Kids, KidsUp, RootFirst, Distinct, Nested, SortedLeaves, SortedAcross, SepOk, Linked, InnerHalves;
    var u := JoinInner(t, p, r, boundary);
    var k := |Slots(t, p)|;
    assert Shaped(t) && Typed(t);
    JoinInnerHalves(t, p, r, boundary);
    JoinTyped(u, t, p, r, k);
    JoinKids(u, t, p, r, k);
    JoinNested(u, t, p, r, k);
    JoinParented(u, t, p, r, k);
    HalvesLinks(u, t, p, r, k);
    HalvesLeaves(u, t, p, r, k);
    JoinRouted(u, t, p, r, k);
  }

  // ----- what is stored -----

  lemma HalvesStore(u: Tree, s: Tree, p: Pid, r: Pid, k: nat, m: map<Key, Value>)
    requires InnerHalves(u, s, p, r, k)
    ensures Stores(u, m) <==> Stores(s, m)
  {
    forall e: Entry
      ensures Holds(u, e) <==> Holds(s, e)
    {
      if Holds(s, e) {
        var z, j :| 0 <= j < |Entries(s, z)| && Entries(s, z)[j] == e;
        HoldsAt(u, z, j);
      }
      if Holds(u, e) {
        var z, j :| 0 <= j < |Entries(u, z)| && Entries(u, z)[j] == e;
        HoldsAt(s, z, j);
      }
    }
  }
}
