/**
 The tree read from left to right: leaf, separator, leaf, separator, and so on, down to
 the last leaf.  This reading uses nothing but pages and child edges.  It shows that the
 labels order the leaves as the edges do, and that structural changes above the leaves
 do not change it.
 */
module InOrder {
  import opened Keys
  import opened Pages
  import opened Trees
  import opened EdgeSteps
  import opened InnerSteps
  import opened RootSteps
  import opened Merges
  import opened Splits

  datatype Item = LeafAt(z: Pid) | Sep(key: Key)

  /** The items below page `p`. */
  ghost function Flat(t: Tree, p: Pid): (s: seq<Item>)
    requires Typed(t) && Kids(t) && p in t.pages
    ensures |s| > 0 && s[0].LeafAt? && s[|s| - 1].LeafAt?
    decreases Level(t, p), |Slots(t, p)| + 1
  {
    if IsLeaf(t, p) then [LeafAt(p)] else FlatKids(t, p, |Slots(t, p)|)
  }

  /** The items below edges 0 to `n` of inner page `p`. */
  ghost function FlatKids(t: Tree, p: Pid, n: nat): (s: seq<Item>)
    requires Typed(t) && Kids(t) && IsInner(t, p) && n <= |Slots(t, p)|
    ensures |s| > 0 && s[0].LeafAt? && s[|s| - 1].LeafAt?
    decreases Level(t, p), n
  {
    assert Kid(t, p, n) in t.pages && Level(t, Kid(t, p, n)) < Level(t, p);
    if n == 0 then Flat(t, Kid(t, p, 0))
    else FlatKids(t, p, n - 1) + [Sep(Slots(t, p)[n - 1].sep)] + Flat(t, Kid(t, p, n))
  }

  lemma FlatInner(t: Tree, p: Pid)
    requires Typed(t) && Kids(t) && IsInner(t, p)
    ensures Flat(t, p) == FlatKids(t, p, |Slots(t, p)|)
  {
  }

  lemma FlatMore(t: Tree, p: Pid, n: nat)
    requires Typed(t) && Kids(t) && IsInner(t, p) && n <= |Slots(t, p)|
    ensures Kid(t, p, n) in t.pages
    ensures FlatKids(t, p, n) ==
      if n == 0 then Flat(t, Kid(t, p, 0))
      else Around(FlatKids(t, p, n - 1), Slots(t, p)[n - 1].sep, Flat(t, Kid(t, p, n)))
  {
  }

  /** Two readings around a separator. */
  function Around(a: seq<Item>, sep: Key, b: seq<Item>): seq<Item>
  {
    a + [Sep(sep)] + b
  }

  // ----- trees that differ in a few pages -----

  /** The two trees agree on page `x` as far as edges go. */
  ghost predicate SameNode(u: Tree, t: Tree, x: Pid)
  {
    && x in u.pages && x in t.pages && Level(u, x) == Level(t, x)
    && (IsLeaf(u, x) <==> IsLeaf(t, x)) && Slots(u, x) == Slots(t, x)
    && (forall j :: Kid(u, x, j) == Kid(t, x, j))
  }

  lemma {:induction false} KidsSame(u: Tree, t: Tree, p: Pid, q: Pid, n: nat)
    requires Typed(u) && Kids(u) && Typed(t) && Kids(t) && IsInner(u, p) && IsInner(t, q)
    requires n <= |Slots(u, p)| && n <= |Slots(t, q)|
    requires forall j :: 0 <= j < n ==> Slots(u, p)[j].sep == Slots(t, q)[j].sep
    requires forall j :: 0 <= j <= n ==> FlatsAlike(u, t, Kid(u, p, j), Kid(t, q, j))
    ensures FlatKids(u, p, n) == FlatKids(t, q, n)
    decreases n
  {
    hide Around, Flat, FlatKids, Typed, Kids;
    assert FlatsAlike(u, t, Kid(u, p, n), Kid(t, q, n));
    FlatMore(u, p, n);
    FlatMore(t, q, n);
    if n > 0 {
      KidsSame(u, t, p, q, n - 1);
    }
  }

  ghost predicate FlatsAlike(u: Tree, t: Tree, a: Pid, b: Pid)
    requires Typed(u) && Kids(u) && Typed(t) && Kids(t)
  {
    a in u.pages && b in t.pages && Flat(u, a) == Flat(t, b)
  }

  // ----- inner splits and merges -----

  /** `t` is `u` with inner node `c`, child `i` of `p`, cut at slot `h`; the upper part is `r`, published behind `c`. */
  ghost predicate NodeCut(u: Tree, t: Tree, p: Pid, i: nat, c: Pid, r: Pid, h: nat)
  {
    && Edge(u, p, i, c) && p != c && IsInner(u, c) && h < |Slots(u, c)| && r !in u.pages
    && (forall x :: x in u.pages && x != c && x != p ==> SameNode(u, t, x))
    && (forall x :: x in u.pages ==> x in t.pages && Level(t, x) == Level(u, x))
    && r in t.pages && Level(t, r) == Level(u, c)
    && c in t.pages && t.pages[c] == LowerHalf(u.pages[c], h) && t.pages[r] == UpperHalf(u.pages[c], h)
    && p in t.pages && t.pages[p] == InsertEdge(u.pages[p], i, Slots(u, c)[h].sep, r)
  }

  /** Pages below the cut node read the same. */
  lemma {:induction false} BelowCut(u: Tree, t: Tree, p: Pid, i: nat, c: Pid, r: Pid, h: nat, q: Pid)
    requires Inv(u) && Inv(t) && NodeCut(u, t, p, i, c, r, h) && q in u.pages && Level(u, q) < Level(u, c)
    ensures FlatsAlike(u, t, q, q)
    decreases Level(u, q)
  {
    LevelsOfCut(u, p, i, c);
    assert SameNode(u, t, q);
    if IsInner(u, q) {
      forall j | 0 <= j <= |Slots(u, q)|
        ensures FlatsAlike(u, t, Kid(u, q, j), Kid(t, q, j))
      {
        EdgeWithin(u, q, j);
        BelowCut(u, t, p, i, c, r, h, Kid(u, q, j));
      }
      KidsSame(u, t, q, q, |Slots(u, q)|);
    }
  }

  lemma LevelsOfCut(u: Tree, p: Pid, i: nat, c: Pid)
    requires Inv(u) && Edge(u, p, i, c)
    ensures c in u.pages && Level(u, p) == Level(u, c) + 1
  {
    EdgeWithin(u, p, i);
  }

  /** The edges of the lower part read as before. */
  lemma LowerPart(u: Tree, t: Tree, p: Pid, i: nat, c: Pid, r: Pid, h: nat)
    requires Inv(u) && Inv(t) && NodeCut(u, t, p, i, c, r, h)
    ensures IsInner(t, c) && FlatKids(u, c, h) == Flat(t, c)
  {
    hide FlatKids, Flat, SepOk, SortedLeaves, SortedAcross, Routed, Nested, Parented, Distinct, Linked, RootFirst;
    LowerEdges(u.pages[c], h);
    forall j | 0 <= j <= h
      ensures FlatsAlike(u, t, Kid(u, c, j), Kid(t, c, j))
    {
      EdgeWithin(u, c, j);
      BelowCut(u, t, p, i, c, r, h, Kid(u, c, j));
    }
    KidsSame(u, t, c, c, h);
    FlatInner(t, c);
  }

  lemma LowerEdges(n: Node, h: nat)
    requires n.Inner? && h < |n.slots|
    ensures var lower := LowerHalf(n, h);
      && lower.Inner? && |lower.slots| == h && (forall j :: 0 <= j < h ==> lower.slots[j] == n.slots[j])
      && (forall j :: 0 <= j <= h ==> Child(lower, j) == Child(n, j))
  {
  }

  lemma UpperEdges(n: Node, h: nat)
    requires n.Inner? && h < |n.slots|
    ensures var upper := UpperHalf(n, h);
      && upper.Inner? && |upper.slots| == |n.slots| - h - 1
      && (forall j :: 0 <= j < |upper.slots| ==> upper.slots[j] == n.slots[h + 1 + j])
      && (forall j :: 0 <= j <= |upper.slots| ==> Child(upper, j) == Child(n, h + 1 + j))
  {
  }

  lemma UpperFacts(u: Tree, t: Tree, p: Pid, i: nat, c: Pid, r: Pid, h: nat)
    requires NodeCut(u, t, p, i, c, r, h)
    ensures IsInner(u, c) && IsInner(t, r) && r in t.pages && c in t.pages && h < |Slots(u, c)|
    ensures |Slots(t, r)| == |Slots(u, c)| - h - 1
    ensures forall j :: 0 <= j < |Slots(t, r)| ==> Slots(t, r)[j].sep == Slots(u, c)[h + 1 + j].sep
    ensures forall j :: 0 <= j <= |Slots(t, r)| ==> Kid(t, r, j) == Kid(u, c, h + 1 + j)
  {
    hide UpperHalf, LowerHalf, InsertEdge;
    UpperEdges(u.pages[c], h);
    assert forall j :: 0 <= j <= |Slots(t, r)| ==> Kid(t, r, j) == Child(t.pages[r], j);
    assert forall j :: 0 <= j <= |Slots(u, c)| ==> Kid(u, c, j) == Child(u.pages[c], j);
  }

  lemma Reassociate(a: seq<Item>, k: Key, b: seq<Item>, l: Key, d: seq<Item>)
    ensures Around(Around(a, k, b), l, d) == Around(a, k, Around(b, l, d))
  {
  }

  /** The edges of the upper part continue the lower part behind the promoted separator. */
  lemma {:induction false} UpperPart(u: Tree, t: Tree, p: Pid, i: nat, c: Pid, r: Pid, h: nat, n: nat)
    requires Inv(u) && Inv(t) && NodeCut(u, t, p, i, c, r, h) && IsInner(t, r) && n <= |Slots(t, r)|
    requires h + 1 + n <= |Slots(u, c)|
    ensures FlatKids(u, c, h + 1 + n) == Around(FlatKids(u, c, h), Slots(u, c)[h].sep, FlatKids(t, r, n))
    decreases n
  {
    hide FlatKids, Flat, NodeCut, SortedLeaves, SortedAcross, Routed, KidsUp, Kids, Typed, Nested, Parented, Distinct,
      Linked, RootFirst, Slots, Kid, Around;
    UpperFacts(u, t, p, i, c, r, h);
    CutChild(u, t, p, i, c, r, h, h + 1 + n);
    FlatMore(u, c, h + 1 + n);
    FlatMore(t, r, n);
    if n > 0 {
      var m := n - 1;
      UpperPart(u, t, p, i, c, r, h, m);
      assert Slots(t, r)[m].sep == Slots(u, c)[h + 1 + m].sep;
      Reassociate(FlatKids(u, c, h), Slots(u, c)[h].sep, FlatKids(t, r, m), Slots(t, r)[m].sep, Flat(t, Kid(t, r, n)));
    }
  }

  lemma CutChild(u: Tree, t: Tree, p: Pid, i: nat, c: Pid, r: Pid, h: nat, j: nat)
    requires Inv(u) && Inv(t) && NodeCut(u, t, p, i, c, r, h) && j <= |Slots(u, c)|
    ensures FlatsAlike(u, t, Kid(u, c, j), Kid(u, c, j))
  {
    hide FlatKids, Flat;
    EdgeWithin(u, c, j);
    BelowCut(u, t, p, i, c, r, h, Kid(u, c, j));
  }

  /** The node before the cut reads as its two parts with the promoted separator between them. */
  lemma CutReads(u: Tree, t: Tree, p: Pid, i: nat, c: Pid, r: Pid, h: nat)
    requires Inv(u) && Inv(t) && NodeCut(u, t, p, i, c, r, h)
    ensures c in t.pages && r in t.pages && c in u.pages
    ensures Flat(u, c) == Around(Flat(t, c), Slots(u, c)[h].sep, Flat(t, r))
  {
    hide Around, FlatKids, Flat, NodeCut, SortedLeaves, SortedAcross, Routed, KidsUp, Kids, Typed, Nested, Parented,
      Distinct, Linked, RootFirst;
    UpperFacts(u, t, p, i, c, r, h);
    LowerPart(u, t, p, i, c, r, h);
    UpperPart(u, t, p, i, c, r, h, |Slots(t, r)|);
    FlatInner(u, c);
    FlatInner(t, r);
  }

  lemma InsertedEdges(n: Node, i: nat, sep: Key, r: Pid)
    requires n.Inner? && i <= |n.slots|
    ensures var n' := InsertEdge(n, i, sep, r);
      && n'.Inner? && |n'.slots| == |n.slots| + 1 && n'.slots[i].sep == sep
      && (forall j :: 0 <= j < i ==> n'.slots[j].sep == n.slots[j].sep)
      && (forall j :: i <= j < |n.slots| ==> n'.slots[j + 1].sep == n.slots[j].sep)
      && (forall j :: 0 <= j <= i ==> Child(n', j) == Child(n, j)) && Child(n', i + 1) == r
      && (forall j :: i < j <= |n.slots| ==> Child(n', j + 1) == Child(n, j))
  {
  }

  lemma SiblingsNotCut(u: Tree, p: Pid, i: nat, c: Pid, j: nat)
    requires Inv(u) && Edge(u, p, i, c) && j <= |Slots(u, p)| && j != i
    ensures Kid(u, p, j) in u.pages && Kid(u, p, j) != c && Level(u, Kid(u, p, j)) == Level(u, c)
  {
    EdgeWithin(u, p, i);
    EdgeWithin(u, p, j);
    assert KidsUp(u);
    assert i < j ==> Lo(u, Kid(u, p, i)) < Lo(u, Kid(u, p, j));
    assert j < i ==> Lo(u, Kid(u, p, j)) < Lo(u, Kid(u, p, i));
  }

  /** Siblings of the cut node read the same. */
  lemma BesideCut(u: Tree, t: Tree, p: Pid, i: nat, c: Pid, r: Pid, h: nat, q: Pid)
    requires Inv(u) && Inv(t) && NodeCut(u, t, p, i, c, r, h) && q in u.pages && Level(u, q) == Level(u, c) && q != c
    ensures FlatsAlike(u, t, q, q)
  {
    hide FlatKids, Flat, SepOk, SortedLeaves, SortedAcross, Routed, Nested, Parented, Distinct, Linked, RootFirst;
    LevelsOfCut(u, p, i, c);
    assert SameNode(u, t, q) && IsInner(u, q);
    forall j | 0 <= j <= |Slots(u, q)|
      ensures FlatsAlike(u, t, Kid(u, q, j), Kid(t, q, j))
    {
      EdgeWithin(u, q, j);
      BelowCut(u, t, p, i, c, r, h, Kid(u, q, j));
    }
    KidsSame(u, t, q, q, |Slots(u, q)|);
    FlatInner(u, q);
    FlatInner(t, q);
  }

  lemma ParentFacts(u: Tree, t: Tree, p: Pid, i: nat, sep: Key, r: Pid)
    requires IsInner(u, p) && i <= |Slots(u, p)| && p in t.pages && t.pages[p] == InsertEdge(u.pages[p], i, sep, r)
    ensures IsInner(t, p) && |Slots(t, p)| == |Slots(u, p)| + 1 && Slots(t, p)[i].sep == sep
    ensures forall j :: 0 <= j < i ==> Slots(t, p)[j].sep == Slots(u, p)[j].sep
    ensures forall j :: i <= j < |Slots(u, p)| ==> Slots(t, p)[j + 1].sep == Slots(u, p)[j].sep
    ensures forall j :: 0 <= j <= i ==> Kid(t, p, j) == Kid(u, p, j)
    ensures Kid(t, p, i + 1) == r
    ensures forall j :: i < j <= |Slots(u, p)| ==> Kid(t, p, j + 1) == Kid(u, p, j)
  {
    hide InsertEdge;
    InsertedEdges(u.pages[p], i, sep, r);
    assert forall j :: 0 <= j <= |Slots(t, p)| ==> Kid(t, p, j) == Child(t.pages[p], j);
    assert forall j :: 0 <= j <= |Slots(u, p)| ==> Kid(u, p, j) == Child(u.pages[p], j);
  }

  lemma CutFacts(u: Tree, t: Tree, p: Pid, i: nat, c: Pid, r: Pid, h: nat)
    requires Inv(u) && NodeCut(u, t, p, i, c, r, h)
    ensures Edge(u, p, i, c) && IsInner(u, c) && IsInner(u, p) && h < |Slots(u, c)| && p in u.pages && c in u.pages
    ensures p in t.pages
    ensures t.pages[p] == InsertEdge(u.pages[p], i, Slots(u, c)[h].sep, r)
    ensures Level(u, p) == Level(u, c) + 1
  {
    LevelsOfCut(u, p, i, c);
  }

  lemma CutSame(u: Tree, t: Tree, p: Pid, i: nat, c: Pid, r: Pid, h: nat, q: Pid)
    requires Inv(u) && NodeCut(u, t, p, i, c, r, h) && q in u.pages && q != c && q != p && Level(u, q) >= Level(u, c)
    ensures SameNode(u, t, q) && IsInner(u, q) && IsInner(t, q)
  {
    LevelsOfCut(u, p, i, c);
    assert Typed(u);
  }

  /** Up to the new edge, the parent reads as before. */
  lemma ParentUpTo(u: Tree, t: Tree, p: Pid, i: nat, c: Pid, r: Pid, h: nat)
    requires Inv(u) && Inv(t) && NodeCut(u, t, p, i, c, r, h)
    ensures IsInner(t, p) && i + 1 <= |Slots(t, p)| && FlatKids(t, p, i + 1) == FlatKids(u, p, i)
  {
    hide Around, FlatKids, Flat, SortedLeaves, SortedAcross, Routed, KidsUp, Kids, Typed, Nested, Parented, Distinct,
      Linked, RootFirst,
      InsertEdge, UpperHalf, LowerHalf, NodeCut;
    CutFacts(u, t, p, i, c, r, h);
    var sep := Slots(u, c)[h].sep;
    ParentFacts(u, t, p, i, sep, r);
    CutReads(u, t, p, i, c, r, h);
    FlatMore(t, p, i + 1);
    FlatMore(t, p, i);
    FlatMore(u, p, i);
    if i > 0 {
      ParentBefore(u, t, p, i, c, r, h);
      Reassociate(FlatKids(u, p, i - 1), Slots(u, p)[i - 1].sep, Flat(t, c), sep, Flat(t, r));
    }
  }

  lemma ParentBefore(u: Tree, t: Tree, p: Pid, i: nat, c: Pid, r: Pid, h: nat)
    requires Inv(u) && Inv(t) && NodeCut(u, t, p, i, c, r, h) && i > 0 && IsInner(u, p) && i <= |Slots(u, p)|
    ensures IsInner(t, p) && i <= |Slots(t, p)| && FlatKids(t, p, i - 1) == FlatKids(u, p, i - 1)
  {
    hide FlatKids, Flat, SortedLeaves, SortedAcross, Routed, KidsUp, Kids, Typed, Nested, Parented, Distinct, Linked,
      RootFirst,
      InsertEdge, UpperHalf, LowerHalf, NodeCut;
    CutFacts(u, t, p, i, c, r, h);
    ParentFacts(u, t, p, i, Slots(u, c)[h].sep, r);
    forall j | 0 <= j <= i - 1
      ensures FlatsAlike(u, t, Kid(u, p, j), Kid(t, p, j))
    {
      SiblingsNotCut(u, p, i, c, j);
      BesideCut(u, t, p, i, c, r, h, Kid(u, p, j));
    }
    KidsSame(u, t, p, p, i - 1);
  }

  lemma {:induction false} ParentBeyond(u: Tree, t: Tree, p: Pid, i: nat, c: Pid, r: Pid, h: nat, n: nat)
    requires Inv(u) && Inv(t) && NodeCut(u, t, p, i, c, r, h) && i <= n <= |Slots(u, p)|
    ensures IsInner(t, p) && n + 1 <= |Slots(t, p)| && FlatKids(t, p, n + 1) == FlatKids(u, p, n)
    decreases n
  {
    hide Around, FlatKids, Flat, SortedLeaves, SortedAcross, Routed, KidsUp, Kids, Typed, Nested, Parented, Distinct,
      Linked, RootFirst,
      InsertEdge, UpperHalf, LowerHalf;
    ParentFacts(u, t, p, i, Slots(u, c)[h].sep, r);
    if n == i {
      ParentUpTo(u, t, p, i, c, r, h);
    } else {
      ParentBeyond(u, t, p, i, c, r, h, n - 1);
      SiblingsNotCut(u, p, i, c, n);
      BesideCut(u, t, p, i, c, r, h, Kid(u, p, n));
      FlatMore(u, p, n);
      FlatMore(t, p, n + 1);
    }
  }

  /** Pages above the parent read the same too. */
  lemma {:induction false} AboveCut(u: Tree, t: Tree, p: Pid, i: nat, c: Pid, r: Pid, h: nat, q: Pid)
    requires Inv(u) && Inv(t) && NodeCut(u, t, p, i, c, r, h) && q in u.pages && Level(u, q) >= Level(u, p)
    ensures FlatsAlike(u, t, q, q)
    decreases Level(u, q)
  {
    hide FlatKids, Flat, SortedLeaves, SortedAcross, Routed, KidsUp, Kids, Typed, Nested, Parented, Distinct, Linked,
      RootFirst,
      InsertEdge, UpperHalf, LowerHalf, NodeCut;
    CutFacts(u, t, p, i, c, r, h);
    if q == p {
      ParentFacts(u, t, p, i, Slots(u, c)[h].sep, r);
      ParentBeyond(u, t, p, i, c, r, h, |Slots(u, p)|);
      FlatInner(u, p);
      FlatInner(t, p);
    } else {
      CutSame(u, t, p, i, c, r, h, q);
      forall j | 0 <= j <= |Slots(u, q)|
        ensures FlatsAlike(u, t, Kid(u, q, j), Kid(t, q, j))
      {
        OtherChild(u, p, i, c, q, j);
        if Level(u, Kid(u, q, j)) >= Level(u, p) {
          AboveCut(u, t, p, i, c, r, h, Kid(u, q, j));
        } else {
          BesideCut(u, t, p, i, c, r, h, Kid(u, q, j));
        }
      }
      KidsSame(u, t, q, q, |Slots(u, q)|);
      FlatInner(u, q);
      FlatInner(t, q);
    }
  }

  lemma OtherChild(u: Tree, p: Pid, i: nat, c: Pid, q: Pid, j: nat)
    requires Inv(u) && Edge(u, p, i, c) && q != p && IsInner(u, q) && j <= |Slots(u, q)| && Level(u, q) >= Level(u, p)
    ensures Kid(u, q, j) in u.pages && Kid(u, q, j) != c && Level(u, Kid(u, q, j)) + 1 == Level(u, q)
    ensures Level(u, Kid(u, q, j)) >= Level(u, c)
  {
    EdgeWithin(u, p, i);
    EdgeWithin(u, q, j);
    if Kid(u, q, j) == c {
      UniqueParent(u, p, i, q, j, c);
    }
  }

  /** Cutting an inner node and publishing its upper part leaves the reading of the whole tree unchanged. */
  lemma CutKeepsReading(u: Tree, t: Tree, p: Pid, i: nat, c: Pid, r: Pid, h: nat)
    requires Inv(u) && Inv(t) && NodeCut(u, t, p, i, c, r, h) && t.root == u.root
    ensures u.root in u.pages && t.root in t.pages && Flat(t, t.root) == Flat(u, u.root)
  {
    hide FlatKids, Flat, NodeCut;
    CutFacts(u, t, p, i, c, r, h);
    RootLevel(u, p);
    AboveCut(u, t, p, i, c, r, h, u.root);
  }

  lemma RootLevel(u: Tree, p: Pid)
    requires Inv(u)
    ensures u.root in u.pages && (p in u.pages ==> Level(u, p) <= Level(u, u.root))
  {
    assert Typed(u);
  }

  /** Splitting an inner node, with its publication, keeps the reading. */
  lemma InnerSplitReading(t: Tree, p: Pid, i: nat, c: Pid, r: Pid, h: nat)
    requires Inv(t) && Edge(t, p, i, c) && IsInner(t, c) && h < |Slots(t, c)| && r != 0 && r !in t.pages
    ensures IsInner(SplitInner(t, c, r, h), p) && i <= |Slots(SplitInner(t, c, r, h), p)|
    ensures var s := Publish(SplitInner(t, c, r, h), p, i, Slots(t, c)[h].sep, r);
      Inv(s) && t.root in t.pages && s.root in s.pages && Flat(s, s.root) == Flat(t, t.root)
  {
    hide Inv, Flat, SplitInner, InnerHalves;
    LevelsOfCut(t, p, i, c);
    SplitThenPublish(t, p, i, c, r, h);
    var s := Publish(SplitInner(t, c, r, h), p, i, Slots(t, c)[h].sep, r);
    SplitIsCut(t, s, p, i, c, r, h);
    CutKeepsReading(t, s, p, i, c, r, h);
  }

  lemma SplitThenPublish(t: Tree, p: Pid, i: nat, c: Pid, r: Pid, h: nat)
    requires Inv(t) && Edge(t, p, i, c) && IsInner(t, c) && h < |Slots(t, c)| && r != 0 && r !in t.pages
    ensures var u := SplitInner(t, c, r, h);
      u.root == t.root && IsInner(u, p) && i <= |Slots(u, p)| && Inv(Publish(u, p, i, Slots(t, c)[h].sep, r))
  {
    hide SepOk, SortedLeaves, SortedAcross, Routed, Kids, KidsUp, Nested, Parented, Distinct, Linked, RootFirst, NextAt,
      SplitInner;
    LevelsOfCut(t, p, i, c);
    SplitInnerKeeps(t, c, r, h);
    var u := SplitInner(t, c, r, h);
    InnerHalvesNext(t, u, c, r, h);
    assert Kid(u, p, i) == c;
    PublishKeeps(u, p, i, Slots(t, c)[h].sep, r);
  }

  lemma SplitIsCut(t: Tree, s: Tree, p: Pid, i: nat, c: Pid, r: Pid, h: nat)
    requires Edge(t, p, i, c) && IsInner(t, c) && h < |Slots(t, c)| && r !in t.pages && Level(t, p) == Level(t, c) + 1
    requires IsInner(SplitInner(t, c, r, h), p) && i <= |Slots(SplitInner(t, c, r, h), p)|
    requires s == Publish(SplitInner(t, c, r, h), p, i, Slots(t, c)[h].sep, r)
    ensures NodeCut(t, s, p, i, c, r, h)
  {
    hide InsertEdge, LowerHalf, UpperHalf;
    assert p != c && p != r;
    assert forall x :: x in t.pages && x != c && x != p ==> s.pages[x] == t.pages[x];
  }

  /** Merging two neighbouring inner nodes keeps the reading. */
  lemma InnerMergeReading(t: Tree, p: Pid, i: nat, m: map<Key, Value>)
    requires Inv(t) && t.orphans == {} && Stores(t, m) && IsInner(t, p) && i < |Slots(t, p)| && IsInner(t, Kid(t, p, i))
    requires IsInner(t, Kid(t, p, i + 1))
    ensures var s := MergeInners(t, p, i);
      Inv(s) && t.root in t.pages && s.root in s.pages && Flat(s, s.root) == Flat(t, t.root)
  {
    hide Inv, Stores, Flat, MergeInners, InsertEdge, RemoveEdge, MergedInner;
    var l, r := Kid(t, p, i), Kid(t, p, i + 1);
    var s := MergeInners(t, p, i);
    MergeInnersKeeps(t, p, i, m);
    PairApart(t, p, i);
    MergeInnersPages(t, p, i);
    MergeIsCut(t, s, p, i, l, r);
    CutKeepsReading(s, t, p, i, l, r, |Slots(t, l)|);
  }

  lemma PairApart(t: Tree, p: Pid, i: nat)
    requires Inv(t) && IsInner(t, p) && i < |Slots(t, p)|
    ensures var l, r := Kid(t, p, i), Kid(t, p, i + 1);
      && p != l && p != r && l != r && l in t.pages && r in t.pages && Level(t, l) == Level(t, r)
      && Level(t, l) + 1 == Level(t, p)
  {
    EdgeWithin(t, p, i);
    EdgeWithin(t, p, i + 1);
    assert KidsUp(t);
    assert Lo(t, Kid(t, p, i)) < Lo(t, Kid(t, p, i + 1));
  }

  lemma MergeIsCut(t: Tree, s: Tree, p: Pid, i: nat, l: Pid, r: Pid)
    requires IsInner(t, p) && i < |Slots(t, p)| && l == Kid(t, p, i) && r == Kid(t, p, i + 1) && IsInner(t, l)
    requires IsInner(t, r)
    requires p != l && p != r && l != r && Level(t, l) == Level(t, r)
    requires s.pages ==
      t.pages[l := MergedInner(t.pages[l], Slots(t, p)[i].sep, t.pages[r])][p := RemoveEdge(t.pages[p], i)] - {r}
    requires forall q :: q != r ==> Level(s, q) == Level(t, q)
    ensures NodeCut(s, t, p, i, l, r, |Slots(t, l)|)
  {
    hide InsertEdge, RemoveEdge, MergedInner, LowerHalf, UpperHalf;
    MergedParts(t.pages[l], Slots(t, p)[i].sep, t.pages[r]);
    ReinsertEdge(t.pages[p], i);
    assert forall x :: x in s.pages && x != l && x != p ==> s.pages[x] == t.pages[x];
    assert Kid(s, p, i) == Child(s.pages[p], i);
  }

  lemma MergedParts(a: Node, sep: Key, b: Node)
    requires a.Inner? && b.Inner?
    ensures var n := MergedInner(a, sep, b);
      && n.Inner? && |a.slots| < |n.slots| && n.slots[|a.slots|].sep == sep
      && LowerHalf(n, |a.slots|) == a && UpperHalf(n, |a.slots|) == b
  {
  }

  /** Inserting a removed edge again restores the node. */
  lemma ReinsertEdge(n: Node, i: nat)
    requires n.Inner? && i < |n.slots|
    ensures var n' := RemoveEdge(n, i);
      && n'.Inner? && i <= |n'.slots| && Child(n', i) == Child(n, i)
      && InsertEdge(n', i, n.slots[i].sep, Child(n, i + 1)) == n
  {
  }

  // ----- growing and collapsing the root -----

  lemma {:induction false} GrownReads(u: Tree, g: Tree, l: Pid, q: Pid)
    requires Inv(u) && Inv(g) && GrownBy(u, g, l) && q in u.pages && q != u.root
    ensures FlatsAlike(u, g, q, q)
    decreases Level(u, q)
  {
    hide FlatKids, SortedLeaves, SortedAcross, Routed, Nested, Parented, Distinct, Linked, RootFirst;
    if IsInner(u, q) {
      forall j | 0 <= j <= |Slots(u, q)|
        ensures FlatsAlike(u, g, Kid(u, q, j), Kid(g, q, j))
      {
        EdgeWithin(u, q, j);
        GrownReads(u, g, l, Kid(u, q, j));
      }
      KidsSame(u, g, q, q, |Slots(u, q)|);
    }
  }

  /** Putting an inner root's page one level lower, or back up, keeps the reading; a leaf root only moves. */
  lemma GrownReading(u: Tree, g: Tree, l: Pid)
    requires Inv(u) && Inv(g) && GrownBy(u, g, l)
    ensures u.root in u.pages && g.root in g.pages
    ensures IsInner(u, u.root) ==> Flat(g, g.root) == Flat(u, u.root)
    ensures IsLeaf(u, u.root) ==> Flat(u, u.root) == [LeafAt(u.root)] && Flat(g, g.root) == [LeafAt(l)]
  {
    hide Flat, FlatKids, SortedLeaves, SortedAcross, Routed, Nested, Parented, Distinct, Linked, RootFirst;
    FlatInner(g, g.root);
    FlatMore(g, g.root, 0);
    if IsInner(u, u.root) {
      forall j | 0 <= j <= |Slots(u, u.root)|
        ensures FlatsAlike(u, g, Kid(u, u.root, j), Kid(g, l, j))
      {
        EdgeWithin(u, u.root, j);
        GrownReads(u, g, l, Kid(u, u.root, j));
      }
      KidsSame(u, g, u.root, l, |Slots(u, u.root)|);
      FlatInner(u, u.root);
      FlatInner(g, l);
    } else {
      FlatLeaf(u, u.root);
      FlatLeaf(g, l);
    }
  }

  lemma FlatLeaf(t: Tree, p: Pid)
    requires Typed(t) && Kids(t) && IsLeaf(t, p)
    ensures Flat(t, p) == [LeafAt(p)]
  {
  }

  /** Splitting an inner root keeps the reading. */
  lemma RootSplitReading(t: Tree, l: Pid, r: Pid, h: nat, m: map<Key, Value>)
    requires Inv(t) && Stores(t, m) && IsInner(t, t.root) && h < |Slots(t, t.root)| && l != 0 && r != 0 && l != r
    requires l !in t.pages && r !in t.pages
    ensures var s := RootInnerSplit(t, l, r, h);
      Inv(s) && t.root in t.pages && s.root in s.pages && Flat(s, s.root) == Flat(t, t.root)
  {
    hide Inv, Stores, Flat, RootInnerSplit, GrownBy;
    RootInnerSplitKeeps(t, l, r, h, m);
    GrowKeeps(t, l);
    var g := Grow(t, l);
    GrownReading(t, g, l);
    RootSplitIsCut(t, g, l, r, h);
    CutKeepsReading(g, RootInnerSplit(t, l, r, h), t.root, 0, l, r, h);
  }

  lemma RootSplitIsCut(t: Tree, g: Tree, l: Pid, r: Pid, h: nat)
    requires IsInner(t, t.root) && h < |Slots(t, t.root)| && l != r && l !in t.pages && r !in t.pages
    requires g == Grow(t, l)
    ensures NodeCut(g, RootInnerSplit(t, l, r, h), t.root, 0, l, r, h) && RootInnerSplit(t, l, r, h).root == t.root
    ensures g.root == t.root
  {
    hide LowerHalf, UpperHalf, RootInnerSplit, InsertEdge;
    var s := RootInnerSplit(t, l, r, h);
    assert g.pages[l] == t.pages[t.root] && g.pages[t.root] == Inner([], l);
    RootSplitPages(t, l, r, h, s);
    forall x | x in g.pages && x != l && x != t.root
      ensures SameNode(g, s, x)
    {
      assert s.pages[x] == g.pages[x];
    }
  }

  lemma RootSplitPages(t: Tree, l: Pid, r: Pid, h: nat, s: Tree)
    requires IsInner(t, t.root) && h < |Slots(t, t.root)| && l != r && l !in t.pages && r !in t.pages
    requires s == RootInnerSplit(t, l, r, h)
    ensures var n := t.pages[t.root];
      && s.root == t.root && s.pages.Keys == t.pages.Keys + {l, r}
      && s.pages[l] == LowerHalf(n, h) && s.pages[r] == UpperHalf(n, h)
      && s.pages[t.root] == InsertEdge(Inner([], l), 0, n.slots[h].sep, r)
    ensures forall x :: x in t.pages && x != t.root ==> s.pages[x] == t.pages[x]
    ensures Level(s, r) == Level(t, t.root) && forall x :: x in t.pages + map[l := t.pages[t.root]] ==>
      Level(s, x) == Level(Grow(t, l), x)
  {
    hide LowerHalf, UpperHalf, InsertEdge;
  }

  /** Collapsing an empty root onto an inner child keeps the reading. */
  lemma CollapseReading(t: Tree)
    requires Inv(t) && t.orphans == {} && IsInner(t, t.root) && Slots(t, t.root) == []
    requires IsInner(t, t.pages[t.root].upper)
    ensures var s := Collapse(t);
      Inv(s) && t.root in t.pages && s.root in s.pages && Flat(s, s.root) == Flat(t, t.root)
  {
    hide Inv, Flat, Collapse;
    CollapseKeeps(t);
    GrownReading(Collapse(t), t, t.pages[t.root].upper);
    CollapsedRoot(t);
  }

  lemma CollapsedRoot(t: Tree)
    requires IsInner(t, t.root) && IsInner(t, t.pages[t.root].upper) && t.pages[t.root].upper != t.root
    ensures IsInner(Collapse(t), t.root)
  {
  }
}
