/**
 Splitting a leaf in two, and its inverse.
 */
module SplitSteps {
  import opened Keys
  import opened Pages
  import opened Trees

  /** A label strictly between leaf `l` and the leaf after it. */
  ghost function LabelAfter(t: Tree, l: Pid): (m: real)
  {
    if Right(t, l) == 0 then Lo(t, l) + 1.0 else (Lo(t, l) + Lo(t, Right(t, l))) / 2.0
  }

  /** Leaf `l` keeps its first `k` entries; the rest move to the fresh page `r`, its new right sibling. */
  ghost function SplitLeaf(t: Tree, l: Pid, r: Pid, k: nat): Tree
    requires IsLeaf(t, l) && k <= |Entries(t, l)|
  {
    var n := t.pages[l];
    t.(pages := t.pages[l := Leaf(n.entries[..k], n.left, r)][r := Leaf(n.entries[k..], l, n.right)],
       lo := t.lo[r := LabelAfter(t, l)],
       level := t.level[r := 0],
       orphans := t.orphans + {r})
  }

  /** How a leaf `l` split into `l` and `r` (in `s`) relates to the unsplit tree (`u`). */
  ghost predicate LeafHalves(u: Tree, s: Tree, l: Pid, r: Pid)
  {
    && l != r && r != 0 && IsLeaf(u, l) && IsLeaf(s, l) && IsLeaf(s, r)
    && r !in u.pages && s.pages.Keys == u.pages.Keys + {r}
    && s.root == u.root && s.orphans == u.orphans + {r} && r !in u.orphans
    && Level(s, r) == 0
    && (forall p :: p != r ==> Lo(s, p) == Lo(u, p) && Level(s, p) == Level(u, p))
    && (forall z :: z != r ==> (IsLeaf(s, z) <==> IsLeaf(u, z)))
    && (forall p :: IsInner(s, p) <==> IsInner(u, p))
    && (forall p :: Slots(s, p) == Slots(u, p))
    && (forall p, i :: Kid(s, p, i) == Kid(u, p, i))
    && Right(s, l) == r && Right(s, r) == Right(u, l)
    && (forall z :: z != l && z != r ==> Right(s, z) == Right(u, z) && Entries(s, z) == Entries(u, z))
    && Entries(u, l) == Entries(s, l) + Entries(s, r)
  }

  ghost predicate Between(u: Tree, l: Pid, m: real)
  {
    Lo(u, l) < m && (Right(u, l) != 0 ==> m < Lo(u, Right(u, l)))
  }

  lemma SplitLeafHalves(t: Tree, l: Pid, r: Pid, k: nat)
    requires IsLeaf(t, l) && 0 < k < |Entries(t, l)|
    requires r != 0 && r !in t.pages && r !in t.orphans
    requires NextLeaf(t, Lo(t, l), Right(t, l))
    ensures LeafHalves(t, SplitLeaf(t, l, r, k), l, r)
    ensures Between(t, l, Lo(SplitLeaf(t, l, r, k), r))
  {
  }

  // ----- splitting -----

  lemma HalvesTyped(u: Tree, s: Tree, l: Pid, r: Pid)
    requires LeafHalves(u, s, l, r) && Between(u, l, Lo(s, r))
    requires Typed(u) && RootFirst(u) && l != u.root
    ensures Typed(s) && RootFirst(s)
  {
  }

  lemma HalvesKids(u: Tree, s: Tree, l: Pid, r: Pid)
    requires LeafHalves(u, s, l, r) && Typed(u) && Kids(u) && KidsUp(u)
    ensures Kids(s) && KidsUp(s)
  {
    forall p, i | IsInner(s, p) && 0 <= i <= |Slots(s, p)|
      ensures Kid(s, p, i) in s.pages && Level(s, Kid(s, p, i)) + 1 == Level(s, p)
      ensures Lo(s, Kid(s, p, i)) == Lo(u, Kid(u, p, i))
    {
      assert Kid(u, p, i) in u.pages && Level(u, Kid(u, p, i)) + 1 == Level(u, p);
    }
  }

  lemma HalvesDistinct(u: Tree, s: Tree, l: Pid, r: Pid)
    requires LeafHalves(u, s, l, r) && Between(u, l, Lo(s, r))
    requires Typed(u) && Distinct(u) && NextLeaf(u, Lo(u, l), Right(u, l))
    ensures Distinct(s)
  {
    forall q | q in s.pages && q != r && Level(s, q) == 0
      ensures Lo(s, q) != Lo(s, r)
    {
      assert IsLeaf(u, q);
    }
  }

  lemma HalvesNested(u: Tree, s: Tree, l: Pid, r: Pid)
    requires LeafHalves(u, s, l, r)
    requires Typed(u) && Kids(u) && Nested(u)
    ensures Nested(s)
  {
    forall p, q | IsInner(s, p) && q in s.pages && Level(s, p) == Level(s, q) && Lo(s, p) < Lo(s, q)
      ensures Lo(s, Kid(s, p, |Slots(s, p)|)) < Lo(s, q)
    {
      assert Kid(u, p, |Slots(u, p)|) in u.pages;
      assert q != r;
    }
  }

  lemma HalvesParented(u: Tree, s: Tree, l: Pid, r: Pid)
    requires LeafHalves(u, s, l, r) && Kids(u) && Parented(u) && u.root in u.pages
    ensures Parented(s)
  {
    forall c | c in s.pages && c != s.root && c !in s.orphans
      ensures HasParent(s, c)
    {
      assert HasParent(u, c);
      var p, i :| Edge(u, p, i, c);
      assert Edge(s, p, i, c);
    }
    forall c, p, i | c in s.orphans
      ensures !Edge(s, p, i, c)
    {
      assert !Edge(u, p, i, c);
      if c == r && IsInner(u, p) && 0 <= i <= |Slots(u, p)| {
        assert Kid(u, p, i) in u.pages;
      }
    }
  }

  lemma HalvesLinkedAt(u: Tree, s: Tree, l: Pid, r: Pid, z: Pid)
    requires LeafHalves(u, s, l, r) && Between(u, l, Lo(s, r))
    requires NextLeaf(u, Lo(u, l), Right(u, l)) && NextLeaf(u, Lo(u, z), Right(u, z))
    requires IsLeaf(u, z) && z != l && Lo(u, z) != Lo(u, l)
    ensures NextLeaf(s, Lo(s, z), Right(s, z))
  {
  }

  lemma HalvesLinked(u: Tree, s: Tree, l: Pid, r: Pid)
    requires LeafHalves(u, s, l, r) && Between(u, l, Lo(s, r))
    requires Typed(u) && Distinct(u) && Linked(u)
    ensures Linked(s)
  {
    LinkedAt(u, l);
    assert NextLeaf(s, Lo(s, l), Right(s, l));
    assert NextLeaf(s, Lo(s, r), Right(s, r));
    forall z | IsLeaf(s, z)
      ensures NextLeaf(s, Lo(s, z), Right(s, z))
    {
      if z != l && z != r {
        LinkedAt(u, z);
        assert Lo(u, z) != Lo(u, l);
        HalvesLinkedAt(u, s, l, r, z);
      }
    }
  }

  lemma HalvesSorted(u: Tree, s: Tree, l: Pid, r: Pid)
    requires LeafHalves(u, s, l, r) && SortedLeaves(u)
    ensures SortedLeaves(s)
    ensures forall i, j :: 0 <= i < |Entries(s, l)| && 0 <= j < |Entries(s, r)| ==>
      Num(Entries(s, l)[i].key) < Num(Entries(s, r)[j].key)
  {
    var a, b := Entries(s, l), Entries(s, r);
    forall i, j | 0 <= i < |a| && 0 <= j < |b|
      ensures Num(a[i].key) < Num(b[j].key)
    {
      assert Entries(u, l)[i] == a[i] && Entries(u, l)[|a| + j] == b[j];
    }
    forall i, j | 0 <= i < j < |b|
      ensures Num(b[i].key) < Num(b[j].key)
    {
      assert Entries(u, l)[|a| + i] == b[i] && Entries(u, l)[|a| + j] == b[j];
    }
    forall i, j | 0 <= i < j < |a|
      ensures Num(a[i].key) < Num(a[j].key)
    {
      assert Entries(u, l)[i] == a[i] && Entries(u, l)[j] == a[j];
    }
  }

  /** The old entry behind an entry of either half. */
  lemma HalfEntry(u: Tree, s: Tree, l: Pid, r: Pid, z: Pid, j: nat) returns (y: Pid, i: nat)
    requires LeafHalves(u, s, l, r)
    requires j < |Entries(s, z)|
    ensures y == (if z == r then l else z)
    ensures i < |Entries(u, y)| && Entries(u, y)[i] == Entries(s, z)[j]
  {
    y := if z == r then l else z;
    i := if z == r then |Entries(s, l)| + j else j;
  }

  lemma HalvesAcross(u: Tree, s: Tree, l: Pid, r: Pid)
    requires LeafHalves(u, s, l, r) && Between(u, l, Lo(s, r))
    requires SortedAcross(u) && NextLeaf(u, Lo(u, l), Right(u, l)) && SortedLeaves(u)
    requires Typed(u) && Distinct(u)
    ensures SortedAcross(s)
  {
    HalvesSorted(u, s, l, r);
    forall y, z, i, j | Lo(s, y) < Lo(s, z) && 0 <= i < |Entries(s, y)| && 0 <= j < |Entries(s, z)|
      ensures Num(Entries(s, y)[i].key) < Num(Entries(s, z)[j].key)
    {
      assert IsLeaf(s, y) && IsLeaf(s, z);
      var y', i' := HalfEntry(u, s, l, r, y, i);
      var z', j' := HalfEntry(u, s, l, r, z, j);
      if y' == z' {
        assert y == l && z == r;
      } else {
        assert Lo(u, y') != Lo(u, z');
        assert Lo(u, y') < Lo(u, z');
      }
    }
  }

  /** For a bound that some old leaf carries, splitting changes nothing to its left. */
  lemma HalvesBelow(u: Tree, s: Tree, l: Pid, r: Pid, z: Pid, x: real)
    requires LeafHalves(u, s, l, r) && Between(u, l, Lo(s, r))
    requires NextLeaf(u, Lo(u, l), Right(u, l)) && IsLeaf(u, z)
    ensures AllBelow(u, Lo(u, z), x) ==> AllBelow(s, Lo(u, z), x)
    ensures AtMost(u, Lo(u, z), x) ==> AtMost(s, Lo(u, z), x)
  {
    forall y, j | Lo(s, y) < Lo(u, z) && 0 <= j < |Entries(s, y)|
      ensures AllBelow(u, Lo(u, z), x) ==> Num(Entries(s, y)[j].key) < x
      ensures AtMost(u, Lo(u, z), x) ==> Num(Entries(s, y)[j].key) <= x
    {
      var y', i := HalfEntry(u, s, l, r, y, j);
    }
  }

  lemma HalvesSep(u: Tree, s: Tree, l: Pid, r: Pid, sep: Key, z: Pid)
    requires LeafHalves(u, s, l, r) && Between(u, l, Lo(s, r))
    requires NextLeaf(u, Lo(u, l), Right(u, l)) && IsLeaf(u, z)
    requires SortedLeaves(u) && Typed(u) && Distinct(u)
    requires SepOk(u, sep, Lo(u, z)) && |Entries(s, r)| > 0
    ensures SepOk(s, sep, Lo(u, z))
  {
    HalvesBelow(u, s, l, r, z, Num(sep));
    forall y | IsLeaf(s, y) && Lo(s, y) < Lo(u, z)
      ensures AllBelow(s, Lo(s, y), Num(sep))
    {
      if y == r {
        assert Lo(u, l) < Lo(u, z);
        assert AllBelow(u, Lo(u, l), Num(sep));
        HalvesBelow(u, s, l, r, l, Num(sep));
        HalvesSorted(u, s, l, r);
        assert Num(Entries(s, r)[0].key) <= Num(sep);
        forall x, j | Lo(s, x) < Lo(s, r) && 0 <= j < |Entries(s, x)|
          ensures Num(Entries(s, x)[j].key) < Num(sep)
        {
          assert IsLeaf(s, x);
          assert x != r && IsLeaf(u, x);
          assert Lo(u, x) <= Lo(u, l);
          if x == l {
            assert Num(Entries(s, l)[j].key) < Num(Entries(s, r)[0].key);
          } else {
            assert Lo(u, x) < Lo(u, l);
          }
        }
      } else {
        assert AllBelow(u, Lo(u, y), Num(sep));
        HalvesBelow(u, s, l, r, y, Num(sep));
      }
    }
  }

  lemma HalvesRouted(u: Tree, s: Tree, l: Pid, r: Pid)
    requires LeafHalves(u, s, l, r) && Between(u, l, Lo(s, r))
    requires NextLeaf(u, Lo(u, l), Right(u, l)) && |Entries(s, r)| > 0
    requires SortedLeaves(u) && Typed(u) && Distinct(u) && Kids(u) && KidsUp(u) && Routed(u)
    ensures Routed(s)
  {
    forall p, i | 0 <= i < |Slots(s, p)|
      ensures SepOk(s, Slots(s, p)[i].sep, Lo(s, Kid(s, p, i + 1)))
    {
      var c := Kid(u, p, i + 1);
      assert SepOk(u, Slots(u, p)[i].sep, Lo(u, c));
      var z := LeftmostLeaf(u, c);
      HalvesSep(u, s, l, r, Slots(u, p)[i].sep, z);
      assert c in u.pages;
    }
  }

  /** The last key of the left half is a valid separator in front of the right half. */
  lemma HalvesNewSep(u: Tree, s: Tree, l: Pid, r: Pid)
    requires LeafHalves(u, s, l, r) && Between(u, l, Lo(s, r))
    requires Typed(u) && Distinct(u) && NextLeaf(u, Lo(u, l), Right(u, l))
    requires SortedLeaves(s) && SortedAcross(s) && |Entries(s, l)| > 0
    ensures SepOk(s, Entries(s, l)[|Entries(s, l)| - 1].key, Lo(s, r))
  {
    var es := Entries(s, l);
    var sep := es[|es| - 1].key;
    forall z, j | Lo(s, z) < Lo(s, r) && 0 <= j < |Entries(s, z)|
      ensures Num(Entries(s, z)[j].key) <= Num(sep)
      ensures Lo(s, z) < Lo(s, l) ==> Num(Entries(s, z)[j].key) < Num(sep)
    {
      assert IsLeaf(s, z) && z != r && IsLeaf(u, z);
      assert Lo(u, z) <= Lo(u, l);
      if z != l {
        assert Lo(s, z) < Lo(s, l);
      }
    }
    forall y | IsLeaf(s, y) && Lo(s, y) < Lo(s, r)
      ensures AllBelow(s, Lo(s, y), Num(sep))
    {
      assert y != r && IsLeaf(u, y) && Lo(u, y) <= Lo(u, l);
    }
  }

  lemma HalvesKeep(u: Tree, s: Tree, l: Pid, r: Pid)
    requires LeafHalves(u, s, l, r) && Between(u, l, Lo(s, r))
    requires Inv(u) && l != u.root && |Entries(s, l)| > 0 && |Entries(s, r)| > 0
    ensures Inv(s)
    ensures SepOk(s, Entries(s, l)[|Entries(s, l)| - 1].key, Lo(s, r))
  {
    LinkedAt(u, l);
    HalvesTyped(u, s, l, r);
    HalvesKids(u, s, l, r);
    HalvesDistinct(u, s, l, r);
    HalvesNested(u, s, l, r);
    HalvesParented(u, s, l, r);
    HalvesLinked(u, s, l, r);
    HalvesSorted(u, s, l, r);
    HalvesAcross(u, s, l, r);
    HalvesRouted(u, s, l, r);
    HalvesNewSep(u, s, l, r);
  }

  /** A leaf split keeps the invariant while the new sibling is still an orphan, and yields a
      separator that may be published in front of it. */
  lemma SplitLeafKeeps(t: Tree, l: Pid, r: Pid, k: nat)
    requires Inv(t) && IsLeaf(t, l) && l != t.root && 0 < k < |Entries(t, l)|
    requires r != 0 && r !in t.pages
    ensures Inv(SplitLeaf(t, l, r, k))
    ensures SepOk(SplitLeaf(t, l, r, k), Entries(t, l)[k - 1].key, Lo(SplitLeaf(t, l, r, k), r))
    ensures LeafHalves(t, SplitLeaf(t, l, r, k), l, r)
  {
    hide Typed, Kids, KidsUp, RootFirst, Distinct, Nested, SortedLeaves, SortedAcross, Routed, SepOk, LeafHalves,
      Between;
    var s := SplitLeaf(t, l, r, k);
    LinkedAt(t, l);
    assert r !in t.orphans;
    SplitLeafHalves(t, l, r, k);
    HalvesKeep(t, s, l, r);
    assert Entries(s, l) == Entries(t, l)[..k];
  }

  // ----- joining -----

  /** Leaf `l` takes over the entries and the right link of its orphaned right sibling `r`. */
  ghost function JoinLeaf(t: Tree, l: Pid, r: Pid): Tree
    requires IsLeaf(t, l) && IsLeaf(t, r)
  {
    var a, b := t.pages[l], t.pages[r];
    t.(pages := t.pages[l := Leaf(a.entries + b.entries, a.left, b.right)] - {r},
       lo := t.lo - {r},
       level := t.level - {r},
       orphans := t.orphans - {r})
  }

  lemma JoinLeafHalves(t: Tree, l: Pid, r: Pid)
    requires Typed(t) && IsLeaf(t, l) && IsLeaf(t, r) && l != r && Right(t, l) == r && r != t.root && r in t.orphans
    ensures LeafHalves(JoinLeaf(t, l, r), t, l, r)
  {
  }

  lemma JoinedTyped(u: Tree, s: Tree, l: Pid, r: Pid)
    requires LeafHalves(u, s, l, r) && Typed(s) && RootFirst(s) && Distinct(s) && r != s.root
    ensures Typed(u) && RootFirst(u) && Distinct(u)
  {
  }

  lemma JoinedKids(u: Tree, s: Tree, l: Pid, r: Pid)
    requires LeafHalves(u, s, l, r) && Kids(s) && KidsUp(s) && Parented(s)
    ensures Kids(u) && KidsUp(u)
  {
    forall p, i | IsInner(u, p) && 0 <= i <= |Slots(u, p)|
      ensures Kid(u, p, i) in u.pages && Level(u, Kid(u, p, i)) + 1 == Level(u, p)
      ensures Lo(s, Kid(s, p, i)) == Lo(u, Kid(u, p, i))
    {
      assert Kid(s, p, i) in s.pages && Level(s, Kid(s, p, i)) + 1 == Level(s, p);
      assert !Edge(s, p, i, r);
    }
  }

  lemma JoinedNested(u: Tree, s: Tree, l: Pid, r: Pid)
    requires LeafHalves(u, s, l, r) && Kids(s) && Nested(s) && Parented(s)
    ensures Nested(u)
  {
    forall p, q | IsInner(u, p) && q in u.pages && Level(u, p) == Level(u, q) && Lo(u, p) < Lo(u, q)
      ensures Lo(u, Kid(u, p, |Slots(u, p)|)) < Lo(u, q)
    {
      assert Lo(s, Kid(s, p, |Slots(s, p)|)) < Lo(s, q);
      assert !Edge(s, p, |Slots(s, p)|, r);
    }
  }

  lemma JoinedParented(u: Tree, s: Tree, l: Pid, r: Pid)
    requires LeafHalves(u, s, l, r) && Parented(s)
    ensures Parented(u)
  {
    forall c | c in u.pages && c != u.root && c !in u.orphans
      ensures HasParent(u, c)
    {
      assert HasParent(s, c);
      var p, i :| Edge(s, p, i, c);
      assert Edge(u, p, i, c);
    }
    forall c, p, i | c in u.orphans
      ensures !Edge(u, p, i, c)
    {
      assert !Edge(s, p, i, c);
    }
  }

  lemma JoinedLinkedAt(u: Tree, s: Tree, l: Pid, r: Pid, z: Pid)
    requires LeafHalves(u, s, l, r) && Typed(s) && Distinct(s) && Linked(s) && IsLeaf(u, z)
    ensures NextLeaf(u, Lo(u, z), Right(u, z))
  {
    hide Linked;
    LinkedAt(s, l);
    LinkedAt(s, r);
    LinkedAt(s, z);
    if z != l {
      assert Lo(s, z) != Lo(s, l);
      assert Right(s, z) != r;
    }
  }

  lemma JoinedLinked(u: Tree, s: Tree, l: Pid, r: Pid)
    requires LeafHalves(u, s, l, r) && Typed(s) && Distinct(s) && Linked(s)
    ensures Linked(u)
  {
    forall z | IsLeaf(u, z)
      ensures NextLeaf(u, Lo(u, z), Right(u, z))
    {
      JoinedLinkedAt(u, s, l, r, z);
    }
  }

  /** The half in which an entry of the joined leaf came from. */
  lemma JoinedEntry(u: Tree, s: Tree, l: Pid, r: Pid, z: Pid, j: nat) returns (y: Pid, i: nat)
    requires LeafHalves(u, s, l, r) && j < |Entries(u, z)|
    ensures y == z || (z == l && y == r)
    ensures i < |Entries(s, y)| && Entries(s, y)[i] == Entries(u, z)[j]
    ensures z == l ==> (y == l <==> j < |Entries(s, l)|) && i == (if y == l then j else j - |Entries(s, l)|)
  {
    if z == l && j >= |Entries(s, l)| {
      y, i := r, j - |Entries(s, l)|;
    } else {
      y, i := z, j;
    }
  }

  lemma JoinedSorted(u: Tree, s: Tree, l: Pid, r: Pid)
    requires LeafHalves(u, s, l, r) && SortedLeaves(s) && SortedAcross(s) && Lo(s, l) < Lo(s, r)
    ensures SortedLeaves(u)
  {
    forall z, i, j | 0 <= i < j < |Entries(u, z)|
      ensures Num(Entries(u, z)[i].key) < Num(Entries(u, z)[j].key)
    {
      if z == l {
        var y, i' := JoinedEntry(u, s, l, r, z, i);
        var y', j' := JoinedEntry(u, s, l, r, z, j);
      } else if z != r {
        assert Entries(u, z) == Entries(s, z);
      }
    }
  }

  lemma JoinedAcross(u: Tree, s: Tree, l: Pid, r: Pid)
    requires LeafHalves(u, s, l, r) && SortedAcross(s) && NextLeaf(s, Lo(s, l), r)
    requires Typed(s) && Distinct(s)
    ensures SortedAcross(u)
  {
    forall y, z, i, j | Lo(u, y) < Lo(u, z) && 0 <= i < |Entries(u, y)| && 0 <= j < |Entries(u, z)|
      ensures Num(Entries(u, y)[i].key) < Num(Entries(u, z)[j].key)
    {
      assert IsLeaf(s, y) && IsLeaf(s, z) && z != r;
      var y', i' := JoinedEntry(u, s, l, r, y, i);
      var z', j' := JoinedEntry(u, s, l, r, z, j);
      if y == l {
        assert Lo(s, r) <= Lo(s, z) && Lo(s, r) != Lo(s, z);
      }
      assert Lo(s, y') < Lo(s, z');
    }
  }

  lemma JoinedBelow(u: Tree, s: Tree, l: Pid, r: Pid, z: Pid, x: real)
    requires LeafHalves(u, s, l, r) && NextLeaf(s, Lo(s, l), r) && IsLeaf(u, z)
    requires Typed(s) && Distinct(s)
    ensures AllBelow(s, Lo(s, z), x) ==> AllBelow(u, Lo(s, z), x)
    ensures AtMost(s, Lo(s, z), x) ==> AtMost(u, Lo(s, z), x)
  {
    forall y, j | Lo(u, y) < Lo(s, z) && 0 <= j < |Entries(u, y)|
      ensures AllBelow(s, Lo(s, z), x) ==> Num(Entries(u, y)[j].key) < x
      ensures AtMost(s, Lo(s, z), x) ==> Num(Entries(u, y)[j].key) <= x
    {
      var y', i := JoinedEntry(u, s, l, r, y, j);
      assert IsLeaf(s, y);
      if y == l {
        assert z != r && IsLeaf(s, z) && Lo(s, r) != Lo(s, z);
      }
    }
  }

  lemma JoinedSep(u: Tree, s: Tree, l: Pid, r: Pid, sep: Key, z: Pid)
    requires LeafHalves(u, s, l, r) && NextLeaf(s, Lo(s, l), r) && IsLeaf(u, z)
    requires Typed(s) && Distinct(s)
    requires SepOk(s, sep, Lo(s, z))
    ensures SepOk(u, sep, Lo(s, z))
  {
    JoinedBelow(u, s, l, r, z, Num(sep));
    forall y | IsLeaf(u, y) && Lo(u, y) < Lo(s, z)
      ensures AllBelow(u, Lo(u, y), Num(sep))
    {
      assert IsLeaf(s, y) && AllBelow(s, Lo(s, y), Num(sep));
      JoinedBelow(u, s, l, r, y, Num(sep));
    }
  }

  lemma JoinedRouted(u: Tree, s: Tree, l: Pid, r: Pid)
    requires LeafHalves(u, s, l, r) && NextLeaf(s, Lo(s, l), r)
    requires Typed(s) && Distinct(s) && Kids(s) && KidsUp(s) && Parented(s) && Routed(s)
    ensures Routed(u)
  {
    hide SepOk;
    forall p, i | 0 <= i < |Slots(u, p)|
      ensures SepOk(u, Slots(u, p)[i].sep, Lo(u, Kid(u, p, i + 1)))
    {
      var c := Kid(s, p, i + 1);
      assert SepOk(s, Slots(s, p)[i].sep, Lo(s, c));
      var z := LeftmostLeaf(s, c);
      assert Edge(s, p, i + 1, c);
      assert HasParent(s, z);
      var q, j :| Edge(s, q, j, z);
      assert !Edge(s, q, j, r);
      assert !Edge(s, p, i + 1, r);
      JoinedSep(u, s, l, r, Slots(s, p)[i].sep, z);
    }
  }

  /** Merging an orphaned leaf into its left neighbour keeps the invariant. */
  lemma JoinLeafKeeps(t: Tree, l: Pid, r: Pid)
    requires Inv(t) && IsLeaf(t, l) && IsLeaf(t, r) && Right(t, l) == r && r in t.orphans
    ensures Inv(JoinLeaf(t, l, r))
    ensures LeafHalves(JoinLeaf(t, l, r), t, l, r)
  {
    var u := JoinLeaf(t, l, r);
    assert Shaped(t);
    LinkedAt(t, l);
    assert l != r;
    JoinLeafHalves(t, l, r);
    JoinedTyped(u, t, l, r);
    JoinedKids(u, t, l, r);
    JoinedNested(u, t, l, r);
    JoinedParented(u, t, l, r);
    JoinedLinked(u, t, l, r);
    JoinedSorted(u, t, l, r);
    JoinedAcross(u, t, l, r);
    JoinedRouted(u, t, l, r);
  }

  // ----- what is stored -----

  lemma HalvesHold(u: Tree, s: Tree, l: Pid, r: Pid, e: Entry)
    requires LeafHalves(u, s, l, r)
    ensures Holds(u, e) <==> Holds(s, e)
  {
    if Holds(s, e) {
      var z, j :| 0 <= j < |Entries(s, z)| && Entries(s, z)[j] == e;
      var y, i := HalfEntry(u, s, l, r, z, j);
      HoldsAt(u, y, i);
    }
    if Holds(u, e) {
      var z, j :| 0 <= j < |Entries(u, z)| && Entries(u, z)[j] == e;
      var y, i := JoinedEntry(u, s, l, r, z, j);
      HoldsAt(s, y, i);
    }
  }

  /** Splitting or joining leaves changes nothing that is stored. */
  lemma HalvesStore(u: Tree, s: Tree, l: Pid, r: Pid, m: map<Key, Value>)
    requires LeafHalves(u, s, l, r)
    ensures Stores(u, m) <==> Stores(s, m)
  {
    forall e: Entry
      ensures Holds(u, e) <==> Holds(s, e)
    {
      HalvesHold(u, s, l, r, e);
    }
  }
}
