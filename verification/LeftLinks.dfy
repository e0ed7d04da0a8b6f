/**
 Left links mirror right links.  A split or a merge breaks this for one leaf, the
 successor of the rewritten pages, until that leaf is relinked.
 */
module LeftLinks {
  import opened Keys
  import opened Pages
  import opened Trees
  import opened LeafSteps
  import opened SplitSteps
  import opened EdgeSteps
  import opened RootSteps

  /** The left link of `z` names the leaf whose right link names `z`; the first leaf has none. */
  ghost predicate LeftOk(t: Tree, z: Pid)
  {
    if Left(t, z) == 0 then forall y :: IsLeaf(t, y) ==> Lo(t, z) <= Lo(t, y)
    else IsLeaf(t, Left(t, z)) && Right(t, Left(t, z)) == z
  }

  /** All left links are right, except possibly that of `x`. */
  ghost predicate LeftLinkedBut(t: Tree, x: Pid)
  {
    forall z :: IsLeaf(t, z) && z != x ==> LeftOk(t, z)
  }

  ghost predicate LeftLinked(t: Tree)
  {
    forall z :: IsLeaf(t, z) ==> LeftOk(t, z)
  }

  /** Every left link leads to a leaf further left, if not to the nearest one. */
  ghost predicate LeftDown(t: Tree)
  {
    forall z :: IsLeaf(t, z) && Left(t, z) != 0 ==> IsLeaf(t, Left(t, z)) && Lo(t, Left(t, z)) < Lo(t, z)
  }

  lemma LinkedIsDown(t: Tree)
    requires Inv(t) && LeftLinked(t)
    ensures LeftDown(t)
  {
    assert Typed(t);
    forall z | IsLeaf(t, z) && Left(t, z) != 0
      ensures Lo(t, Left(t, z)) < Lo(t, z)
    {
      assert LeftOk(t, z);
      LinkedAt(t, Left(t, z));
    }
  }

  function WithLeft(t: Tree, z: Pid, l: Pid): Tree
    requires IsLeaf(t, z)
  {
    t.(pages := t.pages[z := t.pages[z].(left := l)])
  }

  /** Relinking touches nothing the invariant speaks of. */
  lemma WithLeftKeeps(t: Tree, z: Pid, l: Pid, m: map<Key, Value>)
    requires Inv(t) && IsLeaf(t, z) && Stores(t, m)
    ensures Inv(WithLeft(t, z, l)) && Stores(WithLeft(t, z, l), m)
    ensures SepChanged(t, WithLeft(t, z, l), 0, 0)
    ensures forall q :: Slots(WithLeft(t, z, l), q) == Slots(t, q)
  {
    var t' := WithLeft(t, z, l);
    WithLeftChanges(t, z, l);
    SameLeavesKeep(t, t');
    ChangedKids(t, t', 0, 0);
    ChangedNested(t, t', 0, 0);
    ChangedParented(t, t', 0, 0);
    WithLeftRouted(t, t');
    SameLeavesStore(t, t', m);
  }

  lemma WithLeftChanges(t: Tree, z: Pid, l: Pid)
    requires IsLeaf(t, z)
    ensures SepChanged(t, WithLeft(t, z, l), 0, 0)
    ensures forall q :: Slots(WithLeft(t, z, l), q) == Slots(t, q)
  {
  }

  lemma WithLeftRouted(t: Tree, t': Tree)
    requires SameLeaves(t, t') && Routed(t)
    requires forall q :: Slots(t', q) == Slots(t, q)
    requires forall q, j :: Kid(t', q, j) == Kid(t, q, j)
    ensures Routed(t')
  {
    hide SepOk;
    forall q, j | 0 <= j < |Slots(t', q)|
      ensures SepOk(t', Slots(t', q)[j].sep, Lo(t', Kid(t', q, j + 1)))
    {
      assert SepOk(t, Slots(t, q)[j].sep, Lo(t, Kid(t, q, j + 1)));
      SameLeavesSep(t, t', Slots(t, q)[j].sep, Lo(t, Kid(t, q, j + 1)));
    }
  }

  /** Relinking the one wrong leaf to its predecessor repairs the list. */
  lemma RelinkRepairs(t: Tree, x: Pid, y: Pid)
    requires LeftLinkedBut(t, x) && IsLeaf(t, x) && IsLeaf(t, y) && Right(t, y) == x && y != 0
    ensures LeftLinked(WithLeft(t, x, y))
  {
    var t' := WithLeft(t, x, y);
    WithLeftChanges(t, x, y);
    forall z | IsLeaf(t', z)
      ensures LeftOk(t', z)
    {
      assert Left(t', z) == if z == x then y else Left(t, z);
      if z != x {
        assert LeftOk(t, z);
      }
    }
  }

  lemma WithEntriesLeft(t: Tree, p: Pid, es: seq<Entry>)
    requires LeftLinked(t) && IsLeaf(t, p)
    ensures LeftLinked(WithEntries(t, p, es))
  {
    var t' := WithEntries(t, p, es);
    WithEntriesFrame(t, p, es);
    assert forall z :: Left(t', z) == Left(t, z);
    forall z | IsLeaf(t', z)
      ensures LeftOk(t', z)
    {
      assert LeftOk(t, z);
    }
  }

  /** After a split only the old successor is linked wrong. */
  lemma SplitLeft(t: Tree, l: Pid, r: Pid, k: nat)
    requires LeftLinked(t) && Linked(t) && Typed(t) && IsLeaf(t, l) && k <= |Entries(t, l)| && r != 0 && r !in t.pages
    ensures LeftLinkedBut(SplitLeaf(t, l, r, k), Right(t, l))
  {
    var s := SplitLeaf(t, l, r, k);
    forall z | IsLeaf(s, z) && z != Right(t, l)
      ensures LeftOk(s, z)
    {
      if z != r {
        SplitLeftAt(t, l, r, k, z);
      }
    }
  }

  lemma SplitLeftAt(t: Tree, l: Pid, r: Pid, k: nat, z: Pid)
    requires LeftLinked(t) && Linked(t) && Typed(t) && IsLeaf(t, l) && k <= |Entries(t, l)| && r != 0 && r !in t.pages
    requires IsLeaf(t, z) && z != Right(t, l)
    ensures LeftOk(SplitLeaf(t, l, r, k), z)
  {
    hide LeftLinked, Linked, LabelAfter;
    var s := SplitLeaf(t, l, r, k);
    assert LeftOk(t, z) by {
      LeftAt(t, z);
    }
    LabelIsAfter(t, l);
    assert Left(s, z) == Left(t, z) && Lo(s, z) == Lo(t, z);
    assert forall y :: IsLeaf(s, y) && y != r ==> IsLeaf(t, y) && Lo(s, y) == Lo(t, y);
  }

  lemma LeftAt(t: Tree, z: Pid)
    requires LeftLinked(t) && IsLeaf(t, z)
    ensures LeftOk(t, z)
  {
  }

  lemma LabelIsAfter(t: Tree, l: Pid)
    requires Linked(t) && IsLeaf(t, l)
    ensures Lo(t, l) < LabelAfter(t, l)
  {
    LinkedAt(t, l);
  }

  lemma JoinFrame(t: Tree, l: Pid, r: Pid)
    requires IsLeaf(t, l) && IsLeaf(t, r) && l != r
    ensures var u := JoinLeaf(t, l, r);
      forall z ::
        && (IsLeaf(u, z) <==> IsLeaf(t, z) && z != r)
        && (z != r ==> Lo(u, z) == Lo(t, z) && Left(u, z) == Left(t, z))
        && (z != r && z != l ==> Right(u, z) == Right(t, z))
  {
  }

  /** After a merge only the new successor is linked wrong. */
  lemma JoinLeft(t: Tree, l: Pid, r: Pid)
    requires LeftLinked(t) && IsLeaf(t, l) && IsLeaf(t, r) && Right(t, l) == r && l != r
    ensures LeftLinkedBut(JoinLeaf(t, l, r), Right(t, r))
  {
    var u := JoinLeaf(t, l, r);
    JoinFrame(t, l, r);
    forall z | IsLeaf(u, z) && z != Right(t, r)
      ensures LeftOk(u, z)
    {
      assert LeftOk(t, z);
      assert Left(t, z) == 0 || (Left(t, z) != r && Left(t, z) != l);
    }
  }

  /** Edges and separators do not touch the links. */
  lemma SameLeavesLeft(u: Tree, s: Tree)
    requires SameLeaves(u, s) && LeftLinked(u) && (forall z :: Left(s, z) == Left(u, z))
    ensures LeftLinked(s)
  {
    forall z | IsLeaf(s, z)
      ensures LeftOk(s, z)
    {
      assert LeftOk(u, z);
    }
  }

  lemma GrowLeft(t: Tree, l: Pid)
    requires LeftLinked(t) && Typed(t) && Linked(t) && l != 0 && l !in t.pages
    ensures LeftLinked(Grow(t, l))
  {
    var g := Grow(t, l);
    forall z | IsLeaf(g, z)
      ensures LeftOk(g, z)
    {
      if IsLeaf(t, t.root) {
        LeafRootAlone(t);
        LinkedAt(t, t.root);
        assert LeftOk(t, t.root);
      } else {
        assert LeftOk(t, z);
      }
    }
  }

  lemma CollapseLeft(t: Tree)
    requires IsInner(t, t.root) && t.pages[t.root].upper in t.pages && Slots(t, t.root) == []
    requires Linked(t) && LeftLinked(t) && Typed(Collapse(t)) && GrownBy(Collapse(t), t, t.pages[t.root].upper)
    ensures LeftLinked(Collapse(t))
  {
    var u := Collapse(t);
    var c := t.pages[t.root].upper;
    if IsLeaf(u, u.root) {
      LeafRootAlone(u);
      LinkedAt(t, c);
      assert LeftOk(t, c);
      forall y | IsLeaf(t, y)
        ensures y == c
      {
        assert y == c || y in u.pages;
      }
      assert Left(u, u.root) == 0;
    } else {
      CollapseLeftInner(t);
    }
  }

  lemma CollapseLeftInner(t: Tree)
    requires IsInner(t, t.root) && t.pages[t.root].upper in t.pages && LeftLinked(t)
    requires GrownBy(Collapse(t), t, t.pages[t.root].upper) && IsInner(t, t.pages[t.root].upper)
    ensures LeftLinked(Collapse(t))
  {
    var u := Collapse(t);
    assert forall z :: IsLeaf(u, z) ==> Left(u, z) == Left(t, z) && IsLeaf(t, z);
    assert forall z :: IsLeaf(t, z) ==> IsLeaf(u, z);
    forall z | IsLeaf(u, z)
      ensures LeftOk(u, z)
    {
      assert LeftOk(t, z);
    }
  }
}
