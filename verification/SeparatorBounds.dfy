/**
 Which keys are valid separators, and where the leaf before a separator ends.
 */
module SeparatorBounds {
  import opened Keys
  import opened Pages
  import opened Trees
  import opened EdgeSteps

  /** The last key of a leaf separates it from the next leaf. */
  lemma LastKeySeparates(t: Tree, l: Pid, bound: real)
    requires SortedLeaves(t) && SortedAcross(t) && Typed(t) && Distinct(t)
    requires IsLeaf(t, l) && |Entries(t, l)| > 0 && Lo(t, l) < bound
    requires forall z :: IsLeaf(t, z) && Lo(t, l) < Lo(t, z) ==> bound <= Lo(t, z)
    ensures SepOk(t, Entries(t, l)[|Entries(t, l)| - 1].key, bound)
  {
    var es := Entries(t, l);
    var sep := es[|es| - 1].key;
    forall z, j | Lo(t, z) < bound && 0 <= j < |Entries(t, z)|
      ensures Num(Entries(t, z)[j].key) <= Num(sep)
      ensures Lo(t, z) < Lo(t, l) ==> Num(Entries(t, z)[j].key) < Num(sep)
    {
      assert IsLeaf(t, z);
      assert Lo(t, z) == Lo(t, l) ==> z == l;
    }
  }

  /** A separator between two empty neighbours also serves behind both. */
  lemma EmptyPairSeparates(t: Tree, sep: Key, l: Pid, r: Pid, bound: real)
    requires Typed(t) && Distinct(t) && IsLeaf(t, l) && IsLeaf(t, r) && NextLeaf(t, Lo(t, l), r)
    requires |Entries(t, l)| == 0 && |Entries(t, r)| == 0 && SepOk(t, sep, Lo(t, r))
    requires forall z :: IsLeaf(t, z) && Lo(t, r) < Lo(t, z) ==> bound <= Lo(t, z)
    ensures SepOk(t, sep, bound)
  {
    assert AllBelow(t, Lo(t, l), Num(sep));
    forall z, j | Lo(t, z) < bound && 0 <= j < |Entries(t, z)|
      ensures Num(Entries(t, z)[j].key) < Num(sep)
    {
      assert IsLeaf(t, z) && z != l && z != r;
      assert Lo(t, z) != Lo(t, l) && Lo(t, z) != Lo(t, r);
    }
  }

  // ----- the right spine -----

  /** The leaf reached from `c` by following upper edges. */
  ghost function Rightmost(t: Tree, c: Pid): (z: Pid)
    requires Typed(t) && Kids(t) && c in t.pages
    ensures IsLeaf(t, z)
    decreases Level(t, c)
  {
    if IsLeaf(t, c) then c else
      assert Kid(t, c, |Slots(t, c)|) in t.pages;
      Rightmost(t, Kid(t, c, |Slots(t, c)|))
  }

  /** With no orphans below, the page after the last child of `c` is the first child of the page after `c`. */
  lemma NextDown(t: Tree, c: Pid, q: Pid)
    requires Shaped(t) && t.orphans == {} && IsInner(t, c) && NextAt(t, c, q)
    ensures NextAt(t, Kid(t, c, |Slots(t, c)|), Kid(t, q, 0))
  {
    hide Parented, Distinct, Linked, RootFirst;
    var a, b := Kid(t, c, |Slots(t, c)|), Kid(t, q, 0);
    assert IsInner(t, q);
    EdgeWithin(t, c, |Slots(t, c)|);
    EdgeWithin(t, q, 0);
    assert Lo(t, b) == Lo(t, q);
    assert Lo(t, a) < Lo(t, q);
    forall z | z in t.pages && Level(t, z) == Level(t, a) && Lo(t, a) < Lo(t, z)
      ensures Lo(t, b) <= Lo(t, z)
    {
      NextDownAt(t, c, q, z);
    }
  }

  /** A page right of the last child of `c` hangs under a page right of `c`. */
  lemma NextDownAt(t: Tree, c: Pid, q: Pid, z: Pid)
    requires Shaped(t) && t.orphans == {} && IsInner(t, c) && NextAt(t, c, q)
    requires z in t.pages && Level(t, z) + 1 == Level(t, c) && Lo(t, Kid(t, c, |Slots(t, c)|)) < Lo(t, z)
    ensures Lo(t, q) <= Lo(t, z)
  {
    hide Kids, KidsUp, Linked, RootFirst, Nested;
    assert z != t.root;
    assert HasParent(t, z);
    var y, j :| Edge(t, y, j, z);
    EdgeWithin(t, y, j);
    OtherNodeEdges(t, y, c);
    EdgeWithin(t, c, 0);
    assert Lo(t, y) == Lo(t, c) ==> y == c;
    EdgeWithin(t, c, if y == c then j else 0);
  }

  /** No leaf lies between the end of `c`'s subtree and the page after `c`. */
  lemma {:induction false} SpineEnds(t: Tree, c: Pid, q: Pid)
    requires Shaped(t) && t.orphans == {} && NextAt(t, c, q)
    ensures Lo(t, Rightmost(t, c)) < Lo(t, q)
    ensures forall z :: IsLeaf(t, z) && Lo(t, Rightmost(t, c)) < Lo(t, z) ==> Lo(t, q) <= Lo(t, z)
    decreases Level(t, c)
  {
    if IsInner(t, c) {
      var a := Kid(t, c, |Slots(t, c)|);
      EdgeWithin(t, c, |Slots(t, c)|);
      NextDown(t, c, q);
      assert IsInner(t, q) && Lo(t, Kid(t, q, 0)) == Lo(t, q);
      SpineEnds(t, a, Kid(t, q, 0));
      assert Rightmost(t, c) == Rightmost(t, a);
    }
  }

  /** The largest key under edge `i` is a valid separator after it: what separator repair writes. */
  lemma SpineSeparates(t: Tree, p: Pid, i: nat)
    requires Inv(t) && t.orphans == {} && IsInner(t, p) && i < |Slots(t, p)|
    ensures Kid(t, p, i) in t.pages
    ensures var es := Entries(t, Rightmost(t, Kid(t, p, i)));
      |es| > 0 ==> SepOk(t, es[|es| - 1].key, Lo(t, Kid(t, p, i + 1)))
  {
    KidsAreNext(t, p, i);
    SpineEnds(t, Kid(t, p, i), Kid(t, p, i + 1));
    var l := Rightmost(t, Kid(t, p, i));
    if |Entries(t, l)| > 0 {
      LastKeySeparates(t, l, Lo(t, Kid(t, p, i + 1)));
    }
  }
}
