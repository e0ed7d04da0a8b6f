/**
 The leaves in reading order: the labels, the right and left links and the separators all
 agree with it, and a leaf split or merge changes it in exactly one place.
 */
module LeafOrder {
  import opened Keys
  import opened Pages
  import opened Trees
  import opened EdgeSteps
  import opened LeftLinks
  import opened Merges
  import opened Splits
  import opened Accounts
  import opened InOrder

  /** Leaves at even positions, separators at odd ones. */
  ghost predicate Alternates(s: seq<Item>)
  {
    |s| % 2 == 1 && forall i :: 0 <= i < |s| ==> (s[i].LeafAt? <==> i % 2 == 0)
  }

  lemma AlternatesConcat(a: seq<Item>, k: Key, b: seq<Item>)
    requires Alternates(a) && Alternates(b)
    ensures Alternates(a + [Sep(k)] + b)
  {
    var s := a + [Sep(k)] + b;
    assert forall i :: 0 <= i < |a| ==> s[i] == a[i];
    assert forall i :: |a| < i < |s| ==> s[i] == b[i - |a| - 1];
    forall i | 0 <= i < |s|
      ensures s[i].LeafAt? <==> i % 2 == 0
    {
      if i > |a| {
        assert b[i - |a| - 1].LeafAt? <==> (i - |a| - 1) % 2 == 0;
      }
    }
  }

  /** There is one leaf more than there are separators. */
  lemma {:induction false} FlatAlternates(t: Tree, p: Pid)
    requires Typed(t) && Kids(t) && p in t.pages
    ensures Alternates(Flat(t, p))
    decreases Level(t, p), |Slots(t, p)| + 1
  {
    if IsInner(t, p) {
      KidsAlternate(t, p, |Slots(t, p)|);
    }
  }

  lemma {:induction false} KidsAlternate(t: Tree, p: Pid, n: nat)
    requires Typed(t) && Kids(t) && IsInner(t, p) && n <= |Slots(t, p)|
    ensures Alternates(FlatKids(t, p, n))
    decreases Level(t, p), n
  {
    hide Flat, FlatKids, Alternates;
    FlatMore(t, p, n);
    KidBelow(t, p, n);
    FlatAlternates(t, Kid(t, p, n));
    if n > 0 {
      KidsAlternate(t, p, n - 1);
      AlternatesConcat(FlatKids(t, p, n - 1), Slots(t, p)[n - 1].sep, Flat(t, Kid(t, p, n)));
    }
  }

  lemma KidBelow(t: Tree, p: Pid, n: nat)
    requires Typed(t) && Kids(t) && IsInner(t, p) && n <= |Slots(t, p)|
    ensures Kid(t, p, n) in t.pages && Level(t, Kid(t, p, n)) < Level(t, p)
  {
  }

  // ----- labels -----

  /** Leaf labels grow along the items and stay at or above `lo`. */
  ghost predicate Rising(t: Tree, s: seq<Item>, lo: real)
  {
    && (forall i :: 0 <= i < |s| && s[i].LeafAt? ==> IsLeaf(t, s[i].z) && lo <= Lo(t, s[i].z))
    && (forall i, j :: 0 <= i < j < |s| && s[i].LeafAt? && s[j].LeafAt? ==> Lo(t, s[i].z) < Lo(t, s[j].z))
  }

  /** All leaf labels are below `hi`. */
  ghost predicate Under(t: Tree, s: seq<Item>, hi: real)
  {
    forall i :: 0 <= i < |s| && s[i].LeafAt? ==> Lo(t, s[i].z) < hi
  }

  lemma RisingConcat(t: Tree, a: seq<Item>, k: Key, b: seq<Item>, lo: real, mid: real)
    requires Rising(t, a, lo) && Under(t, a, mid) && Rising(t, b, mid) && lo <= mid
    ensures Rising(t, a + [Sep(k)] + b, lo)
  {
    var s := a + [Sep(k)] + b;
    assert forall i :: 0 <= i < |a| ==> s[i] == a[i];
    assert forall i :: |a| < i < |s| ==> s[i] == b[i - |a| - 1];
  }

  lemma UnderConcat(t: Tree, a: seq<Item>, k: Key, b: seq<Item>, hi: real)
    requires Under(t, a, hi) && Under(t, b, hi)
    ensures Under(t, a + [Sep(k)] + b, hi)
  {
    var s := a + [Sep(k)] + b;
    assert forall i :: 0 <= i < |a| ==> s[i] == a[i];
    assert forall i :: |a| < i < |s| ==> s[i] == b[i - |a| - 1];
  }

  /** A page's items rise from its label. */
  lemma {:induction false} FlatRises(t: Tree, p: Pid)
    requires Inv(t) && p in t.pages
    ensures Rising(t, Flat(t, p), Lo(t, p))
    ensures forall q :: q in t.pages && Level(t, q) == Level(t, p) && Lo(t, p) < Lo(t, q) ==>
      Under(t, Flat(t, p), Lo(t, q))
    decreases Level(t, p), |Slots(t, p)| + 1
  {
    hide Flat, FlatKids, Rising, Under, SortedLeaves, SortedAcross, Routed, Parented, Distinct, Linked, RootFirst;
    if IsInner(t, p) {
      FlatInner(t, p);
      KidsRise(t, p, |Slots(t, p)|);
      forall q | q in t.pages && Level(t, q) == Level(t, p) && Lo(t, p) < Lo(t, q)
        ensures Under(t, Flat(t, p), Lo(t, q))
      {
        EdgeWithin(t, q, 0);
        assert Lo(t, Kid(t, p, |Slots(t, p)|)) < Lo(t, q);
        assert Lo(t, Kid(t, q, 0)) == Lo(t, q);
      }
    } else {
      FlatLeaf(t, p);
      LeafRises(t, p);
    }
  }

  lemma LeafRises(t: Tree, p: Pid)
    requires IsLeaf(t, p)
    ensures Rising(t, [LeafAt(p)], Lo(t, p)) && (forall hi :: Lo(t, p) < hi ==> Under(t, [LeafAt(p)], hi))
  {
  }

  lemma {:induction false} KidsRise(t: Tree, p: Pid, n: nat)
    requires Inv(t) && IsInner(t, p) && n <= |Slots(t, p)|
    ensures Kid(t, p, n) in t.pages && Rising(t, FlatKids(t, p, n), Lo(t, p))
    ensures forall x :: x in t.pages && Level(t, x) + 1 == Level(t, p) && Lo(t, Kid(t, p, n)) < Lo(t, x) ==>
      Under(t, FlatKids(t, p, n), Lo(t, x))
    decreases Level(t, p), n
  {
    hide Flat, FlatKids, Rising, Under, SortedLeaves, SortedAcross, Routed, Parented, Distinct, Linked, RootFirst,
      Nested;
    FlatMore(t, p, n);
    EdgeWithin(t, p, n);
    var c := Kid(t, p, n);
    FlatRises(t, c);
    if n > 0 {
      KidsRise(t, p, n - 1);
      assert Lo(t, Kid(t, p, n - 1)) < Lo(t, c);
      var a, b := FlatKids(t, p, n - 1), Flat(t, c);
      RisingConcat(t, a, Slots(t, p)[n - 1].sep, b, Lo(t, p), Lo(t, c));
      forall x | x in t.pages && Level(t, x) + 1 == Level(t, p) && Lo(t, c) < Lo(t, x)
        ensures Under(t, FlatKids(t, p, n), Lo(t, x))
      {
        UnderConcat(t, a, Slots(t, p)[n - 1].sep, b, Lo(t, x));
      }
    } else {
      assert Lo(t, Kid(t, p, 0)) == Lo(t, p);
    }
  }

  // ----- every leaf is read -----

  lemma {:induction false} InKids(t: Tree, p: Pid, n: nat, i: nat, x: Item)
    requires Typed(t) && Kids(t) && IsInner(t, p) && i <= n <= |Slots(t, p)| && Kid(t, p, i) in t.pages
    requires x in Flat(t, Kid(t, p, i))
    ensures x in FlatKids(t, p, n)
    decreases n
  {
    hide Flat, FlatKids;
    FlatMore(t, p, n);
    if i < n {
      InKids(t, p, n - 1, i, x);
    }
  }

  /** Without orphans, reading from the root meets every leaf. */
  lemma {:induction false} AllRead(t: Tree, z: Pid, c: Pid)
    requires Inv(t) && t.orphans == {} && c in t.pages && LeafAt(z) in Flat(t, c)
    ensures t.root in t.pages && LeafAt(z) in Flat(t, t.root)
    decreases Level(t, t.root) - Level(t, c)
  {
    hide Flat, FlatKids;
    assert Typed(t) && Parented(t);
    if c != t.root {
      assert HasParent(t, c);
      var p, i :| Edge(t, p, i, c);
      EdgeWithin(t, p, i);
      InKids(t, p, |Slots(t, p)|, i, LeafAt(z));
      FlatInner(t, p);
      AllRead(t, z, p);
    }
  }

  /** The leaves from left to right. */
  ghost function LeafSeq(s: seq<Item>): (r: seq<Pid>)
  {
    if |s| == 0 then [] else if s[0].LeafAt? then [s[0].z] + LeafSeq(s[1..]) else LeafSeq(s[1..])
  }

  ghost predicate SortedBy(t: Tree, zs: seq<Pid>)
  {
    forall i, j :: 0 <= i < j < |zs| ==> Lo(t, zs[i]) < Lo(t, zs[j])
  }

  lemma {:induction false} LeafSeqRises(t: Tree, s: seq<Item>, lo: real)
    requires Rising(t, s, lo)
    ensures SortedBy(t, LeafSeq(s)) && (forall z :: z in LeafSeq(s) <==> LeafAt(z) in s)
    ensures forall z :: z in LeafSeq(s) ==> IsLeaf(t, z) && lo <= Lo(t, z)
    decreases |s|
  {
    if |s| > 0 {
      RisingTail(t, s, lo);
      LeafSeqRises(t, s[1..], lo);
      assert s == [s[0]] + s[1..];
      if s[0].LeafAt? {
        FirstLowest(t, s, lo);
      }
    }
  }

  lemma RisingTail(t: Tree, s: seq<Item>, lo: real)
    requires Rising(t, s, lo) && |s| > 0
    ensures Rising(t, s[1..], lo)
  {
  }

  lemma FirstLowest(t: Tree, s: seq<Item>, lo: real)
    requires Rising(t, s, lo) && |s| > 0 && s[0].LeafAt?
    ensures forall z :: LeafAt(z) in s[1..] ==> Lo(t, s[0].z) < Lo(t, z)
  {
    forall z | LeafAt(z) in s[1..]
      ensures Lo(t, s[0].z) < Lo(t, z)
    {
      var i :| 0 <= i < |s[1..]| && s[1..][i] == LeafAt(z);
      assert s[i + 1] == LeafAt(z);
    }
  }

  /** The leaves of the whole tree in reading order. */
  ghost function Leaves(t: Tree): (zs: seq<Pid>)
    requires Inv(t)
  {
    LeafSeq(Flat(t, t.root))
  }

  /** Reading order is label order, and it contains exactly the leaves. */
  lemma LeavesInOrder(t: Tree)
    requires Inv(t) && t.orphans == {}
    ensures SortedBy(t, Leaves(t)) && (forall z :: z in Leaves(t) <==> IsLeaf(t, z))
  {
    hide Flat, Rising, LeafSeq;
    assert Typed(t) && Kids(t);
    FlatRises(t, t.root);
    LeafSeqRises(t, Flat(t, t.root), Lo(t, t.root));
    forall z | IsLeaf(t, z)
      ensures z in Leaves(t)
    {
      FlatLeaf(t, z);
      AllRead(t, z, z);
    }
  }

  /** The right and left links form one doubly linked list: the leaves in reading order. */
  lemma LinksAreOrder(t: Tree, i: nat)
    requires Inv(t) && t.orphans == {} && LeftLinked(t) && i < |Leaves(t)|
    ensures IsLeaf(t, Leaves(t)[i])
    ensures Right(t, Leaves(t)[i]) == if i + 1 < |Leaves(t)| then Leaves(t)[i + 1] else 0
    ensures Left(t, Leaves(t)[i]) == if i > 0 then Leaves(t)[i - 1] else 0
  {
    hide Leaves, Inv, LeftLinked, SortedBy, Right, Left;
    LeavesInOrder(t);
    var zs := Leaves(t);
    assert zs[i] in zs;
    RightIsNext(t, zs, i);
    if i > 0 {
      RightIsNext(t, zs, i - 1);
    }
    LeftIsBefore(t, zs, i);
  }

  lemma IndexOf(t: Tree, zs: seq<Pid>, i: nat, x: Pid) returns (j: nat)
    requires SortedBy(t, zs) && i < |zs| && x in zs
    ensures j < |zs| && zs[j] == x
    ensures Lo(t, zs[i]) < Lo(t, x) <==> i < j
    ensures Lo(t, x) < Lo(t, zs[i]) <==> j < i
  {
    j :| 0 <= j < |zs| && zs[j] == x;
    assert i < j ==> Lo(t, zs[i]) < Lo(t, zs[j]);
    assert j < i ==> Lo(t, zs[j]) < Lo(t, zs[i]);
  }

  lemma RightIsNext(t: Tree, zs: seq<Pid>, i: nat)
    requires Inv(t) && SortedBy(t, zs) && (forall z :: z in zs <==> IsLeaf(t, z)) && i < |zs|
    ensures Right(t, zs[i]) == if i + 1 < |zs| then zs[i + 1] else 0
  {
    hide SortedLeaves, SortedAcross, Routed, Kids, KidsUp, Nested, Parented, RootFirst;
    assert zs[i] in zs;
    LinkedAt(t, zs[i]);
    var r := Right(t, zs[i]);
    if i + 1 < |zs| {
      assert zs[i + 1] in zs && Lo(t, zs[i]) < Lo(t, zs[i + 1]);
      var j := IndexOf(t, zs, i + 1, r);
    }
    if r != 0 {
      var j := IndexOf(t, zs, i, r);
    }
  }

  lemma LeftIsBefore(t: Tree, zs: seq<Pid>, i: nat)
    requires Inv(t) && LeftLinked(t) && SortedBy(t, zs) && (forall z :: z in zs <==> IsLeaf(t, z)) && i < |zs|
    requires i > 0 ==> Right(t, zs[i - 1]) == zs[i]
    ensures Left(t, zs[i]) == if i > 0 then zs[i - 1] else 0
  {
    hide SortedLeaves, SortedAcross, Routed, Kids, KidsUp, Nested, Parented, RootFirst;
    assert zs[i] in zs;
    assert LeftOk(t, zs[i]);
    var y := Left(t, zs[i]);
    if i > 0 {
      assert zs[i - 1] in zs && Lo(t, zs[i - 1]) < Lo(t, zs[i]);
      LinkedAt(t, zs[i - 1]);
      LinkedAt(t, y);
      assert Typed(t);
    }
    if y != 0 {
      LinkedAt(t, y);
      var j := IndexOf(t, zs, i, y);
    }
  }

  // ----- separators -----

  /** Every separator is at least every key of every leaf read before it. */
  ghost predicate SepsCover(t: Tree, s: seq<Item>)
  {
    forall i, j :: 0 <= i < j < |s| && s[i].LeafAt? && s[j].Sep? ==> KeysAtMost(t, s[i].z, s[j].key)
  }

  ghost predicate KeysAtMost(t: Tree, z: Pid, k: Key)
  {
    forall n :: 0 <= n < |Entries(t, z)| ==> Num(Entries(t, z)[n].key) <= Num(k)
  }

  /** Every separator in the items covers every leaf labelled below the next leaf. */
  ghost predicate SepsBound(t: Tree, s: seq<Item>)
  {
    forall j :: 0 <= j < |s| - 1 && s[j].Sep? ==> s[j + 1].LeafAt? && AtMost(t, Lo(t, s[j + 1].z), Num(s[j].key))
  }

  lemma BoundConcat(t: Tree, a: seq<Item>, k: Key, b: seq<Item>)
    requires SepsBound(t, a) && SepsBound(t, b) && |a| > 0 && a[|a| - 1].LeafAt? && |b| > 0 && b[0].LeafAt?
    requires AtMost(t, Lo(t, b[0].z), Num(k))
    ensures SepsBound(t, a + [Sep(k)] + b)
  {
    hide AtMost, Num;
    var s := a + [Sep(k)] + b;
    assert forall i :: 0 <= i < |a| ==> s[i] == a[i];
    assert forall i :: |a| < i < |s| ==> s[i] == b[i - |a| - 1];
  }

  lemma {:induction false} FlatBounds(t: Tree, p: Pid)
    requires Inv(t) && p in t.pages
    ensures SepsBound(t, Flat(t, p)) && Lo(t, Flat(t, p)[0].z) == Lo(t, p)
    decreases Level(t, p), |Slots(t, p)| + 1
  {
    hide FlatKids, SepsBound, SortedLeaves, SortedAcross, Routed, Parented, Distinct, Linked, RootFirst, Nested;
    if IsInner(t, p) {
      KidsBound(t, p, |Slots(t, p)|);
    } else {
      OneLeafBounds(t, p);
    }
  }

  lemma OneLeafBounds(t: Tree, p: Pid)
    ensures SepsBound(t, [LeafAt(p)])
  {
  }

  lemma {:induction false} KidsBound(t: Tree, p: Pid, n: nat)
    requires Inv(t) && IsInner(t, p) && n <= |Slots(t, p)|
    ensures SepsBound(t, FlatKids(t, p, n)) && Lo(t, FlatKids(t, p, n)[0].z) == Lo(t, p)
    decreases Level(t, p), n
  {
    hide Flat, FlatKids, SepsBound, SortedLeaves, SortedAcross, Parented, Distinct, Linked, RootFirst, Nested, Num,
      Routed, Kids, KidsUp, Typed, AtMost;
    FlatMore(t, p, n);
    EdgeWithin(t, p, n);
    FlatBounds(t, Kid(t, p, n));
    if n > 0 {
      KidsBound(t, p, n - 1);
      SepCovers(t, p, n - 1);
      BoundConcat(t, FlatKids(t, p, n - 1), Slots(t, p)[n - 1].sep, Flat(t, Kid(t, p, n)));
    } else {
      FirstLo(t, p);
    }
  }

  lemma SepCovers(t: Tree, p: Pid, i: nat)
    requires Routed(t) && i < |Slots(t, p)|
    ensures AtMost(t, Lo(t, Kid(t, p, i + 1)), Num(Slots(t, p)[i].sep))
  {
    assert SepOk(t, Slots(t, p)[i].sep, Lo(t, Kid(t, p, i + 1)));
  }

  lemma FirstLo(t: Tree, p: Pid)
    requires KidsUp(t) && IsInner(t, p)
    ensures Lo(t, Kid(t, p, 0)) == Lo(t, p)
  {
  }

  /** Read from left to right, every separator is at least every key before it, although separators may be out of
      order. */
  lemma SeparatorsCover(t: Tree)
    requires Inv(t)
    ensures t.root in t.pages && SepsCover(t, Flat(t, t.root))
  {
    hide Flat, Alternates, Rising, SepsBound, AtMost, Inv;
    RootLevel(t, t.root);
    InvFlat(t);
    var s := Flat(t, t.root);
    FlatRises(t, t.root);
    FlatBounds(t, t.root);
    forall i, j | 0 <= i < j < |s| && s[i].LeafAt? && s[j].Sep?
      ensures KeysAtMost(t, s[i].z, s[j].key)
    {
      CoverAt(t, s, Lo(t, t.root), i, j);
    }
  }

  lemma InvFlat(t: Tree)
    requires Inv(t)
    ensures Typed(t) && Kids(t)
  {
  }

  lemma CoverAt(t: Tree, s: seq<Item>, lo: real, i: nat, j: nat)
    requires Rising(t, s, lo) && SepsBound(t, s) && i < j < |s| && s[i].LeafAt? && s[j].Sep? && s[|s| - 1].LeafAt?
    ensures KeysAtMost(t, s[i].z, s[j].key)
  {
    assert s[j + 1].LeafAt? && AtMost(t, Lo(t, s[j + 1].z), Num(s[j].key));
    assert Lo(t, s[i].z) < Lo(t, s[j + 1].z);
  }

  // ----- leaf splits and merges -----

  /** `t` is `u` with separator `sep` and leaf `r` inserted behind leaf `z`, child `i` of `p`; the separator behind
      both may have become `next`. */
  ghost predicate LeafAdded(u: Tree, t: Tree, p: Pid, i: nat, z: Pid, sep: Key, r: Pid, next: Option<Key>)
  {
    && Edge(u, p, i, z) && IsLeaf(u, z) && r !in u.pages && IsLeaf(t, z) && IsLeaf(t, r)
    && (forall x :: x in u.pages && x != p ==> SameNode(u, t, x))
    && IsInner(t, p) && Level(t, p) == Level(u, p) && |Slots(t, p)| == |Slots(u, p)| + 1
    && (forall j :: 0 <= j <= i ==> Kid(t, p, j) == Kid(u, p, j)) && Kid(t, p, i + 1) == r
    && (forall j :: i < j <= |Slots(u, p)| ==> Kid(t, p, j + 1) == Kid(u, p, j))
    && (forall j :: 0 <= j < i ==> Slots(t, p)[j].sep == Slots(u, p)[j].sep) && Slots(t, p)[i].sep == sep
    && (forall j :: i < j < |Slots(u, p)| ==> Slots(t, p)[j + 1].sep == Slots(u, p)[j].sep)
    && (if next.Some? then i < |Slots(u, p)| && Slots(t, p)[i + 1].sep == next.value
        else i < |Slots(u, p)| ==> Slots(t, p)[i + 1].sep == Slots(u, p)[i].sep)
  }

  /** The reading with `mid` in place of leaf `z`, and `next` in place of the separator behind it. */
  function Grown(s: seq<Item>, z: Pid, mid: seq<Item>, next: Option<Key>): seq<Item>
  {
    if |s| == 0 then []
    else if s[0] != LeafAt(z) then [s[0]] + Grown(s[1..], z, mid, next)
    else if next.None? || |s| == 1 then mid + Grown(s[1..], z, mid, next)
    else mid + [Sep(next.value)] + Grown(s[2..], z, mid, next)
  }

  /** Leaf `z` does not end the reading where its separator is to be changed. */
  predicate Apart(s: seq<Item>, z: Pid, next: Option<Key>)
  {
    next.Some? ==> |s| > 0 && s[|s| - 1] != LeafAt(z)
  }

  lemma {:induction false} GrownConcat(a: seq<Item>, b: seq<Item>, z: Pid, mid: seq<Item>, next: Option<Key>)
    requires |a| == 0 || Apart(a, z, next)
    ensures Grown(a + b, z, mid, next) == Grown(a, z, mid, next) + Grown(b, z, mid, next)
    decreases |a|
  {
    hide Grown;
    if |a| == 0 {
      assert a + b == b;
      GrownNone(z, mid, next);
    } else {
      var k := if a[0] == LeafAt(z) && next.Some? then 2 else 1;
      GrownStep(a, z, mid, next);
      GrownStep(a + b, z, mid, next);
      assert (a + b)[k..] == a[k..] + b;
      GrownConcat(a[k..], b, z, mid, next);
      Associates(Head(a, z, mid, next), Grown(a[k..], z, mid, next), Grown(b, z, mid, next));
    }
  }

  /** What the first item, or the first leaf with its separator, becomes. */
  function Head(s: seq<Item>, z: Pid, mid: seq<Item>, next: Option<Key>): seq<Item>
    requires |s| > 0
  {
    if s[0] != LeafAt(z) then [s[0]] else if next.None? || |s| == 1 then mid else mid + [Sep(next.value)]
  }

  lemma GrownStep(s: seq<Item>, z: Pid, mid: seq<Item>, next: Option<Key>)
    requires |s| > 0 && (s[0] == LeafAt(z) && next.Some? ==> |s| > 1)
    ensures var k := if s[0] == LeafAt(z) && next.Some? then 2 else 1;
      Grown(s, z, mid, next) == Head(s, z, mid, next) + Grown(s[k..], z, mid, next)
  {
  }

  lemma GrownNone(z: Pid, mid: seq<Item>, next: Option<Key>)
    ensures Grown([], z, mid, next) == []
  {
  }

  lemma Associates(a: seq<Item>, b: seq<Item>, c: seq<Item>)
    ensures a + (b + c) == (a + b) + c
  {
  }

  lemma {:induction false} GrownAbsent(s: seq<Item>, z: Pid, mid: seq<Item>, next: Option<Key>)
    requires LeafAt(z) !in s
    ensures Grown(s, z, mid, next) == s
    decreases |s|
  {
    hide Grown;
    if |s| > 0 {
      assert s[0] in s;
      assert forall x :: x in s[1..] ==> x in s;
      GrownStep(s, z, mid, next);
      GrownAbsent(s[1..], z, mid, next);
      assert s == [s[0]] + s[1..];
    } else {
      assert s == [];
      GrownNone(z, mid, next);
    }
  }

  /** If `z` is read once, the new reading differs from the old one in that place only. */
  lemma GrownOnce(a: seq<Item>, x: seq<Item>, b: seq<Item>, z: Pid, mid: seq<Item>, next: Option<Key>)
    requires LeafAt(z) !in a && LeafAt(z) !in x && LeafAt(z) !in b && (next.Some? ==> |x| == 1)
    ensures Grown(a + [LeafAt(z)] + x + b, z, mid, next) == a + mid + (if next.Some? then [Sep(next.value)] else x) + b
  {
    var s := [LeafAt(z)] + x + b;
    assert a + [LeafAt(z)] + x + b == a + s;
    assert Apart(a, z, next) || |a| == 0 by {
      if |a| > 0 {
        assert a[|a| - 1] in a;
      }
    }
    GrownConcat(a, s, z, mid, next);
    GrownAbsent(a, z, mid, next);
    GrownHere(x, b, z, mid, next);
  }

  lemma GrownHere(x: seq<Item>, b: seq<Item>, z: Pid, mid: seq<Item>, next: Option<Key>)
    requires LeafAt(z) !in x && LeafAt(z) !in b && (next.Some? ==> |x| == 1)
    ensures Grown([LeafAt(z)] + x + b, z, mid, next) == mid + (if next.Some? then [Sep(next.value)] else x) + b
  {
    hide Grown;
    var s := [LeafAt(z)] + x + b;
    GrownStep(s, z, mid, next);
    if next.Some? {
      assert s[2..] == b;
      GrownAbsent(b, z, mid, next);
    } else {
      assert s[1..] == x + b;
      GrownAbsent(x + b, z, mid, next);
      Associates(mid, x, b);
    }
  }

  /** The two readings agree but for one place, where `x` stands in the one and `y` in the other. */
  ghost predicate Differ(s: seq<Item>, s': seq<Item>, x: seq<Item>, y: seq<Item>)
  {
    exists a, b :: Parts(s, a, x, b) && Parts(s', a, y, b)
  }

  ghost predicate Parts(s: seq<Item>, a: seq<Item>, x: seq<Item>, b: seq<Item>)
  {
    s == a + x + b
  }

  // At the parent, everything but the split leaf is another leaf.

  /** The edges up to the split leaf read the same. */
  lemma ParentFront(u: Tree, t: Tree, p: Pid, i: nat, z: Pid, sep: Key, r: Pid, next: Option<Key>)
    requires Inv(u) && Inv(t) && LeafAdded(u, t, p, i, z, sep, r, next)
    ensures IsInner(u, p) && i <= |Slots(u, p)| && FlatKids(t, p, i) == FlatKids(u, p, i)
    ensures FlatKids(t, p, i + 1) == Around(FlatKids(u, p, i), sep, [LeafAt(r)])
    ensures var s := FlatKids(u, p, i); s[|s| - 1] == LeafAt(z)
  {
    hide Flat, FlatKids, SortedLeaves, SortedAcross, Routed, KidsUp, Kids, Typed, Nested, Parented, Distinct, Linked,
      RootFirst;
    forall j | 0 <= j <= i
      ensures FlatsAlike(u, t, Kid(u, p, j), Kid(t, p, j))
    {
      SiblingReads(u, t, p, i, z, sep, r, next, j);
    }
    KidsSame(u, t, p, p, i);
    FlatMore(t, p, i + 1);
    FlatMore(u, p, i);
    FlatLeaf(u, z);
    FlatLeaf(t, r);
  }

  lemma SiblingReads(u: Tree, t: Tree, p: Pid, i: nat, z: Pid, sep: Key, r: Pid, next: Option<Key>, j: nat)
    requires Inv(u) && Inv(t) && LeafAdded(u, t, p, i, z, sep, r, next) && j <= |Slots(u, p)|
    ensures Kid(u, p, j) in u.pages && FlatsAlike(u, t, Kid(u, p, j), Kid(u, p, j))
  {
    hide Flat, FlatKids, SortedLeaves, SortedAcross, Routed, KidsUp, Nested, Parented, Distinct, Linked, RootFirst;
    EdgeWithin(u, p, i);
    EdgeWithin(u, p, j);
    assert SameNode(u, t, Kid(u, p, j)) && IsLeaf(u, Kid(u, p, j));
    FlatLeaf(u, Kid(u, p, j));
    FlatLeaf(t, Kid(u, p, j));
  }

  /** The edges behind it read the same, but for the separator. */
  lemma {:induction false} ParentTail(u: Tree, t: Tree, p: Pid, i: nat, z: Pid, sep: Key, r: Pid, next: Option<Key>,
                                      n: nat) returns (b: seq<Item>)
    requires Inv(u) && Inv(t) && LeafAdded(u, t, p, i, z, sep, r, next) && i < n <= |Slots(u, p)|
    ensures IsInner(u, p) && |b| > 0 && b[|b| - 1].LeafAt?
    ensures FlatKids(u, p, n) == Around(FlatKids(u, p, i), Slots(u, p)[i].sep, b)
    ensures FlatKids(t, p, n + 1) == Around(FlatKids(t, p, i + 1), Slots(t, p)[i + 1].sep, b)
    decreases n
  {
    hide Around, Flat, FlatKids, SortedLeaves, SortedAcross, Routed, KidsUp, Kids, Typed, Nested, Parented, Distinct,
      Linked, RootFirst;
    SiblingReads(u, t, p, i, z, sep, r, next, n);
    FlatMore(u, p, n);
    FlatMore(t, p, n + 1);
    var last := Flat(u, Kid(u, p, n));
    if n == i + 1 {
      b := last;
    } else {
      var b' := ParentTail(u, t, p, i, z, sep, r, next, n - 1);
      b := Around(b', Slots(u, p)[n - 1].sep, last);
      Reassociate(FlatKids(u, p, i), Slots(u, p)[i].sep, b', Slots(u, p)[n - 1].sep, last);
      Reassociate(FlatKids(t, p, i + 1), Slots(t, p)[i + 1].sep, b', Slots(u, p)[n - 1].sep, last);
      AroundEnds(b', Slots(u, p)[n - 1].sep, last);
    }
  }

  lemma AroundEnds(a: seq<Item>, k: Key, b: seq<Item>)
    requires |b| > 0
    ensures |Around(a, k, b)| > 0 && Around(a, k, b)[|Around(a, k, b)| - 1] == b[|b| - 1]
  {
  }

  function Both(z: Pid, sep: Key, r: Pid): seq<Item>
  {
    [LeafAt(z), Sep(sep), LeafAt(r)]
  }

  /** Below `q`, `t` reads as `u` with the new leaf put in. */
  ghost predicate ReadsGrown(u: Tree, t: Tree, q: Pid, z: Pid, sep: Key, r: Pid, next: Option<Key>)
  {
    && Inv(u) && Inv(t) && q in u.pages && q in t.pages
    && Flat(t, q) == Grown(Flat(u, q), z, Both(z, sep, r), next) && Apart(Flat(u, q), z, next)
  }

  lemma ParentGrown(u: Tree, t: Tree, p: Pid, i: nat, z: Pid, sep: Key, r: Pid, next: Option<Key>)
    requires Inv(u) && Inv(t) && LeafAdded(u, t, p, i, z, sep, r, next)
    ensures ReadsGrown(u, t, p, z, sep, r, next)
  {
    hide Flat, FlatKids, Inv, Grown, Rising;
    RisesOnce(u, p);
    ParentFront(u, t, p, i, z, sep, r, next);
    InvFlat(u);
    InvFlat(t);
    FlatInner(u, p);
    FlatInner(t, p);
    var s := FlatKids(u, p, i);
    var a := s[..|s| - 1];
    assert s == a + [LeafAt(z)];
    if i == |Slots(u, p)| {
      OnceIn(Flat(u, p), a, z, []);
      GrownOnce(a, [], [], z, Both(z, sep, r), next);
      GrownLast(a, z, sep, r, Flat(u, p), Flat(t, p));
    } else {
      var b := ParentTail(u, t, p, i, z, sep, r, next, |Slots(u, p)|);
      var x := [Sep(Slots(u, p)[i].sep)];
      GrownMiddle(a, x[0].key, b, z, sep, r, next, Slots(t, p)[i + 1].sep, Flat(u, p), Flat(t, p));
    }
  }

  /** Every leaf is read once. */
  ghost predicate Once(s: seq<Item>)
  {
    forall i, j :: 0 <= i < j < |s| && s[i].LeafAt? ==> s[i] != s[j]
  }

  lemma RisesOnce(t: Tree, p: Pid)
    requires Inv(t) && p in t.pages
    ensures Typed(t) && Kids(t) && Once(Flat(t, p))
  {
    hide Flat;
    FlatRises(t, p);
    var s := Flat(t, p);
    forall i, j | 0 <= i < j < |s| && s[i].LeafAt?
      ensures s[i] != s[j]
    {
      assert s[j].LeafAt? ==> Lo(t, s[i].z) < Lo(t, s[j].z);
    }
  }

  lemma OnceIn(s: seq<Item>, a: seq<Item>, z: Pid, b: seq<Item>)
    requires Once(s) && s == a + [LeafAt(z)] + b
    ensures LeafAt(z) !in a && LeafAt(z) !in b
  {
    assert s[|a|] == LeafAt(z);
    forall i | 0 <= i < |a|
      ensures a[i] != LeafAt(z)
    {
      assert s[i] == a[i];
    }
    forall i | 0 <= i < |b|
      ensures b[i] != LeafAt(z)
    {
      assert s[|a| + 1 + i] == b[i];
    }
  }

  lemma GrownLast(a: seq<Item>, z: Pid, sep: Key, r: Pid, s: seq<Item>, s': seq<Item>)
    requires s == a + [LeafAt(z)] && s' == Around(s, sep, [LeafAt(r)])
    ensures s == a + [LeafAt(z)] + [] + [] && s' == a + Both(z, sep, r) + [] + []
  {
  }

  lemma GrownMiddle(a: seq<Item>, x: Key, b: seq<Item>, z: Pid, sep: Key, r: Pid, next: Option<Key>, y: Key,
                    s: seq<Item>, s': seq<Item>)
    requires Once(s) && s == Around(a + [LeafAt(z)], x, b)
    requires s' == Around(Around(a + [LeafAt(z)], sep, [LeafAt(r)]), y, b)
    requires |b| > 0 && b[|b| - 1].LeafAt? && (if next.Some? then y == next.value else y == x)
    ensures s' == Grown(s, z, Both(z, sep, r), next) && Apart(s, z, next)
  {
    hide Grown;
    assert s == a + [LeafAt(z)] + [Sep(x)] + b;
    assert a + [LeafAt(z)] + ([Sep(x)] + b) == s;
    OnceIn(s, a, z, [Sep(x)] + b);
    assert forall e :: e in b ==> e in [Sep(x)] + b;
    GrownOnce(a, [Sep(x)], b, z, Both(z, sep, r), next);
    assert s' == a + Both(z, sep, r) + [Sep(y)] + b;
    assert s[|s| - 1] == b[|b| - 1];
    assert b[|b| - 1] in b;
  }

  lemma GrownAround(a: seq<Item>, k: Key, b: seq<Item>, z: Pid, mid: seq<Item>, next: Option<Key>)
    requires |a| > 0 && Apart(a, z, next) && Apart(b, z, next)
    ensures Grown(Around(a, k, b), z, mid, next) == Around(Grown(a, z, mid, next), k, Grown(b, z, mid, next))
    ensures Apart(Around(a, k, b), z, next)
  {
    hide Grown;
    assert Around(a, k, b) == a + ([Sep(k)] + b);
    GrownConcat(a, [Sep(k)] + b, z, mid, next);
    GrownConcat([Sep(k)], b, z, mid, next);
    GrownAbsent([Sep(k)], z, mid, next);
    var x, y := Grown(a, z, mid, next), Grown(b, z, mid, next);
    assert x + ([Sep(k)] + y) == Around(x, k, y);
    if next.Some? {
      AroundEnds(a, k, b);
    }
  }

  lemma {:induction false} KidsGrown(u: Tree, t: Tree, q: Pid, n: nat, z: Pid, sep: Key, r: Pid, next: Option<Key>)
    requires Inv(u) && Inv(t) && IsInner(u, q) && SameNode(u, t, q) && n <= |Slots(u, q)|
    requires forall j :: 0 <= j <= n ==> ReadsGrown(u, t, Kid(u, q, j), z, sep, r, next)
    ensures IsInner(t, q) && FlatKids(t, q, n) == Grown(FlatKids(u, q, n), z, Both(z, sep, r), next)
    ensures Apart(FlatKids(u, q, n), z, next)
    decreases n
  {
    hide Inv, Flat, FlatKids, Grown, Around, Apart, Both;
    InvFlat(u);
    InvFlat(t);
    StillInner(u, t, q);
    FlatMore(u, q, n);
    FlatMore(t, q, n);
    assert ReadsGrown(u, t, Kid(u, q, n), z, sep, r, next);
    if n > 0 {
      KidsGrown(u, t, q, n - 1, z, sep, r, next);
      GrownAround(FlatKids(u, q, n - 1), Slots(u, q)[n - 1].sep, Flat(u, Kid(u, q, n)), z, Both(z, sep, r), next);
    }
  }

  lemma StillInner(u: Tree, t: Tree, q: Pid)
    requires Typed(u) && Typed(t) && IsInner(u, q) && SameNode(u, t, q)
    ensures IsInner(t, q)
  {
  }

  lemma {:induction false} AboveGrown(u: Tree, t: Tree, p: Pid, i: nat, z: Pid, sep: Key, r: Pid, next: Option<Key>,
                                      q: Pid)
    requires Inv(u) && Inv(t) && LeafAdded(u, t, p, i, z, sep, r, next) && q in u.pages && q != z
    ensures ReadsGrown(u, t, q, z, sep, r, next)
    decreases Level(u, q)
  {
    hide Inv, Flat, FlatKids, Grown, Apart;
    LevelsOfCut(u, p, i, z);
    if q == p {
      ParentGrown(u, t, p, i, z, sep, r, next);
    } else {
      assert SameNode(u, t, q);
      if IsLeaf(u, q) {
        OtherLeafReads(u, t, q, z, sep, r, next);
      } else {
        forall j | 0 <= j <= |Slots(u, q)|
          ensures ReadsGrown(u, t, Kid(u, q, j), z, sep, r, next)
        {
          NotItsChild(u, p, i, z, q, j);
          AboveGrown(u, t, p, i, z, sep, r, next, Kid(u, q, j));
        }
        KidsGrown(u, t, q, |Slots(u, q)|, z, sep, r, next);
        InvFlat(u);
        InvFlat(t);
        FlatInner(u, q);
        FlatInner(t, q);
      }
    }
  }

  lemma OtherLeafReads(u: Tree, t: Tree, q: Pid, z: Pid, sep: Key, r: Pid, next: Option<Key>)
    requires Inv(u) && Inv(t) && IsLeaf(u, q) && IsLeaf(t, q) && q != z
    ensures ReadsGrown(u, t, q, z, sep, r, next)
  {
    hide Inv, Flat, Grown;
    InvFlat(u);
    InvFlat(t);
    FlatLeaf(u, q);
    FlatLeaf(t, q);
    GrownAbsent([LeafAt(q)], z, Both(z, sep, r), next);
  }

  lemma NotItsChild(u: Tree, p: Pid, i: nat, z: Pid, q: Pid, j: nat)
    requires Inv(u) && Edge(u, p, i, z) && q != p && IsInner(u, q) && j <= |Slots(u, q)|
    ensures Kid(u, q, j) in u.pages && Kid(u, q, j) != z && Level(u, Kid(u, q, j)) < Level(u, q)
  {
    EdgeWithin(u, q, j);
    if Kid(u, q, j) == z {
      UniqueParent(u, p, i, q, j, z);
    }
  }

  /** The whole reading: one leaf and one separator more, in one place, and nothing else but the separator behind. */
  lemma AddedReading(u: Tree, t: Tree, p: Pid, i: nat, z: Pid, sep: Key, r: Pid, next: Option<Key>)
    requires Inv(u) && Inv(t) && LeafAdded(u, t, p, i, z, sep, r, next) && t.root == u.root
    ensures t.root in t.pages && u.root in u.pages
    ensures Flat(t, t.root) == Grown(Flat(u, u.root), z, Both(z, sep, r), next)
    ensures u.orphans == {} ==>
      var x := if next.Some? then [Sep(Slots(u, p)[i].sep)] else [];
      var y := if next.Some? then [Sep(next.value)] else [];
      Differ(Flat(u, u.root), Flat(t, t.root), [LeafAt(z)] + x, Both(z, sep, r) + y)
  {
    hide Inv, Flat, Grown, Differ, Apart, Once;
    RootLevel(u, p);
    RootLevel(t, p);
    NotRoot(u, p, i, z);
    InvFlat(u);
    InvFlat(t);
    AboveGrown(u, t, p, i, z, sep, r, next, u.root);
    if u.orphans == {} {
      FlatLeaf(u, z);
      AllRead(u, z, z);
      RisesOnce(u, u.root);
      if next.None? {
        DiffersAt(Flat(u, u.root), z, Both(z, sep, r));
        assert [LeafAt(z)] + [] == [LeafAt(z)] && Both(z, sep, r) + [] == Both(z, sep, r);
      } else {
        NextRead(u, p, i, z);
        DiffersNext(Flat(u, u.root), z, Slots(u, p)[i].sep, Both(z, sep, r), next.value);
      }
    }
  }

  lemma DiffersAt(s: seq<Item>, z: Pid, mid: seq<Item>)
    requires Once(s) && LeafAt(z) in s
    ensures Differ(s, Grown(s, z, mid, None), [LeafAt(z)], mid)
  {
    hide Grown;
    var k :| 0 <= k < |s| && s[k] == LeafAt(z);
    var a, b := s[..k], s[k + 1..];
    assert s == a + [LeafAt(z)] + b == a + [LeafAt(z)] + [] + b;
    OnceIn(s, a, z, b);
    GrownOnce(a, [], b, z, mid, None);
    assert a + mid + [] + b == a + mid + b;
    assert Parts(s, a, [LeafAt(z)], b);
    assert Parts(Grown(s, z, mid, None), a, mid, b);
  }

  /** In the reading, the separator behind child `i` of `p`, a leaf, stands right behind that leaf. */
  ghost predicate Follows(s: seq<Item>, z: Pid, sep: Key)
  {
    exists k :: 0 <= k < |s| - 1 && s[k] == LeafAt(z) && s[k + 1] == Sep(sep)
  }

  lemma DiffersNext(s: seq<Item>, z: Pid, sep: Key, mid: seq<Item>, next: Key)
    requires Once(s) && Follows(s, z, sep)
    ensures Differ(s, Grown(s, z, mid, Some(next)), [LeafAt(z)] + [Sep(sep)], mid + [Sep(next)])
  {
    hide Grown, Once;
    var k :| 0 <= k < |s| - 1 && s[k] == LeafAt(z) && s[k + 1] == Sep(sep);
    var a, b := s[..k], s[k + 2..];
    CutTwo(s, k);
    Twice(a, [LeafAt(z)], [Sep(sep)], b);
    Twice(a, mid, [Sep(next)], b);
    OnceIn(s, a, z, [Sep(sep)] + b);
    NotInTail(z, [Sep(sep)], b);
    GrownOnce(a, [Sep(sep)], b, z, mid, Some(next));
    assert Parts(s, a, [LeafAt(z)] + [Sep(sep)], b);
    assert Parts(Grown(s, z, mid, Some(next)), a, mid + [Sep(next)], b);
  }

  lemma CutTwo(s: seq<Item>, k: nat)
    requires k + 1 < |s|
    ensures s == s[..k] + [s[k]] + [s[k + 1]] + s[k + 2..]
  {
  }

  lemma Twice(a: seq<Item>, x: seq<Item>, y: seq<Item>, b: seq<Item>)
    ensures a + x + y + b == a + (x + y) + b == a + x + (y + b)
  {
  }

  lemma NotInTail(z: Pid, a: seq<Item>, b: seq<Item>)
    requires LeafAt(z) !in a + b
    ensures LeafAt(z) !in a && LeafAt(z) !in b
  {
    assert forall e :: e in a || e in b ==> e in a + b;
  }

  lemma FollowsAround(a: seq<Item>, k: Key, b: seq<Item>, z: Pid, sep: Key)
    ensures Follows(a, z, sep) || Follows(b, z, sep) ==> Follows(Around(a, k, b), z, sep)
    ensures |a| > 0 && a[|a| - 1] == LeafAt(z) && k == sep ==> Follows(Around(a, k, b), z, sep)
  {
    var s := Around(a, k, b);
    if |a| > 0 && a[|a| - 1] == LeafAt(z) && k == sep {
      assert s[|a| - 1] == LeafAt(z) && s[|a|] == Sep(sep);
    }
    if Follows(a, z, sep) {
      var n :| 0 <= n < |a| - 1 && a[n] == LeafAt(z) && a[n + 1] == Sep(sep);
      assert s[n] == a[n] && s[n + 1] == a[n + 1];
    }
    if Follows(b, z, sep) {
      var n :| 0 <= n < |b| - 1 && b[n] == LeafAt(z) && b[n + 1] == Sep(sep);
      assert s[|a| + 1 + n] == b[n] && s[|a| + 1 + n + 1] == b[n + 1];
    }
  }

  lemma {:induction false} FollowsKids(t: Tree, q: Pid, i: nat, n: nat, z: Pid, sep: Key)
    requires Inv(t) && IsInner(t, q) && i <= n <= |Slots(t, q)|
    requires Kid(t, q, i) in t.pages && Typed(t) && Kids(t)
    requires
      || Follows(Flat(t, Kid(t, q, i)), z, sep)
      || (Kid(t, q, i) == z && IsLeaf(t, z) && i < n && Slots(t, q)[i].sep == sep)
    ensures Follows(FlatKids(t, q, n), z, sep)
    decreases n
  {
    hide Inv, Flat, FlatKids, Around, Follows;
    FlatMore(t, q, n);
    if n > 0 {
      var a, b, k := FlatKids(t, q, n - 1), Flat(t, Kid(t, q, n)), Slots(t, q)[n - 1].sep;
      FollowsAround(a, k, b, z, sep);
      if i < n {
        if i == n - 1 && !Follows(Flat(t, Kid(t, q, i)), z, sep) {
          FlatMore(t, q, n - 1);
          FlatLeaf(t, z);
          if n - 1 > 0 {
            AroundEnds(FlatKids(t, q, n - 2), Slots(t, q)[n - 2].sep, [LeafAt(z)]);
          }
        } else {
          FollowsKids(t, q, i, n - 1, z, sep);
        }
      }
    }
  }

  lemma NextRead(t: Tree, p: Pid, i: nat, z: Pid)
    requires Inv(t) && t.orphans == {} && Edge(t, p, i, z) && IsLeaf(t, z) && i < |Slots(t, p)|
    ensures t.root in t.pages && Typed(t) && Kids(t) && Follows(Flat(t, t.root), z, Slots(t, p)[i].sep)
  {
    hide Inv, Flat, FlatKids, Follows;
    InvFlat(t);
    RootLevel(t, p);
    LevelsOfCut(t, p, i, z);
    FollowsKids(t, p, i, |Slots(t, p)|, z, Slots(t, p)[i].sep);
    FlatInner(t, p);
    FollowsUp(t, p, z, Slots(t, p)[i].sep);
  }

  lemma {:induction false} FollowsUp(t: Tree, c: Pid, z: Pid, sep: Key)
    requires Inv(t) && t.orphans == {} && c in t.pages && Typed(t) && Kids(t) && Follows(Flat(t, c), z, sep)
    ensures t.root in t.pages && Follows(Flat(t, t.root), z, sep)
    decreases Level(t, t.root) - Level(t, c)
  {
    hide Flat, FlatKids, Follows, SortedLeaves, SortedAcross, Routed, KidsUp, Nested, Distinct, Linked, RootFirst;
    if c != t.root {
      assert HasParent(t, c);
      var p, i :| Edge(t, p, i, c);
      LevelsOfCut(t, p, i, c);
      RootLevel(t, p);
      FollowsKids(t, p, i, |Slots(t, p)|, z, sep);
      FlatInner(t, p);
      FollowsUp(t, p, z, sep);
    }
  }

  /** Merging two neighbouring leaves takes the right one and the separator between them out of the reading, and
      rewrites the separator behind them if their parent has one; nothing else changes. */
  lemma LeafMergeReading(t: Tree, p: Pid, i: nat, m: map<Key, Value>)
    requires Inv(t) && t.orphans == {} && LeftLinked(t) && Stores(t, m) && IsInner(t, p) && i < |Slots(t, p)|
    requires IsLeaf(t, Kid(t, p, i)) && IsLeaf(t, Kid(t, p, i + 1)) && Right(t, Kid(t, p, i)) == Kid(t, p, i + 1)
    ensures Kid(t, p, i) != Kid(t, p, i + 1)
    ensures var l, r, s := Kid(t, p, i), Kid(t, p, i + 1), MergeLeaves(t, p, i);
      var merged := MergedSep(t.pages[p], i, Entries(t, l) + Entries(t, r));
      var x := if i + 1 < |Slots(t, p)| then [Sep(merged)] else [];
      var y := if i + 1 < |Slots(t, p)| then [Sep(Slots(t, p)[i + 1].sep)] else [];
      && Inv(s) && s.root in s.pages && t.root in t.pages
      && Differ(Flat(s, s.root), Flat(t, t.root), [LeafAt(l)] + x, Both(l, Slots(t, p)[i].sep, r) + y)
  {
    hide Inv, Stores, LeftLinked, MergeLeaves, ParentAfterLeafMerge, MergedLeaf, Flat, Differ, MergedSep;
    var l, r := Kid(t, p, i), Kid(t, p, i + 1);
    MergeLeavesKeeps(t, p, i, m);
    var s := MergeLeaves(t, p, i);
    PairApart(t, p, i);
    MergeLeavesPages(t, p, i);
    var merged := Entries(t, l) + Entries(t, r);
    var next := if i + 1 < |Slots(t, p)| then Some(Slots(t, p)[i + 1].sep) else None;
    MergeIsAdded(t, s, p, i, l, r, merged, next);
    AddedReading(s, t, p, i, l, Slots(t, p)[i].sep, r, next);
  }

  lemma MergeIsAdded(t: Tree, s: Tree, p: Pid, i: nat, l: Pid, r: Pid, merged: seq<Entry>, next: Option<Key>)
    requires IsInner(t, p) && i < |Slots(t, p)| && l == Kid(t, p, i) && r == Kid(t, p, i + 1) && IsLeaf(t, l)
    requires IsLeaf(t, r) && l != r
    requires s.pages ==
      t.pages[l := MergedLeaf(t.pages[l], t.pages[r])][p := ParentAfterLeafMerge(t.pages[p], i, merged)] - {r}
    requires forall q :: q != r ==> Level(s, q) == Level(t, q)
    requires next == if i + 1 < |Slots(t, p)| then Some(Slots(t, p)[i + 1].sep) else None
    ensures LeafAdded(s, t, p, i, l, Slots(t, p)[i].sep, r, next)
    ensures next.Some? ==> i < |Slots(s, p)| && Slots(s, p)[i].sep == MergedSep(t.pages[p], i, merged)
  {
    hide MergedSep, ParentAfterLeafMerge;
    MergedEdges(t.pages[p], i, merged);
    assert forall j :: 0 <= j <= |Slots(t, p)| ==> Kid(t, p, j) == Child(t.pages[p], j);
    assert forall j :: 0 <= j <= |Slots(s, p)| ==> Kid(s, p, j) == Child(s.pages[p], j);
    assert forall x :: x in s.pages && x != p && x != l ==> s.pages[x] == t.pages[x];
  }

  lemma MergedEdges(n: Node, i: nat, merged: seq<Entry>)
    requires n.Inner? && i < |n.slots|
    ensures var n' := ParentAfterLeafMerge(n, i, merged);
      && n'.Inner? && |n'.slots| + 1 == |n.slots|
      && (forall j :: 0 <= j <= i ==> Child(n', j) == Child(n, j))
      && (forall j :: i < j <= |n'.slots| ==> Child(n', j) == Child(n, j + 1))
      && (forall j :: 0 <= j < i ==> n'.slots[j].sep == n.slots[j].sep)
      && (forall j :: i < j < |n'.slots| ==> n'.slots[j].sep == n.slots[j + 1].sep)
      && (i < |n'.slots| ==> n'.slots[i].sep == MergedSep(n, i, merged))
  {
    hide MergedSep;
  }

  /** A leaf split, relinked and published, puts the new sibling and its separator behind the leaf; nothing else
      changes. */
  lemma LeafSplitReading(t: Tree, z: Pid, r: Pid, pending: Entry, plan: SplitPlan, m: map<Key, Value>, p: Pid, i: nat)
    requires Inv(t) && LeftLinked(t) && Stores(t, m) && Edge(t, p, i, z) && r != 0 && r !in t.pages
    requires IsLeaf(t, z) && Standing(t, z, pending.key) && !ChaseRight(t.pages[z], pending.key)
    requires plan.SplitPlan? && GoodPlan(Entries(t, z), pending, plan)
    ensures Entries(Installed(t, z, plan), z) == plan.left + plan.right
    ensures var s, sep := LeafSplit(t, z, r, plan), plan.left[|plan.left| - 1].key;
      && IsInner(s, p) && i <= |Slots(s, p)|
      && var u := Publish(s, p, i, sep, r);
         && Inv(u) && u.root in u.pages && t.root in t.pages
         && Flat(u, u.root) == Grown(Flat(t, t.root), z, Both(z, sep, r), None)
         && (t.orphans == {} ==> Differ(Flat(t, t.root), Flat(u, u.root), [LeafAt(z)], Both(z, sep, r)))
  {
    hide Inv, LeafSplit, Installed, InsertEdge, Stores, LeftLinked, Standing, NextAt, SepOk, Flat, Differ, Grown;
    var sep := plan.left[|plan.left| - 1].key;
    NotRoot(t, p, i, z);
    LeafSplitKeeps(t, z, r, pending, plan, m);
    var s := LeafSplit(t, z, r, plan);
    LeafSplitPagesOf(t, z, r, plan);
    SplitLevels(t, z, r, plan);
    SplitNodes(t, s, z, r, plan);
    assert Kid(s, p, i) == z;
    PublishKeeps(s, p, i, sep, r);
    SplitIsAdded(t, s, z, r, p, i, sep);
    AddedReading(t, Publish(s, p, i, sep, r), p, i, z, sep, r, None);
    assert [LeafAt(z)] + [] == [LeafAt(z)] && Both(z, sep, r) + [] == Both(z, sep, r);
  }

  lemma NotRoot(t: Tree, p: Pid, i: nat, z: Pid)
    requires Inv(t) && Edge(t, p, i, z)
    ensures z != t.root && p != z
  {
    EdgeWithin(t, p, i);
    assert Typed(t);
  }

  lemma SplitLevels(t: Tree, z: Pid, r: Pid, plan: SplitPlan)
    requires IsLeaf(t, z) && plan.SplitPlan? && Entries(Installed(t, z, plan), z) == plan.left + plan.right
    ensures var s := LeafSplit(t, z, r, plan); s.root == t.root && (forall x :: x != r ==> Level(s, x) == Level(t, x))
  {
  }

  /** A leaf split leaves every old page a leaf or an inner node as it was. */
  lemma SplitNodes(t: Tree, s: Tree, z: Pid, r: Pid, plan: SplitPlan)
    requires IsLeaf(t, z) && r !in t.pages && plan.SplitPlan?
    requires var n := t.pages[z];
      var halves := t.pages[r := Leaf(plan.right, z, n.right)][z := Leaf(plan.left, n.left, r)];
      s.pages == (if IsLeaf(t, n.right) then halves[n.right := t.pages[n.right].(left := r)] else halves)
    ensures r in s.pages && s.pages[r].Leaf?
    ensures forall x :: x in t.pages ==>
      x in s.pages && (if t.pages[x].Leaf? then s.pages[x].Leaf? else s.pages[x] == t.pages[x])
  {
  }

  lemma SplitIsAdded(t: Tree, s: Tree, z: Pid, r: Pid, p: Pid, i: nat, sep: Key)
    requires IsLeaf(t, z) && r !in t.pages && Edge(t, p, i, z) && r in s.pages && s.pages[r].Leaf?
    requires forall x :: x in t.pages ==>
      x in s.pages && (if t.pages[x].Leaf? then s.pages[x].Leaf? else s.pages[x] == t.pages[x])
    requires forall x :: x != r ==> Level(s, x) == Level(t, x)
    requires IsInner(s, p) && i <= |Slots(s, p)|
    ensures LeafAdded(t, Publish(s, p, i, sep, r), p, i, z, sep, r, None)
  {
    hide InsertEdge;
    var s' := Publish(s, p, i, sep, r);
    ParentFacts(t, s', p, i, sep, r);
    assert forall x :: x in s.pages && x != p ==> s'.pages[x] == s.pages[x];
  }
}
