/**
 Trees of pages, their invariant, and the descent that finds a key.

 Besides the pages, a tree carries two labels per page that exist only for
 reasoning.  `level` is the distance to the leaves.  `lo` orders the pages of one
 level: it is the label of the page's leftmost leaf, and leaves are ordered by it
 from left to right.  Labels are reals, so a new leaf can always be labelled
 between two old ones without relabelling anything.

 `orphans` holds right siblings that a split has created but no parent names yet.
 */
module Trees {
  import opened Keys
  import opened Pages

  datatype Tree = Tree(
    pages: map<Pid, Node>,
    root: Pid,
    lo: map<Pid, real>,
    level: map<Pid, nat>,
    orphans: set<Pid>)

  predicate IsLeaf(t: Tree, p: Pid)
  {
    p in t.pages && t.pages[p].Leaf?
  }

  predicate IsInner(t: Tree, p: Pid)
  {
    p in t.pages && t.pages[p].Inner?
  }

  // Total views of a tree, so that the invariant needs no side conditions.

  function Lo(t: Tree, p: Pid): real
  {
    if p in t.lo then t.lo[p] else 0.0
  }

  function Level(t: Tree, p: Pid): nat
  {
    if p in t.level then t.level[p] else 0
  }

  function Entries(t: Tree, z: Pid): seq<Entry>
  {
    if IsLeaf(t, z) then t.pages[z].entries else []
  }

  function Right(t: Tree, z: Pid): Pid
  {
    if IsLeaf(t, z) then t.pages[z].right else 0
  }

  function Left(t: Tree, z: Pid): Pid
  {
    if IsLeaf(t, z) then t.pages[z].left else 0
  }

  function Slots(t: Tree, p: Pid): seq<Slot>
  {
    if IsInner(t, p) then t.pages[p].slots else []
  }

  /** The child of inner page `p` at edge `i`; the last edge is the upper one. */
  function Kid(t: Tree, p: Pid, i: int): Pid
  {
    if !IsInner(t, p) then 0
    else if 0 <= i < |t.pages[p].slots| then t.pages[p].slots[i].child
    else t.pages[p].upper
  }

  // ----- the invariant, piece by piece -----

  /** Leaves are level 0, children one level below their parent, and the root alone on top. */
  ghost predicate Typed(t: Tree)
  {
    && 0 !in t.pages
    && t.root in t.pages
    && (forall p :: p in t.pages ==> (IsLeaf(t, p) <==> Level(t, p) == 0))
    && (forall p :: p in t.pages && p != t.root ==> Level(t, p) < Level(t, t.root))
  }

  ghost predicate Kids(t: Tree)
  {
    forall p, i :: IsInner(t, p) && 0 <= i <= |Slots(t, p)| ==>
      Kid(t, p, i) in t.pages && Level(t, Kid(t, p, i)) + 1 == Level(t, p)
  }

  /** Labels of children increase from the label of their parent. */
  ghost predicate KidsUp(t: Tree)
  {
    && (forall p :: IsInner(t, p) ==> Lo(t, Kid(t, p, 0)) == Lo(t, p))
    && (forall p, i, j :: IsInner(t, p) && 0 <= i < j <= |Slots(t, p)| ==> Lo(t, Kid(t, p, i)) < Lo(t, Kid(t, p, j)))
  }

  ghost predicate RootFirst(t: Tree)
  {
    forall p :: p in t.pages ==> Lo(t, t.root) <= Lo(t, p)
  }

  /** Pages of one level have different labels. */
  ghost predicate Distinct(t: Tree)
  {
    forall p, q :: p in t.pages && q in t.pages && Level(t, p) == Level(t, q) && Lo(t, p) == Lo(t, q) ==> p == q
  }

  /** The children of a page come before the next page of its level. */
  ghost predicate Nested(t: Tree)
  {
    forall p, q :: IsInner(t, p) && q in t.pages && Level(t, p) == Level(t, q) && Lo(t, p) < Lo(t, q) ==>
      Lo(t, Kid(t, p, |Slots(t, p)|)) < Lo(t, q)
  }

  ghost predicate Edge(t: Tree, p: Pid, i: int, c: Pid)
  {
    IsInner(t, p) && 0 <= i <= |Slots(t, p)| && Kid(t, p, i) == c
  }

  ghost predicate HasParent(t: Tree, c: Pid)
  {
    exists p, i :: Edge(t, p, i, c)
  }

  /** Exactly the root and the orphans have no parent. */
  ghost predicate Parented(t: Tree)
  {
    && t.orphans <= t.pages.Keys - {t.root}
    && (forall c :: c in t.pages && c != t.root && c !in t.orphans ==> HasParent(t, c))
    && (forall c, p, i :: c in t.orphans ==> !Edge(t, p, i, c))
  }

  ghost predicate SortedLeaves(t: Tree)
  {
    forall z, i, j :: 0 <= i < j < |Entries(t, z)| ==> Num(Entries(t, z)[i].key) < Num(Entries(t, z)[j].key)
  }

  ghost predicate SortedAcross(t: Tree)
  {
    forall y, z, i, j :: Lo(t, y) < Lo(t, z) && 0 <= i < |Entries(t, y)| && 0 <= j < |Entries(t, z)| ==>
      Num(Entries(t, y)[i].key) < Num(Entries(t, z)[j].key)
  }

  /** Every key in a leaf labelled below `bound` is smaller than `x`. */
  ghost predicate AllBelow(t: Tree, bound: real, x: real)
  {
    forall z, j :: Lo(t, z) < bound && 0 <= j < |Entries(t, z)| ==> Num(Entries(t, z)[j].key) < x
  }

  /** Every key in a leaf labelled below `bound` is at most `x`. */
  ghost predicate AtMost(t: Tree, bound: real, x: real)
  {
    forall z, j :: Lo(t, z) < bound && 0 <= j < |Entries(t, z)| ==> Num(Entries(t, z)[j].key) <= x
  }

  /** What a separator in front of label `bound` promises: nothing to its left exceeds it, and only
      the very last leaf to its left may reach it.  Separators need not be sorted. */
  ghost predicate SepOk(t: Tree, sep: Key, bound: real)
  {
    && AtMost(t, bound, Num(sep))
    && (forall y :: IsLeaf(t, y) && Lo(t, y) < bound ==> AllBelow(t, Lo(t, y), Num(sep)))
  }

  ghost predicate Routed(t: Tree)
  {
    forall p, i :: 0 <= i < |Slots(t, p)| ==> SepOk(t, Slots(t, p)[i].sep, Lo(t, Kid(t, p, i + 1)))
  }

  /** `r` names the leaf right after label `x`, or there is none and `r` is 0. */
  ghost predicate NextLeaf(t: Tree, x: real, r: Pid)
  {
    if r == 0 then forall z :: IsLeaf(t, z) ==> Lo(t, z) <= x
    else IsLeaf(t, r) && x < Lo(t, r) && forall z :: IsLeaf(t, z) && x < Lo(t, z) ==> Lo(t, r) <= Lo(t, z)
  }

  ghost predicate Linked(t: Tree)
  {
    forall z :: IsLeaf(t, z) ==> NextLeaf(t, Lo(t, z), Right(t, z))
  }

  lemma LinkedAt(t: Tree, z: Pid)
    requires Linked(t) && IsLeaf(t, z)
    ensures NextLeaf(t, Lo(t, z), Right(t, z))
  {
  }

  /** The shape of the tree: everything but the keys. */
  ghost predicate Shaped(t: Tree)
  {
    && Typed(t)
    && Kids(t)
    && KidsUp(t)
    && RootFirst(t)
    && Distinct(t)
    && Nested(t)
    && Parented(t)
    && Linked(t)
  }

  /** The invariant of every tree state, including those in the middle of a split. */
  ghost predicate Inv(t: Tree)
  {
    && Shaped(t)
    && SortedLeaves(t)
    && SortedAcross(t)
    && Routed(t)
  }

  ghost predicate Holds(t: Tree, e: Entry)
  {
    exists z, i :: 0 <= i < |Entries(t, z)| && Entries(t, z)[i] == e
  }

  /** `m` is the map stored in the leaves. */
  ghost predicate Stores(t: Tree, m: map<Key, Value>)
  {
    forall e :: Holds(t, e) <==> e.key in m && m[e.key] == e.value
  }

  lemma HoldsAt(t: Tree, z: Pid, i: nat)
    requires i < |Entries(t, z)|
    ensures Holds(t, Entries(t, z)[i])
  {
  }

  /** A tree stores one map. */
  lemma StoresUnique(t: Tree, m: map<Key, Value>, m': map<Key, Value>)
    requires Stores(t, m) && Stores(t, m')
    ensures m == m'
  {
    forall k | k in m
      ensures k in m' && m'[k] == m[k]
    {
      assert Holds(t, Entry(k, m[k]));
    }
    forall k | k in m'
      ensures k in m
    {
      assert Holds(t, Entry(k, m'[k]));
    }
  }

  // ----- the descent -----

  /** A reader at `p` looking for `key` has overshot nothing. */
  ghost predicate Standing(t: Tree, p: Pid, key: Key)
  {
    p in t.pages && AllBelow(t, Lo(t, p), Num(key))
  }

  /** Every page's label is the label of some leaf: itself, or one that a parent names. */
  lemma {:induction false} LeftmostLeaf(t: Tree, p: Pid) returns (z: Pid)
    requires Typed(t) && Kids(t) && KidsUp(t)
    requires p in t.pages
    ensures IsLeaf(t, z) && Lo(t, z) == Lo(t, p)
    ensures z == p || HasParent(t, z)
    decreases Level(t, p)
  {
    if t.pages[p].Leaf? {
      z := p;
    } else {
      z := LeftmostLeaf(t, Kid(t, p, 0));
      assert Edge(t, p, 0, Kid(t, p, 0));
    }
  }

  lemma RootStands(t: Tree, key: Key)
    requires Typed(t) && RootFirst(t)
    ensures Standing(t, t.root, key)
  {
  }

  /** One routing step never overshoots, even though separators may be out of order. */
  lemma RouteStands(t: Tree, p: Pid, key: Key)
    requires Typed(t) && Kids(t) && KidsUp(t) && Routed(t)
    requires IsInner(t, p) && Standing(t, p, key)
    ensures Standing(t, Child(t.pages[p], Route(t.pages[p], key)), key)
  {
    var n := t.pages[p];
    var (i, exact) := LowerBound(Separators(n.slots), key);
    var c := Kid(t, p, i);
    if i == 0 {
      assert Lo(t, c) == Lo(t, p);
    } else if exact {
      var y := LeftmostLeaf(t, c);
      assert Lo(t, c) < Lo(t, Kid(t, p, i + 1));
      assert SepOk(t, Slots(t, p)[i].sep, Lo(t, Kid(t, p, i + 1)));
    } else {
      assert SepOk(t, Slots(t, p)[i - 1].sep, Lo(t, c));
    }
  }

  /** Moving to the right sibling when the chase rule says so never overshoots. */
  lemma ChaseStands(t: Tree, p: Pid, key: Key)
    requires Typed(t) && Distinct(t) && SortedLeaves(t) && Linked(t)
    requires IsLeaf(t, p) && Standing(t, p, key) && ChaseRight(t.pages[p], key)
    ensures Standing(t, t.pages[p].right, key)
    ensures Lo(t, p) < Lo(t, t.pages[p].right)
  {
    var n := t.pages[p];
    var r := n.right;
    assert NextLeaf(t, Lo(t, p), r);
    if |n.entries| > 0 {
      NumIsOrder(n.entries[|n.entries| - 1].key, key);
      assert Num(Entries(t, p)[|n.entries| - 1].key) < Num(key);
    }
    forall z, j | Lo(t, z) < Lo(t, r) && 0 <= j < |Entries(t, z)|
      ensures Num(Entries(t, z)[j].key) < Num(key)
    {
      assert IsLeaf(t, z);
      if Lo(t, z) == Lo(t, p) {
        assert z == p;
      }
    }
  }

  /** Where a reader of page `n` goes next; 0 means it stops there. */
  function NextHop(n: Node, key: Key): Pid
  {
    if n.Inner? then Child(n, Route(n, key))
    else if ChaseRight(n, key) then n.right
    else 0
  }

  /** The leaves to the right of label `x`. */
  ghost function LeavesAfter(t: Tree, x: real): set<Pid>
  {
    set z | z in t.pages && IsLeaf(t, z) && x < Lo(t, z)
  }

  lemma {:induction false} SubsetSize<T>(a: set<T>, b: set<T>)
    requires a <= b
    ensures |a| <= |b|
    ensures a != b ==> |a| < |b|
  {
    if a != {} {
      var x :| x in a;
      SubsetSize(a - {x}, b - {x});
    } else if b != {} {
      var x :| x in b;
      assert |b - {x}| + 1 == |b|;
    }
  }

  /** A hop keeps the reader standing and brings it closer to its leaf. */
  lemma HopStands(t: Tree, p: Pid, key: Key)
    requires Inv(t) && Standing(t, p, key)
    requires NextHop(t.pages[p], key) != 0
    ensures Standing(t, NextHop(t.pages[p], key), key)
    ensures var h := NextHop(t.pages[p], key);
      || Level(t, h) < Level(t, p)
      || (Level(t, h) == Level(t, p) == 0 && |LeavesAfter(t, Lo(t, h))| < |LeavesAfter(t, Lo(t, p))|)
  {
    var n := t.pages[p];
    var h := NextHop(n, key);
    if n.Inner? {
      RouteStands(t, p, key);
      assert h == Kid(t, p, Route(n, key));
    } else {
      ChaseStands(t, p, key);
      assert NextLeaf(t, Lo(t, p), h);
      assert h in LeavesAfter(t, Lo(t, p)) && h !in LeavesAfter(t, Lo(t, h));
      SubsetSize(LeavesAfter(t, Lo(t, h)), LeavesAfter(t, Lo(t, p)));
    }
  }

  lemma StopIsLeaf(t: Tree, p: Pid, key: Key)
    requires Typed(t) && Kids(t) && p in t.pages
    ensures NextHop(t.pages[p], key) == 0 ==> IsLeaf(t, p)
  {
    if IsInner(t, p) {
      assert Kid(t, p, Route(t.pages[p], key)) in t.pages;
    }
  }

  /** The leaf at which a reader starting from `p` stops. */
  ghost function Locate(t: Tree, p: Pid, key: Key): (z: Pid)
    requires Inv(t) && Standing(t, p, key)
    ensures IsLeaf(t, z) && Standing(t, z, key) && !ChaseRight(t.pages[z], key)
    decreases Level(t, p), |LeavesAfter(t, Lo(t, p))|
  {
    var h := NextHop(t.pages[p], key);
    if h == 0 then
      StopIsLeaf(t, p, key);
      p
    else
      HopStands(t, p, key);
      Locate(t, h, key)
  }

  /** Where the reader stops, the key is stored if it is stored anywhere. */
  lemma StopIsRight(t: Tree, z: Pid, key: Key, y: Pid, i: nat)
    requires Typed(t) && Distinct(t) && SortedAcross(t) && Linked(t)
    requires IsLeaf(t, z) && Standing(t, z, key) && !ChaseRight(t.pages[z], key)
    requires i < |Entries(t, y)| && Entries(t, y)[i].key == key
    ensures y == z
  {
    var es := t.pages[z].entries;
    assert IsLeaf(t, y);
    assert Lo(t, z) <= Lo(t, y);
    LinkedAt(t, z);
    if |es| > 0 {
      NumIsOrder(es[|es| - 1].key, key);
      var last := Entries(t, z)[|es| - 1];
      var found := Entries(t, y)[i];
      assert Lo(t, z) < Lo(t, y) ==> Num(last.key) < Num(found.key);
    }
  }

  datatype Option<T> = None | Some(value: T)

  /** The value a page holds for `key`. */
  function ValueIn(n: Node, key: Key): Option<Value>
    requires n.Leaf?
  {
    var (pos, exact) := LowerBound(EntryKeys(n.entries), key);
    if exact then Some(n.entries[pos].value) else None
  }

  function MapGet(m: map<Key, Value>, key: Key): Option<Value>
  {
    if key in m then Some(m[key]) else None
  }

  lemma EntryKeysSorted(t: Tree, z: Pid)
    requires SortedLeaves(t) && IsLeaf(t, z)
    ensures SortedKeys(EntryKeys(t.pages[z].entries))
  {
    var es := t.pages[z].entries;
    forall i, j | 0 <= i < j < |es|
      ensures Num(EntryKeys(es)[i]) < Num(EntryKeys(es)[j])
    {
      assert Num(Entries(t, z)[i].key) < Num(Entries(t, z)[j].key);
    }
  }

  /** At the leaf where a reader stops, the page answers exactly what the stored map holds. */
  lemma StopAnswers(t: Tree, z: Pid, key: Key, m: map<Key, Value>)
    requires Inv(t) && IsLeaf(t, z) && Standing(t, z, key) && !ChaseRight(t.pages[z], key)
    requires Stores(t, m)
    ensures ValueIn(t.pages[z], key) == MapGet(m, key)
  {
    hide LowerBound, Num, LexLess, Typed, Kids, KidsUp, RootFirst, Distinct, Nested, Parented, Linked, SortedLeaves,
      SortedAcross, Routed,
      Standing, ChaseRight, Holds;
    var es := t.pages[z].entries;
    EntryKeysSorted(t, z);
    LowerBoundSorted(EntryKeys(es), key);
    var (pos, exact) := LowerBound(EntryKeys(es), key);
    if exact {
      HoldsAt(t, z, pos);
      assert Entries(t, z)[pos].key == key;
    }
    if key in m {
      assert Holds(t, Entry(key, m[key]));
      var i := StopHolds(t, z, key, m[key]);
      assert EntryKeys(es)[i] == key;
    }
  }

  /** The leaf a reader stops on is the one that holds the key. */
  lemma StopHolds(t: Tree, z: Pid, key: Key, v: Value) returns (i: nat)
    requires Typed(t) && Distinct(t) && SortedAcross(t) && Linked(t)
    requires IsLeaf(t, z) && Standing(t, z, key) && !ChaseRight(t.pages[z], key) && Holds(t, Entry(key, v))
    ensures i < |Entries(t, z)| && Entries(t, z)[i] == Entry(key, v)
  {
    hide LexLess, Num, Typed, Distinct, SortedAcross, Linked, Standing, ChaseRight;
    var y, j :| 0 <= j < |Entries(t, y)| && Entries(t, y)[j] == Entry(key, v);
    StopIsRight(t, z, key, y, j);
    i := j;
  }

  /** Lookup by routing and chasing right. */
  ghost function Lookup(t: Tree, key: Key): Option<Value>
    requires Inv(t)
  {
    RootStands(t, key);
    ValueIn(t.pages[Locate(t, t.root, key)], key)
  }

  /** In every state that satisfies the invariant, lookup reads the stored map. */
  lemma LookupAgrees(t: Tree, key: Key, m: map<Key, Value>)
    requires Inv(t) && Stores(t, m)
    ensures Lookup(t, key) == MapGet(m, key)
  {
    RootStands(t, key);
    StopAnswers(t, Locate(t, t.root, key), key, m);
  }
}
