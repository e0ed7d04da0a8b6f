/**
 Trees of height one, for the examples: any leaves under one root, with any separators.
 */
module Fans {
  import opened Keys
  import opened Pages
  import opened Trees
  import opened SplitSteps
  import opened EdgeSteps
  import opened LeftLinks
  import opened Splits

  predicate Among(p: nat, last: nat)
  {
    1 <= p <= last
  }

  /** Leaves under one root: leaf `i` is page `i + 2`, behind it separator `i`. */
  ghost function Fan(leaves: seq<seq<Entry>>, seps: seq<Key>): Tree
    requires |leaves| == |seps| + 1
  {
    var last := |leaves| + 1;
    Tree(
      map p: nat | p <= last && Among(p, last) ::
        if p == 1 then Inner(seq(|seps|, i requires 0 <= i < |seps| => Slot(seps[i], i + 2)), last)
        else Leaf(leaves[p - 2], if p == 2 then 0 else p - 1, if p == last then 0 else p + 1),
      1,
      map p: nat | p <= last && Among(p, last) :: if p == 1 then 0.0 else (p - 2) as real,
      map p: nat | p <= last && Among(p, last) :: if p == 1 then 1 else 0,
      {})
  }

  /** The leaves are in order and every separator covers what is before it. */
  ghost predicate FanSorted(leaves: seq<seq<Entry>>, seps: seq<Key>)
    requires |leaves| == |seps| + 1
  {
    && (forall i, a, b :: 0 <= i < |leaves| && 0 <= a < b < |leaves[i]| ==>
          Num(leaves[i][a].key) < Num(leaves[i][b].key))
    && (forall i, j, a, b :: 0 <= i < j < |leaves| && 0 <= a < |leaves[i]| && 0 <= b < |leaves[j]| ==>
          Num(leaves[i][a].key) < Num(leaves[j][b].key))
    && (forall i, s, a :: 0 <= i <= s < |seps| && 0 <= a < |leaves[i]| ==> Num(leaves[i][a].key) <= Num(seps[s]))
    && (forall i, s, a :: 0 <= i < s < |seps| && 0 <= a < |leaves[i]| ==> Num(leaves[i][a].key) < Num(seps[s]))
  }

  lemma FanPages(leaves: seq<seq<Entry>>, seps: seq<Key>)
    requires |leaves| == |seps| + 1
    ensures var t := Fan(leaves, seps);
      && t.root == 1 && t.orphans == {} && (forall p: Pid :: p in t.pages <==> 1 <= p <= |leaves| + 1)
      && IsInner(t, 1) && |Slots(t, 1)| == |seps|
      && (forall i :: 0 <= i < |seps| ==> Slots(t, 1)[i] == Slot(seps[i], i + 2))
      && (forall i :: 0 <= i <= |seps| ==> Kid(t, 1, i) == i + 2)
      && (forall p: Pid :: IsInner(t, p) <==> p == 1) && (forall p: Pid :: IsLeaf(t, p) <==> 2 <= p <= |leaves| + 1)
      && (forall p: Pid :: IsLeaf(t, p) ==>
            Entries(t, p) == leaves[p - 2] && Right(t, p) == (if p == |leaves| + 1 then 0 else p + 1)
            && Left(t, p) == (if p == 2 then 0 else p - 1))
  {
  }

  lemma FanLabels(leaves: seq<seq<Entry>>, seps: seq<Key>)
    requires |leaves| == |seps| + 1
    ensures var t := Fan(leaves, seps);
      && Lo(t, 1) == Lo(t, 2) == 0.0 && Level(t, 1) == 1
      && (forall p: Pid :: IsLeaf(t, p) ==> Level(t, p) == 0 && 0.0 <= Lo(t, p))
      && (forall p: Pid, q: Pid :: IsLeaf(t, p) && IsLeaf(t, q) ==> (Lo(t, p) < Lo(t, q) <==> p < q))
  {
    var t := Fan(leaves, seps);
    forall p: Pid | IsLeaf(t, p)
      ensures Level(t, p) == 0 && Lo(t, p) == (p - 2) as real
    {
      assert Among(p, |leaves| + 1);
    }
    assert Among(1, |leaves| + 1) && Among(2, |leaves| + 1);
  }

  lemma FanShape(leaves: seq<seq<Entry>>, seps: seq<Key>)
    requires |leaves| == |seps| + 1
    ensures var t := Fan(leaves, seps);
      Typed(t) && Kids(t) && KidsUp(t) && RootFirst(t) && Distinct(t) && Nested(t)
  {
    hide Fan;
    FanPages(leaves, seps);
    FanLabels(leaves, seps);
    var t := Fan(leaves, seps);
    assert forall p :: p in t.pages ==> p == 1 || IsLeaf(t, p);
  }

  lemma FanLinks(leaves: seq<seq<Entry>>, seps: seq<Key>)
    requires |leaves| == |seps| + 1
    ensures var t := Fan(leaves, seps); Parented(t) && Linked(t) && LeftLinked(t)
  {
    hide Fan;
    FanPages(leaves, seps);
    FanLabels(leaves, seps);
    var t := Fan(leaves, seps);
    forall c | c in t.pages && c != t.root
      ensures HasParent(t, c)
    {
      assert Edge(t, 1, c - 2, c);
    }
    forall z: Pid | IsLeaf(t, z)
      ensures NextLeaf(t, Lo(t, z), Right(t, z))
    {
      assert Right(t, z) != 0 ==> IsLeaf(t, z + 1);
    }
    forall z: Pid | IsLeaf(t, z)
      ensures LeftOk(t, z)
    {
      assert Left(t, z) != 0 ==> IsLeaf(t, z - 1);
    }
  }

  lemma FanKeys(leaves: seq<seq<Entry>>, seps: seq<Key>)
    requires |leaves| == |seps| + 1 && FanSorted(leaves, seps)
    ensures var t := Fan(leaves, seps); SortedLeaves(t) && SortedAcross(t)
  {
    hide Fan, Num;
    FanPages(leaves, seps);
    FanLabels(leaves, seps);
    var t := Fan(leaves, seps);
    assert forall z: Pid :: |Entries(t, z)| > 0 ==> IsLeaf(t, z);
  }

  lemma FanRoutes(leaves: seq<seq<Entry>>, seps: seq<Key>)
    requires |leaves| == |seps| + 1 && FanSorted(leaves, seps)
    ensures Routed(Fan(leaves, seps))
  {
    hide Fan, Num, SepOk;
    FanPages(leaves, seps);
    var t := Fan(leaves, seps);
    forall p, s | 0 <= s < |Slots(t, p)|
      ensures SepOk(t, Slots(t, p)[s].sep, Lo(t, Kid(t, p, s + 1)))
    {
      assert p == 1;
      FanSep(leaves, seps, s);
    }
  }

  lemma FanSep(leaves: seq<seq<Entry>>, seps: seq<Key>, s: nat)
    requires |leaves| == |seps| + 1 && FanSorted(leaves, seps) && s < |seps|
    ensures SepOk(Fan(leaves, seps), seps[s], Lo(Fan(leaves, seps), s + 3))
  {
    hide Fan, Num;
    FanPages(leaves, seps);
    FanLabels(leaves, seps);
    var t := Fan(leaves, seps);
    assert IsLeaf(t, s + 3);
    assert forall z: Pid :: |Entries(t, z)| > 0 ==> IsLeaf(t, z);
  }

  lemma FanOk(leaves: seq<seq<Entry>>, seps: seq<Key>)
    requires |leaves| == |seps| + 1 && FanSorted(leaves, seps)
    ensures Inv(Fan(leaves, seps)) && LeftLinked(Fan(leaves, seps))
  {
    hide Fan, Typed, Kids, KidsUp, RootFirst, Distinct, Nested, Parented, Linked, SortedLeaves, SortedAcross, Routed;
    FanShape(leaves, seps);
    FanLinks(leaves, seps);
    FanKeys(leaves, seps);
    FanRoutes(leaves, seps);
  }

  lemma FanStores(leaves: seq<seq<Entry>>, seps: seq<Key>, m: map<Key, Value>)
    requires |leaves| == |seps| + 1
    requires forall e: Entry :: (exists i, a :: 0 <= i < |leaves| && 0 <= a < |leaves[i]| && leaves[i][a] == e) <==>
      e.key in m && m[e.key] == e.value
    ensures Stores(Fan(leaves, seps), m)
  {
    hide Fan;
    FanPages(leaves, seps);
    var t := Fan(leaves, seps);
    forall e: Entry
      ensures Holds(t, e) <==> exists i, a :: 0 <= i < |leaves| && 0 <= a < |leaves[i]| && leaves[i][a] == e
    {
      if Holds(t, e) {
        var z, a :| 0 <= a < |Entries(t, z)| && Entries(t, z)[a] == e;
        assert leaves[z - 2][a] == e;
      }
      if i, a :| 0 <= i < |leaves| && 0 <= a < |leaves[i]| && leaves[i][a] == e {
        HoldsAt(t, i + 2, a);
      }
    }
  }

  /** The node of a page of a fan. */
  lemma FanNode(leaves: seq<seq<Entry>>, seps: seq<Key>, p: nat)
    requires |leaves| == |seps| + 1 && 1 <= p <= |leaves| + 1
    ensures var t := Fan(leaves, seps);
      && p in t.pages && p in t.lo && p in t.level
      && t.pages[p] == (
        if p == 1 then Inner(seq(|seps|, i requires 0 <= i < |seps| => Slot(seps[i], i + 2)), |leaves| + 1)
        else Leaf(leaves[p - 2], if p == 2 then 0 else p - 1, if p == |leaves| + 1 then 0 else p + 1))
      && t.lo[p] == (if p == 1 then 0.0 else (p - 2) as real) && t.level[p] == (if p == 1 then 1 else 0)
  {
    assert Among(p, |leaves| + 1);
  }

  lemma FanKeysAre(leaves: seq<seq<Entry>>, seps: seq<Key>)
    requires |leaves| == |seps| + 1
    ensures var t := Fan(leaves, seps);
      forall p: Pid ::
        && (p in t.pages <==> 1 <= p <= |leaves| + 1)
        && (p in t.lo <==> p in t.pages) && (p in t.level <==> p in t.pages)
  {
  }

  /** Splitting the last leaf of a fan and publishing the new one gives the longer fan. */
  lemma FanSplitsLast(front: seq<seq<Entry>>, seps: seq<Key>, left: seq<Entry>, right: seq<Entry>, sep: Key)
    requires |front| == |seps|
    ensures var t, z := Fan(front + [left + right], seps), |front| + 2;
      && IsLeaf(t, z) && Entries(t, z) == left + right && Right(t, z) == 0
      && var s := SplitLeaf(t, z, z + 1, |left|);
         && IsInner(s, 1) && |Slots(s, 1)| == |seps|
         && Publish(s, 1, |seps|, sep, z + 1) == Fan(front + [left, right], seps + [sep])
  {
    hide Fan, Publish, SplitLeaf;
    var leaves, leaves' := front + [left + right], front + [left, right];
    var t, u, z := Fan(leaves, seps), Fan(leaves', seps + [sep]), |front| + 2;
    FanNode(leaves, seps, 1);
    FanNode(leaves, seps, z);
    FanRoot(leaves, seps);
    FanRoot(leaves', seps + [sep]);
    SplitParts(t, z, z + 1, left, right, |seps|, sep);
    var v := Publish(SplitLeaf(t, z, z + 1, |left|), 1, |seps|, sep, z + 1);
    FanSplitPages(front, seps, left, right, sep, t.pages, u.pages, v.pages);
    FanSplitLabels(front, seps, left, right, sep);
  }

  lemma SplitParts(t: Tree, z: Pid, r: Pid, left: seq<Entry>, right: seq<Entry>, n: nat, sep: Key)
    requires IsLeaf(t, z) && Entries(t, z) == left + right && Right(t, z) == 0 && r !in t.orphans
    requires IsInner(t, 1) && |Slots(t, 1)| == n && z != 1 && r != 1 && z != r
    ensures var s := SplitLeaf(t, z, r, |left|);
      && IsInner(s, 1) && |Slots(s, 1)| == n
      && var v := Publish(s, 1, n, sep, r);
         && v.pages == t.pages[z := Leaf(left, Left(t, z), r)][r := Leaf(right, z, 0)]
              [1 := Inner(t.pages[1].slots + [Slot(sep, t.pages[1].upper)], r)]
         && v.lo == t.lo[r := Lo(t, z) + 1.0] && v.level == t.level[r := 0] && v.root == t.root
         && v.orphans == t.orphans
  {
    assert (left + right)[..|left|] == left && (left + right)[|left|..] == right;
  }

  lemma FanSplitPages(front: seq<seq<Entry>>, seps: seq<Key>, left: seq<Entry>, right: seq<Entry>, sep: Key,
      had: map<Pid, Node>, wanted: map<Pid, Node>, made: map<Pid, Node>)
    requires |front| == |seps|
    requires had == Fan(front + [left + right], seps).pages && wanted == Fan(front + [left, right], seps + [sep]).pages
    requires var z := |front| + 2;
      && 1 in had && had[1].Inner? && z in had && had[z].Leaf?
      && made == had[z := Leaf(left, had[z].left, z + 1)][z + 1 := Leaf(right, z, 0)]
           [1 := Inner(had[1].slots + [Slot(sep, had[1].upper)], z + 1)]
    ensures made == wanted
  {
    hide Fan;
    var leaves, leaves', z := front + [left + right], front + [left, right], |front| + 2;
    FanKeysAre(leaves, seps);
    FanKeysAre(leaves', seps + [sep]);
    FanLast(front, seps, left, right, sep);
    FanNode(leaves, seps, 1);
    forall p: Pid | 1 <= p <= z + 1
      ensures made[p] == wanted[p]
    {
      FanNode(leaves', seps + [sep], p);
      if p <= z {
        FanNode(leaves, seps, p);
      }
    }
  }

  lemma FanSplitLabels(front: seq<seq<Entry>>, seps: seq<Key>, left: seq<Entry>, right: seq<Entry>, sep: Key)
    requires |front| == |seps|
    ensures var t, u, z := Fan(front + [left + right], seps), Fan(front + [left, right], seps + [sep]), |front| + 2;
      u.lo == t.lo[z + 1 := Lo(t, z) + 1.0] && u.level == t.level[z + 1 := 0]
  {
    hide Fan;
    var leaves, leaves', z := front + [left + right], front + [left, right], |front| + 2;
    FanKeysAre(leaves, seps);
    FanKeysAre(leaves', seps + [sep]);
    forall p: Pid | 1 <= p <= z + 1
      ensures var t, u := Fan(leaves, seps), Fan(leaves', seps + [sep]);
        p in u.lo && p in u.level && u.lo[p] == t.lo[z + 1 := Lo(t, z) + 1.0][p] && u.level[p] == t.level[z + 1 := 0][p]
    {
      FanNode(leaves', seps + [sep], p);
      FanNode(leaves, seps, z);
      if p <= z {
        FanNode(leaves, seps, p);
      }
    }
  }

  lemma FanRoot(leaves: seq<seq<Entry>>, seps: seq<Key>)
    requires |leaves| == |seps| + 1
    ensures Fan(leaves, seps).root == 1 && Fan(leaves, seps).orphans == {}
  {
  }

  lemma FanLast(front: seq<seq<Entry>>, seps: seq<Key>, left: seq<Entry>, right: seq<Entry>, sep: Key)
    requires |front| == |seps|
    ensures (left + right)[..|left|] == left && (left + right)[|left|..] == right
    ensures seq(|seps|, i requires 0 <= i < |seps| => Slot(seps[i], i + 2)) + [Slot(sep, |seps| + 2)] ==
      seq(|seps| + 1, i requires 0 <= i < |seps| + 1 => Slot((seps + [sep])[i], i + 2))
  {
  }

  // ----- short keys -----

  function K(b: byte): Key { [b] }

  lemma ByteOrder(a: byte, b: byte)
    ensures Num(K(a)) < Num(K(b)) <==> a < b
    ensures LexLess(K(a), K(b)) <==> a < b
  {
    NumIsOrder(K(a), K(b));
  }

  lemma TwoCost(e: Entry, f: Entry)
    ensures LeafCost([e, f]) == EntryCost(e) + EntryCost(f)
  {
    assert [e, f] == [e] + [f];
    LeafCostConcat([e], [f]);
    LeafCostOne(e);
    LeafCostOne(f);
  }
}
