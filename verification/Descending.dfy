/**
 What a descending scan reads: the leaves on the chain of left links from the leaf where
 it starts, which are all leaves in front of that one if every left link is right.
 */
module Descending {
  import opened Keys
  import opened Pages
  import opened Trees
  import opened LeftLinks
  import opened Scans

  /** The leaves met by following left links from `z`. */
  ghost function LeftChain(t: Tree, z: Pid): (chain: set<Pid>)
    requires LeftDown(t) && IsLeaf(t, z)
    ensures z in chain && forall w :: w in chain ==> IsLeaf(t, w) && (w != z ==> Lo(t, w) < Lo(t, z))
    decreases |LeavesBefore(t, Lo(t, z))|
  {
    if Left(t, z) == 0 then {z} else
      FewerBefore(t, z);
      {z} + LeftChain(t, Left(t, z))
  }

  lemma FewerBefore(t: Tree, z: Pid)
    requires LeftDown(t) && IsLeaf(t, z) && Left(t, z) != 0
    ensures |LeavesBefore(t, Lo(t, Left(t, z)))| < |LeavesBefore(t, Lo(t, z))|
  {
    var y := Left(t, z);
    assert y in LeavesBefore(t, Lo(t, z)) && y !in LeavesBefore(t, Lo(t, y));
    SubsetSize(LeavesBefore(t, Lo(t, y)), LeavesBefore(t, Lo(t, z)));
  }

  /** The chain has no leaf between a leaf and the one its left link names. */
  lemma {:induction false} ChainGap(t: Tree, z0: Pid, z: Pid, w: Pid)
    requires LeftDown(t) && IsLeaf(t, z0) && z in LeftChain(t, z0) && w in LeftChain(t, z0)
    ensures Left(t, z) != 0 ==> Left(t, z) in LeftChain(t, z0)
    ensures w == z || Lo(t, z) < Lo(t, w) || (Left(t, z) != 0 && Lo(t, w) <= Lo(t, Left(t, z)))
    decreases |LeavesBefore(t, Lo(t, z0))|
  {
    if Left(t, z0) != 0 {
      FewerBefore(t, z0);
      if z != z0 {
        ChainGap(t, Left(t, z0), z, if w == z0 then z else w);
      }
    }
  }

  /** The tree with only the entries of the leaves in `chain`. */
  ghost function Kept(t: Tree, chain: set<Pid>): Tree
  {
    t.(pages := map p | p in t.pages ::
         if t.pages[p].Leaf? && p !in chain then t.pages[p].(entries := []) else t.pages[p])
  }

  lemma KeptFrame(t: Tree, chain: set<Pid>)
    ensures forall z :: Entries(Kept(t, chain), z) == if z in chain then Entries(t, z) else []
    ensures forall z :: Lo(Kept(t, chain), z) == Lo(t, z)
  {
  }

  lemma KeptSorted(t: Tree, chain: set<Pid>)
    requires SortedLeaves(t) && SortedAcross(t)
    ensures SortedLeaves(Kept(t, chain)) && SortedAcross(Kept(t, chain))
  {
    hide Kept;
    KeptFrame(t, chain);
  }

  /** The part of the map that a descending scan from `z` can read. */
  ghost function Seen(t: Tree, m: map<Key, Value>, z: Pid): map<Key, Value>
    requires LeftDown(t) && IsLeaf(t, z)
  {
    map k | k in m && Holds(Kept(t, LeftChain(t, z)), Entry(k, m[k])) :: m[k]
  }

  lemma SeenStored(t: Tree, m: map<Key, Value>, z: Pid)
    requires LeftDown(t) && IsLeaf(t, z) && Stores(t, m)
    ensures Stores(Kept(t, LeftChain(t, z)), Seen(t, m, z))
  {
    hide Kept, LeftDown;
    var k := Kept(t, LeftChain(t, z));
    KeptFrame(t, LeftChain(t, z));
    forall e | Holds(k, e)
      ensures e.key in m && m[e.key] == e.value
    {
      var y, i :| 0 <= i < |Entries(k, y)| && Entries(k, y)[i] == e;
      HoldsAt(t, y, i);
    }
  }

  // ----- the scan, step by step -----

  lemma DownBegins(t: Tree, z: Pid, r: Range)
    requires LeftDown(t) && IsLeaf(t, z)
    ensures ListsAbove(Kept(t, LeftChain(t, z)), [], Lo(t, z), r)
  {
    hide Kept, LeftDown, Selects;
    KeptFrame(t, LeftChain(t, z));
  }

  /** What one leaf of the chain adds. */
  lemma DownReads(t: Tree, z0: Pid, asc: seq<Entry>, z: Pid, lower: Bound, upper: Bound, stop: nat, top: nat)
    requires Inv(t) && LeftDown(t) && IsLeaf(t, z0) && z in LeftChain(t, z0) && stop <= top <= |Entries(t, z)|
    requires ListsAbove(Kept(t, LeftChain(t, z0)), asc, Lo(t, z), Between(lower, upper))
    requires forall i :: 0 <= i < |Entries(t, z)| ==> (BelowUpper(upper, Entries(t, z)[i].key) <==> i < top)
    requires forall i :: stop <= i < top ==> AboveLower(lower, Entries(t, z)[i].key)
    requires stop > 0 ==> !AboveLower(lower, Entries(t, z)[stop - 1].key)
    ensures ListsFrom(Kept(t, LeftChain(t, z0)), Entries(t, z)[stop..top] + asc, z, Between(lower, upper))
    ensures stop > 0 ==> exists i :: 0 <= i < |Entries(t, z)| && !AboveLower(lower, Entries(t, z)[i].key)
  {
    hide AboveLower, BelowUpper, ListsAbove, ListsFrom, Kept, LeftDown, Shaped, SortedLeaves, SortedAcross, Routed,
      LeftChain;
    KeptFrame(t, LeftChain(t, z0));
    KeptSorted(t, LeftChain(t, z0));
    DownStep(Kept(t, LeftChain(t, z0)), asc, z, lower, upper, stop, top);
  }

  /** Going on to the leaf that the left link names skips nothing that is kept. */
  lemma DownOn(t: Tree, z0: Pid, asc: seq<Entry>, z: Pid, r: Range)
    requires LeftDown(t) && IsLeaf(t, z0) && z in LeftChain(t, z0) && Left(t, z) != 0
    requires ListsFrom(Kept(t, LeftChain(t, z0)), asc, z, r)
    ensures IsLeaf(t, Left(t, z)) && Left(t, z) in LeftChain(t, z0) && Lo(t, Left(t, z)) < Lo(t, z)
    ensures ListsAbove(Kept(t, LeftChain(t, z0)), asc, Lo(t, Left(t, z)), r)
    ensures |LeavesBefore(t, Lo(t, Left(t, z)))| < |LeavesBefore(t, Lo(t, z))|
  {
    hide Kept, Selects, LeavesBefore;
    var chain := LeftChain(t, z0);
    var k := Kept(t, chain);
    var y := Left(t, z);
    FewerBefore(t, z);
    KeptFrame(t, chain);
    ChainGap(t, z0, z, z);
    forall e: Entry
      ensures HeldFrom(k, e, z) <==> HeldAbove(k, e, Lo(t, y))
    {
      if e in Entries(k, z) {
        var i :| 0 <= i < |Entries(k, z)| && Entries(k, z)[i] == e;
        assert Lo(k, y) < Lo(k, z);
      }
      if HeldAbove(k, e, Lo(t, y)) {
        var x, i :| Lo(k, y) < Lo(k, x) && 0 <= i < |Entries(k, x)| && Entries(k, x)[i] == e;
        ChainGap(t, z0, z, x);
      }
    }
  }

  /** At the first leaf of the chain, or below the lower bound, everything is listed. */
  lemma DownDone(t: Tree, m: map<Key, Value>, z0: Pid, asc: seq<Entry>, z: Pid, lower: Bound, upper: Bound)
    requires Inv(t) && LeftDown(t) && Stores(t, m) && IsLeaf(t, z0) && z in LeftChain(t, z0)
    requires ListsFrom(Kept(t, LeftChain(t, z0)), asc, z, Between(lower, upper))
    requires Left(t, z) == 0 || (exists i :: 0 <= i < |Entries(t, z)| && !AboveLower(lower, Entries(t, z)[i].key))
    ensures Lists(Seen(t, m, z0), asc, Between(lower, upper))
  {
    hide Num, AboveLower, BelowUpper, Kept, Stores, LeftDown, Seen, LeftChain, Inv;
    var chain := LeftChain(t, z0);
    var k := Kept(t, chain);
    KeptFrame(t, chain);
    SeenStored(t, m, z0);
    forall e: Entry
      ensures e in asc <==>
        e.key in Seen(t, m, z0) && Seen(t, m, z0)[e.key] == e.value && Selects(Between(lower, upper), e.key)
    {
      StoredAs(k, Seen(t, m, z0), e);
      HeldFromSomewhere(k, e, z);
      if Holds(k, e) && !HeldFrom(k, e, z) {
        var y, j :| 0 <= j < |Entries(k, y)| && Entries(k, y)[j] == e;
        BelowDone(t, z0, z, lower, y, j);
      }
    }
  }

  lemma BelowDone(t: Tree, z0: Pid, z: Pid, lower: Bound, y: Pid, j: nat)
    requires Inv(t) && LeftDown(t) && IsLeaf(t, z0) && z in LeftChain(t, z0) && y in LeftChain(t, z0)
    requires j < |Entries(t, y)| && y != z && Lo(t, y) <= Lo(t, z)
    requires Left(t, z) == 0 || (exists i :: 0 <= i < |Entries(t, z)| && !AboveLower(lower, Entries(t, z)[i].key))
    ensures !AboveLower(lower, Entries(t, y)[j].key)
  {
    hide Num, AboveLower, LeftDown;
    ChainGap(t, z0, z, y);
    DownFrom(t, z);
    var i :| 0 <= i < |Entries(t, z)| && !AboveLower(lower, Entries(t, z)[i].key);
    assert Num(Entries(t, y)[j].key) < Num(Entries(t, z)[i].key);
    LowerDown(lower, Entries(t, y)[j].key, Entries(t, z)[i].key);
  }

  lemma DownFrom(t: Tree, z: Pid)
    requires LeftDown(t) && IsLeaf(t, z)
    ensures Left(t, z) != 0 ==> IsLeaf(t, Left(t, z)) && Lo(t, Left(t, z)) < Lo(t, z)
  {
  }

  lemma StoredAs(t: Tree, m: map<Key, Value>, e: Entry)
    requires Stores(t, m)
    ensures Holds(t, e) <==> e.key in m && m[e.key] == e.value
  {
  }

  // ----- when nothing is missed -----

  /** With all left links right the chain holds every leaf up to its start. */
  lemma {:induction false} ChainIsAll(t: Tree, z: Pid, w: Pid)
    requires Inv(t) && LeftLinked(t) && LeftDown(t) && IsLeaf(t, z) && IsLeaf(t, w) && Lo(t, w) <= Lo(t, z)
    ensures w in LeftChain(t, z)
    decreases |LeavesBefore(t, Lo(t, z))|
  {
    hide Inv, LeftDown;
    if w != z {
      BeforeIsLeft(t, z, w);
      FewerBefore(t, z);
      ChainIsAll(t, Left(t, z), w);
    }
  }

  lemma BeforeIsLeft(t: Tree, z: Pid, w: Pid)
    requires Inv(t) && LeftLinked(t) && IsLeaf(t, z) && IsLeaf(t, w) && Lo(t, w) <= Lo(t, z) && w != z
    ensures Left(t, z) != 0 && IsLeaf(t, Left(t, z)) && Lo(t, w) <= Lo(t, Left(t, z))
  {
    hide SortedLeaves, SortedAcross, Routed, Kids, KidsUp, Nested, Parented, RootFirst;
    assert LeftOk(t, z);
    if Left(t, z) != 0 {
      LinkedAt(t, Left(t, z));
    }
  }

  /** A descending scan misses nothing if all left links are right and, without an upper bound, it starts at the last
      leaf. */
  lemma SeesAll(t: Tree, m: map<Key, Value>, z: Pid, asc: seq<Entry>, lower: Bound, upper: Bound)
    requires Inv(t) && LeftDown(t) && LeftLinked(t) && Stores(t, m) && IsLeaf(t, z)
    requires if upper.Unbounded? then Right(t, z) == 0 else !ChaseRight(t.pages[z], upper.key)
    requires Lists(Seen(t, m, z), asc, Between(lower, upper))
    ensures Lists(m, asc, Between(lower, upper))
  {
    hide Num, AboveLower, BelowUpper, Kept, Stores, LeftDown, LeftLinked, ChaseRight, Inv;
    forall e: Entry | e.key in m && m[e.key] == e.value && Selects(Between(lower, upper), e.key)
      ensures e in asc
    {
      StoredAs(t, m, e);
      var y, i :| 0 <= i < |Entries(t, y)| && Entries(t, y)[i] == e;
      if Lo(t, z) < Lo(t, y) {
        InvBehindStop(t, z, upper, y, i);
      } else {
        ChainIsAll(t, z, y);
        KeptFrame(t, LeftChain(t, z));
        HoldsAt(Kept(t, LeftChain(t, z)), y, i);
      }
    }
  }

  lemma InvBehindStop(t: Tree, z: Pid, upper: Bound, y: Pid, i: nat)
    requires Inv(t) && IsLeaf(t, z) && Lo(t, z) < Lo(t, y) && i < |Entries(t, y)|
    requires if upper.Unbounded? then Right(t, z) == 0 else !ChaseRight(t.pages[z], upper.key)
    ensures !BelowUpper(upper, Entries(t, y)[i].key)
  {
    BehindStop(t, z, upper, y, i);
  }

  /** A leaf that no left link names is met only by a scan that starts there. */
  lemma {:induction false} NotNamed(t: Tree, z: Pid, r: Pid)
    requires LeftDown(t) && IsLeaf(t, z) && z != r && (forall y :: IsLeaf(t, y) ==> Left(t, y) != r)
    ensures r !in LeftChain(t, z)
    decreases |LeavesBefore(t, Lo(t, z))|
  {
    if Left(t, z) != 0 {
      FewerBefore(t, z);
      NotNamed(t, Left(t, z), r);
    }
  }

  /** The entries of such a leaf are missed by every other descending scan. */
  lemma Missed(t: Tree, m: map<Key, Value>, z: Pid, r: Pid, i: nat)
    requires Inv(t) && LeftDown(t) && Stores(t, m) && IsLeaf(t, z) && z != r && i < |Entries(t, r)|
    requires forall y :: IsLeaf(t, y) ==> Left(t, y) != r
    ensures Entries(t, r)[i].key in m && Entries(t, r)[i].key !in Seen(t, m, z)
  {
    hide Inv, LeftDown, Stores, Kept;
    var e := Entries(t, r)[i];
    HoldsAt(t, r, i);
    StoredAs(t, m, e);
    NotNamed(t, z, r);
    var k := Kept(t, LeftChain(t, z));
    KeptFrame(t, LeftChain(t, z));
    if Holds(k, Entry(e.key, m[e.key])) {
      var y, j :| 0 <= j < |Entries(k, y)| && Entries(k, y)[j] == Entry(e.key, m[e.key]);
      OneLeaf(t, r, i, y, j);
    }
  }

  lemma OneLeaf(t: Tree, a: Pid, i: nat, b: Pid, j: nat)
    requires Inv(t) && i < |Entries(t, a)| && j < |Entries(t, b)| && Entries(t, a)[i].key == Entries(t, b)[j].key
    ensures a == b
  {
    hide Num, SortedLeaves, Routed, Kids, KidsUp, Nested, Parented, RootFirst, Linked;
    assert IsLeaf(t, a) && IsLeaf(t, b);
  }
}
