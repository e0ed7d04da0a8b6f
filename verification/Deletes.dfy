/**
 What one delete does, told on the tree it finds: when the separators above the leaf
 overflow, and when it leaves an empty leaf in front of others.
 */
module Deletes {
  import opened Keys
  import opened Pages
  import opened Trees
  import opened LeafSteps
  import opened Accounts
  import opened Descents
  import opened Removals
  import opened Stale

  /** The tree without the entry at `pos` of leaf `z`. */
  ghost function Dropped(t: Tree, z: Pid, pos: nat): Tree
    requires IsLeaf(t, z) && pos < |Entries(t, z)|
  {
    WithEntries(t, z, RemovedAt(Entries(t, z), pos))
  }

  /** The delete of the key at `pos` of leaf `z` finds no room: in a merge if the leaf is then underfull, else for
      the new largest key of the leaf in the first separator behind it.  `here` are the pages at hand for merging. */
  ghost predicate DropSticks(t: Tree, path: seq<Pid>, z: Pid, pos: nat, here: set<Pid>)
    requires IsLeaf(t, z) && pos < |Entries(t, z)|
  {
    var s, es := Dropped(t, z, pos), Entries(t, z);
    if Underfull(s.pages[z]) then LeafSticks(s, path, z, here)
    else 0 < pos == |es| - 1 && exists spot :: FirstBehind(t, path, z, spot) && !RepairFits(t, spot, es[pos - 1].key)
  }

  /** The delete of `key` panics, told on the tree before it. */
  ghost predicate DeleteSticks(t: Tree, key: Key, here: set<Pid>)
  {
    && Inv(t) && t.root in t.pages
    && var z := StopLeaf(t, key);
       exists pos: nat :: pos < |Entries(t, z)| && Entries(t, z)[pos].key == key
         && DropSticks(t, RoutePath(t, t.root, key), z, pos, here)
  }

  /** The delete merges the leaf away. */
  ghost predicate DropMerges(t: Tree, path: seq<Pid>, z: Pid, pos: nat, here: set<Pid>)
    requires IsLeaf(t, z) && pos < |Entries(t, z)|
  {
    Underfull(Dropped(t, z, pos).pages[z]) && LeafMergeDue(Dropped(t, z, pos), path, z, here)
  }

  ghost predicate DeleteMerges(t: Tree, key: Key, here: set<Pid>)
  {
    && Inv(t) && t.root in t.pages
    && var z := StopLeaf(t, key);
       exists pos: nat :: pos < |Entries(t, z)| && Entries(t, z)[pos].key == key
         && DropMerges(t, RoutePath(t, t.root, key), z, pos, here)
  }

  /** The tree after a delete that merges nothing: without the entry, and with the new largest key of the leaf in the
      first separator behind it if the old one is gone and the leaf is still well filled. */
  ghost predicate Mended(t: Tree, path: seq<Pid>, z: Pid, pos: nat, t': Tree)
    requires IsLeaf(t, z) && pos < |Entries(t, z)|
  {
    var s, es := Dropped(t, z, pos), Entries(t, z);
    if !Underfull(s.pages[z]) && 0 < pos == |es| - 1 && (exists spot :: FirstBehind(t, path, z, spot)) then
      exists spot :: FirstBehind(t, path, z, spot) && Repaired(s, t', spot, es[pos - 1].key)
    else t' == s
  }

  /** The key is the only one in its leaf, and other leaves follow. */
  ghost predicate Empties(t: Tree, key: Key)
  {
    && Inv(t)
    && var z := StopLeaf(t, key);
       |Entries(t, z)| == 1 && Entries(t, z)[0].key == key && Right(t, z) != 0
  }

  lemma SticksMeans(t: Tree, key: Key, z: Pid, pos: nat, here: set<Pid>)
    requires Inv(t) && IsLeaf(t, z) && Standing(t, z, key) && !ChaseRight(t.pages[z], key)
    requires pos < |Entries(t, z)| && Entries(t, z)[pos].key == key
    ensures t.root in t.pages
    ensures DeleteSticks(t, key, here) <==> DropSticks(t, RoutePath(t, t.root, key), z, pos, here)
    ensures DeleteMerges(t, key, here) <==> DropMerges(t, RoutePath(t, t.root, key), z, pos, here)
    ensures Empties(t, key) <==> |Entries(t, z)| == 1 && Right(t, z) != 0
  {
    hide Inv, DropSticks, DropMerges, RoutePath, ChaseRight, Standing;
    RootIn(t);
    StopIs(t, key, z);
    KeyOnce(t, z, pos);
  }

  lemma KeyOnce(t: Tree, z: Pid, pos: nat)
    requires Inv(t) && pos < |Entries(t, z)|
    ensures forall j: nat :: j < |Entries(t, z)| && Entries(t, z)[j].key == Entries(t, z)[pos].key ==> j == pos
  {
    EntriesSorted(t, z);
  }

  lemma DroppedLast(t: Tree, z: Pid, pos: nat)
    requires IsLeaf(t, z) && pos < |Entries(t, z)|
    ensures var es := RemovedAt(Entries(t, z), pos);
      |es| == |Entries(t, z)| - 1 && (0 < pos == |Entries(t, z)| - 1 ==> es[|es| - 1] == Entries(t, z)[pos - 1])
  {
  }

  lemma DropHollow(t: Tree, z: Pid, pos: nat)
    requires NoHollow(t) && IsLeaf(t, z) && pos < |Entries(t, z)| && (|Entries(t, z)| > 1 || Right(t, z) == 0)
    ensures NoHollow(Dropped(t, z, pos))
  {
    RemoveHollow(t, z, RemovedAt(Entries(t, z), pos));
  }

  // ----- the separator behind a leaf -----

  /** There is one first separator behind a page at most. */
  lemma {:induction false} BehindOnce(t: Tree, path: seq<Pid>, c: Pid, a: Spot, b: Spot)
    requires Inv(t) && FirstBehind(t, path, c, a) && FirstBehind(t, path, c, b)
    ensures a == b
    decreases |path|
  {
    hide Inv;
    var q := path[|path| - 1];
    var n := |Slots(t, q)|;
    assert a.p == q && a.i < n && Kid(t, q, a.i) == c ==> IsInner(t, q);
    assert b.p == q && b.i < n && Kid(t, q, b.i) == c ==> IsInner(t, q);
    if a.p == q && a.i < n && Kid(t, q, a.i) == c {
      OneEdgeOnly(t, q, c, a.i);
    } else if b.p == q && b.i < n && Kid(t, q, b.i) == c {
      OneEdgeOnly(t, q, c, b.i);
    } else {
      BehindOnce(t, path[..|path| - 1], q, a, b);
    }
  }

  lemma OneEdgeOnly(t: Tree, p: Pid, c: Pid, i: nat)
    requires Inv(t) && i < |Slots(t, p)| && Kid(t, p, i) == c
    ensures forall j :: 0 <= j <= |Slots(t, p)| && Kid(t, p, j) == c ==> j == i
  {
    hide Inv;
    forall j | 0 <= j <= |Slots(t, p)| && Kid(t, p, j) == c
      ensures j == i
    {
      OneEdge(t, p, c, i, j);
    }
  }

  /** Dropping an entry of a leaf moves no separator. */
  lemma {:induction false} DropBehind(t: Tree, z: Pid, pos: nat, path: seq<Pid>, c: Pid)
    requires IsLeaf(t, z) && pos < |Entries(t, z)|
    ensures forall s :: FirstBehind(Dropped(t, z, pos), path, c, s) <==> FirstBehind(t, path, c, s)
    decreases |path|
  {
    if |path| > 0 {
      var q := path[|path| - 1];
      assert Slots(Dropped(t, z, pos), q) == Slots(t, q);
      assert forall i :: Kid(Dropped(t, z, pos), q, i) == Kid(t, q, i);
      DropBehind(t, z, pos, path[..|path| - 1], q);
    }
  }

  lemma DropFits(t: Tree, z: Pid, pos: nat, s: Spot, sep: Key)
    requires IsLeaf(t, z) && pos < |Entries(t, z)|
    ensures RepairFits(Dropped(t, z, pos), s, sep) <==> RepairFits(t, s, sep)
  {
    hide RewriteFits;
  }

  /** Without its last page the path has no separator behind the leaf. */
  lemma NoneTwoUp(t: Tree, path: seq<Pid>, rest: seq<Pid>, z: Pid)
    requires Inv(t) && IsLeaf(t, z) && PathOk(t, path, 0)
    ensures rest == (if |path| == 0 then [] else path[..|path| - 1]) ==> forall s :: !FirstBehind(t, rest, z, s)
  {
    hide Inv, FirstBehind;
    if |path| > 1 && rest == path[..|path| - 1] {
      var q := path[|path| - 2];
      assert rest[|rest| - 1] == q && Level(t, q) > Level(t, path[|path| - 1]) > 0;
      forall j | 0 <= j <= |Slots(t, q)|
        ensures Kid(t, q, j) != z
      {
        KidsOf(t, q, j);
      }
      NoneBehind(t, rest, z);
    } else if rest == [] {
      NoneBehind(t, rest, z);
    }
  }

  /** What the repair after a delete meets: a leaf that is not underfull has its path whole. */
  lemma RepairSticks(t: Tree, z: Pid, pos: nat, path: seq<Pid>, spot: Option<Spot>, here: set<Pid>)
    requires IsLeaf(t, z) && pos < |Entries(t, z)| && Inv(t) && !Underfull(Dropped(t, z, pos).pages[z])
    requires var s := Dropped(t, z, pos);
      if spot.Some? then FirstBehind(s, path, z, spot.value) else forall x :: !FirstBehind(s, path, z, x)
    ensures DropSticks(t, path, z, pos, here) <==>
      && 0 < pos == |Entries(t, z)| - 1 && spot.Some?
      && !RepairFits(Dropped(t, z, pos), spot.value, Entries(t, z)[pos - 1].key)
  {
    hide Inv, FirstBehind, RepairFits, Underfull, Dropped;
    DropBehind(t, z, pos, path, z);
    if spot.Some? && 0 < pos {
      DropFits(t, z, pos, spot.value, Entries(t, z)[pos - 1].key);
      forall x | FirstBehind(t, path, z, x)
        ensures x == spot.value
      {
        BehindOnce(t, path, z, x, spot.value);
      }
    }
  }

  lemma MendsHere(t: Tree, path: seq<Pid>, z: Pid, pos: nat, spot: Option<Spot>, t': Tree)
    requires IsLeaf(t, z) && pos < |Entries(t, z)| && !Underfull(Dropped(t, z, pos).pages[z])
    requires var s := Dropped(t, z, pos);
      if spot.Some? then FirstBehind(s, path, z, spot.value) else forall x :: !FirstBehind(s, path, z, x)
    requires var s := Dropped(t, z, pos);
      if spot.Some? && 0 < pos == |Entries(t, z)| - 1
      then Repaired(s, t', spot.value, Entries(t, z)[pos - 1].key)
      else t' == s
    ensures Mended(t, path, z, pos, t')
  {
    hide FirstBehind, Repaired, Underfull, Dropped;
    DropBehind(t, z, pos, path, z);
  }
}
