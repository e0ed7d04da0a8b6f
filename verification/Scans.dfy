/**
 What the scans emit: ranges of keys, the one listing of a range, and how the
 entries emitted so far grow leaf by leaf.
 */
module Scans {
  import opened Keys
  import opened Pages
  import opened Trees
  import opened LeafSteps
  import opened EdgeSteps
  import opened Splits
  import opened SeparatorBounds

  datatype Bound = Unbounded | Included(key: Key) | Excluded(key: Key)

  /** Keys between two bounds, or keys with a common prefix. */
  datatype Range = Between(lower: Bound, upper: Bound) | Prefix(prefix: Key)

  predicate AboveLower(lower: Bound, k: Key)
  {
    match lower
    case Unbounded => true
    case Included(b) => !LexLess(k, b)
    case Excluded(b) => LexLess(b, k)
  }

  predicate BelowUpper(upper: Bound, k: Key)
  {
    match upper
    case Unbounded => true
    case Included(b) => !LexLess(b, k)
    case Excluded(b) => LexLess(k, b)
  }

  predicate Selects(r: Range, k: Key)
  {
    match r
    case Between(lower, upper) => AboveLower(lower, k) && BelowUpper(upper, k)
    case Prefix(p) => StartsWith(k, p)
  }

  /** `out` holds exactly the entries of `m` that the range selects, in ascending order. */
  ghost predicate Lists(m: map<Key, Value>, out: seq<Entry>, r: Range)
  {
    && SortedEntries(out)
    && (forall e :: e in out <==> e.key in m && m[e.key] == e.value && Selects(r, e.key))
  }

  lemma {:induction false} SortedSame(a: seq<Entry>, b: seq<Entry>)
    requires SortedEntries(a) && SortedEntries(b) && (forall e :: e in a <==> e in b)
    ensures a == b
    decreases |a|
  {
    if |b| > 0 {
      assert b[0] in b;
    }
    if |a| > 0 {
      assert a[0] in a && a[0] in b;
      var j :| 0 <= j < |b| && b[j] == a[0];
      assert b[0] in a;
      var i :| 0 <= i < |a| && a[i] == b[0];
      assert a[0] == b[0];
      SortedRest(a, b);
      SortedSame(a[1..], b[1..]);
    }
  }

  lemma SortedRest(a: seq<Entry>, b: seq<Entry>)
    requires SortedEntries(a) && SortedEntries(b) && (forall e :: e in a <==> e in b) && |a| > 0 && |b| > 0
    requires a[0] == b[0]
    ensures SortedEntries(a[1..]) && SortedEntries(b[1..]) && (forall e :: e in a[1..] <==> e in b[1..])
  {
    RestHas(a, b);
    RestHas(b, a);
  }

  lemma RestHas(a: seq<Entry>, b: seq<Entry>)
    requires SortedEntries(a) && (forall e :: e in a <==> e in b) && |a| > 0 && |b| > 0 && a[0] == b[0]
    ensures forall e :: e in a[1..] ==> e in b[1..]
  {
    forall e | e in a[1..]
      ensures e in b[1..]
    {
      var i :| 0 <= i < |a[1..]| && a[1..][i] == e;
      assert a[i + 1] == e && e in b && Num(a[0].key) < Num(e.key);
      assert b == [b[0]] + b[1..];
    }
  }

  /** A range has one listing. */
  lemma ListingUnique(m: map<Key, Value>, a: seq<Entry>, b: seq<Entry>, r: Range)
    requires Lists(m, a, r) && Lists(m, b, r)
    ensures a == b
  {
    SortedSame(a, b);
  }

  /** A descending scan is the exact reverse of the ascending one, for all bounds. */
  lemma DescendingIsReverse(m: map<Key, Value>, up: seq<Entry>, down: seq<Entry>, r: Range)
    requires Lists(m, up, r) && Lists(m, Reversed(down), r)
    ensures down == Reversed(up)
  {
    ListingUnique(m, up, Reversed(down), r);
  }

  /** A listing is never longer than the map. */
  lemma {:induction false} ListingFits(m: map<Key, Value>, out: seq<Entry>)
    requires SortedEntries(out) && (forall e :: e in out ==> e.key in m)
    ensures |out| <= |m|
  {
    var keys := set e | e in out :: e.key;
    SortedSize(out, keys);
    assert keys <= m.Keys;
    SubsetSize(keys, m.Keys);
    assert |m.Keys| == |m|;
  }

  lemma {:induction false} SortedSize(out: seq<Entry>, keys: set<Key>)
    requires SortedEntries(out) && keys == (set e | e in out :: e.key)
    ensures |keys| == |out|
    decreases |out|
  {
    hide Num;
    if |out| > 0 {
      var last := out[|out| - 1];
      var rest := out[..|out| - 1];
      var less := set e | e in rest :: e.key;
      assert SortedEntries(rest);
      assert last.key !in less;
      assert keys == less + {last.key} by {
        assert out == rest + [last];
        assert last in out;
      }
      SortedSize(rest, less);
    }
  }

  // ----- where a forward scan starts and stops -----

  function StartKey(r: Range): Key
  {
    match r
    case Between(Unbounded, _) => []
    case Between(Included(b), _) => b
    case Between(Excluded(b), _) => b
    case Prefix(p) => p
  }

  /** The first position a forward scan reads in its first leaf. */
  function StartPos(r: Range, es: seq<Entry>): (pos: nat)
    ensures pos <= |es|
  {
    match r
    case Between(Unbounded, _) => 0
    case Between(Included(b), _) => LowerBound(EntryKeys(es), b).0
    case Between(Excluded(b), _) =>
      (var (pos, exact) := LowerBound(EntryKeys(es), b); if exact then pos + 1 else pos)
    case Prefix(p) => LowerBound(EntryKeys(es), p).0
  }

  /** The test on which a forward scan ends. */
  predicate Stops(r: Range, k: Key)
  {
    match r
    case Between(_, upper) => !BelowUpper(upper, k)
    case Prefix(p) => !StartsWith(k, p)
  }

  /** Keys at or behind the start of the range. */
  predicate Admits(r: Range, k: Key)
  {
    match r
    case Between(lower, _) => AboveLower(lower, k)
    case Prefix(p) => !LexLess(k, p)
  }

  lemma RangeParts(r: Range, k: Key)
    ensures Selects(r, k) <==> Admits(r, k) && !Stops(r, k)
  {
    if r.Prefix? {
      PrefixIsInterval(r.prefix, k, k);
      NumIsOrder(k, r.prefix);
    }
  }

  /** Nothing before the start key is admitted, everything behind it is. */
  lemma StartCuts(r: Range, k: Key)
    ensures Num(k) < Num(StartKey(r)) ==> !Admits(r, k)
    ensures Num(k) > Num(StartKey(r)) ==> Admits(r, k)
  {
    hide Num, LexLess;
    NumIsOrder(k, StartKey(r));
    NumIsOrder(StartKey(r), k);
    if StartKey(r) == [] {
      EmptyFirst(k);
    }
  }

  lemma EmptyFirst(k: Key)
    ensures Num([]) <= Num(k)
  {
  }

  /** Behind a key that ends the scan nothing is selected. */
  lemma StopsUp(r: Range, j: Key, k: Key)
    requires Admits(r, j) && Stops(r, j) && Num(j) < Num(k)
    ensures !Selects(r, k)
  {
    hide Num, LexLess;
    match r
    case Between(_, upper) =>
      if !upper.Unbounded? {
        NumIsOrder(j, upper.key);
        NumIsOrder(upper.key, j);
        NumIsOrder(k, upper.key);
        NumIsOrder(upper.key, k);
      }
    case Prefix(p) =>
      NumIsOrder(j, p);
      PrefixIsInterval(p, j, k);
  }

  lemma StartPosMeans(r: Range, es: seq<Entry>)
    requires SortedEntries(es)
    ensures forall i :: 0 <= i < |es| ==> (Admits(r, es[i].key) <==> StartPos(r, es) <= i)
  {
    hide Num, LexLess, LowerBound;
    var b := StartKey(r);
    BoundMeans(es, b);
    var (pos, exact) := LowerBound(EntryKeys(es), b);
    forall i | 0 <= i < |es|
      ensures Admits(r, es[i].key) <==> StartPos(r, es) <= i
    {
      NumIsOrder(es[i].key, b);
      NumIsOrder(b, es[i].key);
      assert exact && pos < i ==> Num(es[pos].key) < Num(es[i].key);
    }
  }

  // ----- emitted so far -----

  ghost predicate HeldBelow(t: Tree, e: Entry, bound: real)
  {
    exists z, i :: Lo(t, z) < bound && 0 <= i < |Entries(t, z)| && Entries(t, z)[i] == e
  }

  ghost predicate HeldUpTo(t: Tree, e: Entry, z: Pid)
  {
    HeldBelow(t, e, Lo(t, z)) || e in Entries(t, z)
  }

  /** `out` lists the selected entries of the leaves labelled below `bound`. */
  ghost predicate ListsBelow(t: Tree, out: seq<Entry>, bound: real, r: Range)
  {
    && SortedEntries(out)
    && (forall e :: e in out <==> Selects(r, e.key) && HeldBelow(t, e, bound))
  }

  /** `out` lists the selected entries of leaf `z` and the leaves before it. */
  ghost predicate ListsUpTo(t: Tree, out: seq<Entry>, z: Pid, r: Range)
  {
    && SortedEntries(out)
    && (forall e :: e in out <==> Selects(r, e.key) && HeldUpTo(t, e, z))
  }

  /** Before its first leaf a forward scan has nothing to emit. */
  lemma ForwardStarts(t: Tree, z: Pid, r: Range)
    requires Standing(t, z, StartKey(r))
    ensures ListsBelow(t, [], Lo(t, z), r)
  {
    forall e | HeldBelow(t, e, Lo(t, z))
      ensures !Selects(r, e.key)
    {
      var y, i :| Lo(t, y) < Lo(t, z) && 0 <= i < |Entries(t, y)| && Entries(t, y)[i] == e;
      assert Num(Entries(t, y)[i].key) < Num(StartKey(r));
      StartCuts(r, e.key);
      RangeParts(r, e.key);
    }
  }

  /** All keys behind the first leaf of a forward scan are admitted. */
  lemma ForwardAdmits(t: Tree, z: Pid, r: Range, y: Pid, i: nat)
    requires Inv(t) && IsLeaf(t, z) && !ChaseRight(t.pages[z], StartKey(r))
    requires Lo(t, z) < Lo(t, y) && i < |Entries(t, y)|
    ensures Admits(r, Entries(t, y)[i].key)
  {
    var es := t.pages[z].entries;
    LinkedAt(t, z);
    assert IsLeaf(t, y);
    NumIsOrder(es[|es| - 1].key, StartKey(r));
    var last, found := Entries(t, z)[|es| - 1], Entries(t, y)[i];
    assert Num(last.key) < Num(found.key);
    StartCuts(r, found.key);
  }

  /** One leaf's worth of a forward scan. */
  lemma ForwardLeaf(t: Tree, out: seq<Entry>, z: Pid, r: Range, pos: nat, stop: nat)
    requires SortedLeaves(t) && SortedAcross(t) && ListsBelow(t, out, Lo(t, z), r) && pos <= stop <= |Entries(t, z)|
    requires forall i :: 0 <= i < |Entries(t, z)| ==> (Admits(r, Entries(t, z)[i].key) <==> pos <= i)
    requires forall i :: pos <= i < stop ==> !Stops(r, Entries(t, z)[i].key)
    requires stop < |Entries(t, z)| ==> Stops(r, Entries(t, z)[stop].key)
    ensures ListsUpTo(t, out + Entries(t, z)[pos..stop], z, r)
  {
    hide Num, Admits, Stops, Selects;
    var es := Entries(t, z);
    var part := es[pos..stop];
    ForwardSorted(t, out, z, r, pos, stop);
    forall i | 0 <= i < |es|
      ensures Selects(r, es[i].key) <==> pos <= i < stop
    {
      RangeParts(r, es[i].key);
      if i > stop {
        assert Num(es[stop].key) < Num(es[i].key);
        StopsUp(r, es[stop].key, es[i].key);
      }
    }
    forall e: Entry
      ensures e in part <==> e in es && Selects(r, e.key)
    {
      if e in part {
        var k :| 0 <= k < |part| && part[k] == e;
        assert es[pos + k] == e;
      }
      if e in es && Selects(r, e.key) {
        var i :| 0 <= i < |es| && es[i] == e;
        assert part[i - pos] == e;
      }
    }
  }

  lemma ForwardSorted(t: Tree, out: seq<Entry>, z: Pid, r: Range, pos: nat, stop: nat)
    requires SortedLeaves(t) && SortedAcross(t) && ListsBelow(t, out, Lo(t, z), r) && pos <= stop <= |Entries(t, z)|
    ensures SortedEntries(out + Entries(t, z)[pos..stop])
  {
    hide Num, Selects;
    var part := Entries(t, z)[pos..stop];
    forall i, j | 0 <= i < |out| && 0 <= j < |part|
      ensures Num(out[i].key) < Num(part[j].key)
    {
      assert out[i] in out;
      var y, k :| Lo(t, y) < Lo(t, z) && 0 <= k < |Entries(t, y)| && Entries(t, y)[k] == out[i];
      assert Num(Entries(t, y)[k].key) < Num(Entries(t, z)[pos + j].key);
    }
    JoinSorted(out, part);
  }

  lemma JoinSorted(a: seq<Entry>, b: seq<Entry>)
    requires SortedEntries(a) && SortedEntries(b)
    requires forall i, j :: 0 <= i < |a| && 0 <= j < |b| ==> Num(a[i].key) < Num(b[j].key)
    ensures SortedEntries(a + b)
  {
    hide Num;
  }

  /** Moving to the right sibling. */
  lemma ForwardNext(t: Tree, out: seq<Entry>, z: Pid, r: Range)
    requires Inv(t) && IsLeaf(t, z) && Right(t, z) != 0 && ListsUpTo(t, out, z, r)
    ensures ListsBelow(t, out, Lo(t, Right(t, z)), r)
    ensures IsLeaf(t, Right(t, z)) && Lo(t, z) < Lo(t, Right(t, z))
    ensures |LeavesAfter(t, Lo(t, Right(t, z)))| < |LeavesAfter(t, Lo(t, z))|
  {
    hide Selects;
    var y := Right(t, z);
    LinkedAt(t, z);
    forall e: Entry
      ensures HeldUpTo(t, e, z) <==> HeldBelow(t, e, Lo(t, y))
    {
      UpToIsBelow(t, e, z, y);
    }
    assert y in LeavesAfter(t, Lo(t, z)) && y !in LeavesAfter(t, Lo(t, y));
    SubsetSize(LeavesAfter(t, Lo(t, y)), LeavesAfter(t, Lo(t, z)));
  }

  lemma UpToIsBelow(t: Tree, e: Entry, z: Pid, y: Pid)
    requires Typed(t) && Distinct(t) && IsLeaf(t, z) && y != 0 && NextLeaf(t, Lo(t, z), y)
    ensures HeldUpTo(t, e, z) <==> HeldBelow(t, e, Lo(t, y))
  {
    if e in Entries(t, z) {
      var i :| 0 <= i < |Entries(t, z)| && Entries(t, z)[i] == e;
      assert Lo(t, z) < Lo(t, y);
    }
    if HeldBelow(t, e, Lo(t, y)) {
      var x, i :| Lo(t, x) < Lo(t, y) && 0 <= i < |Entries(t, x)| && Entries(t, x)[i] == e;
      assert IsLeaf(t, x);
      assert Lo(t, x) == Lo(t, z) ==> x == z;
    }
  }

  /** A forward scan that met the end of the range, or of the leaves, has listed the range. */
  lemma ForwardEnds(t: Tree, m: map<Key, Value>, out: seq<Entry>, z: Pid, r: Range)
    requires Inv(t) && Stores(t, m) && IsLeaf(t, z) && ListsUpTo(t, out, z, r)
    requires
      || Right(t, z) == 0
      || (exists i :: 0 <= i < |Entries(t, z)| && Admits(r, Entries(t, z)[i].key) && Stops(r, Entries(t, z)[i].key))
    ensures Lists(m, out, r)
  {
    forall e: Entry
      ensures e in out <==> e.key in m && m[e.key] == e.value && Selects(r, e.key)
    {
      assert Holds(t, e) <==> e.key in m && m[e.key] == e.value;
      HeldSomewhere(t, e, z);
      if Holds(t, e) && !HeldUpTo(t, e, z) {
        var y, k :| 0 <= k < |Entries(t, y)| && Entries(t, y)[k] == e;
        BehindEnd(t, z, r, y, k);
      }
    }
  }

  lemma HeldSomewhere(t: Tree, e: Entry, z: Pid)
    ensures HeldUpTo(t, e, z) ==> Holds(t, e)
  {
    if e in Entries(t, z) {
      var i :| 0 <= i < |Entries(t, z)| && Entries(t, z)[i] == e;
      HoldsAt(t, z, i);
    }
  }

  lemma BehindEnd(t: Tree, z: Pid, r: Range, y: Pid, k: nat)
    requires Typed(t) && Distinct(t) && Linked(t) && SortedAcross(t) && IsLeaf(t, z) && k < |Entries(t, y)|
    requires !HeldUpTo(t, Entries(t, y)[k], z)
    requires
      || Right(t, z) == 0
      || (exists i :: 0 <= i < |Entries(t, z)| && Admits(r, Entries(t, z)[i].key) && Stops(r, Entries(t, z)[i].key))
    ensures !Selects(r, Entries(t, y)[k].key)
  {
    hide Num, Admits, Stops, Selects;
    assert IsLeaf(t, y);
    assert Lo(t, y) == Lo(t, z) ==> y == z;
    assert Lo(t, z) < Lo(t, y);
    LinkedAt(t, z);
    var i :| 0 <= i < |Entries(t, z)| && Admits(r, Entries(t, z)[i].key) && Stops(r, Entries(t, z)[i].key);
    assert Num(Entries(t, z)[i].key) < Num(Entries(t, y)[k].key);
    StopsUp(r, Entries(t, z)[i].key, Entries(t, y)[k].key);
  }

  // ----- full scan -----

  /** `out` lists the entries of `m` with keys below `x`. */
  ghost predicate ListsUnder(m: map<Key, Value>, out: seq<Entry>, x: real)
  {
    && SortedEntries(out)
    && (forall e :: e in out <==> e.key in m && m[e.key] == e.value && Num(e.key) < x)
  }

  lemma ScanStarts(m: map<Key, Value>)
    ensures ListsUnder(m, [], Num([]))
  {
    forall e: Entry
      ensures !(Num(e.key) < Num([]))
    {
      EmptyFirst(e.key);
    }
  }

  /** One round of the full scan: the rest of the leaf where the resume key stops is next in order. */
  lemma ScanRound(t: Tree, m: map<Key, Value>, out: seq<Entry>, z: Pid, key: Key, pos: nat)
    requires Inv(t) && Stores(t, m) && ListsUnder(m, out, Num(key))
    requires IsLeaf(t, z) && Standing(t, z, key) && !ChaseRight(t.pages[z], key)
    requires pos == LowerBound(EntryKeys(Entries(t, z)), key).0 && pos <= |Entries(t, z)|
    ensures pos == |Entries(t, z)| ==> Lists(m, out, Between(Unbounded, Unbounded))
    ensures pos < |Entries(t, z)| ==>
      var last := Entries(t, z)[|Entries(t, z)| - 1].key;
      && Num(key) <= Num(last) < Num(last + [0])
      && ListsUnder(m, out + Entries(t, z)[pos..], Num(last + [0]))
  {
    hide LowerBound, Num, LexLess, Typed, Kids, KidsUp, RootFirst, Distinct, Nested, Parented, Linked, SortedAcross,
      Routed, Standing, ChaseRight, Stores;
    var es := Entries(t, z);
    EntriesSorted(t, z);
    CutAt(es, key, pos);
    if pos == |es| {
      forall e: Entry | e.key in m && m[e.key] == e.value
        ensures Num(e.key) < Num(key)
      {
        StoredAtOrBefore(t, m, z, key, e);
      }
    } else {
      var last := es[|es| - 1].key;
      NextKeyIsTight(last, last);
      ScanSorted(m, out, es, key, pos);
      forall e: Entry
        ensures e in out + es[pos..] <==> e.key in m && m[e.key] == e.value && Num(e.key) < Num(last + [0])
      {
        NextKeyIsTight(last, e.key);
        RestHolds(t, m, z, key, pos, e);
      }
    }
  }

  lemma CutAt(es: seq<Entry>, key: Key, pos: nat)
    requires SortedEntries(es) && pos == LowerBound(EntryKeys(es), key).0 && pos <= |es|
    ensures forall i :: 0 <= i < |es| ==> (Num(es[i].key) < Num(key) <==> i < pos)
  {
    hide LowerBound, Num, LexLess;
    BoundMeans(es, key);
    var exact := LowerBound(EntryKeys(es), key).1;
    assert forall i :: exact && pos < i < |es| ==> Num(es[pos].key) < Num(es[i].key);
  }

  lemma ScanSorted(m: map<Key, Value>, out: seq<Entry>, es: seq<Entry>, key: Key, pos: nat)
    requires ListsUnder(m, out, Num(key)) && SortedEntries(es) && pos <= |es|
    requires forall i :: 0 <= i < |es| ==> (Num(es[i].key) < Num(key) <==> i < pos)
    ensures SortedEntries(out + es[pos..])
  {
    hide Num;
    forall i, j | 0 <= i < |out| && 0 <= j < |es[pos..]|
      ensures Num(out[i].key) < Num(es[pos..][j].key)
    {
      assert out[i] in out;
      assert es[pos..][j] == es[pos + j];
    }
    JoinSorted(out, es[pos..]);
  }

  /** An entry that is not below the resume key is in the leaf where it stops, or behind its last key. */
  lemma AtOrBefore(t: Tree, z: Pid, key: Key, y: Pid, k: nat)
    requires Typed(t) && Distinct(t) && Linked(t) && SortedAcross(t)
    requires IsLeaf(t, z) && Standing(t, z, key) && !ChaseRight(t.pages[z], key) && k < |Entries(t, y)|
    ensures var es := Entries(t, z);
      var e := Entries(t, y)[k];
      || Num(e.key) < Num(key) || e in es
      || (|es| > 0 && Num(es[|es| - 1].key) < Num(e.key) && Num(key) <= Num(es[|es| - 1].key))
  {
    hide LowerBound, Num, LexLess, Linked, SortedAcross, Distinct, Typed, AllBelow;
    assert IsLeaf(t, y);
    if Lo(t, z) < Lo(t, y) {
      ReachesKey(t, z, key, y);
      Across(t, z, y, |Entries(t, z)| - 1, k);
    } else if Lo(t, y) == Lo(t, z) {
      SameLeaf(t, y, z);
    } else {
      Below(t, Lo(t, z), Num(key), y, k);
    }
  }

  /** A leaf the chase stops on, with leaves after it, reaches the key. */
  lemma ReachesKey(t: Tree, z: Pid, key: Key, y: Pid)
    requires Linked(t) && IsLeaf(t, z) && !ChaseRight(t.pages[z], key) && IsLeaf(t, y) && Lo(t, z) < Lo(t, y)
    ensures |Entries(t, z)| > 0 && Num(key) <= Num(Entries(t, z)[|Entries(t, z)| - 1].key)
  {
    hide LexLess, Num, Linked;
    var es := Entries(t, z);
    LinkedAt(t, z);
    assert t.pages[z].right != 0;
    NumIsOrder(es[|es| - 1].key, key);
  }

  lemma Across(t: Tree, y: Pid, z: Pid, i: nat, j: nat)
    requires SortedAcross(t) && Lo(t, y) < Lo(t, z) && i < |Entries(t, y)| && j < |Entries(t, z)|
    ensures Num(Entries(t, y)[i].key) < Num(Entries(t, z)[j].key)
  {
    hide Num;
  }

  lemma Below(t: Tree, bound: real, x: real, z: Pid, j: nat)
    requires AllBelow(t, bound, x) && Lo(t, z) < bound && j < |Entries(t, z)|
    ensures Num(Entries(t, z)[j].key) < x
  {
    hide Num;
  }

  lemma SameLeaf(t: Tree, y: Pid, z: Pid)
    requires Typed(t) && Distinct(t) && IsLeaf(t, y) && IsLeaf(t, z) && Lo(t, y) == Lo(t, z)
    ensures y == z
  {
  }

  /** The same for every stored entry. */
  lemma StoredAtOrBefore(t: Tree, m: map<Key, Value>, z: Pid, key: Key, e: Entry)
    requires Inv(t) && Stores(t, m) && IsLeaf(t, z) && Standing(t, z, key) && !ChaseRight(t.pages[z], key)
    requires e.key in m && m[e.key] == e.value
    ensures var es := Entries(t, z);
      || Num(e.key) < Num(key) || e in es
      || (|es| > 0 && Num(es[|es| - 1].key) < Num(e.key) && Num(key) <= Num(es[|es| - 1].key))
  {
    hide LowerBound, Num, LexLess, Typed, Kids, KidsUp, RootFirst, Distinct, Nested, Parented, Linked, SortedLeaves,
      SortedAcross, Routed, Standing, ChaseRight;
    assert Holds(t, e);
    var y, k :| 0 <= k < |Entries(t, y)| && Entries(t, y)[k] == e;
    AtOrBefore(t, z, key, y, k);
  }

  lemma RestHolds(t: Tree, m: map<Key, Value>, z: Pid, key: Key, pos: nat, e: Entry)
    requires Inv(t) && Stores(t, m) && IsLeaf(t, z) && Standing(t, z, key) && !ChaseRight(t.pages[z], key)
    requires pos < |Entries(t, z)|
    requires forall i :: 0 <= i < |Entries(t, z)| ==> (Num(Entries(t, z)[i].key) < Num(key) <==> i < pos)
    ensures e in Entries(t, z)[pos..] <==>
      && e.key in m && m[e.key] == e.value && !(Num(e.key) < Num(key))
      && !(Num(Entries(t, z)[|Entries(t, z)| - 1].key) < Num(e.key))
  {
    hide LowerBound, Num, LexLess, Typed, Kids, KidsUp, RootFirst, Distinct, Nested, Parented, Linked, SortedAcross,
      Routed, Standing, ChaseRight;
    var es := Entries(t, z);
    EntriesSorted(t, z);
    RestIn(es, pos, e);
    if e in es[pos..] {
      var i :| pos <= i < |es| && es[i] == e;
      HoldsAt(t, z, i);
      assert i < |es| - 1 ==> Num(es[i].key) < Num(es[|es| - 1].key);
    } else if e.key in m && m[e.key] == e.value {
      StoredAtOrBefore(t, m, z, key, e);
      if e in es {
        var i :| 0 <= i < |es| && es[i] == e;
      }
    }
  }

  lemma RestIn(es: seq<Entry>, pos: nat, e: Entry)
    requires pos <= |es|
    ensures e in es[pos..] <==> exists i :: pos <= i < |es| && es[i] == e
  {
    if e in es[pos..] {
      var i :| 0 <= i < |es[pos..]| && es[pos..][i] == e;
      assert es[pos + i] == e;
    }
    if i :| pos <= i < |es| && es[i] == e {
      assert es[pos..][i - pos] == e;
    }
  }

  // ----- descending scans -----

  function Reversed(s: seq<Entry>): (r: seq<Entry>)
    ensures |r| == |s|
  {
    seq(|s|, i requires 0 <= i < |s| => s[|s| - 1 - i])
  }

  lemma ReversedConcat(a: seq<Entry>, b: seq<Entry>)
    ensures Reversed(a + b) == Reversed(b) + Reversed(a)
  {
  }

  /** Where a descending scan starts in its first leaf, if anything there is low enough. */
  function DownPos(upper: Bound, es: seq<Entry>): (pos: Option<nat>)
    ensures pos.Some? ==> pos.value < |es|
  {
    if |es| == 0 then None
    else match upper
      case Unbounded => Some(|es| - 1)
      case Included(b) =>
        (var (pos, exact) := LowerBound(EntryKeys(es), b);
         if exact then Some(pos) else if pos == 0 then None else Some(pos - 1))
      case Excluded(b) =>
        (var (pos, _) := LowerBound(EntryKeys(es), b); if pos == 0 then None else Some(pos - 1))
  }

  function Top(pos: Option<nat>): nat
  {
    if pos.None? then 0 else pos.value + 1
  }

  lemma DownPosMeans(upper: Bound, es: seq<Entry>)
    requires SortedEntries(es)
    ensures forall i :: 0 <= i < |es| ==> (BelowUpper(upper, es[i].key) <==> i < Top(DownPos(upper, es)))
  {
    hide Num, LexLess, LowerBound;
    if !upper.Unbounded? {
      var b := upper.key;
      BoundMeans(es, b);
      var (pos, exact) := LowerBound(EntryKeys(es), b);
      forall i | 0 <= i < |es|
        ensures BelowUpper(upper, es[i].key) <==> i < Top(DownPos(upper, es))
      {
        NumIsOrder(es[i].key, b);
        NumIsOrder(b, es[i].key);
        assert exact && pos < i ==> Num(es[pos].key) < Num(es[i].key);
      }
    }
  }

  ghost predicate HeldAbove(t: Tree, e: Entry, bound: real)
  {
    exists z, i :: bound < Lo(t, z) && 0 <= i < |Entries(t, z)| && Entries(t, z)[i] == e
  }

  ghost predicate HeldFrom(t: Tree, e: Entry, z: Pid)
  {
    HeldAbove(t, e, Lo(t, z)) || e in Entries(t, z)
  }

  /** `asc` lists the selected entries of the leaves labelled above `bound`. */
  ghost predicate ListsAbove(t: Tree, asc: seq<Entry>, bound: real, r: Range)
  {
    && SortedEntries(asc)
    && (forall e :: e in asc <==> Selects(r, e.key) && HeldAbove(t, e, bound))
  }

  /** `asc` lists the selected entries of leaf `z` and the leaves behind it. */
  ghost predicate ListsFrom(t: Tree, asc: seq<Entry>, z: Pid, r: Range)
  {
    && SortedEntries(asc)
    && (forall e :: e in asc <==> Selects(r, e.key) && HeldFrom(t, e, z))
  }

  lemma BehindStop(t: Tree, z: Pid, upper: Bound, y: Pid, i: nat)
    requires Linked(t) && SortedAcross(t) && IsLeaf(t, z) && Lo(t, z) < Lo(t, y) && i < |Entries(t, y)|
    requires if upper.Unbounded? then Right(t, z) == 0 else !ChaseRight(t.pages[z], upper.key)
    ensures !BelowUpper(upper, Entries(t, y)[i].key)
  {
    hide Num, LexLess;
    var es := t.pages[z].entries;
    LinkedAt(t, z);
    assert IsLeaf(t, y);
    assert !upper.Unbounded? && |es| > 0;
    NumIsOrder(es[|es| - 1].key, upper.key);
    var last, found := Entries(t, z)[|es| - 1], Entries(t, y)[i];
    assert Num(last.key) < Num(found.key);
    NumIsOrder(upper.key, found.key);
    NumIsOrder(found.key, upper.key);
  }

  /** One leaf's worth of a descending scan. */
  lemma DownLeaf(t: Tree, asc: seq<Entry>, z: Pid, lower: Bound, upper: Bound, stop: nat, top: nat)
    requires SortedLeaves(t) && SortedAcross(t) && ListsAbove(t, asc, Lo(t, z), Between(lower, upper))
    requires stop <= top <= |Entries(t, z)|
    requires forall i :: 0 <= i < |Entries(t, z)| ==> (BelowUpper(upper, Entries(t, z)[i].key) <==> i < top)
    requires forall i :: stop <= i < top ==> AboveLower(lower, Entries(t, z)[i].key)
    requires stop > 0 ==> !AboveLower(lower, Entries(t, z)[stop - 1].key)
    ensures ListsFrom(t, Entries(t, z)[stop..top] + asc, z, Between(lower, upper))
  {
    hide Num, AboveLower, BelowUpper;
    var es := Entries(t, z);
    var part := es[stop..top];
    var r := Between(lower, upper);
    DownSorted(t, asc, z, r, stop, top);
    forall i | 0 <= i < |es|
      ensures Selects(r, es[i].key) <==> stop <= i < top
    {
      if i + 1 < stop {
        assert Num(es[i].key) < Num(es[stop - 1].key);
        LowerDown(lower, es[i].key, es[stop - 1].key);
      }
    }
    forall e: Entry
      ensures e in part <==> e in es && Selects(r, e.key)
    {
      if e in part {
        var k :| 0 <= k < |part| && part[k] == e;
        assert es[stop + k] == e;
      }
      if e in es && Selects(r, e.key) {
        var i :| 0 <= i < |es| && es[i] == e;
        assert part[i - stop] == e;
      }
    }
  }

  lemma LowerDown(lower: Bound, j: Key, k: Key)
    requires Num(j) < Num(k) && !AboveLower(lower, k)
    ensures !AboveLower(lower, j)
  {
    hide Num, LexLess;
    NumIsOrder(j, lower.key);
    NumIsOrder(lower.key, j);
    NumIsOrder(k, lower.key);
    NumIsOrder(lower.key, k);
  }

  lemma DownSorted(t: Tree, asc: seq<Entry>, z: Pid, r: Range, stop: nat, top: nat)
    requires SortedLeaves(t) && SortedAcross(t) && ListsAbove(t, asc, Lo(t, z), r) && stop <= top <= |Entries(t, z)|
    ensures SortedEntries(Entries(t, z)[stop..top] + asc)
  {
    hide Num, Selects;
    var part := Entries(t, z)[stop..top];
    forall i, j | 0 <= i < |part| && 0 <= j < |asc|
      ensures Num(part[i].key) < Num(asc[j].key)
    {
      assert asc[j] in asc;
      var y, k :| Lo(t, z) < Lo(t, y) && 0 <= k < |Entries(t, y)| && Entries(t, y)[k] == asc[j];
      assert Num(Entries(t, z)[stop + i].key) < Num(Entries(t, y)[k].key);
    }
    JoinSorted(part, asc);
  }

  /** The leaves to the left of label `x`. */
  ghost function LeavesBefore(t: Tree, x: real): set<Pid>
  {
    set z | z in t.pages && IsLeaf(t, z) && Lo(t, z) < x
  }

  lemma FromIsAbove(t: Tree, e: Entry, z: Pid, y: Pid)
    requires Typed(t) && Distinct(t) && IsLeaf(t, z) && z != 0 && NextLeaf(t, Lo(t, y), z)
    ensures HeldFrom(t, e, z) <==> HeldAbove(t, e, Lo(t, y))
  {
    if e in Entries(t, z) {
      var i :| 0 <= i < |Entries(t, z)| && Entries(t, z)[i] == e;
      assert Lo(t, y) < Lo(t, z);
    }
    if HeldAbove(t, e, Lo(t, y)) {
      var x, i :| Lo(t, y) < Lo(t, x) && 0 <= i < |Entries(t, x)| && Entries(t, x)[i] == e;
      assert IsLeaf(t, x);
      assert Lo(t, x) == Lo(t, z) ==> x == z;
    }
  }

  lemma HeldFromSomewhere(t: Tree, e: Entry, z: Pid)
    ensures HeldFrom(t, e, z) ==> Holds(t, e)
  {
    if e in Entries(t, z) {
      var i :| 0 <= i < |Entries(t, z)| && Entries(t, z)[i] == e;
      HoldsAt(t, z, i);
    }
  }

  /** With no orphans, following upper edges from the last page of a level ends at the last leaf. */
  lemma {:induction false} SpineIsLast(t: Tree, c: Pid)
    requires Shaped(t) && t.orphans == {} && c in t.pages
    requires forall q :: q in t.pages && Level(t, q) == Level(t, c) ==> Lo(t, q) <= Lo(t, c)
    ensures forall z :: IsLeaf(t, z) ==> Lo(t, z) <= Lo(t, Rightmost(t, c))
    decreases Level(t, c)
  {
    if IsInner(t, c) {
      var a := Kid(t, c, |Slots(t, c)|);
      EdgeWithin(t, c, |Slots(t, c)|);
      forall q | q in t.pages && Level(t, q) == Level(t, a)
        ensures Lo(t, q) <= Lo(t, a)
      {
        LastKid(t, c, q);
      }
      SpineIsLast(t, a);
      assert Rightmost(t, c) == Rightmost(t, a);
    }
  }

  lemma LastKid(t: Tree, c: Pid, q: Pid)
    requires Shaped(t) && t.orphans == {} && IsInner(t, c) && q in t.pages && Level(t, q) + 1 == Level(t, c)
    requires forall x :: x in t.pages && Level(t, x) == Level(t, c) ==> Lo(t, x) <= Lo(t, c)
    ensures Lo(t, q) <= Lo(t, Kid(t, c, |Slots(t, c)|))
  {
    EdgeWithin(t, c, |Slots(t, c)|);
    assert q != t.root;
    assert HasParent(t, q);
    var y, j :| Edge(t, y, j, q);
    EdgeWithin(t, y, j);
    EdgeWithin(t, c, 0);
    OtherNodeEdges(t, y, c);
    assert Lo(t, y) == Lo(t, c) ==> y == c;
  }

  // ----- steps of the scan methods -----

  lemma BoundWithin(es: seq<Entry>, key: Key)
    ensures LowerBound(EntryKeys(es), key).0 <= |es|
  {
  }

  lemma UnderFits(m: map<Key, Value>, out: seq<Entry>, x: real)
    requires ListsUnder(m, out, x)
    ensures |out| <= |m|
  {
    ListingFits(m, out);
  }

  /** The first position read in leaf `z` cuts off exactly the keys before the range. */
  lemma ForwardCut(t: Tree, z0: Pid, z: Pid, r: Range, first: bool)
    requires Inv(t) && IsLeaf(t, z0) && IsLeaf(t, z) && !ChaseRight(t.pages[z0], StartKey(r))
    requires if first then z == z0 else Lo(t, z0) < Lo(t, z)
    ensures var pos := if first then StartPos(r, t.pages[z].entries) else 0;
      forall i :: 0 <= i < |Entries(t, z)| ==> (Admits(r, Entries(t, z)[i].key) <==> pos <= i)
  {
    hide Admits, StartPos, ChaseRight;
    if first {
      EntriesSorted(t, z);
      StartPosMeans(r, Entries(t, z));
    } else {
      forall i | 0 <= i < |Entries(t, z)|
        ensures Admits(r, Entries(t, z)[i].key)
      {
        ForwardAdmits(t, z0, r, z, i);
      }
    }
  }

  lemma ForwardStep(t: Tree, out: seq<Entry>, z: Pid, r: Range, pos: nat, stop: nat)
    requires Inv(t) && ListsBelow(t, out, Lo(t, z), r) && pos <= stop <= |Entries(t, z)|
    requires forall i :: 0 <= i < |Entries(t, z)| ==> (Admits(r, Entries(t, z)[i].key) <==> pos <= i)
    requires forall i :: pos <= i < stop ==> !Stops(r, Entries(t, z)[i].key)
    requires stop < |Entries(t, z)| ==> Stops(r, Entries(t, z)[stop].key)
    ensures ListsUpTo(t, out + Entries(t, z)[pos..stop], z, r)
    ensures stop < |Entries(t, z)| ==>
      exists i :: 0 <= i < |Entries(t, z)| && Admits(r, Entries(t, z)[i].key) && Stops(r, Entries(t, z)[i].key)
  {
    hide Admits, Stops, ListsBelow, ListsUpTo, Shaped, SortedLeaves, SortedAcross, Routed;
    ForwardLeaf(t, out, z, r, pos, stop);
  }

  /** The first position read downward in leaf `z` cuts off exactly the keys behind the range. */
  lemma DownCut(t: Tree, z0: Pid, z: Pid, upper: Bound, first: bool)
    requires Inv(t) && IsLeaf(t, z) && (!upper.Unbounded? ==> Standing(t, z0, upper.key))
    requires if first then z == z0 else Lo(t, z) < Lo(t, z0)
    ensures var top := if first then Top(DownPos(upper, t.pages[z].entries)) else |Entries(t, z)|;
      forall i :: 0 <= i < |Entries(t, z)| ==> (BelowUpper(upper, Entries(t, z)[i].key) <==> i < top)
  {
    hide DownPos, Num, LexLess;
    if first {
      EntriesSorted(t, z);
      DownPosMeans(upper, Entries(t, z));
    } else if !upper.Unbounded? {
      forall i | 0 <= i < |Entries(t, z)|
        ensures BelowUpper(upper, Entries(t, z)[i].key)
      {
        assert Num(Entries(t, z)[i].key) < Num(upper.key);
        NumIsOrder(Entries(t, z)[i].key, upper.key);
        NumIsOrder(upper.key, Entries(t, z)[i].key);
      }
    }
  }

  lemma DownStep(t: Tree, asc: seq<Entry>, z: Pid, lower: Bound, upper: Bound, stop: nat, top: nat)
    requires SortedLeaves(t) && SortedAcross(t) && ListsAbove(t, asc, Lo(t, z), Between(lower, upper))
    requires stop <= top <= |Entries(t, z)|
    requires forall i :: 0 <= i < |Entries(t, z)| ==> (BelowUpper(upper, Entries(t, z)[i].key) <==> i < top)
    requires forall i :: stop <= i < top ==> AboveLower(lower, Entries(t, z)[i].key)
    requires stop > 0 ==> !AboveLower(lower, Entries(t, z)[stop - 1].key)
    ensures ListsFrom(t, Entries(t, z)[stop..top] + asc, z, Between(lower, upper))
    ensures stop > 0 ==> exists i :: 0 <= i < |Entries(t, z)| && !AboveLower(lower, Entries(t, z)[i].key)
  {
    hide AboveLower, BelowUpper, ListsAbove, ListsFrom, Shaped, SortedLeaves, SortedAcross, Routed;
    DownLeaf(t, asc, z, lower, upper, stop, top);
  }

  lemma ReversedOne(e: Entry)
    ensures Reversed([e]) == [e]
  {
  }

  /** The leaf that upper edges lead to from the root. */
  ghost function UpperLeaf(t: Tree): (z: Pid)
    requires Inv(t)
    ensures IsLeaf(t, z)
  {
    assert Typed(t);
    Rightmost(t, t.root)
  }

  /** Upper edges lead from `z` to the leaf they lead to from the root. */
  ghost predicate SpineFrom(t: Tree, z: Pid)
  {
    Inv(t) && z in t.pages && Rightmost(t, z) == UpperLeaf(t)
  }

  lemma SpineStarts(t: Tree)
    requires Inv(t)
    ensures t.root in t.pages && SpineFrom(t, t.root)
  {
    assert Typed(t);
  }

  /** Without orphans it is the last leaf. */
  lemma UpperLeafIsLast(t: Tree)
    requires Inv(t) && t.orphans == {}
    ensures Right(t, UpperLeaf(t)) == 0
  {
    assert Typed(t);
    SpineIsLast(t, t.root);
    LinkedAt(t, UpperLeaf(t));
  }

  lemma SpineDown(t: Tree, z: Pid)
    requires Inv(t) && IsInner(t, z) && SpineFrom(t, z)
    ensures var c := t.pages[z].upper; c in t.pages && SpineFrom(t, c) && Level(t, c) < Level(t, z)
  {
    hide Rightmost, RootFirst, Distinct, Nested, Parented, Linked, SortedLeaves, SortedAcross, Routed, KidsUp;
    assert t.pages[z].upper == Kid(t, z, |Slots(t, z)|);
    SpineStep(t, z);
  }

  lemma SpineStep(t: Tree, z: Pid)
    requires Typed(t) && Kids(t) && IsInner(t, z)
    ensures var c := Kid(t, z, |Slots(t, z)|);
      c in t.pages && Level(t, c) < Level(t, z) && Rightmost(t, z) == Rightmost(t, c)
  {
  }

  lemma SpineStops(t: Tree, z: Pid)
    requires Inv(t) && IsLeaf(t, z) && SpineFrom(t, z)
    ensures z == UpperLeaf(t)
  {
  }
}
