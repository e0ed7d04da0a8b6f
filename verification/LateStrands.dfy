/**
 An insert that is stranded only after it has split the leaf.

 The leaf of key 55 is full, and the descent finds it, past a stale separator that the
 binary search happens not to look at.  Splitting the leaf adds a separator, the
 search now does look at the stale one, and the next descent ends on an empty leaf.
 */
module LateStrands {
  import opened Keys
  import opened Pages
  import opened Trees
  import opened SplitSteps
  import opened EdgeSteps
  import opened Splits
  import opened Descents
  import opened Stale
  import opened Fans

  /** The last leaf, and the same split in two. */
  function Full(v: Value): seq<Entry>
  {
    [Entry(K(50), v), Entry(K(60), v), Entry(K(70), v)]
  }

  function Lower(v: Value): seq<Entry>
  {
    [Entry(K(50), v), Entry(K(60), v)]
  }

  function Upper(v: Value): seq<Entry>
  {
    [Entry(K(70), v)]
  }

  function Front(): seq<seq<Entry>>
  {
    [[Entry(K(10), [])], [Entry(K(20), [])], [Entry(K(30), [])], [], [Entry(K(40), [])]]
  }

  /** The fourth separator is stale: nothing in front of it reaches 40. */
  function Seps(): seq<Key>
  {
    [K(10), K(20), K(30), K(99), K(40)]
  }

  ghost function Before(v: Value): Tree
  {
    Fan(Front() + [Full(v)], Seps())
  }

  ghost function After(v: Value): Tree
  {
    Fan(Front() + [Lower(v), Upper(v)], Seps() + [K(60)])
  }

  lemma Order()
    ensures forall a: byte, b: byte :: Num(K(a)) < Num(K(b)) <==> a < b
  {
    forall a: byte, b: byte
      ensures Num(K(a)) < Num(K(b)) <==> a < b
    {
      ByteOrder(a, b);
    }
  }

  lemma BeforeSorted(v: Value)
    ensures FanSorted(Front() + [Full(v)], Seps())
  {
    hide Num, K;
    Order();
  }

  lemma AfterSorted(v: Value)
    ensures FanSorted(Front() + [Lower(v), Upper(v)], Seps() + [K(60)])
  {
    hide Num, K;
    Order();
  }

  /** The split of the last leaf, published, makes the one tree of the other. */
  lemma SplitMakes(v: Value, e: Entry)
    ensures var t, plan := Before(v), PlanLeafSplit(Full(v), e);
      && plan == SplitPlan(Lower(v), Upper(v), false)
      && IsLeaf(t, 7) && Entries(t, 7) == Full(v) && Entries(Installed(t, 7, plan), 7) == plan.left + plan.right
      && var s := LeafSplit(t, 7, 8, plan);
         IsInner(s, 1) && |Slots(s, 1)| == 5 && Publish(s, 1, 5, K(60), 8) == After(v)
  {
    hide K, Fan, Publish, SplitLeaf;
    assert Full(v)[..2] == Lower(v) && Full(v)[2..] == Upper(v);
    assert Lower(v) + Upper(v) == Full(v);
    FanSplitsLast(Front(), Seps(), Lower(v), Upper(v), K(60));
    FanKeysAre(Front() + [Full(v)], Seps());
    NoRelink(Before(v), 7, 8, SplitPlan(Lower(v), Upper(v), false));
  }

  lemma NoRelink(t: Tree, z: Pid, r: Pid, plan: SplitPlan)
    requires IsLeaf(t, z) && plan.SplitPlan? && !plan.installed && Entries(t, z) == plan.left + plan.right
    requires Right(t, z) == 0 && 0 !in t.pages && r != 0
    ensures LeafSplit(t, z, r, plan) == SplitLeaf(t, z, r, |plan.left|)
  {
  }

  // ----- routing -----

  lemma Probe(ks: seq<Key>, key: Key, lo: nat, hi: nat)
    requires lo < hi <= |ks|
    requires lo > 0 ==> Num(ks[lo - 1]) < Num(key)
    requires hi < |ks| ==> Num(key) < Num(ks[hi])
    ensures var mid := lo + (hi - lo) / 2;
      && (Num(ks[mid]) < Num(key) ==> SearchFrom(ks, key, lo, hi) == SearchFrom(ks, key, mid + 1, hi))
      && (Num(key) < Num(ks[mid]) ==> SearchFrom(ks, key, lo, hi) == SearchFrom(ks, key, lo, mid))
  {
    var mid := lo + (hi - lo) / 2;
    NumIsOrder(ks[mid], key);
    NumIsOrder(key, ks[mid]);
  }

  /** With five separators the search looks at the third and the fifth, and passes the stale one. */
  lemma FoundBefore()
    ensures LowerBound(Seps(), K(55)) == (5, false)
  {
    hide Num, K;
    Order();
    var ks := Seps();
    Probe(ks, K(55), 0, 5);
    Probe(ks, K(55), 3, 5);
    assert SearchFrom(ks, K(55), 5, 5) == (5, false);
  }

  /** With six it looks at the fourth first. */
  lemma MissedAfter()
    ensures LowerBound(Seps() + [K(60)], K(55)) == (3, false)
  {
    hide Num, K;
    Order();
    var ks := Seps() + [K(60)];
    Probe(ks, K(55), 0, 6);
    Probe(ks, K(55), 0, 3);
    Probe(ks, K(55), 2, 3);
    assert SearchFrom(ks, K(55), 3, 3) == (3, false);
  }

  lemma FanRoutesTo(leaves: seq<seq<Entry>>, seps: seq<Key>, key: Key, i: nat)
    requires |leaves| == |seps| + 1 && FanSorted(leaves, seps) && LowerBound(seps, key).0 == i
    ensures var t := Fan(leaves, seps);
      && Inv(t) && t.orphans == {} && i <= |seps| && IsLeaf(t, i + 2) && Entries(t, i + 2) == leaves[i]
      && InvRouteLeaf(t, key) == i + 2 && Right(t, i + 2) == if i == |seps| then 0 else i + 3
  {
    hide Fan, Num, LowerBound, Inv, InvRouteLeaf, InvRouteLeafFrom, FanSorted;
    FanOk(leaves, seps);
    FanPages(leaves, seps);
    FanRouteIs(leaves, seps, key);
    var t := Fan(leaves, seps);
    RouteTwice(t, key, i, i + 2);
  }

  lemma FanRouteIs(leaves: seq<seq<Entry>>, seps: seq<Key>, key: Key)
    requires |leaves| == |seps| + 1
    ensures var t := Fan(leaves, seps); IsInner(t, 1) && Route(t.pages[1], key) == LowerBound(seps, key).0
  {
    hide Fan, LowerBound;
    FanNode(leaves, seps, 1);
    assert Separators(Fan(leaves, seps).pages[1].slots) == seps;
  }

  lemma RouteTwice(t: Tree, key: Key, i: nat, z: Pid)
    requires Inv(t) && t.root == 1 && IsInner(t, 1) && Route(t.pages[1], key) == i && Kid(t, 1, i) == z && IsLeaf(t, z)
    ensures InvRouteLeaf(t, key) == z
  {
    hide Inv, InvRouteLeaf, InvRouteLeafFrom, Route, Standing;
    RootReader(t, key);
    RouteReader(t, 1, key);
    RouteReader(t, z, key);
  }

  // ----- the two trees -----

  lemma FullCost(v: Value, w: Value)
    requires |v| == 20000 && |w| == 30000
    ensures LeafCost(Full(v)) <= LEAF_CAPACITY && LeafCost(Lower(v)) + EntryCost(Entry(K(55), w)) > LEAF_CAPACITY
    ensures LeafCost(Full(v)) == LeafCost(Lower(v)) + LeafCost(Upper(v))
    ensures 2 * EntryCost(Entry(K(55), w)) <= LEAF_CAPACITY
  {
    var a, b, c := Entry(K(50), v), Entry(K(60), v), Entry(K(70), v);
    assert Full(v) == [a, b] + [c];
    LeafCostConcat([a, b], [c]);
    TwoCost(a, b);
    LeafCostOne(c);
  }

  lemma NoRoom(v: Value, w: Value)
    requires |v| == 20000 && |w| == 30000
    ensures SplitNeeded(Full(v), Entry(K(55), w)) && SplitNeeded(Lower(v), Entry(K(55), w))
  {
    hide Num, K, LowerBound, LeafCost;
    Order();
    FullCost(v, w);
    BoundIs(Full(v), K(55), 1);
    BoundIs(Lower(v), K(55), 1);
  }

  /** Every key in front of page `p` is smaller than `key`, as the leaves in front of it say. */
  lemma FanBelow(leaves: seq<seq<Entry>>, seps: seq<Key>, p: nat, key: Key)
    requires |leaves| == |seps| + 1 && 2 <= p <= |leaves| + 1
    requires forall i, a :: 0 <= i < p - 2 && 0 <= a < |leaves[i]| ==> Num(leaves[i][a].key) < Num(key)
    ensures AllBelow(Fan(leaves, seps), Lo(Fan(leaves, seps), p), Num(key))
  {
    hide Fan, Num;
    FanPages(leaves, seps);
    FanLabels(leaves, seps);
    var t := Fan(leaves, seps);
    forall z: Pid, j | Lo(t, z) < Lo(t, p) && 0 <= j < |Entries(t, z)|
      ensures Num(Entries(t, z)[j].key) < Num(key)
    {
      assert IsLeaf(t, z) && IsLeaf(t, p) && z < p;
      assert leaves[z - 2][j] == Entries(t, z)[j];
    }
  }

  /** The fourth separator is stale for 55. */
  lemma StaleBefore(v: Value)
    ensures !Clear(Before(v), K(55))
  {
    hide Num, K, Fan, AllBelow, Clear;
    Order();
    var leaves := Front() + [Full(v)];
    FanBelow(leaves, Seps(), 6, K(55));
    FanPages(leaves, Seps());
    var t := Before(v);
    assert !SepClear(t, Slots(t, 1)[3].sep, Lo(t, Kid(t, 1, 4)), K(55));
    if Clear(t, K(55)) {
      ClearAt(t, K(55), 1, 3);
    }
  }

  /** The leaf for 55 is full, and the descent finds it past the stale separator. */
  lemma SlipsBefore(v: Value, w: Value)
    requires |v| == 20000 && |w| == 30000
    ensures var t, e := Before(v), Entry(K(55), w);
      Inv(t) && !Stranded(t, K(55)) && StopLeaf(t, K(55)) == 7 && Entries(t, 7) == Full(v) && Slips(t, e)
  {
    hide Num, K, Fan, AllBelow, Clear, Inv, InvRouteLeaf, StopLeaf, SplitNeeded;
    BeforeSorted(v);
    FoundBefore();
    var leaves := Front() + [Full(v)];
    FanRoutesTo(leaves, Seps(), K(55), 5);
    NoRoom(v, w);
    StaleBefore(v);
    Order();
    FanBelow(leaves, Seps(), 7, K(55));
    var t := Before(v);
    assert Standing(t, 7, K(55)) && !ChaseRight(t.pages[7], K(55));
    StopIs(t, K(55), 7);
    RoutedStop(t, K(55), 7);
  }

  /** After the split the leaf for 55 still has no room, and the descent is stranded. */
  lemma BlockedAfter(v: Value, w: Value)
    requires |v| == 20000 && |w| == 30000
    ensures var t, e := After(v), Entry(K(55), w);
      Inv(t) && InvRouteLeaf(t, K(55)) == 5 && StopLeaf(t, K(55)) == 7 && Blocked(t, e)
  {
    hide Num, K, Fan, AllBelow, Inv, InvRouteLeaf, StopLeaf, SplitNeeded, Stranded;
    AfterSorted(v);
    MissedAfter();
    var leaves, seps := Front() + [Lower(v), Upper(v)], Seps() + [K(60)];
    FanRoutesTo(leaves, seps, K(55), 3);
    NoRoom(v, w);
    Order();
    FanBelow(leaves, seps, 5, K(55));
    FanBelow(leaves, seps, 7, K(55));
    FanPages(leaves, seps);
    var t := After(v);
    assert Entries(t, 7) == Lower(v) && Right(t, 7) == 8;
    ByteOrder(60, 55);
    assert Standing(t, 7, K(55)) && !ChaseRight(t.pages[7], K(55));
    StopIs(t, K(55), 7);
    RoutedStop(t, K(55), 5);
  }

  /** The failure is not visible in the tree the insert is called on: nothing is stranded there, and the split that
      makes room leaves a tree on which it is. */
  lemma LateStrand(v: Value, w: Value)
    requires |v| == 20000 && |w| == 30000
    ensures var t, e := Before(v), Entry(K(55), w);
      && Inv(t) && !Stranded(t, K(55)) && StopLeaf(t, K(55)) == 7 && 2 * EntryCost(e) <= LEAF_CAPACITY
      && IsLeaf(t, 7) && var plan := PlanLeafSplit(Entries(t, 7), e);
      && plan.SplitPlan? && !plan.installed && |plan.left| > 0
      && Entries(Installed(t, 7, plan), 7) == plan.left + plan.right
      && var s := LeafSplit(t, 7, 8, plan);
      && IsInner(s, 1) && |Slots(s, 1)| == 5 && Blocked(Publish(s, 1, 5, plan.left[|plan.left| - 1].key, 8), e)
  {
    hide Num, K, Fan, Inv, Stranded, StopLeaf, Blocked, Slips, LeafSplit, Publish, PlanLeafSplit;
    SlipsBefore(v, w);
    SplitMakes(v, Entry(K(55), w));
    BlockedAfter(v, w);
    FullCost(v, w);
  }
}
