/**
 A run of the tree that leaves an empty leaf in front of stored keys.

 Keys 9 and 10 are inserted into an empty tree, the leaf is split between them, both are
 removed, and 5 and 6 are inserted.  They route to the first leaf, which is empty, and
 chase right into the second.
 */
module HollowRun {
  import opened Keys
  import opened Pages
  import opened Trees
  import opened LeafSteps
  import opened SplitSteps
  import opened EdgeSteps
  import opened RootSteps
  import opened Splits
  import opened Accounts
  import opened Concurrent
  import opened Fans
  import opened Findings

  /** The state is met by some run from an empty tree. */
  ghost predicate Reached(s: State)
  {
    exists states, actions :: IsRun(states, actions) && states[|states| - 1] == s
  }

  lemma Start(s: State)
    requires Init(s)
    ensures Reached(s)
  {
    assert IsRun([s], []);
  }

  lemma Step(s: State, a: Action)
    requires Reached(s) && Enabled(s, a)
    ensures Reached(Do(s, a))
  {
    hide Init, Enabled, Do;
    var states, actions :| IsRun(states, actions) && states[|states| - 1] == s;
    var states', actions' := states + [Do(s, a)], actions + [a];
    forall i | 0 <= i < |actions'|
      ensures Enabled(states'[i], actions'[i]) && states'[i + 1] == Do(states'[i], actions'[i])
    {
      if i < |actions| {
        assert states'[i] == states[i] && states'[i + 1] == states[i + 1];
      }
    }
    assert IsRun(states', actions');
  }

  // ----- before the split -----

  /** One leaf, and one thread standing at it. */
  ghost function One(es: seq<Entry>, m: map<Key, Value>, unlinked: map<Pid, Node>, key: Key): State
  {
    State(Tree(map[1 := Leaf(es, 0, 0)], 1, map[1 := 0.0], map[1 := 0], {}), m, unlinked, [], map[0 := Thread(key, 1)])
  }

  lemma OneBegins(es: seq<Entry>, m: map<Key, Value>, key: Key, key': Key)
    requires Reached(One(es, m, map[], key))
    ensures Reached(One(es, m, map[], key'))
  {
    hide Reached;
    Step(One(es, m, map[], key), Begin(0, key'));
    assert Do(One(es, m, map[], key), Begin(0, key')) == One(es, m, map[], key');
  }

  lemma OneInserts(es: seq<Entry>, m: map<Key, Value>, e: Entry)
    requires Reached(One(es, m, map[], e.key)) && SortedEntries(es + [e])
    requires LeafCost(es) + EntryCost(e) <= LEAF_CAPACITY
    ensures Reached(One(es + [e], m[e.key := e.value], map[], e.key))
  {
    hide Reached, LowerBound, LeafCost, EntryCost, Num;
    var s := One(es, m, map[], e.key);
    assert forall i :: 0 <= i < |es| ==> (es + [e])[i] == es[i];
    assert (es + [e])[|es|] == e;
    BoundIs(es, e.key, |es|);
    assert InsertedAt(es, |es|, e) == es + [e];
    Step(s, LeafInsert(0, e.value));
    assert Do(s, LeafInsert(0, e.value)) == One(es + [e], m[e.key := e.value], map[], e.key);
  }

  lemma OneWrites(es: seq<Entry>, m: map<Key, Value>, unlinked: map<Pid, Node>, key: Key, page: Pid, node: Node)
    requires Reached(One(es, m, unlinked, key)) && page > 1
    ensures Reached(One(es, m, unlinked[page := node], key))
  {
    hide Reached;
    Step(One(es, m, unlinked, key), WriteUnlinked(page, node));
    assert Do(One(es, m, unlinked, key), WriteUnlinked(page, node)) == One(es, m, unlinked[page := node], key);
  }

  lemma OneStarts(key: Key)
    ensures Reached(One([], map[], map[], key))
  {
    hide Reached;
    var s := One([], map[], map[], key).(threads := map[]);
    Start(s);
    Step(s, Begin(0, key));
    assert Do(s, Begin(0, key)) == One([], map[], map[], key);
  }

  // ----- after the split -----

  /** Two leaves behind separator 9, and one thread at page `p`. */
  ghost function Two(a: seq<Entry>, b: seq<Entry>, m: map<Key, Value>, key: Key, p: Pid): State
  {
    State(Fan([a, b], [K(9)]), m, map[], [], map[0 := Thread(key, p)])
  }

  lemma SplitsInTwo(e: Entry, f: Entry, m: map<Key, Value>)
    requires e.key == K(9) && SortedEntries([e, f]) && LeafCost([e, f]) <= LEAF_CAPACITY
    requires Reached(One([e, f], m, map[2 := Leaf([e], 0, 3), 3 := Leaf([f], 2, 0)], f.key))
    ensures Reached(Two([e], [f], m, f.key, 1))
  {
    hide Reached, LowerBound, LeafCost, EntryCost, Num, Fan, Grow, SplitLeaf, Publish, Do;
    var unlinked := map[2 := Leaf([e], 0, 3), 3 := Leaf([f], 2, 0)];
    var s, plan := One([e, f], m, unlinked, f.key), SplitPlan([e], [f], false);
    var a := SplitRootLeaf(0, f.value, plan, 2, 3);
    LeafCostConcat([e], [f]);
    assert [e] + [f] == [e, f];
    assert Enabled(s, a);
    Step(s, a);
    SplitResult(e, f, m);
  }

  lemma SplitResult(e: Entry, f: Entry, m: map<Key, Value>)
    requires e.key == K(9)
    requires var s := One([e, f], m, map[2 := Leaf([e], 0, 3), 3 := Leaf([f], 2, 0)], f.key);
      var plan := SplitPlan([e], [f], false);
      Enabled(s, SplitRootLeaf(0, f.value, plan, 2, 3))
    ensures var s := One([e, f], m, map[2 := Leaf([e], 0, 3), 3 := Leaf([f], 2, 0)], f.key);
      var plan := SplitPlan([e], [f], false);
      Do(s, SplitRootLeaf(0, f.value, plan, 2, 3)) == Two([e], [f], m, f.key, 1)
  {
    hide Enabled, LowerBound, K, GoodPlan, RootLeafSplit, Fan, Installed;
    var s, plan := One([e, f], m, map[2 := Leaf([e], 0, 3), 3 := Leaf([f], 2, 0)], f.key), SplitPlan([e], [f], false);
    RootSplitIsFan(s.t, e, f, plan);
    assert CutRootBy(s.t, 2, 3, plan) == Fan([[e], [f]], [K(9)]);
    assert s.unlinked - {2, 3} == map[];
  }

  lemma RootSplitIsFan(t: Tree, e: Entry, f: Entry, plan: SplitPlan)
    requires t == Tree(map[1 := Leaf([e, f], 0, 0)], 1, map[1 := 0.0], map[1 := 0], {})
    requires plan == SplitPlan([e], [f], false)
    ensures Entries(Installed(t, 1, plan), 1) == plan.left + plan.right
    ensures RootLeafSplit(t, 2, 3, plan) == Fan([[e], [f]], [e.key])
  {
    hide Fan, K, RootLeafSplit;
    assert [e] + [f] == [e, f];
    RootLeafSplitPages(t, 2, 3, plan);
    RootSplitLabels(t, e, f, plan);
    var u, w := RootLeafSplit(t, 2, 3, plan), Fan([[e], [f]], [e.key]);
    FanKeysAre([[e], [f]], [e.key]);
    FanRoot([[e], [f]], [e.key]);
    FanNode([[e], [f]], [e.key], 1);
    FanNode([[e], [f]], [e.key], 2);
    FanNode([[e], [f]], [e.key], 3);
    assert w.pages[1].slots == [Slot(e.key, 2)];
    assert u.pages == w.pages;
    assert u.lo == w.lo && u.level == w.level;
  }

  lemma RootSplitLabels(t: Tree, e: Entry, f: Entry, plan: SplitPlan)
    requires t == Tree(map[1 := Leaf([e, f], 0, 0)], 1, map[1 := 0.0], map[1 := 0], {})
    requires plan == SplitPlan([e], [f], false)
    requires Entries(Installed(t, 1, plan), 1) == plan.left + plan.right
    ensures var u := RootLeafSplit(t, 2, 3, plan);
      && u.root == 1 && u.orphans == {} && u.lo == map[1 := 0.0, 2 := 0.0, 3 := 1.0]
      && u.level == map[1 := 1, 2 := 0, 3 := 0]
  {
    var g := Grow(t, 2);
    assert g.pages[2] == Leaf([e, f], 0, 0) && Right(g, 2) == 0 && Lo(g, 2) == 0.0;
  }

  lemma TwoBegins(a: seq<Entry>, b: seq<Entry>, m: map<Key, Value>, key: Key, p: Pid, key': Key)
    requires Reached(Two(a, b, m, key, p))
    ensures Reached(Two(a, b, m, key', 1))
  {
    hide Reached, Fan;
    FanRoot([a, b], [K(9)]);
    Step(Two(a, b, m, key, p), Begin(0, key'));
    assert Do(Two(a, b, m, key, p), Begin(0, key')) == Two(a, b, m, key', 1);
  }

  lemma TwoHops(a: seq<Entry>, b: seq<Entry>, m: map<Key, Value>, key: Key, p: Pid, q: Pid)
    requires Reached(Two(a, b, m, key, p)) && 1 <= p <= 3 && q != 0
    requires p in Fan([a, b], [K(9)]).pages && NextHop(Fan([a, b], [K(9)]).pages[p], key) == q
    ensures Reached(Two(a, b, m, key, q))
  {
    hide Reached, Fan, NextHop;
    Step(Two(a, b, m, key, p), Hop(0));
    assert Do(Two(a, b, m, key, p), Hop(0)) == Two(a, b, m, key, q);
  }

  lemma FanWrites(leaves: seq<seq<Entry>>, seps: seq<Key>, p: nat, es: seq<Entry>)
    requires |leaves| == |seps| + 1 && 2 <= p <= |leaves| + 1
    ensures IsLeaf(Fan(leaves, seps), p) && Entries(Fan(leaves, seps), p) == leaves[p - 2]
    ensures WithEntries(Fan(leaves, seps), p, es) == Fan(leaves[p - 2 := es], seps)
  {
    hide Fan;
    var leaves' := leaves[p - 2 := es];
    FanKeysAre(leaves, seps);
    FanKeysAre(leaves', seps);
    FanRoot(leaves, seps);
    FanRoot(leaves', seps);
    FanNode(leaves, seps, p);
    var u, w := WithEntries(Fan(leaves, seps), p, es), Fan(leaves', seps);
    forall q: Pid | 1 <= q <= |leaves| + 1
      ensures u.pages[q] == w.pages[q] && u.lo[q] == w.lo[q] && u.level[q] == w.level[q]
    {
      FanNode(leaves, seps, q);
      FanNode(leaves', seps, q);
    }
    assert u.pages == w.pages && u.lo == w.lo && u.level == w.level;
  }

  /** The thread removes the only entry of its leaf. */
  lemma TwoRemoves(a: seq<Entry>, b: seq<Entry>, m: map<Key, Value>, e: Entry, p: Pid)
    requires Reached(Two(a, b, m, e.key, p)) && ((p == 2 && a == [e]) || (p == 3 && b == [e]))
    ensures Reached(Two(if p == 2 then [] else a, if p == 3 then [] else b, m - {e.key}, e.key, p))
  {
    hide Reached, Fan, LowerBound, Num;
    var s := Two(a, b, m, e.key, p);
    FanWrites([a, b], [K(9)], p, []);
    FanPages([a, b], [K(9)]);
    FoundAt(e);
    NumIsOrder(e.key, e.key);
    assert [a, b][p - 2 := []] == [if p == 2 then [] else a, if p == 3 then [] else b];
    assert RemovedAt([e], 0) == [];
    Step(s, LeafRemove(0));
    assert Do(s, LeafRemove(0)) == Two(if p == 2 then [] else a, if p == 3 then [] else b, m - {e.key}, e.key, p);
  }

  lemma FoundAt(e: Entry)
    ensures LowerBound(EntryKeys([e]), e.key) == (0, true)
  {
    hide LowerBound;
    assert EntryKeys([e]) == [e.key];
    LowerBoundSorted([e.key], e.key);
  }

  /** The thread appends its entry to the last leaf. */
  lemma TwoInserts(a: seq<Entry>, b: seq<Entry>, m: map<Key, Value>, e: Entry)
    requires Reached(Two(a, b, m, e.key, 3)) && SortedEntries(b + [e]) && LeafCost(b) + EntryCost(e) <= LEAF_CAPACITY
    ensures Reached(Two(a, b + [e], m[e.key := e.value], e.key, 3))
  {
    hide Reached, Fan, LowerBound, LeafCost, EntryCost, Num;
    var s := Two(a, b, m, e.key, 3);
    FanWrites([a, b], [K(9)], 3, b + [e]);
    FanPages([a, b], [K(9)]);
    assert forall i :: 0 <= i < |b| ==> (b + [e])[i] == b[i];
    assert (b + [e])[|b|] == e;
    BoundIs(b, e.key, |b|);
    assert InsertedAt(b, |b|, e) == b + [e];
    assert [a, b][1 := b + [e]] == [a, b + [e]];
    Step(s, LeafInsert(0, e.value));
    assert Do(s, LeafInsert(0, e.value)) == Two(a, b + [e], m[e.key := e.value], e.key, 3);
  }

  // ----- the run -----

  /** Keys up to 9 go from the root to page 2, larger ones to page 3. */
  lemma Routes(a: seq<Entry>, b: seq<Entry>, k: byte)
    ensures var t := Fan([a, b], [K(9)]);
      && 1 in t.pages && NextHop(t.pages[1], K(k)) == (if k <= 9 then 2 else 3)
      && 2 in t.pages && 3 in t.pages && (a == [] ==> NextHop(t.pages[2], K(k)) == 3)
  {
    hide Fan, Num, LowerBound, K;
    FanNode([a, b], [K(9)], 1);
    FanNode([a, b], [K(9)], 2);
    FanNode([a, b], [K(9)], 3);
    var t := Fan([a, b], [K(9)]);
    assert t.pages[1].slots == [Slot(K(9), 2)];
    assert Separators(t.pages[1].slots) == [K(9)];
    LowerBoundSorted([K(9)], K(k));
    ByteOrder(k, 9);
    ByteOrder(9, k);
    NumIsOrder(K(k), K(9));
  }

  lemma Splitting(v: Value)
    requires |v| <= 30000
    ensures Reached(Two([Entry(K(9), v)], [Entry(K(10), v)], map[K(9) := v, K(10) := v], K(10), 1))
  {
    hide Reached, Fan, Num, One, Two;
    var e, f := Entry(K(9), v), Entry(K(10), v);
    ByteOrder(9, 10);
    TwoCost(e, f);
    LeafCostOne(e);
    OneStarts(K(9));
    assert [] + [e] == [e] && [e] + [f] == [e, f];
    OneInserts([], map[], e);
    OneBegins([e], map[K(9) := v], K(9), K(10));
    OneInserts([e], map[K(9) := v], f);
    var m := map[K(9) := v, K(10) := v];
    assert map[K(9) := v][K(10) := v] == m;
    OneWrites([e, f], m, map[], K(10), 2, Leaf([e], 0, 3));
    OneWrites([e, f], m, map[2 := Leaf([e], 0, 3)], K(10), 3, Leaf([f], 2, 0));
    SplitsInTwo(e, f, m);
  }

  lemma Emptying(v: Value)
    requires |v| <= 30000
    ensures Reached(Two([], [], map[], K(10), 3))
  {
    hide Reached, Fan, Num, Two, NextHop;
    var e, f := Entry(K(9), v), Entry(K(10), v);
    var m := map[K(9) := v, K(10) := v];
    Splitting(v);
    TwoBegins([e], [f], m, K(10), 1, K(9));
    Routes([e], [f], 9);
    TwoHops([e], [f], m, K(9), 1, 2);
    TwoRemoves([e], [f], m, e, 2);
    TwoBegins([], [f], m - {K(9)}, K(9), 2, K(10));
    Routes([], [f], 10);
    TwoHops([], [f], m - {K(9)}, K(10), 1, 3);
    TwoRemoves([], [f], m - {K(9)}, f, 3);
    assert m - {K(9)} - {K(10)} == map[];
  }

  /** The tree of the findings is met by a run from the empty tree. */
  lemma HollowReached(v: Value)
    requires |v| <= 30000
    ensures exists s :: Reached(s) && s.t == Hollow(v) && s.m == map[K(5) := v, K(6) := v] && s.pending == []
  {
    hide Reached, Fan, Num, NextHop, LeafCost, EntryCost, K;
    var e, f := Entry(K(5), v), Entry(K(6), v);
    Emptying(v);
    Room(v);
    TwoBegins([], [], map[], K(10), 3, K(5));
    Routes([], [], 5);
    TwoHops([], [], map[], K(5), 1, 2);
    TwoHops([], [], map[], K(5), 2, 3);
    assert [] + [e] == [e] && [e] + [f] == [e, f];
    TwoInserts([], [], map[], e);
    var m := map[K(5) := v];
    TwoBegins([], [e], m, K(5), 3, K(6));
    Routes([], [e], 6);
    TwoHops([], [e], m, K(6), 1, 2);
    TwoHops([], [e], m, K(6), 2, 3);
    TwoInserts([], [e], m, f);
    assert m[K(6) := v] == map[K(5) := v, K(6) := v];
    var s := Two([], [e, f], m[K(6) := v], K(6), 3);
    assert s.t == Hollow(v);
  }

  lemma Room(v: Value)
    requires |v| <= 30000
    ensures var e, f := Entry(K(5), v), Entry(K(6), v);
      && SortedEntries([e]) && SortedEntries([e, f])
      && LeafCost([]) + EntryCost(e) <= LEAF_CAPACITY && LeafCost([e]) + EntryCost(f) <= LEAF_CAPACITY
  {
    hide Num;
    ByteOrder(5, 6);
    LeafCostOne(Entry(K(5), v));
  }
}
