/**
 The concurrent tree as its callers see it: a map with atomic operations.

 The reference knows nothing of pages.  It is told by the actions alone: which key each thread
 has in hand, and what the map holds.  Beside it stand what the tree offers a thread in
 every state, that pages stay within their space, and what the steps of a split achieve.
 */
module Atomic {
  import opened Keys
  import opened Pages
  import opened Trees
  import opened LeafSteps
  import opened Descents
  import opened Splits
  import opened Levels
  import opened Accounts
  import opened EdgeSteps
  import opened InnerSteps
  import opened Concurrent

  datatype Abstract = Abstract(m: map<Key, Value>, keys: map<nat, Key>)

  /** The thread has a key in hand. */
  function KeyOf(x: Abstract, tid: nat): Key
  {
    if tid in x.keys then x.keys[tid] else []
  }

  /** What an action means: a descent takes a key in hand, a leaf write changes the map at that key, a split does so
      if it puts its pending entry in, a crash empties all hands, and nothing else can be seen. */
  function Means(x: Abstract, a: Action): Abstract
  {
    match a
    case Begin(tid, key) => x.(keys := x.keys[tid := key])
    case Leave(tid) => x.(keys := x.keys - {tid})
    case LeafInsert(tid, v) => x.(m := x.m[KeyOf(x, tid) := v])
    case LeafUpdate(tid, v) => x.(m := x.m[KeyOf(x, tid) := v])
    case LeafRemove(tid) => x.(m := x.m - {KeyOf(x, tid)})
    case LinkSibling(tid, v, plan, _) => PutIn(x, tid, v, plan)
    case SplitRootLeaf(tid, v, plan, _, _) => PutIn(x, tid, v, plan)
    case Crash => x.(keys := map[])
    case _ => x
  }

  function PutIn(x: Abstract, tid: nat, v: Value, plan: SplitPlan): Abstract
  {
    if plan.SplitPlan? && plan.installed then x.(m := x.m[KeyOf(x, tid) := v]) else x
  }

  /** What a whole sequence of actions means, from the empty map on. */
  function History(actions: seq<Action>): Abstract
  {
    if |actions| == 0 then Abstract(map[], map[]) else Means(History(actions[..|actions| - 1]), actions[|actions| - 1])
  }

  /** The state shows the map, and its threads have the keys in hand. */
  ghost predicate Shows(s: State, x: Abstract)
  {
    && s.m == x.m && s.threads.Keys == x.keys.Keys
    && forall tid :: tid in s.threads ==> s.threads[tid].key == x.keys[tid]
  }

  /** Every step does what its action means. */
  lemma StepMeans(s: State, a: Action, x: Abstract)
    requires SysInv(s) && Enabled(s, a) && Shows(s, x)
    ensures Shows(Do(s, a), Means(x, a))
    ensures a.LeafInsert? ==> KeyOf(x, a.tid) !in x.m
    ensures a.LeafUpdate? || a.LeafRemove? ==> KeyOf(x, a.tid) in x.m
    ensures (a.LinkSibling? || a.SplitRootLeaf?) && a.plan.installed ==> KeyOf(x, a.tid) !in x.m
  {
    hide Inv, Stores, PendingOk, UnlinkedOk, Standing, LowerBound, LeafCost, InnerCost, ChaseRight, NextHop, GoodPlan,
      CutBy, CutRootBy, WithEntries, RootInnerSplit, InsertedAt, RemovedAt;
    match a
    case LeafInsert(tid, _) => AtWithin(s, tid);
    case LeafUpdate(tid, _) => AtWithin(s, tid);
    case LeafRemove(tid) => AtWithin(s, tid);
    case LinkSibling(tid, v, plan, _) => NewToMap(s, tid, v, plan);
    case SplitRootLeaf(tid, v, plan, _, _) => NewToMap(s, tid, v, plan);
    case _ =>
  }

  lemma NewToMap(s: State, tid: nat, v: Value, plan: SplitPlan)
    requires SysInv(s) && MaySplit(s, tid, v, plan)
    ensures plan.installed ==> s.threads[tid].key !in s.m
  {
    hide Inv, Stores, PendingOk, UnlinkedOk, Standing, LowerBound, LeafCost, ChaseRight;
    AtWithin(s, tid);
  }

  /** The map of every state of every run, and the key every thread looks for, are what its actions say: every run of
      the tree is a run of an atomic map. */
  lemma {:induction false} EveryMap(states: seq<State>, actions: seq<Action>, n: nat)
    requires IsRun(states, actions) && n < |states|
    ensures Shows(states[n], History(actions[..n]))
    decreases n
  {
    hide SysInv, Enabled, Do, Means;
    if n > 0 {
      EveryMap(states, actions, n - 1);
      RunOk(states, actions, n - 1);
      assert actions[..n][..n - 1] == actions[..n - 1];
      StepMeans(states[n - 1], actions[n - 1], History(actions[..n - 1]));
    }
  }

  /** The answer a thread takes away is what the atomic map holds at its key. */
  lemma EveryReply(states: seq<State>, actions: seq<Action>, n: nat)
    requires IsRun(states, actions) && n < |actions| && actions[n].Leave?
    ensures var s, x := states[n], History(actions[..n]);
      var tid, key := actions[n].tid, KeyOf(x, actions[n].tid);
      tid in s.threads && ValueIn(s.t.pages[s.threads[tid].at], key) == MapGet(x.m, key)
  {
    hide SysInv, Do, Means, History;
    EveryMap(states, actions, n);
    EveryAnswer(states, actions, n);
  }

  // ----- what is offered -----

  /** No descent is stuck: a thread under way may hop on or has arrived. */
  lemma NeverStuck(s: State, tid: nat)
    requires SysInv(s) && tid in s.threads
    ensures Enabled(s, Hop(tid)) <==> !Enabled(s, Leave(tid))
  {
    hide Stores, PendingOk, UnlinkedOk, Inv;
    var th := s.threads[tid];
    InReach(s.t, th.at, th.key);
    if NextHop(s.t.pages[th.at], th.key) == 0 {
      StopReader(s.t, th.at, th.key);
    } else if IsLeaf(s.t, th.at) {
      HopMeans(s.t.pages[th.at], th.key);
    }
  }

  lemma InReach(t: Tree, p: Pid, key: Key)
    requires Inv(t) && Standing(t, p, key)
    ensures p in t.pages
  {
  }

  lemma HopMeans(n: Node, key: Key)
    requires n.Leaf? && NextHop(n, key) != 0
    ensures ChaseRight(n, key)
  {
  }

  /** A thread that has arrived may remove its key exactly if the map has it, insert it exactly if the map has not
      and there is room, and overwrite it exactly if the map has it and the new value leaves the leaf within its
      page. */
  lemma WritesOffered(s: State, tid: nat, v: Value)
    requires SysInv(s) && AtStop(s, tid)
    ensures var key, es := s.threads[tid].key, Entries(s.t, s.threads[tid].at);
      && (Enabled(s, LeafRemove(tid)) <==> key in s.m)
      && (Enabled(s, LeafInsert(tid, v)) <==> key !in s.m && LeafCost(es) + EntryCost(Entry(key, v)) <= LEAF_CAPACITY)
      && (Enabled(s, LeafUpdate(tid, v)) <==> key in s.m && LeafCost(es) - |s.m[key]| + |v| <= LEAF_CAPACITY)
  {
    hide Inv, PendingOk, UnlinkedOk, Standing, LowerBound, LeafCost, ChaseRight;
    AtWithin(s, tid);
    var (pos, exact) := At(s, tid);
    if exact {
      HoldsAt(s.t, s.threads[tid].at, pos);
    }
  }

  // ----- space -----

  lemma WriteFits(s: State, a: Action)
    requires SysInv(s) && Enabled(s, a) && AllFit(s.t.pages) && (a.LeafInsert? || a.LeafUpdate? || a.LeafRemove?)
    ensures AllFit(Do(s, a).t.pages)
  {
    hide Inv, Stores, PendingOk, ThreadsOk, UnlinkedOk, Standing, LowerBound, LeafCost, EntryCost, AllFit, ChaseRight,
      InsertedAt, RemovedAt, WithEntries;
    var z := s.threads[a.tid].at;
    var es := Entries(s.t, z);
    var (pos, exact) := At(s, a.tid);
    AtWithin(s, a.tid);
    PageAt(s.t.pages, z, Limits(0, false));
    match a
    case LeafInsert(tid, v) =>
      InsertCost(es, pos, Entry(s.threads[tid].key, v));
      WithEntriesAccounts(s.t, z, InsertedAt(es, pos, Entry(s.threads[tid].key, v)), Limits(0, false));
    case LeafUpdate(tid, v) =>
      UpdateCost(es, pos, Entry(s.threads[tid].key, v));
      WithEntriesAccounts(s.t, z, es[pos := Entry(s.threads[tid].key, v)], Limits(0, false));
    case LeafRemove(_) =>
      RemoveCost(es, pos);
      WithEntriesAccounts(s.t, z, RemovedAt(es, pos), Limits(0, false));
  }

  lemma SplitFits(s: State, a: Action)
    requires SysInv(s) && Enabled(s, a) && AllFit(s.t.pages)
    requires a.LinkSibling? || a.SplitRootLeaf? || a.CutInner? || a.SplitRootInner? || a.PublishTop? || a.Relink?
    ensures AllFit(Do(s, a).t.pages)
  {
    hide Inv, Stores, PendingOk, ThreadsOk, Standing, LowerBound, LeafCost, InnerCost, AllFit, ChaseRight, GoodPlan,
      Installed,
      SplitInner, RootInnerSplit, RootLeafSplit, LowerHalf, UpperHalf, InsertEdge;
    var w := Limits(0, false);
    match a
    case LinkSibling(tid, v, plan, r) =>
      SplitDefined(s, tid, v, plan);
      PlanFits(Entries(s.t, s.threads[tid].at), Entry(s.threads[tid].key, v), plan);
      CutFits(s.t, s.threads[tid].at, r, plan);
    case SplitRootLeaf(tid, v, plan, l, r) =>
      SplitDefined(s, tid, v, plan);
      PlanFits(Entries(s.t, s.threads[tid].at), Entry(s.threads[tid].key, v), plan);
      RootIn(s.t);
      RootLeafSplitAccounts(s.t, l, r, plan, w);
    case CutInner(p, h, r) => SplitInnerAccounts(s.t, p, r, h, w);
    case SplitRootInner(h, l, r) => RootInnerSplitAccounts(s.t, l, r, h, w);
    case PublishTop(p, i) => PublishAccounts(s.t, p, i, Last(s.pending).sep, Last(s.pending).right, w);
    case Relink(leaf, back) =>
      PageAt(s.t.pages, leaf, w);
      PutPage(s.t.pages, leaf, s.t.pages[leaf].(left := back), w);
  }

  lemma CutFits(t: Tree, z: Pid, r: Pid, plan: SplitPlan)
    requires AllFit(t.pages) && IsLeaf(t, z) && r !in t.pages && plan.SplitPlan?
    requires Entries(Installed(t, z, plan), z) == plan.left + plan.right
    requires LeafCost(plan.left) <= LEAF_CAPACITY && LeafCost(plan.right) <= LEAF_CAPACITY
    ensures AllFit(CutBy(t, z, r, plan).pages)
  {
    hide LeafCost, AllFit;
    var n := t.pages[z];
    assert (plan.left + plan.right)[..|plan.left|] == plan.left;
    assert (plan.left + plan.right)[|plan.left|..] == plan.right;
    PutPage(t.pages, z, Leaf(plan.left, n.left, r), Limits(0, false));
    PutPage(t.pages[z := Leaf(plan.left, n.left, r)], r, Leaf(plan.right, z, n.right), Limits(0, false));
    assert CutBy(t, z, r, plan).pages == t.pages[z := Leaf(plan.left, n.left, r)][r := Leaf(plan.right, z, n.right)];
  }

  /** In every state of every run every page of the tree is within its space. */
  lemma {:induction false} EveryPageFits(states: seq<State>, actions: seq<Action>, n: nat)
    requires IsRun(states, actions) && n < |states|
    ensures AllFit(states[n].t.pages)
    decreases n
  {
    hide SysInv, Enabled;
    if n > 0 {
      EveryPageFits(states, actions, n - 1);
      RunOk(states, actions, n - 1);
      StepFits(states[n - 1], actions[n - 1]);
    }
  }

  lemma StepFits(s: State, a: Action)
    requires SysInv(s) && Enabled(s, a) && AllFit(s.t.pages)
    ensures AllFit(Do(s, a).t.pages)
  {
    hide SysInv;
    if a.LeafInsert? || a.LeafUpdate? || a.LeafRemove? {
      WriteFits(s, a);
    } else if a.LinkSibling? || a.SplitRootLeaf? || a.CutInner? || a.SplitRootInner? || a.PublishTop? || a.Relink? {
      SplitFits(s, a);
    }
  }

  // ----- what the steps of a split achieve -----

  /** The entries of a leaf with the pending one in its place, if the split puts it in. */
  function Pended(es: seq<Entry>, e: Entry, installed: bool): seq<Entry>
  {
    var pos := LowerBound(EntryKeys(es), e.key).0;
    if installed && pos <= |es| then InsertedAt(es, pos, e) else es
  }

  /** Leaves `l` and `r` are neighbours that hold the entries `es` in order, some each. */
  ghost predicate Divides(t: Tree, l: Pid, r: Pid, es: seq<Entry>)
  {
    && IsLeaf(t, l) && IsLeaf(t, r) && Right(t, l) == r && |Entries(t, l)| > 0 && |Entries(t, r)| > 0
    && Entries(t, l) + Entries(t, r) == es
  }

  /** Linking a sibling divides the leaf's entries between the two, and leaves the sibling to be published. */
  lemma LinkMeans(s: State, tid: nat, v: Value, plan: SplitPlan, r: Pid, s': State)
    requires SysInv(s) && Enabled(s, LinkSibling(tid, v, plan, r)) && s' == Do(s, LinkSibling(tid, v, plan, r))
    ensures var z := s.threads[tid].at;
      && Divides(s'.t, z, r, Pended(Entries(s.t, z), Entry(s.threads[tid].key, v), plan.installed))
      && Right(s'.t, r) == Right(s.t, z) && r in s'.t.orphans
      && |s'.pending| == 1 && s'.pending[0].left == z && s'.pending[0].right == r
      && s'.pending[0].sep == Entries(s'.t, z)[|Entries(s'.t, z)| - 1].key
  {
    hide Inv, Stores, PendingOk, ThreadsOk, Standing, LowerBound, LeafCost, ChaseRight, InsertedAt, GoodPlan;
    SplitDefined(s, tid, v, plan);
    PlanIsPended(s, tid, v, plan);
    assert (plan.left + plan.right)[..|plan.left|] == plan.left;
    assert (plan.left + plan.right)[|plan.left|..] == plan.right;
  }

  lemma PlanIsPended(s: State, tid: nat, v: Value, plan: SplitPlan)
    requires SysInv(s) && MaySplit(s, tid, v, plan)
    ensures plan.left + plan.right ==
      Pended(Entries(s.t, s.threads[tid].at), Entry(s.threads[tid].key, v), plan.installed)
  {
    hide Inv, Stores, PendingOk, UnlinkedOk, Standing, LowerBound, LeafCost, ChaseRight, InsertedAt;
    AtWithin(s, tid);
  }

  /** Cutting an inner node keeps its separators and children in order, with the one between the halves to be
      published. */
  lemma CutMeans(s: State, p: Pid, h: nat, r: Pid, s': State)
    requires SysInv(s) && Enabled(s, CutInner(p, h, r)) && s' == Do(s, CutInner(p, h, r))
    ensures var ss, lower, upper := Slots(s.t, p), Slots(s'.t, p), Slots(s'.t, r);
      && IsInner(s'.t, p) && IsInner(s'.t, r) && r in s'.t.orphans && |lower| + 1 + |upper| == |ss|
      && lower == ss[..|lower|] && upper == ss[|lower| + 1..]
      && Kid(s'.t, p, |lower|) == ss[|lower|].child && Kid(s'.t, r, |upper|) == Kid(s.t, p, |ss|)
      && s'.pending == s.pending + [Pending(p, r, ss[|lower|].sep)]
  {
    hide Inv, Stores, PendingOk, ThreadsOk;
  }

  /** Publication gives the sibling its edge, behind that of its left neighbour, and takes it off the stack. */
  lemma PublishMeans(s: State, p: Pid, i: nat, s': State)
    requires SysInv(s) && Enabled(s, PublishTop(p, i)) && s' == Do(s, PublishTop(p, i))
    ensures var top := Last(s.pending);
      && Edge(s'.t, p, i, top.left) && Edge(s'.t, p, i + 1, top.right)
      && i < |Slots(s'.t, p)| && Slots(s'.t, p)[i].sep == top.sep
      && top.right in s.t.orphans && s'.t.orphans == s.t.orphans - {top.right}
      && s'.pending == s.pending[..|s.pending| - 1]
  {
    hide Inv, Stores, ThreadsOk, InnerCost;
    PendingRightsIn(s);
  }

  /** Splitting a leaf root puts two leaves under it that divide its entries. */
  lemma RootLeafMeans(s: State, tid: nat, v: Value, plan: SplitPlan, l: Pid, r: Pid, s': State)
    requires SysInv(s) && Enabled(s, SplitRootLeaf(tid, v, plan, l, r))
    requires s' == Do(s, SplitRootLeaf(tid, v, plan, l, r))
    ensures Divides(s'.t, l, r, Pended(Entries(s.t, s.t.root), Entry(s.threads[tid].key, v), plan.installed))
    ensures IsInner(s'.t, s.t.root) && Edge(s'.t, s.t.root, 0, l) && Edge(s'.t, s.t.root, 1, r)
    ensures |Slots(s'.t, s.t.root)| == 1 && Slots(s'.t, s.t.root)[0].sep == Entries(s'.t, l)[|Entries(s'.t, l)| - 1].key
  {
    hide Inv, Stores, PendingOk, ThreadsOk, Standing, LowerBound, LeafCost, ChaseRight, InsertedAt, RootLeafSplit,
      Installed,
      GoodPlan;
    SplitDefined(s, tid, v, plan);
    PlanIsPended(s, tid, v, plan);
    RootLeafSplitPages(s.t, l, r, plan);
  }

  /** Splitting an inner root puts two nodes under it that divide its separators and children. */
  lemma RootInnerMeans(s: State, h: nat, l: Pid, r: Pid, s': State)
    requires SysInv(s) && Enabled(s, SplitRootInner(h, l, r)) && s' == Do(s, SplitRootInner(h, l, r))
    ensures var ss, lower, upper := Slots(s.t, s.t.root), Slots(s'.t, l), Slots(s'.t, r);
      && IsInner(s'.t, l) && IsInner(s'.t, r) && |lower| + 1 + |upper| == |ss|
      && lower == ss[..|lower|] && upper == ss[|lower| + 1..]
      && Kid(s'.t, l, |lower|) == ss[|lower|].child && Kid(s'.t, r, |upper|) == Kid(s.t, s.t.root, |ss|)
      && Slots(s'.t, s.t.root) == [Slot(ss[|lower|].sep, l)] && Kid(s'.t, s.t.root, 1) == r
  {
    hide Inv, Stores, PendingOk, ThreadsOk, RootInnerSplit;
    RootInnerSplitPages(s.t, l, r, h);
  }

  /** A split under way can go on while nothing has crashed: the sibling on top has a neighbour with a parent that is
      no orphan, and that parent takes it if it has room, else it can be cut anywhere, once the upper part is written
      to a fresh page. */
  lemma SplitGoesOn(s: State) returns (p: Pid, i: nat)
    requires SysInv(s) && Tracked(s) && |s.pending| > 0
    ensures Edge(s.t, p, i, Last(s.pending).left) && p !in s.t.orphans
    ensures HasRoom(s.t, p, Last(s.pending).sep) ==> Enabled(s, PublishTop(p, i))
    ensures forall h, r :: p != s.t.root && 0 <= h < |Slots(s.t, p)| && r != 0 && r !in s.t.pages ==>
      Enabled(s.(unlinked := s.unlinked[r := UpperHalf(s.t.pages[p], h)]), CutInner(p, h, r))
  {
    hide Stores, ThreadsOk, UnlinkedOk, InnerCost, UpperHalf, Inv;
    var top := Last(s.pending);
    TopIsAbove(s);
    NeighbourHasParent(s);
    p, i := ParentOf(s.t, top.left);
    EdgeLevel(s.t, p, i, top.left);
    ParentIsNoOrphan(s, p);
  }

  lemma NeighbourHasParent(s: State)
    requires SysInv(s) && Tracked(s) && |s.pending| > 0
    ensures var l := Last(s.pending).left; l in s.t.pages && l != s.t.root && l !in s.t.orphans
  {
    hide Inv, Stores, PendingOk, ThreadsOk, UnlinkedOk;
    NeighbourIsNoSibling(s);
  }

  lemma NeighbourIsNoSibling(s: State)
    requires SysInv(s) && |s.pending| > 0
    ensures var l := Last(s.pending).left;
      l in s.t.pages && l != s.t.root && forall j :: 0 <= j < |s.pending| ==> s.pending[j].right != l
  {
    hide Inv, Stores, PendingOk, ThreadsOk, UnlinkedOk, PendOk;
    TopIsAbove(s);
    PendingRightsIn(s);
    var top := Last(s.pending);
    BelowRoot(s.t, top);
    forall j | 0 <= j < |s.pending|
      ensures s.pending[j].right != top.left
    {
      SiblingLevel(s.t, s.pending[j]);
    }
  }

  lemma BelowRoot(t: Tree, q: Pending)
    requires Inv(t) && PendOk(t, q)
    ensures q.left in t.pages && q.left != t.root && q.right != q.left
  {
    hide SepOk;
    assert Typed(t);
  }

  lemma SiblingLevel(t: Tree, q: Pending)
    requires PendOk(t, q)
    ensures Level(t, q.right) == Level(t, q.left) && q.right != q.left
  {
    hide SepOk;
  }

  lemma ParentOf(t: Tree, c: Pid) returns (p: Pid, i: nat)
    requires Inv(t) && c in t.pages && c != t.root && c !in t.orphans
    ensures Edge(t, p, i, c)
  {
    assert HasParent(t, c);
    p, i :| Edge(t, p, i, c);
  }

  lemma ParentIsNoOrphan(s: State, p: Pid)
    requires SysInv(s) && Tracked(s) && |s.pending| > 0 && Level(s.t, p) == Level(s.t, Last(s.pending).left) + 1
    ensures p !in s.t.orphans
  {
    hide Inv, Stores, ThreadsOk, UnlinkedOk, SepOk;
    TopIsAbove(s);
  }
}
