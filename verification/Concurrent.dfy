/**
 The tree under concurrent descents, leaf writes and splits, as a step system.

 Every page write and every publication of a separator is a step of its own, and
 between any two steps of one thread any number of steps of others may happen.  A
 thread in the middle of a descent is the key it looks for and the page it is about
 to read.  A page that a split has filled but that nothing points to yet is in
 `unlinked`.  Splits hold the structural lock, so at most one leaf split is unfinished;
 `pending` is the stack of siblings that still have to be published, the leaf at the
 bottom and the ancestors being split on the way up above it.  A crash ends all threads and
 forgets the unfinished split, whose sibling then stays unpublished for good; steps whose
 images did not reach the log before the crash are not part of the run.
 */
module Concurrent {
  import opened Keys
  import opened Pages
  import opened Trees
  import opened LeafSteps
  import opened SplitSteps
  import opened EdgeSteps
  import opened InnerSteps
  import opened RootSteps
  import opened LeftLinks
  import opened Splits
  import opened Levels
  import opened Accounts
  import opened Readers

  /** A sibling to publish behind `left` with separator `sep`. */
  datatype Pending = Pending(left: Pid, right: Pid, sep: Key)

  datatype Thread = Thread(key: Key, at: Pid)

  datatype State = State(
    t: Tree,
    m: map<Key, Value>,
    unlinked: map<Pid, Node>,
    pending: seq<Pending>,
    threads: map<nat, Thread>)

  datatype Action =
    | Begin(tid: nat, key: Key)
    | Hop(tid: nat)
    | Leave(tid: nat)
    | LeafInsert(tid: nat, value: Value)
    | LeafUpdate(tid: nat, value: Value)
    | LeafRemove(tid: nat)
    | WriteUnlinked(page: Pid, node: Node)
    | LinkSibling(tid: nat, value: Value, plan: SplitPlan, right: Pid)
    | Relink(leaf: Pid, back: Pid)
    | SplitRootLeaf(tid: nat, value: Value, plan: SplitPlan, left: Pid, right: Pid)
    | CutInner(p: Pid, h: nat, right: Pid)
    | SplitRootInner(h: nat, left: Pid, right: Pid)
    | PublishTop(p: Pid, i: nat)
    | Crash

  // ----- the steps -----

  /** Thread `tid` holds the leaf where its search stops. */
  ghost predicate AtStop(s: State, tid: nat)
  {
    && tid in s.threads
    && var z := s.threads[tid].at; IsLeaf(s.t, z) && !ChaseRight(s.t.pages[z], s.threads[tid].key)
  }

  /** The position of the thread's key in the leaf it holds. */
  ghost function At(s: State, tid: nat): (nat, bool)
    requires AtStop(s, tid)
  {
    LowerBound(EntryKeys(Entries(s.t, s.threads[tid].at)), s.threads[tid].key)
  }

  ghost predicate MaySplit(s: State, tid: nat, value: Value, plan: SplitPlan)
  {
    && AtStop(s, tid) && |s.pending| == 0
    && plan.SplitPlan? && GoodPlan(Entries(s.t, s.threads[tid].at), Entry(s.threads[tid].key, value), plan)
  }

  ghost predicate Enabled(s: State, a: Action)
  {
    match a
    case Begin(_, _) => true
    case Hop(tid) =>
      && tid in s.threads && s.threads[tid].at in s.t.pages
      && NextHop(s.t.pages[s.threads[tid].at], s.threads[tid].key) != 0
    case Leave(tid) => AtStop(s, tid)
    case LeafInsert(tid, v) =>
      && AtStop(s, tid) && !At(s, tid).1
      && LeafCost(Entries(s.t, s.threads[tid].at)) + EntryCost(Entry(s.threads[tid].key, v)) <= LEAF_CAPACITY
    case LeafUpdate(tid, v) =>
      && AtStop(s, tid) && At(s, tid).1
      && var es, pos := Entries(s.t, s.threads[tid].at), At(s, tid).0;
         pos < |es| && LeafCost(es) - EntryCost(es[pos]) + EntryCost(Entry(s.threads[tid].key, v)) <= LEAF_CAPACITY
    case LeafRemove(tid) => AtStop(s, tid) && At(s, tid).1
    case WriteUnlinked(page, _) => page != 0 && page !in s.t.pages
    case LinkSibling(tid, v, plan, r) =>
      && MaySplit(s, tid, v, plan)
      && var z := s.threads[tid].at;
         z != s.t.root && r in s.unlinked && s.unlinked[r] == Leaf(plan.right, z, Right(s.t, z))
    case Relink(leaf, back) => IsLeaf(s.t, leaf) && IsLeaf(s.t, back) && Right(s.t, back) == leaf
    case SplitRootLeaf(tid, v, plan, l, r) =>
      && MaySplit(s, tid, v, plan) && s.threads[tid].at == s.t.root && l in s.unlinked && r in s.unlinked && l != r
      && s.unlinked[l] == Leaf(plan.left, Left(s.t, s.t.root), r)
      && s.unlinked[r] == Leaf(plan.right, l, Right(s.t, s.t.root))
    case CutInner(p, h, r) =>
      && IsInner(s.t, p) && p != s.t.root && h < |Slots(s.t, p)| && |s.pending| > 0
      && Level(s.t, p) == Level(s.t, Last(s.pending).left) + 1 && p !in s.t.orphans
      && r in s.unlinked && s.unlinked[r] == UpperHalf(s.t.pages[p], h)
    case SplitRootInner(h, l, r) =>
      && IsInner(s.t, s.t.root) && h < |Slots(s.t, s.t.root)| && |s.pending| > 0
      && Level(s.t, s.t.root) == Level(s.t, Last(s.pending).left) + 1
      && l in s.unlinked && r in s.unlinked && l != r && l != s.t.root && r != s.t.root
      && s.unlinked[l] == LowerHalf(s.t.pages[s.t.root], h) && s.unlinked[r] == UpperHalf(s.t.pages[s.t.root], h)
    case PublishTop(p, i) =>
      && |s.pending| > 0 && Edge(s.t, p, i, Last(s.pending).left)
      && InnerCost(Slots(s.t, p)) + SeparatorCost(Last(s.pending).sep) <= INNER_CAPACITY
    case Crash => true
  }

  function Last<T>(s: seq<T>): T
    requires |s| > 0
  {
    s[|s| - 1]
  }

  /** The tree with leaf `z` cut by `plan`; the tree itself if the plan is not for this leaf. */
  ghost function CutBy(t: Tree, z: Pid, r: Pid, plan: SplitPlan): Tree
    requires IsLeaf(t, z) && plan.SplitPlan?
  {
    var u := Installed(t, z, plan);
    if Entries(u, z) == plan.left + plan.right then SplitLeaf(u, z, r, |plan.left|) else t
  }

  ghost function CutRootBy(t: Tree, l: Pid, r: Pid, plan: SplitPlan): Tree
    requires IsLeaf(t, t.root) && plan.SplitPlan? && |plan.left| > 0
  {
    if Entries(Installed(t, t.root, plan), t.root) == plan.left + plan.right && l != t.root && r != t.root
    then RootLeafSplit(t, l, r, plan) else t
  }

  ghost function Do(s: State, a: Action): State
    requires Enabled(s, a)
  {
    match a
    case Begin(tid, key) => s.(threads := s.threads[tid := Thread(key, s.t.root)])
    case Hop(tid) =>
      var th := s.threads[tid];
      s.(threads := s.threads[tid := Thread(th.key, NextHop(s.t.pages[th.at], th.key))])
    case Leave(tid) => s.(threads := s.threads - {tid})
    case LeafInsert(tid, v) =>
      var th := s.threads[tid];
      var es := Entries(s.t, th.at);
      s.(t := WithEntries(s.t, th.at, InsertedAt(es, At(s, tid).0, Entry(th.key, v))), m := s.m[th.key := v])
    case LeafUpdate(tid, v) =>
      var th := s.threads[tid];
      s.(t := WithEntries(s.t, th.at, Entries(s.t, th.at)[At(s, tid).0 := Entry(th.key, v)]), m := s.m[th.key := v])
    case LeafRemove(tid) =>
      var th := s.threads[tid];
      s.(t := WithEntries(s.t, th.at, RemovedAt(Entries(s.t, th.at), At(s, tid).0)), m := s.m - {th.key})
    case WriteUnlinked(page, node) => s.(unlinked := s.unlinked[page := node])
    case LinkSibling(tid, v, plan, r) =>
      var th := s.threads[tid];
      s.(t := CutBy(s.t, th.at, r, plan), m := MapAfter(s.m, Entry(th.key, v), plan.installed),
         unlinked := s.unlinked - {r}, pending := [Pending(th.at, r, plan.left[|plan.left| - 1].key)])
    case Relink(leaf, back) => s.(t := WithLeft(s.t, leaf, back))
    case SplitRootLeaf(tid, v, plan, l, r) =>
      s.(t := CutRootBy(s.t, l, r, plan), m := MapAfter(s.m, Entry(s.threads[tid].key, v), plan.installed),
         unlinked := s.unlinked - {l, r})
    case CutInner(p, h, r) =>
      s.(t := SplitInner(s.t, p, r, h), unlinked := s.unlinked - {r},
         pending := s.pending + [Pending(p, r, Slots(s.t, p)[h].sep)])
    case SplitRootInner(h, l, r) =>
      s.(t := RootInnerSplit(s.t, l, r, h), unlinked := s.unlinked - {l, r})
    case PublishTop(p, i) =>
      var top := Last(s.pending);
      s.(t := Publish(s.t, p, i, top.sep, top.right), pending := s.pending[..|s.pending| - 1])
    case Crash => s.(pending := [], threads := map[])
  }

  /** The position found is within the leaf. */
  lemma AtWithin(s: State, tid: nat)
    requires SysInv(s) && AtStop(s, tid)
    ensures var z := s.threads[tid].at;
      var (pos, exact) := At(s, tid);
      && pos <= |Entries(s.t, z)|
      && (exact ==> pos < |Entries(s.t, z)| && Entries(s.t, z)[pos].key == s.threads[tid].key)
      && (exact <==> s.threads[tid].key in s.m)
  {
    hide LowerBound;
    var z := s.threads[tid].at;
    EntriesSorted(s.t, z);
    BoundMeans(Entries(s.t, z), s.threads[tid].key);
    StopAnswers(s.t, z, s.threads[tid].key, s.m);
  }

  // ----- the invariant -----

  ghost predicate PendOk(t: Tree, q: Pending)
  {
    q.right in t.orphans && NextAt(t, q.left, q.right) && SepOk(t, q.sep, Lo(t, q.right))
  }

  ghost predicate PendingOk(t: Tree, pending: seq<Pending>)
  {
    && (forall i :: 0 <= i < |pending| ==> PendOk(t, pending[i]))
    && (forall i, j :: 0 <= i < j < |pending| ==> Level(t, pending[i].left) < Level(t, pending[j].left))
  }

  ghost predicate ThreadsOk(t: Tree, threads: map<nat, Thread>)
  {
    forall tid :: tid in threads ==> Standing(t, threads[tid].at, threads[tid].key)
  }

  ghost predicate UnlinkedOk(t: Tree, unlinked: map<Pid, Node>)
  {
    forall p :: p in unlinked ==> p != 0 && p !in t.pages
  }

  /** Holds in every reachable state. */
  ghost predicate SysInv(s: State)
  {
    && Inv(s.t) && Stores(s.t, s.m) && PendingOk(s.t, s.pending)
    && ThreadsOk(s.t, s.threads) && UnlinkedOk(s.t, s.unlinked)
  }

  ghost predicate Init(s: State)
  {
    && s.t.root != 0
    && s.t == Tree(map[s.t.root := Leaf([], 0, 0)], s.t.root, map[s.t.root := 0.0], map[s.t.root := 0], {})
    && s.m == map[] && s.unlinked == map[] && s.pending == [] && s.threads == map[]
  }

  lemma InitOk(s: State)
    requires Init(s)
    ensures SysInv(s)
  {
    NewTree(s.t.root);
  }

  lemma SplitDefined(s: State, tid: nat, v: Value, plan: SplitPlan)
    requires SysInv(s) && MaySplit(s, tid, v, plan)
    ensures var z := s.threads[tid].at;
      var u := Installed(s.t, z, plan);
      && |plan.left| > 0 && |plan.right| > 0
      && Inv(u) && Stores(u, MapAfter(s.m, Entry(s.threads[tid].key, v), plan.installed))
      && Entries(u, z) == plan.left + plan.right && IsLeaf(u, z)
      && u.pages.Keys == s.t.pages.Keys && u.root == s.t.root && u.orphans == s.t.orphans
  {
    hide Inv, Stores, LowerBound, LeafCost;
    var z := s.threads[tid].at;
    InstalledKeeps(s.t, z, Entry(s.threads[tid].key, v), plan, s.m);
    InstalledFrame(s.t, z, plan);
  }

  // ----- every step keeps the invariant -----

  lemma ThreadsFollow(t: Tree, t': Tree, threads: map<nat, Thread>)
    requires ReadersKept(t, t') && ThreadsOk(t, threads)
    ensures ThreadsOk(t', threads)
  {
    hide Standing;
  }

  lemma BeginOk(s: State, tid: nat, key: Key)
    requires SysInv(s)
    ensures SysInv(s.(threads := s.threads[tid := Thread(key, s.t.root)]))
  {
    hide Inv, Stores, PendingOk, Standing;
    RootStandsIn(s.t, key);
  }

  lemma RootStandsIn(t: Tree, key: Key)
    requires Inv(t)
    ensures Standing(t, t.root, key)
  {
    RootStands(t, key);
  }

  lemma HopOk(s: State, tid: nat)
    requires SysInv(s) && Enabled(s, Hop(tid))
    ensures SysInv(Do(s, Hop(tid)))
  {
    hide Inv, Stores, PendingOk, Standing, NextHop;
    HopStands(s.t, s.threads[tid].at, s.threads[tid].key);
  }

  /** Pending siblings survive a leaf rewrite. */
  lemma RewritePending(t: Tree, z: Pid, es: seq<Entry>, pending: seq<Pending>)
    requires Inv(t) && IsLeaf(t, z) && MayHold(t, z, es) && PendingOk(t, pending)
    ensures PendingOk(WithEntries(t, z, es), pending)
  {
    hide Inv, MayHold, SepOk;
    var t' := WithEntries(t, z, es);
    forall i | 0 <= i < |pending|
      ensures PendOk(t', pending[i])
    {
      RewritePend(t, z, es, pending[i]);
    }
  }

  lemma RewritePend(t: Tree, z: Pid, es: seq<Entry>, q: Pending)
    requires Inv(t) && IsLeaf(t, z) && MayHold(t, z, es) && PendOk(t, q)
    ensures PendOk(WithEntries(t, z, es), q)
  {
    hide Inv, MayHold, SepOk, NextAt;
    RewriteNext(t, z, es, q.left, q.right);
    RewriteSep(t, z, es, q.sep, q.right);
  }

  lemma RewriteNext(t: Tree, z: Pid, es: seq<Entry>, l: Pid, r: Pid)
    requires IsLeaf(t, z) && NextAt(t, l, r)
    ensures NextAt(WithEntries(t, z, es), l, r)
  {
  }

  lemma RewriteSep(t: Tree, z: Pid, es: seq<Entry>, sep: Key, r: Pid)
    requires Inv(t) && IsLeaf(t, z) && MayHold(t, z, es) && r in t.pages && SepOk(t, sep, Lo(t, r))
    ensures SepOk(WithEntries(t, z, es), sep, Lo(t, r))
  {
    hide MayHold, SepOk, SameShape, Rewritten, WithEntries;
    WithEntriesFrame(t, z, es);
    LinkedAt(t, z);
    var y := LeftmostLeaf(t, r);
    RewrittenSep(t, WithEntries(t, z, es), z, es, sep, Lo(t, r), y);
  }

  /** A leaf rewrite that changes the stored map as intended keeps the invariant. */
  lemma RewriteOk(s: State, z: Pid, es: seq<Entry>, m': map<Key, Value>)
    requires SysInv(s) && IsLeaf(s.t, z) && MayHold(s.t, z, es) && Stores(WithEntries(s.t, z, es), m')
    ensures SysInv(s.(t := WithEntries(s.t, z, es), m := m'))
  {
    hide Inv, Stores, PendingOk, ThreadsOk, MayHold, ReadersKept;
    WithEntriesKeeps(s.t, z, es);
    RewritePending(s.t, z, es, s.pending);
    RewriteReaders(s.t, z, es);
    ThreadsFollow(s.t, WithEntries(s.t, z, es), s.threads);
  }

  lemma InsertOk(s: State, tid: nat, v: Value)
    requires SysInv(s) && Enabled(s, LeafInsert(tid, v))
    ensures s.threads[tid].key !in s.m && SysInv(Do(s, LeafInsert(tid, v)))
  {
    hide Inv, Stores, PendingOk, UnlinkedOk, MayHold, LowerBound, Standing, WithEntries, InsertedAt, LeafCost,
      ChaseRight;
    var th := s.threads[tid];
    var pos := At(s, tid).0;
    var e := Entry(th.key, v);
    AtWithin(s, tid);
    MayInsertAt(s.t, th.at, e, pos);
    StoresInsert(s.t, th.at, e, pos, s.m);
    RewriteOk(s, th.at, InsertedAt(Entries(s.t, th.at), pos, e), s.m[th.key := v]);
  }

  lemma StoresInsert(t: Tree, z: Pid, e: Entry, pos: nat, m: map<Key, Value>)
    requires Inv(t) && IsLeaf(t, z) && Stores(t, m) && pos <= |Entries(t, z)| && e.key !in m
    ensures Stores(WithEntries(t, z, InsertedAt(Entries(t, z), pos, e)), m[e.key := e.value])
  {
    InsertStores(t, z, e, pos, m);
  }

  lemma UpdateOk(s: State, tid: nat, v: Value)
    requires SysInv(s) && Enabled(s, LeafUpdate(tid, v))
    ensures s.threads[tid].key in s.m && SysInv(Do(s, LeafUpdate(tid, v)))
  {
    hide Inv, Stores, PendingOk, UnlinkedOk, MayHold, LowerBound, Standing, WithEntries, ChaseRight;
    var th := s.threads[tid];
    var pos := At(s, tid).0;
    AtWithin(s, tid);
    InvMayUpdate(s.t, th.at, pos, v, s.m);
    RewriteOk(s, th.at, Entries(s.t, th.at)[pos := Entry(th.key, v)], s.m[th.key := v]);
  }

  lemma InvMayUpdate(t: Tree, z: Pid, pos: nat, v: Value, m: map<Key, Value>)
    requires Inv(t) && IsLeaf(t, z) && Stores(t, m) && pos < |Entries(t, z)|
    ensures var e := Entry(Entries(t, z)[pos].key, v);
      MayHold(t, z, Entries(t, z)[pos := e]) && Stores(WithEntries(t, z, Entries(t, z)[pos := e]), m[e.key := v])
  {
    hide MayHold, Stores, Typed, Kids, KidsUp, RootFirst, Distinct, Nested, Parented, Linked, SortedLeaves,
      SortedAcross, Routed;
    MayUpdate(t, z, pos, v);
    UpdateStores(t, z, pos, v, m);
  }

  lemma RemoveOk(s: State, tid: nat)
    requires SysInv(s) && Enabled(s, LeafRemove(tid))
    ensures s.threads[tid].key in s.m && SysInv(Do(s, LeafRemove(tid)))
  {
    hide Inv, Stores, PendingOk, UnlinkedOk, MayHold, LowerBound, Standing, WithEntries, RemovedAt, ChaseRight;
    var th := s.threads[tid];
    var pos := At(s, tid).0;
    AtWithin(s, tid);
    InvMayRemove(s.t, th.at, pos, s.m);
    RewriteOk(s, th.at, RemovedAt(Entries(s.t, th.at), pos), s.m - {th.key});
  }

  lemma InvMayRemove(t: Tree, z: Pid, pos: nat, m: map<Key, Value>)
    requires Inv(t) && IsLeaf(t, z) && Stores(t, m) && pos < |Entries(t, z)|
    ensures var es := RemovedAt(Entries(t, z), pos);
      MayHold(t, z, es) && Stores(WithEntries(t, z, es), m - {Entries(t, z)[pos].key})
  {
    hide MayHold, Stores, Typed, Kids, KidsUp, RootFirst, Distinct, Nested, Parented, Linked, SortedLeaves,
      SortedAcross, Routed;
    MayRemove(t, z, pos);
    RemoveStores(t, z, pos, m);
  }

  /** A leaf split makes its sibling reachable by the right link before any parent knows it. */
  lemma LinkOk(s: State, tid: nat, v: Value, plan: SplitPlan, r: Pid)
    requires SysInv(s) && Enabled(s, LinkSibling(tid, v, plan, r))
    ensures SysInv(Do(s, LinkSibling(tid, v, plan, r)))
  {
    hide Inv, Stores, GoodPlan, Standing, SplitLeaf, Installed, SepOk, NextAt, LeafHalves, ReadersKept, ChaseRight,
      PendingOk, LeftLinked, LeftLinkedBut;
    assert s.pending == [];
    var th := s.threads[tid];
    var e := Entry(th.key, v);
    SplitDefined(s, tid, v, plan);
    var u := Installed(s.t, th.at, plan);
    var t' := SplitLeaf(u, th.at, r, |plan.left|);
    assert (plan.left + plan.right)[|plan.left| - 1] == plan.left[|plan.left| - 1];
    SplitIsNext(u, th.at, r, |plan.left|);
    SplitSteps.HalvesStore(u, t', th.at, r, MapAfter(s.m, e, plan.installed));
    SplitFrame(u, th.at, r, |plan.left|);
    LeafSplitReaders(s.t, th.at, r, e, plan);
    ThreadsFollow(s.t, t', s.threads);
    var q := Pending(th.at, r, plan.left[|plan.left| - 1].key);
    Pushed(s.t, t', [], q);
    assert [] + [q] == [q];
  }

  lemma LeafRootNoOrphans(t: Tree)
    requires Inv(t) && IsLeaf(t, t.root)
    ensures t.orphans == {}
  {
    assert Typed(t);
  }

  lemma SplitFrame(u: Tree, z: Pid, r: Pid, k: nat)
    requires IsLeaf(u, z) && k <= |Entries(u, z)|
    ensures var s := SplitLeaf(u, z, r, k);
      s.pages.Keys == u.pages.Keys + {r} && s.orphans == u.orphans + {r}
  {
  }

  lemma RelinkOk(s: State, leaf: Pid, back: Pid)
    requires SysInv(s) && IsLeaf(s.t, leaf)
    ensures SysInv(s.(t := WithLeft(s.t, leaf, back)))
  {
    hide Inv, Stores, ReadersKept, SepChanged, Standing, SepOk, SameLeaves;
    var t' := WithLeft(s.t, leaf, back);
    WithLeftKeeps(s.t, leaf, back, s.m);
    RelinkSame(s.t, leaf, back);
    SameLeavesReaders(s.t, t');
    ThreadsFollow(s.t, t', s.threads);
    forall i | 0 <= i < |s.pending|
      ensures PendOk(t', s.pending[i])
    {
      var q := s.pending[i];
      assert PendOk(s.t, q);
      SameLeavesSep(s.t, t', q.sep, Lo(s.t, q.right));
    }
  }

  lemma RelinkSame(t: Tree, z: Pid, l: Pid)
    requires IsLeaf(t, z)
    ensures SameLeaves(t, WithLeft(t, z, l))
  {
  }

  lemma RootLeafOk(s: State, tid: nat, v: Value, plan: SplitPlan, l: Pid, r: Pid)
    requires SysInv(s) && Enabled(s, SplitRootLeaf(tid, v, plan, l, r))
    ensures SysInv(Do(s, SplitRootLeaf(tid, v, plan, l, r)))
  {
    hide Inv, Stores, GoodPlan, Standing, Installed, RootLeafSplit, ReadersKept, ChaseRight;
    var e := Entry(s.threads[tid].key, v);
    SplitDefined(s, tid, v, plan);
    LeafRootNoOrphans(s.t);
    RootIn(s.t);
    var t' := RootLeafSplit(s.t, l, r, plan);
    RootCutKeeps(s.t, l, r, plan, MapAfter(s.m, e, plan.installed));
    RootLeafSplitPages(s.t, l, r, plan);
    RootLeafSplitReaders(s.t, l, r, e, plan);
    ThreadsFollow(s.t, t', s.threads);
  }

  lemma RootCutKeeps(t: Tree, l: Pid, r: Pid, plan: SplitPlan, m: map<Key, Value>)
    requires IsLeaf(t, t.root) && plan.SplitPlan? && |plan.left| > 0 && |plan.right| > 0 && t.orphans == {}
    requires l != 0 && r != 0 && l != r && l !in t.pages && r !in t.pages
    requires var u := Installed(t, t.root, plan);
      && Inv(u) && Stores(u, m) && Entries(u, t.root) == plan.left + plan.right
      && u.pages.Keys == t.pages.Keys && u.root == t.root && u.orphans == t.orphans
    ensures var s := RootLeafSplit(t, l, r, plan); Inv(s) && Stores(s, m) && s.orphans == {}
  {
    hide Inv, Stores, Installed, SplitLeaf, LeafHalves, GrownBy, SepOk, NextAt, LeftLinked, LeftLinkedBut;
    var u := Installed(t, t.root, plan);
    GrowKeeps(u, l);
    var g := Grow(u, l);
    GrownStore(u, g, l, m);
    assert IsLeaf(g, l) && Entries(g, l) == plan.left + plan.right && IsInner(g, g.root) && Slots(g, g.root) == [];
    assert Kid(g, g.root, 0) == l;
    SplitIsNext(g, l, r, |plan.left|);
    var s := SplitLeaf(g, l, r, |plan.left|);
    SplitSteps.HalvesStore(g, s, l, r, m);
    SplitFrame(g, l, r, |plan.left|);
    SplitRootFrame(g, l, r, |plan.left|);
    PublishUnderRoot(s, l, r, plan.left[|plan.left| - 1].key, m);
  }

  lemma SplitRootFrame(g: Tree, l: Pid, r: Pid, k: nat)
    requires IsInner(g, g.root) && IsLeaf(g, l) && k <= |Entries(g, l)| && r !in g.pages
    ensures var s := SplitLeaf(g, l, r, k);
      && s.root == g.root && IsInner(s, s.root)
      && Slots(s, s.root) == Slots(g, g.root) && Kid(s, s.root, 0) == Kid(g, g.root, 0)
  {
  }

  /** Pending siblings survive steps above them. */
  lemma PendAbove(t: Tree, t': Tree, k: nat, q: Pending)
    requires Inv(t) && Inv(t') && SameUpTo(t, t', k)
    requires PendOk(t, q) && Level(t, q.left) <= k && q.right in t'.orphans
    ensures PendOk(t', q) && Level(t', q.left) == Level(t, q.left)
  {
    hide Inv, SepOk;
    InvTyped(t);
    InvTyped(t');
    SameUpToNext(t, t', k, q.left, q.right);
    SameUpToSep(t, t', k, q.sep, Lo(t, q.right));
  }

  lemma PendingAbove(t: Tree, t': Tree, k: nat, pending: seq<Pending>)
    requires Inv(t) && Inv(t') && SameUpTo(t, t', k)
    requires forall i :: 0 <= i < |pending| ==>
      PendOk(t, pending[i]) && Level(t, pending[i].left) <= k && pending[i].right in t'.orphans
    ensures forall i :: 0 <= i < |pending| ==>
      PendOk(t', pending[i]) && Level(t', pending[i].left) == Level(t, pending[i].left)
  {
    hide Inv, PendOk, SameUpTo;
    forall i | 0 <= i < |pending|
      ensures PendOk(t', pending[i]) && Level(t', pending[i].left) == Level(t, pending[i].left)
    {
      PendAbove(t, t', k, pending[i]);
    }
  }

  /** The top of the stack is above the rest. */
  lemma TopIsAbove(s: State)
    requires SysInv(s) && |s.pending| > 0
    ensures forall i :: 0 <= i < |s.pending| ==> Level(s.t, s.pending[i].left) <= Level(s.t, Last(s.pending).left)
    ensures forall i :: 0 <= i < |s.pending| - 1 ==>
      Level(s.t, s.pending[i].left) < Level(s.t, Last(s.pending).left) && s.pending[i].right != Last(s.pending).right
    ensures PendOk(s.t, Last(s.pending))
  {
    hide Inv, Stores, ThreadsOk, UnlinkedOk, Level, PendOk;
    var n := |s.pending| - 1;
    assert PendOk(s.t, s.pending[n]);
    forall i | 0 <= i < n
      ensures Level(s.t, s.pending[i].left) < Level(s.t, s.pending[n].left) && s.pending[i].right != s.pending[n].right
    {
      assert PendOk(s.t, s.pending[i]);
      OtherRight(s.t, s.pending[i], s.pending[n]);
    }
  }

  lemma OtherRight(t: Tree, a: Pending, b: Pending)
    requires PendOk(t, a) && PendOk(t, b) && Level(t, a.left) < Level(t, b.left)
    ensures a.right != b.right
  {
    hide SepOk;
  }

  lemma CutInnerOk(s: State, p: Pid, h: nat, r: Pid)
    requires SysInv(s) && Enabled(s, CutInner(p, h, r))
    ensures SysInv(Do(s, CutInner(p, h, r)))
  {
    hide Inv, Stores, Standing, SplitInner, InnerHalves, ReadersKept, SameUpTo, SepOk, NextAt, UpperHalf, LeftLinked;
    var t' := SplitInner(s.t, p, r, h);
    var k := Level(s.t, Last(s.pending).left);
    TopIsAbove(s);
    SplitInnerIsNext(s.t, p, r, h, s.m);
    SplitInnerAbove(s.t, p, r, h, k);
    SplitInnerFrame(s.t, p, r, h);
    PendingAbove(s.t, t', k, s.pending);
    SplitInnerReaders(s.t, p, r, h);
    ThreadsFollow(s.t, t', s.threads);
    Pushed(s.t, t', s.pending, Pending(p, r, Slots(s.t, p)[h].sep));
  }

  lemma SplitInnerFrame(t: Tree, p: Pid, r: Pid, h: nat)
    requires IsInner(t, p) && h < |Slots(t, p)| && r !in t.pages
    ensures var s := SplitInner(t, p, r, h);
      s.pages.Keys == t.pages.Keys + {r} && s.orphans == t.orphans + {r} && Level(s, p) == Level(t, p)
  {
  }

  lemma Pushed(t: Tree, t': Tree, pending: seq<Pending>, q: Pending)
    requires PendingOk(t, pending) && PendOk(t', q)
    requires forall i :: 0 <= i < |pending| ==>
      PendOk(t', pending[i]) && Level(t', pending[i].left) == Level(t, pending[i].left) < Level(t', q.left)
    ensures PendingOk(t', pending + [q])
  {
    hide PendOk;
  }

  lemma RootInnerOk(s: State, h: nat, l: Pid, r: Pid)
    requires SysInv(s) && Enabled(s, SplitRootInner(h, l, r))
    ensures SysInv(Do(s, SplitRootInner(h, l, r)))
  {
    hide Inv, Stores, Standing, RootInnerSplit, ReadersKept, SameUpTo, PendOk, UpperHalf, LowerHalf, LeftLinked;
    var t' := RootInnerSplit(s.t, l, r, h);
    var k := Level(s.t, Last(s.pending).left);
    TopIsAbove(s);
    RootInnerSplitKeeps(s.t, l, r, h, s.m);
    RootInnerSplitAbove(s.t, l, r, h, k);
    RootInnerSplitPages(s.t, l, r, h);
    PendingRightsIn(s);
    PendingAbove(s.t, t', k, s.pending);
    RootInnerSplitReaders(s.t, l, r, h);
    ThreadsFollow(s.t, t', s.threads);
    assert PendingOk(t', s.pending);
  }

  lemma PendingRightsIn(s: State)
    requires SysInv(s)
    ensures forall i :: 0 <= i < |s.pending| ==> PendOk(s.t, s.pending[i]) && s.pending[i].right in s.t.orphans
  {
  }

  lemma PublishOk(s: State, p: Pid, i: nat)
    requires SysInv(s) && Enabled(s, PublishTop(p, i))
    ensures SysInv(Do(s, PublishTop(p, i)))
  {
    hide Inv, Stores, Standing, ReadersKept, SameUpTo, InnerCost, SepOk, NextAt, SameLeaves, EdgeAdded, InsertEdge,
      PendingOk, ThreadsOk;
    var top := Last(s.pending);
    var t' := Publish(s.t, p, i, top.sep, top.right);
    var k := Level(s.t, top.left);
    TopIsAbove(s);
    EdgeLevel(s.t, p, i, top.left);
    PublishKeeps(s.t, p, i, top.sep, top.right);
    PublishSame(s.t, p, i, top.sep, top.right);
    SameLeavesStore(s.t, t', s.m);
    PublishAbove(s.t, p, i, top.sep, top.right, k);
    PendingRightsIn(s);
    PendingAbove(s.t, t', k, s.pending[..|s.pending| - 1]);
    PublishReaders(s.t, p, i, top.sep, top.right);
    ThreadsFollow(s.t, t', s.threads);
    Popped(s.t, t', s.pending);
  }

  lemma Popped(t: Tree, t': Tree, pending: seq<Pending>)
    requires PendingOk(t, pending) && |pending| > 0
    requires forall i :: 0 <= i < |pending| - 1 ==>
      PendOk(t', pending[i]) && Level(t', pending[i].left) == Level(t, pending[i].left)
    ensures PendingOk(t', pending[..|pending| - 1])
  {
    hide PendOk;
  }

  /** Every enabled step keeps the invariant. */
  lemma StepOk(s: State, a: Action)
    requires SysInv(s) && Enabled(s, a)
    ensures SysInv(Do(s, a))
  {
    hide Inv, Stores, PendOk, Standing;
    match a
    case Begin(tid, key) => BeginOk(s, tid, key);
    case Hop(tid) => HopOk(s, tid);
    case Leave(tid) =>
    case LeafInsert(tid, v) => InsertOk(s, tid, v);
    case LeafUpdate(tid, v) => UpdateOk(s, tid, v);
    case LeafRemove(tid) => RemoveOk(s, tid);
    case WriteUnlinked(page, node) =>
    case LinkSibling(tid, v, plan, r) => LinkOk(s, tid, v, plan, r);
    case Relink(leaf, back) => RelinkOk(s, leaf, back);
    case SplitRootLeaf(tid, v, plan, l, r) => RootLeafOk(s, tid, v, plan, l, r);
    case CutInner(p, h, r) => CutInnerOk(s, p, h, r);
    case SplitRootInner(h, l, r) => RootInnerOk(s, h, l, r);
    case PublishTop(p, i) => PublishOk(s, p, i);
    case Crash =>
  }

  // ----- runs -----

  /** A run from an empty tree: `states[i + 1]` follows from `states[i]` by `actions[i]`. */
  ghost predicate IsRun(states: seq<State>, actions: seq<Action>)
  {
    && |states| == |actions| + 1 && Init(states[0])
    && (forall i :: 0 <= i < |actions| ==> Enabled(states[i], actions[i]) && states[i + 1] == Do(states[i], actions[i]))
  }

  /** The invariant holds in every state of every run. */
  lemma {:induction false} RunOk(states: seq<State>, actions: seq<Action>, n: nat)
    requires IsRun(states, actions) && n < |states|
    ensures SysInv(states[n])
    decreases n
  {
    hide SysInv, Enabled, Do, Init;
    if n == 0 {
      InitOk(states[0]);
    } else {
      RunOk(states, actions, n - 1);
      StepOk(states[n - 1], actions[n - 1]);
    }
  }

  /** In every state of every run a lookup that runs undisturbed from the root reads the map, whatever is
      unpublished. */
  lemma EveryLookup(states: seq<State>, actions: seq<Action>, n: nat, key: Key)
    requires IsRun(states, actions) && n < |states|
    ensures Inv(states[n].t) && Lookup(states[n].t, key) == MapGet(states[n].m, key)
  {
    hide IsRun, Inv;
    RunOk(states, actions, n);
    LookupAgrees(states[n].t, key, states[n].m);
  }

  /** A thread that began its descent in any earlier state, and was interleaved with anything since, stands where
      the remaining hops lead it to the right answer. */
  lemma EveryReader(states: seq<State>, actions: seq<Action>, n: nat, tid: nat)
    requires IsRun(states, actions) && n < |states| && tid in states[n].threads
    ensures var s := states[n];
      var th := s.threads[tid];
      && Inv(s.t) && Standing(s.t, th.at, th.key)
      && var z := Locate(s.t, th.at, th.key); IsLeaf(s.t, z) && ValueIn(s.t.pages[z], th.key) == MapGet(s.m, th.key)
  {
    hide IsRun, Inv, Stores, Standing, Locate;
    RunOk(states, actions, n);
    var s := states[n];
    var th := s.threads[tid];
    StopAnswers(s.t, Locate(s.t, th.at, th.key), th.key, s.m);
  }

  /** The answer a thread takes away when it stops is what the map holds at that moment. */
  lemma EveryAnswer(states: seq<State>, actions: seq<Action>, n: nat)
    requires IsRun(states, actions) && n < |actions| && actions[n].Leave?
    ensures var s := states[n];
      var th := s.threads[actions[n].tid];
      ValueIn(s.t.pages[th.at], th.key) == MapGet(s.m, th.key)
  {
    hide Inv, Stores, Standing, Init, Do;
    RunOk(states, actions, n);
    var s := states[n];
    var th := s.threads[actions[n].tid];
    StopAnswers(s.t, th.at, th.key, s.m);
  }

  /** Every hop of a thread brings it closer to its leaf. */
  lemma EveryHop(states: seq<State>, actions: seq<Action>, n: nat)
    requires IsRun(states, actions) && n < |actions| && actions[n].Hop?
    ensures var t := states[n].t;
      var from, to := states[n].threads[actions[n].tid].at, states[n + 1].threads[actions[n].tid].at;
      && states[n + 1].t == t
      && (|| Level(t, to) < Level(t, from)
          || (Level(t, to) == Level(t, from) == 0 && |LeavesAfter(t, Lo(t, to))| < |LeavesAfter(t, Lo(t, from))|))
  {
    hide Inv, Stores, Standing, Init, NextHop;
    RunOk(states, actions, n);
    var s := states[n];
    var th := s.threads[actions[n].tid];
    HopStands(s.t, th.at, th.key);
  }

  // ----- what is unpublished -----

  /** Every page without a parent is on the stack of siblings to publish. */
  ghost predicate Tracked(s: State)
  {
    forall x :: x in s.t.orphans ==> exists i :: 0 <= i < |s.pending| && s.pending[i].right == x
  }

  lemma TrackedStep(s: State, a: Action)
    requires SysInv(s) && Enabled(s, a) && !a.Crash? && Tracked(s)
    ensures Tracked(Do(s, a))
  {
    hide Inv, Stores, PendingOk, ThreadsOk, Standing, LowerBound, GoodPlan, NextHop, ChaseRight, SplitInner,
      RootInnerSplit,
      RootLeafSplit, Installed, LowerHalf, UpperHalf, InsertEdge, LeafCost, InnerCost;
    var s' := Do(s, a);
    match a
    case LinkSibling(tid, v, plan, r) =>
      SplitDefined(s, tid, v, plan);
      SplitFrame(Installed(s.t, s.threads[tid].at, plan), s.threads[tid].at, r, |plan.left|);
      assert s'.pending[0].right == r;
    case SplitRootLeaf(tid, v, plan, l, r) =>
      SplitDefined(s, tid, v, plan);
      LeafRootNoOrphans(s.t);
      RootIn(s.t);
      RootCutKeeps(s.t, l, r, plan, MapAfter(s.m, Entry(s.threads[tid].key, v), plan.installed));
    case CutInner(p, h, r) =>
      SplitInnerFrame(s.t, p, r, h);
      TrackedPush(s, s');
    case SplitRootInner(h, l, r) => RootInnerSplitKeeps(s.t, l, r, h, s.m);
    case PublishTop(p, i) => TrackedPop(s, s');
    case _ =>
  }

  lemma TrackedPush(s: State, s': State)
    requires Tracked(s) && |s'.pending| == |s.pending| + 1 && s'.pending[..|s.pending|] == s.pending
    requires s'.t.orphans == s.t.orphans + {Last(s'.pending).right}
    ensures Tracked(s')
  {
    forall x | x in s'.t.orphans
      ensures exists i :: 0 <= i < |s'.pending| && s'.pending[i].right == x
    {
      if x in s.t.orphans {
        var i :| 0 <= i < |s.pending| && s.pending[i].right == x;
        assert s'.pending[i] == s'.pending[..|s.pending|][i];
      }
    }
  }

  lemma TrackedPop(s: State, s': State)
    requires Tracked(s) && |s.pending| > 0 && s'.pending == s.pending[..|s.pending| - 1]
    requires s'.t.orphans == s.t.orphans - {Last(s.pending).right}
    ensures Tracked(s')
  {
    forall x | x in s'.t.orphans
      ensures exists i :: 0 <= i < |s'.pending| && s'.pending[i].right == x
    {
      var i :| 0 <= i < |s.pending| && s.pending[i].right == x;
      assert s'.pending[i] == s.pending[i];
    }
  }

  /** While nothing crashes, every page has a parent whenever no split is under way. */
  lemma {:induction false} EveryPublished(states: seq<State>, actions: seq<Action>, n: nat)
    requires IsRun(states, actions) && n < |states| && (forall i :: 0 <= i < n ==> !actions[i].Crash?)
    ensures Tracked(states[n]) && (states[n].pending == [] ==> states[n].t.orphans == {})
    decreases n
  {
    hide SysInv, Enabled, Do;
    if n > 0 {
      EveryPublished(states, actions, n - 1);
      RunOk(states, actions, n - 1);
      TrackedStep(states[n - 1], actions[n - 1]);
    }
  }
}
