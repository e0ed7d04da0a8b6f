/**
 The log of page images that a run writes, and what recovery finds in any prefix of it.

 Every writing step of the system rewrites one page and appends that page's image to the
 log.  A crash leaves some prefix of the log; replaying it on the initial pages rebuilds
 the pages as they were after some step of the run, half-finished splits included.  Lookups
 and ascending scans of such pages are right; `BackLinks` has when descending ones are.
 */
module Records {
  import opened Keys
  import opened Pages
  import opened Trees
  import opened LeafSteps
  import opened EdgeSteps
  import opened InnerSteps
  import opened Splits
  import opened Levels
  import opened Accounts
  import opened Concurrent
  import opened Scans
  import opened Walks
  import A = Atomic

  datatype Record = Record(page: Pid, node: Node)

  function Replay(pages: map<Pid, Node>, log: seq<Record>): map<Pid, Node>
  {
    if |log| == 0 then pages
    else Replay(pages, log[..|log| - 1])[log[|log| - 1].page := log[|log| - 1].node]
  }

  /** All pages: those of the tree and those written but not yet linked. */
  function Storage(s: State): map<Pid, Node>
  {
    s.unlinked + s.t.pages
  }

  /** The image the step appends to the log; steps that only read append none. */
  ghost function Emits(s: State, a: Action): seq<Record>
    requires Enabled(s, a)
  {
    match a
    case Begin(_, _) => []
    case Hop(_) => []
    case Leave(_) => []
    case LeafInsert(tid, v) =>
      var z := s.threads[tid].at;
      [Record(z, s.t.pages[z].(entries := InsertedAt(Entries(s.t, z), At(s, tid).0, Entry(s.threads[tid].key, v))))]
    case LeafUpdate(tid, v) =>
      var z := s.threads[tid].at;
      [Record(z, s.t.pages[z].(entries := Entries(s.t, z)[At(s, tid).0 := Entry(s.threads[tid].key, v)]))]
    case LeafRemove(tid) =>
      var z := s.threads[tid].at;
      [Record(z, s.t.pages[z].(entries := RemovedAt(Entries(s.t, z), At(s, tid).0)))]
    case WriteUnlinked(page, node) => [Record(page, node)]
    case LinkSibling(tid, _, plan, r) =>
      var z := s.threads[tid].at;
      [Record(z, Leaf(plan.left, Left(s.t, z), r))]
    case Relink(leaf, back) => [Record(leaf, s.t.pages[leaf].(left := back))]
    case SplitRootLeaf(_, _, plan, l, r) => [Record(s.t.root, Inner([Slot(plan.left[|plan.left| - 1].key, l)], r))]
    case CutInner(p, h, _) => [Record(p, LowerHalf(s.t.pages[p], h))]
    case SplitRootInner(h, l, r) => [Record(s.t.root, Inner([Slot(Slots(s.t, s.t.root)[h].sep, l)], r))]
    case PublishTop(p, i) =>
      [Record(p, InsertEdge(s.t.pages[p], i, Last(s.pending).sep, Last(s.pending).right))]
    case Crash => []
  }

  lemma PutStored(unlinked: map<Pid, Node>, pages: map<Pid, Node>, z: Pid, n: Node)
    ensures unlinked + pages[z := n] == (unlinked + pages)[z := n]
    ensures z !in pages ==> unlinked[z := n] + pages == (unlinked + pages)[z := n]
  {
  }

  lemma ReplayOne(pages: map<Pid, Node>, rec: Record)
    ensures Replay(pages, [rec]) == pages[rec.page := rec.node]
  {
    assert [rec][..0] == [];
  }

  /** A step changes the stored pages by exactly the image it logs. */
  lemma StepIsRecord(s: State, a: Action)
    requires SysInv(s) && Enabled(s, a)
    ensures |Emits(s, a)| <= 1
    ensures Storage(Do(s, a)) == Replay(Storage(s), Emits(s, a))
  {
    hide Inv, Stores, PendingOk, ThreadsOk, Standing, LowerBound, InsertedAt, RemovedAt, LeafCost, InnerCost,
      LowerHalf, UpperHalf, InsertEdge, GoodPlan, NextHop, ChaseRight, CutBy, CutRootBy, SplitInner, RootInnerSplit,
      Replay;
    if a.Begin? || a.Hop? || a.Leave? || a.Crash? {
      ReplayNone(Storage(s));
    } else {
      var rec := Emits(s, a)[0];
      ReplayOne(Storage(s), rec);
      PutStored(s.unlinked, s.t.pages, rec.page, rec.node);
      match a
      case LinkSibling(tid, v, plan, r) =>
        SplitDefined(s, tid, v, plan);
        LinkIsRecord(s.t, s.unlinked, s.threads[tid].at, r, plan);
      case SplitRootLeaf(tid, v, plan, l, r) =>
        SplitDefined(s, tid, v, plan);
        RootLeafIsRecord(s.t, s.unlinked, plan, l, r);
      case CutInner(p, h, r) => CutIsRecord(s.t, s.unlinked, p, h, r);
      case SplitRootInner(h, l, r) => RootInnerIsRecord(s.t, s.unlinked, h, l, r);
      case _ =>
    }
  }

  lemma LinkIsRecord(t: Tree, unlinked: map<Pid, Node>, z: Pid, r: Pid, plan: SplitPlan)
    requires IsLeaf(t, z) && plan.SplitPlan? && r !in t.pages
    requires Entries(Installed(t, z, plan), z) == plan.left + plan.right
    requires r in unlinked && unlinked[r] == Leaf(plan.right, z, Right(t, z))
    ensures (unlinked - {r}) + CutBy(t, z, r, plan).pages == (unlinked + t.pages)[z := Leaf(plan.left, Left(t, z), r)]
  {
    var u := Installed(t, z, plan);
    assert (plan.left + plan.right)[..|plan.left|] == plan.left;
    assert (plan.left + plan.right)[|plan.left|..] == plan.right;
    assert u.pages[z] == Leaf(plan.left + plan.right, Left(t, z), Right(t, z));
    assert CutBy(t, z, r, plan).pages ==
      t.pages[z := Leaf(plan.left, Left(t, z), r)][r := Leaf(plan.right, z, Right(t, z))];
  }

  lemma RootLeafIsRecord(t: Tree, unlinked: map<Pid, Node>, plan: SplitPlan, l: Pid, r: Pid)
    requires IsLeaf(t, t.root) && plan.SplitPlan? && |plan.left| > 0 && l !in t.pages && r !in t.pages && l != r
    requires Entries(Installed(t, t.root, plan), t.root) == plan.left + plan.right && l in unlinked && r in unlinked
    requires unlinked[l] == Leaf(plan.left, Left(t, t.root), r) && unlinked[r] == Leaf(plan.right, l, Right(t, t.root))
    ensures (unlinked - {l, r}) + CutRootBy(t, l, r, plan).pages ==
      (unlinked + t.pages)[t.root := Inner([Slot(plan.left[|plan.left| - 1].key, l)], r)]
  {
    hide RootLeafSplit, Installed;
    RootLeafSplitPages(t, l, r, plan);
  }

  lemma CutIsRecord(t: Tree, unlinked: map<Pid, Node>, p: Pid, h: nat, r: Pid)
    requires IsInner(t, p) && h < |Slots(t, p)| && r !in t.pages && r in unlinked
    requires unlinked[r] == UpperHalf(t.pages[p], h)
    ensures (unlinked - {r}) + SplitInner(t, p, r, h).pages == (unlinked + t.pages)[p := LowerHalf(t.pages[p], h)]
  {
    hide LowerHalf, UpperHalf;
    assert SplitInner(t, p, r, h).pages == t.pages[p := LowerHalf(t.pages[p], h)][r := UpperHalf(t.pages[p], h)];
  }

  lemma RootInnerIsRecord(t: Tree, unlinked: map<Pid, Node>, h: nat, l: Pid, r: Pid)
    requires IsInner(t, t.root) && h < |Slots(t, t.root)| && l !in t.pages && r !in t.pages && l != r
    requires l in unlinked && r in unlinked
    requires unlinked[l] == LowerHalf(t.pages[t.root], h) && unlinked[r] == UpperHalf(t.pages[t.root], h)
    ensures (unlinked - {l, r}) + RootInnerSplit(t, l, r, h).pages ==
      (unlinked + t.pages)[t.root := Inner([Slot(Slots(t, t.root)[h].sep, l)], r)]
  {
    hide LowerHalf, UpperHalf, RootInnerSplit;
    RootInnerSplitPages(t, l, r, h);
  }

  // ----- the log of a run -----

  ghost function Log(states: seq<State>, actions: seq<Action>, n: nat): seq<Record>
    requires IsRun(states, actions) && n <= |actions|
  {
    if n == 0 then [] else Log(states, actions, n - 1) + Emits(states[n - 1], actions[n - 1])
  }

  lemma ReplayMore(pages: map<Pid, Node>, a: seq<Record>, b: seq<Record>)
    requires |b| <= 1
    ensures Replay(pages, a + b) == Replay(Replay(pages, a), b)
  {
    if |b| == 0 {
      assert a + b == a;
    } else {
      assert (a + b)[..|a + b| - 1] == a;
      assert b[..0] == [];
    }
  }

  /** Replaying the log up to a step rebuilds the pages after that step. */
  lemma {:induction false} LogIsStorage(states: seq<State>, actions: seq<Action>, n: nat)
    requires IsRun(states, actions) && n <= |actions|
    ensures Replay(Storage(states[0]), Log(states, actions, n)) == Storage(states[n])
    decreases n
  {
    hide SysInv, Enabled, Do, Init, Emits, Storage, Replay;
    if n > 0 {
      LogIsStorage(states, actions, n - 1);
      RunOk(states, actions, n - 1);
      StepIsRecord(states[n - 1], actions[n - 1]);
      ReplayMore(Storage(states[0]), Log(states, actions, n - 1), Emits(states[n - 1], actions[n - 1]));
    } else {
      ReplayNone(Storage(states[0]));
    }
  }

  lemma ReplayNone(pages: map<Pid, Node>)
    ensures Replay(pages, []) == pages
  {
  }

  /** Every prefix of the log is the log up to some step. */
  lemma {:induction false} PrefixIsLog(states: seq<State>, actions: seq<Action>, n: nat, k: nat) returns (i: nat)
    requires IsRun(states, actions) && n <= |actions| && k <= |Log(states, actions, n)|
    ensures i <= n && Log(states, actions, i) == Log(states, actions, n)[..k]
    decreases n
  {
    hide SysInv, Enabled, Do, Init, Emits;
    if k == |Log(states, actions, n)| {
      i := n;
    } else {
      RunOk(states, actions, n - 1);
      StepIsRecord(states[n - 1], actions[n - 1]);
      i := PrefixIsLog(states, actions, n - 1, k);
    }
  }

  // ----- what recovery finds -----

  /** The entries of `n + 1` leaves along the right links from `z`. */
  function Chain(pages: map<Pid, Node>, z: Pid, n: nat): seq<Entry>
    decreases n
  {
    if z !in pages || !pages[z].Leaf? then []
    else if n == 0 || pages[z].right == 0 then pages[z].entries
    else pages[z].entries + Chain(pages, pages[z].right, n - 1)
  }

  /** Following the right links from a leaf lists everything from that leaf on. */
  lemma {:induction false} ChainLists(pages: map<Pid, Node>, u: Tree, z: Pid) returns (n: nat)
    requires Contains(pages, u) && Inv(u) && IsLeaf(u, z)
    ensures ListsFrom(u, Chain(pages, z, n), z, Between(Unbounded, Unbounded))
    decreases |LeavesAfter(u, Lo(u, z))|
  {
    hide Inv, ListsFrom, ListsAbove, Chain;
    var r := Right(u, z);
    if r == 0 {
      n := 0;
      ChainEnd(pages, z);
      LastLeafLists(u, z);
    } else {
      NextLeafIs(u, z);
      var k := ChainLists(pages, u, r);
      n := k + 1;
      ChainStep(pages, z, n);
      FromNext(u, Chain(pages, r, k), z);
      WholeLeaf(u, Chain(pages, r, k), z);
    }
  }

  lemma ChainEnd(pages: map<Pid, Node>, z: Pid)
    requires z in pages && pages[z].Leaf? && pages[z].right == 0
    ensures Chain(pages, z, 0) == pages[z].entries
  {
  }

  lemma ChainStep(pages: map<Pid, Node>, z: Pid, n: nat)
    requires z in pages && pages[z].Leaf? && pages[z].right != 0 && n > 0
    ensures Chain(pages, z, n) == pages[z].entries + Chain(pages, pages[z].right, n - 1)
  {
  }

  lemma NextLeafIs(u: Tree, z: Pid)
    requires Inv(u) && IsLeaf(u, z) && Right(u, z) != 0
    ensures IsLeaf(u, Right(u, z)) && |LeavesAfter(u, Lo(u, Right(u, z)))| < |LeavesAfter(u, Lo(u, z))|
  {
    var y := Right(u, z);
    LinkedAt(u, z);
    assert y in LeavesAfter(u, Lo(u, z)) && y !in LeavesAfter(u, Lo(u, y));
    SubsetSize(LeavesAfter(u, Lo(u, y)), LeavesAfter(u, Lo(u, z)));
  }

  lemma LastLeafLists(u: Tree, z: Pid)
    requires Inv(u) && IsLeaf(u, z) && Right(u, z) == 0
    ensures ListsFrom(u, Entries(u, z), z, Between(Unbounded, Unbounded))
  {
    LinkedAt(u, z);
    EntriesSorted(u, z);
    assert forall y :: Lo(u, z) < Lo(u, y) ==> |Entries(u, y)| == 0;
  }

  lemma FromNext(u: Tree, asc: seq<Entry>, z: Pid)
    requires Inv(u) && IsLeaf(u, z) && Right(u, z) != 0 && ListsFrom(u, asc, Right(u, z), Between(Unbounded, Unbounded))
    ensures ListsAbove(u, asc, Lo(u, z), Between(Unbounded, Unbounded))
  {
    var y := Right(u, z);
    LinkedAt(u, z);
    forall e: Entry
      ensures HeldFrom(u, e, y) <==> HeldAbove(u, e, Lo(u, z))
    {
      FromIsAbove(u, e, y, z);
    }
  }

  lemma WholeLeaf(u: Tree, asc: seq<Entry>, z: Pid)
    requires Inv(u) && IsLeaf(u, z) && ListsAbove(u, asc, Lo(u, z), Between(Unbounded, Unbounded))
    ensures ListsFrom(u, Entries(u, z) + asc, z, Between(Unbounded, Unbounded))
  {
    hide ListsAbove, ListsFrom, Shaped, SortedLeaves, SortedAcross, Routed;
    DownLeaf(u, asc, z, Unbounded, Unbounded, 0, |Entries(u, z)|);
    assert Entries(u, z)[0..|Entries(u, z)|] == Entries(u, z);
  }

  /** An ascending scan along the right links, from the leaf where a lookup of the empty key ends, lists exactly `m`
      in order. */
  ghost predicate ScansAs(pages: map<Pid, Node>, root: Pid, m: map<Key, Value>)
  {
    exists z, n: nat :: WalkEnds(pages, root, [], z) && Lists(m, Chain(pages, z, n), Between(Unbounded, Unbounded))
  }

  /** The pages answer every lookup, and an ascending scan lists every entry, as the map `m`. */
  ghost predicate ReadsAs(pages: map<Pid, Node>, root: Pid, m: map<Key, Value>)
  {
    (forall key :: LooksUp(pages, root, key, MapGet(m, key))) && ScansAs(pages, root, m)
  }

  /** A map can be read from the pages in only one way. */
  lemma ReadsAsOnce(pages: map<Pid, Node>, root: Pid, m: map<Key, Value>, m': map<Key, Value>)
    requires ReadsAs(pages, root, m) && ReadsAs(pages, root, m')
    ensures m == m'
  {
    hide LooksUp, ScansAs;
    forall key: Key
      ensures MapGet(m, key) == MapGet(m', key)
    {
      LooksUpOnce(pages, root, key, MapGet(m, key), MapGet(m', key));
    }
    assert forall key: Key :: key in m <==> MapGet(m, key).Some?;
    assert forall key: Key :: key in m' <==> MapGet(m', key).Some?;
  }

  lemma TreeReads(pages: map<Pid, Node>, u: Tree, m: map<Key, Value>)
    requires Contains(pages, u) && Inv(u) && Stores(u, m)
    ensures ReadsAs(pages, u.root, m)
  {
    hide Inv, Stores, LooksUp, ScansAs, Contains;
    forall key
      ensures LooksUp(pages, u.root, key, MapGet(m, key))
    {
      LookupRecovered(pages, u, m, key);
    }
    ScanRecovered(pages, u, m);
  }

  lemma StateReads(states: seq<State>, actions: seq<Action>, i: nat)
    requires IsRun(states, actions) && i <= |actions|
    ensures ReadsAs(Replay(Storage(states[0]), Log(states, actions, i)), states[0].t.root, states[i].m)
  {
    hide IsRun, Log, Replay, Inv, Stores, PendingOk, ThreadsOk, UnlinkedOk, ReadsAs, Contains, Storage;
    RunSize(states, actions);
    LogIsStorage(states, actions, i);
    RunOk(states, actions, i);
    StorageContains(states[i]);
    TreeReads(Storage(states[i]), states[i].t, states[i].m);
    RootStays(states, actions, i);
  }

  lemma {:induction false} RootStays(states: seq<State>, actions: seq<Action>, i: nat)
    requires IsRun(states, actions) && i < |states|
    ensures states[i].t.root == states[0].t.root
    decreases i
  {
    hide Enabled, Do, Init;
    if i > 0 {
      RootStays(states, actions, i - 1);
      RootKept(states[i - 1], actions[i - 1]);
    }
  }

  lemma RootKept(s: State, a: Action)
    requires Enabled(s, a)
    ensures Do(s, a).t.root == s.t.root
  {
    hide LowerBound, LeafCost, InnerCost, GoodPlan, NextHop, ChaseRight, Inv, InsertEdge, LowerHalf, UpperHalf;
  }

  /** After a crash at any point of any run, the replayed pages read exactly as the map stood after the step whose
      image was the last one in the log, also if a split was cut off in the middle. */
  lemma CrashAnywhere(states: seq<State>, actions: seq<Action>, k: nat) returns (i: nat)
    requires IsRun(states, actions) && k <= |Log(states, actions, |actions|)|
    ensures i <= |actions| && Log(states, actions, i) == Log(states, actions, |actions|)[..k]
    ensures ReadsAs(Replay(Storage(states[0]), Log(states, actions, |actions|)[..k]), states[0].t.root,
                    A.History(actions[..i]).m)
  {
    hide IsRun, Log, Replay, ReadsAs, Storage, A.History;
    i := PrefixIsLog(states, actions, |actions|, k);
    RunSize(states, actions);
    StateReads(states, actions, i);
    A.EveryMap(states, actions, i);
  }

  lemma RunSize(states: seq<State>, actions: seq<Action>)
    requires IsRun(states, actions)
    ensures |states| == |actions| + 1
  {
  }

  lemma StorageContains(s: State)
    ensures Contains(Storage(s), s.t)
  {
  }

  lemma ScanRecovered(pages: map<Pid, Node>, u: Tree, m: map<Key, Value>)
    requires Contains(pages, u) && Inv(u) && Stores(u, m)
    ensures ScansAs(pages, u.root, m)
  {
    hide Stores, Chain, Contains, Inv, Walk, Standing, Lists;
    RootReads(u, []);
    var n := WalkFinds(pages, u, u.root, []);
    var z := Locate(u, u.root, []);
    assert WalkEnds(pages, u.root, [], z);
    var k := ChainLists(pages, u, z);
    AllFromFirst(u, m, z, Chain(pages, z, k));
  }

  lemma AllFromFirst(u: Tree, m: map<Key, Value>, z: Pid, out: seq<Entry>)
    requires Inv(u) && Stores(u, m) && IsLeaf(u, z) && Standing(u, z, [])
    requires ListsFrom(u, out, z, Between(Unbounded, Unbounded))
    ensures Lists(m, out, Between(Unbounded, Unbounded))
  {
    hide Stores, Inv, Standing;
    forall e: Entry
      ensures e in out <==> e.key in m && m[e.key] == e.value
    {
      FirstHoldsAll(u, z, e);
      StoredIs(u, m, e);
    }
  }

  lemma FirstHoldsAll(u: Tree, z: Pid, e: Entry)
    requires Inv(u) && IsLeaf(u, z) && Standing(u, z, [])
    ensures HeldFrom(u, e, z) <==> Holds(u, e)
  {
    HeldFromSomewhere(u, e, z);
    if Holds(u, e) {
      var y, i :| 0 <= i < |Entries(u, y)| && Entries(u, y)[i] == e;
      NumIsOrder(e.key, []);
      assert IsLeaf(u, y) && Lo(u, z) <= Lo(u, y);
      assert Lo(u, y) == Lo(u, z) ==> y == z;
    }
  }

  lemma StoredIs(u: Tree, m: map<Key, Value>, e: Entry)
    requires Stores(u, m)
    ensures Holds(u, e) <==> e.key in m && m[e.key] == e.value
  {
  }

  // ----- the images of one split -----

  /** A step of a split, or of a reader: everything but a write to one leaf. */
  predicate SplitStep(a: Action)
  {
    !(a.LeafInsert? || a.LeafUpdate? || a.LeafRemove?)
  }

  /** The step that puts the pending entry in: it links the sibling, or rewrites the root above both halves. */
  predicate Installs(a: Action)
  {
    a.LinkSibling? || a.SplitRootLeaf?
  }

  /** The map after a step of a split: unchanged, or with the pending entry if the step installs it. */
  lemma SplitKeepsMap(s: State, a: Action)
    requires SysInv(s) && Enabled(s, a) && SplitStep(a)
    ensures !Installs(a) ==> Do(s, a).m == s.m
    ensures Installs(a) ==> a.tid in s.threads && a.plan.SplitPlan?
    ensures Installs(a) ==> Do(s, a).m == if a.plan.installed then s.m[s.threads[a.tid].key := a.value] else s.m
    ensures Installs(a) && a.plan.installed ==> s.threads[a.tid].key !in s.m
  {
    hide Inv, Stores, PendingOk, UnlinkedOk, Standing, LowerBound, LeafCost, ChaseRight;
    if Installs(a) && a.plan.installed {
      AtWithin(s, a.tid);
    }
  }

  /** From step `a` on, up to `b`, one split runs and no leaf is written otherwise; step `j` installs its entry. */
  ghost predicate OneSplit(actions: seq<Action>, a: nat, j: nat, b: nat)
  {
    && a <= j < b <= |actions| && Installs(actions[j])
    && forall i :: a <= i < b ==> SplitStep(actions[i]) && (Installs(actions[i]) ==> i == j)
  }

  lemma {:induction false} MapDuring(states: seq<State>, actions: seq<Action>, a: nat, j: nat, b: nat, i: nat)
    requires IsRun(states, actions) && OneSplit(actions, a, j, b) && a <= i <= b
    ensures i <= j ==> states[i].m == states[a].m
    ensures i > j ==> states[i].m == states[j + 1].m
    decreases i
  {
    hide SysInv, Enabled, Do, Init;
    if i > a {
      MapDuring(states, actions, a, j, b, i - 1);
      RunOk(states, actions, i - 1);
      SplitKeepsMap(states[i - 1], actions[i - 1]);
    }
  }

  lemma {:induction false} LogGrows(states: seq<State>, actions: seq<Action>, i: nat, n: nat)
    requires IsRun(states, actions) && i <= n <= |actions|
    ensures |Log(states, actions, i)| <= |Log(states, actions, n)|
    decreases n
  {
    hide Enabled, Do, Init, Emits;
    if i < n {
      LogGrows(states, actions, i, n - 1);
    }
  }

  lemma InstallLogs(states: seq<State>, actions: seq<Action>, j: nat)
    requires IsRun(states, actions) && j < |actions| && Installs(actions[j])
    ensures |Log(states, actions, j + 1)| == |Log(states, actions, j)| + 1
  {
    hide Do, Init;
  }

  /** A prefix of the log that reaches past step `a` ends after a step between `a` and `n`. */
  lemma {:induction false} PrefixSince(states: seq<State>, actions: seq<Action>, a: nat, n: nat, k: nat)
    returns (i: nat)
    requires IsRun(states, actions) && a <= n <= |actions|
    requires |Log(states, actions, a)| <= k <= |Log(states, actions, n)|
    ensures a <= i <= n && Log(states, actions, i) == Log(states, actions, n)[..k]
    decreases n
  {
    hide SysInv, Enabled, Do, Init, Emits;
    if k == |Log(states, actions, n)| {
      i := n;
    } else {
      RunOk(states, actions, n - 1);
      StepIsRecord(states[n - 1], actions[n - 1]);
      i := PrefixSince(states, actions, a, n - 1, k);
    }
  }

  /** Whatever part of the images of a split has reached the log, the recovered pages read as the map before the
      split, and as that map with the pending entry exactly from the image on that installs it. */
  lemma SplitPrefix(states: seq<State>, actions: seq<Action>, a: nat, j: nat, b: nat, k: nat)
    requires IsRun(states, actions) && OneSplit(actions, a, j, b)
    requires |Log(states, actions, a)| <= k <= |Log(states, actions, b)|
    ensures actions[j].tid in states[j].threads && actions[j].plan.SplitPlan?
    ensures var pages := Replay(Storage(states[0]), Log(states, actions, b)[..k]);
      var key, value, installed := states[j].threads[actions[j].tid].key, actions[j].value, actions[j].plan.installed;
      && (installed ==> key !in states[a].m)
      && ReadsAs(pages, states[0].t.root,
           if installed && k > |Log(states, actions, j)| then states[a].m[key := value] else states[a].m)
  {
    hide SysInv, Enabled, Do, Init, Log, Replay, ReadsAs, Storage, OneSplit;
    OneSplitAt(actions, a, j, b);
    var i := PrefixSince(states, actions, a, b, k);
    RunSize(states, actions);
    RunOk(states, actions, j);
    SplitKeepsMap(states[j], actions[j]);
    MapDuring(states, actions, a, j, b, j);
    MapDuring(states, actions, a, j, b, i);
    InstallLogs(states, actions, j);
    if i <= j {
      LogGrows(states, actions, i, j);
    } else {
      LogGrows(states, actions, j + 1, i);
    }
    StateReads(states, actions, i);
  }

  lemma OneSplitAt(actions: seq<Action>, a: nat, j: nat, b: nat)
    requires OneSplit(actions, a, j, b)
    ensures a <= j < b <= |actions| && Installs(actions[j]) && SplitStep(actions[j])
  {
  }
}
