/**
 The B+tree as an object: pages rewritten in place under a stable root, driven one
 operation at a time.  The ghost field `t` carries the labels the invariant needs,
 the ghost field `contents` the map the tree stores.
 */
module SequentialTree {
  import opened Keys
  import opened Pages
  import opened Trees
  import opened LeafSteps
  import opened EdgeSteps
  import opened InnerSteps
  import opened RootSteps
  import opened LeftLinks
  import opened Merges
  import opened Splits
  import opened Search
  import opened Levels
  import opened Accounts
  import opened Descents
  import opened Removals
  import opened Scans
  import opened Descending
  import opened Reach
  import opened Stale
  import opened Walks
  import opened Deletes
  import opened Room

  /** Failed descents before a writer falls back to the blocking descent that chases right. */
  const WRITE_BLOCKING_FALLBACK_THRESHOLD: nat := 16

  lemma {:induction false} FreshExists(used: set<Pid>) returns (p: Pid)
    ensures p != 0 && p !in used
  {
    p := 1;
    var rest := set x | x in used && x >= p;
    while p in used
      invariant p >= 1
      invariant rest == set x | x in used && x >= p
      decreases rest
    {
      rest := rest - {p};
      p := p + 1;
    }
  }

  /** What one attempt at a leaf did. */
  datatype LeafAction = Present | Inserted | SplitRequired

  /** How an operation ended.  `Misplaced` is an insert that went into an empty leaf in front of where
      the key belongs; `Panicked` is an abort of the code. */
  datatype Outcome = Done(changed: bool) | Misplaced | Panicked

  /** How a merge attempt ended. */
  datatype MergeResult = Merged | NotMerged | MergePanics

  /** How a leaf split ended: the entry is in, it has room to be tried again, or the code panicked. */
  datatype SplitResult = InstalledPending | Retry | SplitFailed

  /** How one attempt to make room for an entry ended: its search is to be repeated, it strayed to an empty leaf and the
      entry was written there if it fits, or the leaf was split. */
  datatype RoomResult = Restart | Astray(fits: bool) | Split(result: SplitResult)

  class BTree {
    var pages: map<Pid, Node>
    const root: Pid
    /** What entries are promised to keep to; no method depends on it. */
    ghost const limits: Limits
    var height: nat
    var reachablePages: nat
    ghost var t: Tree
    ghost var contents: map<Key, Value>

    /** Holds between page writes, also while a split has a sibling to publish. */
    ghost predicate Valid()
      reads this
    {
      && t.pages == pages && t.root == root
      && Inv(t) && LeftLinked(t) && Stores(t, contents)
      && AllFit(pages)
      && height == Level(t, root) && reachablePages == |pages|
    }

    /** What reading needs: the tree is among the pages, which may hold more that nothing links; siblings may be
        unpublished. */
    ghost predicate Readable()
      reads this
    {
      Contains(pages, t) && t.root == root && Inv(t) && Stores(t, contents)
    }

    /** Holds between operations. */
    ghost predicate Settled()
      reads this
    {
      Valid() && t.orphans == {}
    }

    constructor (rootPid: Pid, ghost entryLimits: Limits)
      requires rootPid != 0
      ensures Settled() && contents == map[] && height == 0 && reachablePages == 1 && root == rootPid
      ensures limits == entryLimits && AllSmall(pages, limits) && NoHollow(t) && Lean(t)
    {
      root := rootPid;
      limits := entryLimits;
      height, reachablePages := 0, 1;
      pages := map[rootPid := Leaf([], 0, 0)];
      t := Tree(map[rootPid := Leaf([], 0, 0)], rootPid, map[rootPid := 0.0], map[rootPid := 0], {});
      contents := map[];
      new;
      NewTree(rootPid);
    }

    /** A page id that is in use nowhere. */
    method Allocate(avoid: set<Pid>) returns (p: Pid)
      ensures p != 0 && p !in pages && p !in avoid
    {
      ghost var q := FreshExists(pages.Keys + avoid);
      p :| p != 0 && p !in pages && p !in avoid;
    }

    // ----- parents -----

    /** Finds the edge that names `l` by walking the tree from the root. */
    method FindParent(l: Pid) returns (p: Pid, i: nat)
      requires Valid() && l in pages && l != root && l !in t.orphans && OrphansBelow(t, Level(t, l))
      ensures Edge(t, p, i, l)
    {
      hide Inv, Shaped, Typed, Kids, KidsUp, RootFirst, Distinct, Nested, Parented, Linked, SortedLeaves, SortedAcross,
        Routed, LeftLinked, Stores, AllFit, AllSmall, Frontier, OrphansBelow;
      InvParts(t);
      var stack := [root];
      ghost var seen: set<Pid> := {};
      FrontierStart(t, l);
      while |stack| > 0
        invariant Frontier(t, l, seen, stack)
        decreases |pages.Keys - seen|
      {
        var pid := stack[|stack| - 1];
        StackTop(t, l, seen, stack);
        var rest := stack[..|stack| - 1];
        var found := false;
        if pid == l || pages[pid].Leaf? {
          FrontierPop(t, l, seen, stack);
          stack := rest;
        } else {
          found, i := ChildEdge(pages[pid], l);
          if found {
            assert Kid(t, pid, i) == Child(pages[pid], i);
            return pid, i;
          }
          assert forall j :: 0 <= j <= |Slots(t, pid)| ==> Kid(t, pid, j) == Child(pages[pid], j);
          FrontierPush(t, l, seen, stack);
          stack := rest + ReversedChildren(pages[pid]);
        }
        assert pages.Keys - (seen + {pid}) == (pages.Keys - seen) - {pid};
        seen := seen + {pid};
      }
      FrontierNotDone(t, l, seen);
      assert false;
    }

    // ----- inner splits -----

    /** Cuts node `p` at slot `h`; the upper part goes to the fresh page `r`, still unknown to any parent. */
    method CutInner(p: Pid, h: nat) returns (r: Pid)
      requires Valid() && IsInner(t, p) && p != root && h < |Slots(t, p)|
      modifies this
      ensures Valid() && contents == old(contents)
      ensures r != 0 && r !in old(pages) && t == SplitInner(old(t), p, r, h)
      ensures NextAt(t, p, r) && SepOk(t, old(Slots(t, p)[h].sep), Lo(t, r))
      ensures old(AllSmall(pages, limits)) ==> AllSmall(pages, limits)
    {
      hide Inv, LeftLinked, Stores, AllFit, AllSmall, NextAt, SepOk, SplitInner, InnerHalves, LowerHalf, UpperHalf;
      r := Allocate({});
      var n := pages[p];
      SplitInnerIsNext(t, p, r, h, contents);
      SplitInnerAccounts(t, p, r, h, limits);
      pages := pages[r := UpperHalf(n, h)];
      pages := pages[p := LowerHalf(n, h)];
      t := SplitInner(t, p, r, h);
      reachablePages := reachablePages + 1;
    }

    /** Splits an inner root: both halves get fresh pages and the root page is rewritten above them. */
    method SplitRootInner(h: nat) returns (l: Pid, r: Pid)
      requires Valid() && IsInner(t, root) && h < |Slots(t, root)|
      modifies this
      ensures Valid() && contents == old(contents)
      ensures l != 0 && r != 0 && l != r && l !in old(pages) && r !in old(pages) && t == RootInnerSplit(old(t), l, r, h)
      ensures t.orphans == old(t.orphans)
      ensures old(AllSmall(pages, limits)) ==> AllSmall(pages, limits)
    {
      hide Inv, LeftLinked, Stores, AllFit, AllSmall, RootInnerSplit, LowerHalf, UpperHalf;
      l := Allocate({});
      r := Allocate({l});
      var n := pages[root];
      RootInnerSplitKeeps(t, l, r, h, contents);
      RootInnerSplitAccounts(t, l, r, h, limits);
      pages := pages[l := LowerHalf(n, h)];
      pages := pages[r := UpperHalf(n, h)];
      pages := pages[root := Inner([Slot(n.slots[h].sep, l)], r)];
      t := RootInnerSplit(t, l, r, h);
      height := height + 1;
      reachablePages := reachablePages + 2;
    }

    // ----- publishing a sibling -----

    /** Splits the parent `p` of `l`, which cannot take another separator; returns the node that owns `l` afterwards. */
    method SplitParent(p: Pid, i: nat, l: Pid, ghost r: Pid, ghost key: Key) returns (ok: bool, p': Pid, i': nat)
      requires Valid() && Edge(t, p, i, l) && l !in t.orphans && l != root && OrphansBelow(t, Level(t, l))
      requires r in t.orphans && Level(t, r) == Level(t, l)
      requires |pages[p].slots| >= 2
      modifies this
      ensures old(Lean(t)) ==> Lean(t)
      ensures Valid() && contents == old(contents) && SameUpTo(old(t), t, Level(old(t), l))
      ensures ok ==> t.orphans == old(t.orphans) && Edge(t, p', i', l) && |pages[p'].slots| <= |old(pages)[p].slots| / 2
      ensures ok && old(Clear(t, key)) ==> Clear(t, key)
      ensures old(AllSmall(pages, limits)) ==> ok && AllSmall(pages, limits)
      decreases |PagesAt(t, Level(t, l))|, 0
    {
      hide Clear, SepClear, Inv, LeftLinked, Stores, AllFit, AllSmall, SameUpTo, NextAt, SepOk, OrphansBelow, InnerCost,
        SplitInner, RootInnerSplit, Typed, InnerHalves, SmallNode, Lean;
      var h := |pages[p].slots| / 2;
      ghost var t0 := t;
      ghost var k := Level(t, l);
      EdgeLevel(t, p, i, l);
      if p == root {
        var a, b := SplitRootInner(h);
        RootInnerSplitAbove(t0, a, b, h, k);
        RootSplitLean(t0, a, b, h);
        RootInnerSplitEdge(t0, a, b, h, i, l);
        if Clear(t0, key) {
          RootInnerSplitClear(t0, a, b, h, key);
        }
        p', i' := if i <= h then a else b, if i <= h then i else i - h - 1;
        ok := true;
      } else {
        var sep := pages[p].slots[h].sep;
        SmallSlotAt(pages, p, h, limits);
        OrphansAreRealPages(t);
        var b := CutInner(p, h);
        ghost var t1 := t;
        SplitInnerAbove(t0, p, b, h, k);
        RootIn(t0);
        if Lean(t0) {
          SplitLean(t0, p, b, h);
        }
        SplitInnerEdge(t0, p, b, h, i, l);
        p', i' := if i <= h then p else b, if i <= h then i else i - h - 1;
        CutOrphans(t0, p, b, h, k);
        SameUpToCount(t0, t1, k);
        SameUpToAt(t0, t1, k, r);
        SameUpToAt(t0, t1, k, l);
        EdgeLevel(t1, p', i', l);
        FewerAboveInv(t1, k, r);
        if Clear(t0, key) {
          CutInnerClear(t0, p, b, h, key);
        }
        ok := PublishSibling(p, b, sep, key);
        SameUpToTrans(t0, t1, t, k, k + 1);
        SameUpToEdge(t1, t, k + 1, p', i', l);
      }
    }

    /** Writes separator and sibling into a parent that has room. */
    method PutEdge(p: Pid, i: nat, l: Pid, r: Pid, sep: Key)
      requires Valid() && Edge(t, p, i, l) && r in t.orphans && NextAt(t, l, r) && SepOk(t, sep, Lo(t, r))
      requires InnerCost(pages[p].slots) + SeparatorCost(sep) <= INNER_CAPACITY
      modifies this
      ensures Valid() && contents == old(contents) && t == Publish(old(t), p, i, sep, r)
      ensures old(AllSmall(pages, limits)) && SmallSep(sep, limits) ==> AllSmall(pages, limits)
    {
      hide Inv, LeftLinked, Stores, AllFit, AllSmall, NextAt, SepOk, InnerCost;
      PublishStores(t, p, i, sep, r, contents);
      PublishAccounts(t, p, i, sep, r, limits);
      pages := pages[p := InsertEdge(pages[p], i, sep, r)];
      t := Publish(t, p, i, sep, r);
    }

    /** Installs separator `sep` and the orphan `r` behind `l` in their parent, splitting full parents upward.
        Gives up only on a parent that is full with fewer than two slots. */
    method PublishSibling(l: Pid, r: Pid, sep: Key, ghost key: Key) returns (ok: bool)
      requires Valid() && l in pages && l != root && l !in t.orphans && r in t.orphans
      requires NextAt(t, l, r) && SepOk(t, sep, Lo(t, r)) && OrphansBelow(t, Level(t, l))
      modifies this
      ensures old(Lean(t)) ==> Lean(t)
      ensures Valid() && contents == old(contents) && SameUpTo(old(t), t, Level(old(t), l))
      ensures ok ==> t.orphans == old(t.orphans) - {r}
      ensures forall p, i: nat :: Edge(old(t), p, i, l) && HasRoom(old(t), p, sep) ==>
        ok && t == Publish(old(t), p, i, sep, r)
      ensures ok && old(Clear(t, key) && SepClear(t, sep, Lo(t, r), key)) ==> Clear(t, key)
      ensures old(AllSmall(pages, limits)) && SmallSep(sep, limits) ==> ok && AllSmall(pages, limits)
      decreases |PagesAt(t, Level(t, l))|, 1
    {
      hide Clear, SepClear, Inv, LeftLinked, Stores, AllFit, AllSmall, SameUpTo, NextAt, SepOk, OrphansBelow, InnerCost,
        SplitInner, RootInnerSplit, Typed, InnerHalves, SmallNode, Lean;
      ghost var t0 := t;
      ghost var k := Level(t, l);
      OrphansAreRealPages(t);
      NextLevel(t, l, r);
      InvTyped(t);
      SameUpToSelf(t, k);
      var p, i := FindParent(l);
      ghost var p0, i0 := p, i;
      EdgeIsOne(t, p, i, l);
      while InnerCost(pages[p].slots) + SeparatorCost(sep) > INNER_CAPACITY
        invariant Valid() && contents == old(contents) && SameUpTo(t0, t, k) && t.orphans == t0.orphans
        invariant Edge(t, p, i, l)
        invariant Clear(t0, key) ==> Clear(t, key)
        invariant Lean(t0) ==> Lean(t)
        invariant HasRoom(t0, p0, sep) ==> t == t0 && p == p0 && i == i0
        invariant old(AllSmall(pages, limits)) ==> AllSmall(pages, limits)
        decreases |pages[p].slots|
      {
        ghost var t1 := t;
        PageAt(pages, p, limits);
        FullSplits(pages[p], sep, limits);
        if |pages[p].slots| < 2 {
          return false;
        }
        SameUpToCount(t0, t, k);
        SameUpToOrphans(t0, t, k);
        SameUpToAt(t0, t, k, l);
        ok, p, i := SplitParent(p, i, l, r, key);
        SameUpToTrans(t0, t1, t, k, k);
        if !ok {
          return;
        }
      }
      InvTyped(t);
      SameUpToAt(t0, t, k, l);
      SameUpToAt(t0, t, k, r);
      SameUpToNext(t0, t, k, l, r);
      SameUpToSep(t0, t, k, sep, Lo(t0, r));
      EdgeLevel(t, p, i, l);
      if Clear(t0, key) && SepClear(t0, sep, Lo(t0, r), key) {
        SameUpToClear(t0, t, k, sep, Lo(t0, r), key);
        PublishClear(t, p, i, sep, r, key);
      }
      PublishAbove(t, p, i, sep, r, k);
      if Lean(t) {
        PublishLean(t, p, i, sep, r);
      }
      ghost var t1 := t;
      PutEdge(p, i, l, r, sep);
      SameUpToTrans(t0, t1, t, k, k);
      ok := true;
    }

    // ----- descents -----

    /** Routes down from the root and chases right until neither applies. */
    method FindLeaf(key: Key) returns (z: Pid)
      requires Readable()
      ensures IsLeaf(t, z) && Standing(t, z, key) && !ChaseRight(pages[z], key)
    {
      hide Inv, LeftLinked, Stores, AllFit, Standing, Route, LowerBound;
      RootReader(t, key);
      z := root;
      while NextHop(pages[z], key) != 0
        invariant Standing(t, z, key) && z in t.pages && z in pages
        decreases Level(t, z), |LeavesAfter(t, Lo(t, z))|
      {
        HopReader(t, z, key);
        z := NextHop(pages[z], key);
      }
      StopReader(t, z, key);
    }

    /** Routes down from the root recording the path.  A non-empty leaf that would have to be left to the
        right makes the descent restart; an empty one is returned as it is. */
    method FindLeafWithPath(key: Key) returns (ok: bool, path: seq<Pid>, z: Pid)
      requires Valid()
      ensures PathOk(t, path, 0) && IsLeaf(t, z) && Standing(t, z, key)
      ensures z == InvRouteLeaf(t, key) && path == RoutePath(t, root, key)
      ensures ok <==> !ChaseRight(pages[z], key) || |Entries(t, z)| == 0
    {
      hide Inv, LeftLinked, Stores, AllFit, Standing, Route, LowerBound, RoutePath;
      RootReader(t, key);
      path, z := [], root;
      while pages[z].Inner?
        invariant Standing(t, z, key) && z in pages && InvRouteLeafFrom(t, z, key) == InvRouteLeaf(t, key)
        invariant path + RoutePath(t, z, key) == RoutePath(t, root, key)
        invariant PathOk(t, path, Level(t, z))
        decreases Level(t, z)
      {
        RouteReader(t, z, key);
        path := path + [z];
        z := Child(pages[z], Route(pages[z], key));
      }
      RouteReader(t, z, key);
      ok := !ChaseRight(pages[z], key) || |pages[z].entries| == 0;
    }

    /** The blocking descent: the same path, then right links until the search stops. */
    method FindLeafWithPathFallback(key: Key) returns (path: seq<Pid>, z: Pid)
      requires Valid()
      ensures PathOk(t, path, 0) && IsLeaf(t, z) && Standing(t, z, key) && !ChaseRight(pages[z], key)
      ensures path == RoutePath(t, root, key)
    {
      hide Inv, LeftLinked, Stores, AllFit, Standing, Route, LowerBound, RoutePath;
      RootReader(t, key);
      path, z := [], root;
      while NextHop(pages[z], key) != 0
        invariant Standing(t, z, key) && z in pages
        invariant path + RoutePath(t, z, key) == RoutePath(t, root, key)
        invariant PathOk(t, path, Level(t, z))
        decreases Level(t, z), |LeavesAfter(t, Lo(t, z))|
      {
        HopReader(t, z, key);
        RouteReader(t, z, key);
        if pages[z].Inner? {
          path := path + [z];
        }
        z := NextHop(pages[z], key);
        RouteReader(t, z, key);
      }
      StopReader(t, z, key);
      RouteReader(t, z, key);
    }

    method Lookup(key: Key) returns (v: Option<Value>)
      requires Readable()
      ensures v == MapGet(contents, key)
    {
      var z := FindLeaf(key);
      StopAnswers(t, z, key, contents);
      v := ValueIn(pages[z], key);
    }

    // ----- leaf writes -----

    method InsertIntoLeaf(z: Pid, e: Entry, pos: nat)
      requires Valid() && IsLeaf(t, z) && Standing(t, z, e.key) && !ChaseRight(pages[z], e.key)
      requires (pos, false) == LowerBound(EntryKeys(Entries(t, z)), e.key)
      requires LeafCost(Entries(t, z)) + EntryCost(e) <= LEAF_CAPACITY
      modifies this
      ensures reachablePages == old(reachablePages) && height == old(height)
      ensures Valid() && contents == old(contents)[e.key := e.value] && e.key !in old(contents)
      ensures t == WithEntries(old(t), z, InsertedAt(Entries(old(t), z), pos, e))
      ensures height == old(height) && reachablePages == old(reachablePages)
      ensures old(AllSmall(pages, limits)) && SmallEntry(e, limits) ==> AllSmall(pages, limits)
      ensures old(NoHollow(t)) ==> NoHollow(t)
      ensures old(Lean(t)) ==> Lean(t)
    {
      hide NoHollow, Inv, LeftLinked, Stores, AllFit, AllSmall, Standing, LowerBound, InsertedAt, LeafCost, EntryCost,
        SmallEntry;
      var es := InsertedAt(pages[z].entries, pos, e);
      InsertKeeps(t, z, e, pos, contents);
      InsertCost(pages[z].entries, pos, e);
      WithEntriesAccounts(t, z, es, limits);
      InsertSmall(pages, z, pos, e, limits);
      if NoHollow(t) {
        InsertedSize(pages[z].entries, pos, e);
        InsertHollow(t, z, es);
      }
      pages := pages[z := pages[z].(entries := es)];
      t := WithEntries(t, z, es);
      contents := contents[e.key := e.value];
    }

    method UpdateInLeaf(z: Pid, pos: nat, v: Value)
      requires Valid() && IsLeaf(t, z) && pos < |Entries(t, z)|
      requires var es := Entries(t, z);
        LeafCost(es) - EntryCost(es[pos]) + EntryCost(Entry(es[pos].key, v)) <= LEAF_CAPACITY
      modifies this
      ensures reachablePages == old(reachablePages) && height == old(height)
      ensures Valid() && contents == old(contents)[old(Entries(t, z)[pos].key) := v]
      ensures t == WithEntries(old(t), z, Entries(old(t), z)[pos := Entry(Entries(old(t), z)[pos].key, v)])
      ensures height == old(height) && reachablePages == old(reachablePages)
      ensures old(AllSmall(pages, limits)) && SmallEntry(Entry(old(Entries(t, z)[pos].key), v), limits) ==>
        AllSmall(pages, limits)
      ensures old(NoHollow(t)) ==> NoHollow(t)
      ensures old(Lean(t)) ==> Lean(t)
    {
      hide NoHollow, Inv, LeftLinked, Stores, AllFit, AllSmall, LeafCost, EntryCost, SmallEntry;
      var e := Entry(pages[z].entries[pos].key, v);
      var es := pages[z].entries[pos := e];
      UpdateKeeps(t, z, pos, v, contents);
      UpdateCost(pages[z].entries, pos, e);
      WithEntriesAccounts(t, z, es, limits);
      UpdateSmall(pages, z, pos, e, limits);
      if NoHollow(t) {
        InsertHollow(t, z, es);
      }
      pages := pages[z := pages[z].(entries := es)];
      t := WithEntries(t, z, es);
      contents := contents[e.key := v];
    }

    method RemoveFromLeaf(z: Pid, pos: nat)
      requires Valid() && IsLeaf(t, z) && pos < |Entries(t, z)|
      modifies this
      ensures Valid() && contents == old(contents) - {old(Entries(t, z)[pos].key)}
      ensures t == WithEntries(old(t), z, RemovedAt(Entries(old(t), z), pos))
      ensures t.orphans == old(t.orphans) && height == old(height) && reachablePages == old(reachablePages)
      ensures old(Lean(t)) ==> Lean(t)
      ensures old(AllSmall(pages, limits)) ==> AllSmall(pages, limits)
    {
      hide Inv, LeftLinked, Stores, AllFit, AllSmall, LeafCost, EntryCost, SmallEntry, RemovedAt;
      var es := RemovedAt(pages[z].entries, pos);
      RemoveKeeps(t, z, pos, contents);
      RemoveCost(pages[z].entries, pos);
      PageAt(pages, z, limits);
      WithEntriesAccounts(t, z, es, limits);
      RemoveSmall(pages, z, pos, limits);
      contents := contents - {pages[z].entries[pos].key};
      pages := pages[z := pages[z].(entries := es)];
      t := WithEntries(t, z, es);
    }

    // ----- leaf splits -----

    /** Splits a leaf root by `plan`: both halves go to fresh pages, then the root page is rewritten above them. */
    method SplitRootLeaf(plan: SplitPlan, ghost pending: Entry) returns (l: Pid, r: Pid)
      requires Settled() && IsLeaf(t, root) && Standing(t, root, pending.key) && !ChaseRight(pages[root], pending.key)
      requires plan.SplitPlan? && GoodPlan(Entries(t, root), pending, plan)
      modifies this
      ensures Settled() && contents == MapAfter(old(contents), pending, plan.installed)
      ensures l != 0 && r != 0 && l != r && l !in old(pages) && r !in old(pages)
      ensures Entries(Installed(old(t), root, plan), root) == plan.left + plan.right
      ensures t == RootLeafSplit(old(t), l, r, plan)
      ensures |plan.left| > 0 && (!plan.installed ==> StopsOn(t, pending.key, HalfFor(plan, pending.key)))
      ensures old(AllSmall(pages, limits)) && SmallEntry(pending, limits) ==> AllSmall(pages, limits)
      ensures old(NoHollow(t)) ==> NoHollow(t)
      ensures old(Lean(t)) ==> Lean(t)
    {
      hide Inv, LeftLinked, Stores, AllFit, AllSmall, Standing, GoodPlan, StopsOn, RootLeafSplit, Installed, LeafCost,
        SmallEntry, NoHollow;
      ghost var firm := NoHollow(t);
      l := Allocate({});
      r := Allocate({l});
      RootLeafSplitKeeps(t, l, r, pending, plan, contents);
      PlanFits(Entries(t, root), pending, plan);
      RootLeafSplitAccounts(t, l, r, plan, limits);
      PlanSmall(pages, root, pending, plan, limits);
      if !plan.installed {
        RootLeafSplitStops(t, l, r, pending, plan);
      }
      if firm {
        RootLeafSplitHollow(t, l, r, plan);
      }
      var n := pages[root];
      pages := pages[l := Leaf(plan.left, n.left, r)];
      pages := pages[r := Leaf(plan.right, l, n.right)];
      pages := pages[root := Inner([Slot(plan.left[|plan.left| - 1].key, l)], r)];
      t := RootLeafSplit(t, l, r, plan);
      contents := MapAfter(contents, pending, plan.installed);
      height := height + 1;
      reachablePages := reachablePages + 2;
    }

    /** Splits leaf `z` by `plan` and points its old successor back at the new sibling `r`, which no parent names
        yet. */
    method CutLeaf(z: Pid, plan: SplitPlan, ghost pending: Entry) returns (r: Pid)
      requires Settled() && IsLeaf(t, z) && z != root && Standing(t, z, pending.key)
      requires !ChaseRight(pages[z], pending.key)
      requires plan.SplitPlan? && GoodPlan(Entries(t, z), pending, plan)
      modifies this
      ensures Valid() && contents == MapAfter(old(contents), pending, plan.installed)
      ensures r != 0 && r !in old(pages) && Entries(Installed(old(t), z, plan), z) == plan.left + plan.right
      ensures t == LeafSplit(old(t), z, r, plan)
      ensures t.orphans == {r} && IsLeaf(t, z) && z != root
      ensures |plan.left| > 0 && NextAt(t, z, r) && SepOk(t, plan.left[|plan.left| - 1].key, Lo(t, r))
      ensures !plan.installed ==> StopsOn(t, pending.key, HalfFor(plan, pending.key))
      ensures old(AllSmall(pages, limits)) && SmallEntry(pending, limits) ==>
        AllSmall(pages, limits) && SmallSep(plan.left[|plan.left| - 1].key, limits)
    {
      hide Inv, LeftLinked, Stores, AllFit, AllSmall, Standing, GoodPlan, StopsOn, LeafSplit, Installed, LeafCost,
        SmallEntry, NextAt, SepOk;
      r := Allocate({});
      LeafSplitKeeps(t, z, r, pending, plan, contents);
      PlanFits(Entries(t, z), pending, plan);
      LeafSplitAccounts(t, z, r, plan, limits);
      PlanSmall(pages, z, pending, plan, limits);
      if !plan.installed {
        LeafSplitStops(t, z, r, pending, plan);
      }
      var n := pages[z];
      pages := pages[r := Leaf(plan.right, z, n.right)];
      pages := pages[z := Leaf(plan.left, n.left, r)];
      if n.right != 0 {
        pages := pages[n.right := pages[n.right].(left := r)];
      }
      t := LeafSplit(t, z, r, plan);
      contents := MapAfter(contents, pending, plan.installed);
      reachablePages := reachablePages + 1;
    }

    /** Makes room for `pending` in leaf `z`, or installs it on the way when the leaf has only one or two entries. */
    method SplitLeafNode(z: Pid, pending: Entry) returns (res: SplitResult)
      requires Settled() && IsLeaf(t, z) && Standing(t, z, pending.key) && !ChaseRight(pages[z], pending.key)
      requires SplitNeeded(Entries(t, z), pending)
      modifies this
      ensures Valid()
      ensures res.InstalledPending? ==>
        Settled() && pending.key !in old(contents) && contents == old(contents)[pending.key := pending.value]
      ensures res.Retry? ==> Settled() && contents == old(contents)
      ensures var plan := PlanLeafSplit(old(Entries(t, z)), pending);
        && (plan.SplitPanics? ==> res.SplitFailed? && unchanged(this))
        && (plan.SplitPlan? && !res.SplitFailed? ==> (res.InstalledPending? <==> plan.installed))
        && (res.Retry? ==> |plan.left| > 0 && StopsOn(t, pending.key, HalfFor(plan, pending.key)))
      ensures res.Retry? && old(Clear(t, pending.key)) ==> Clear(t, pending.key)
      ensures old(AllSmall(pages, limits)) && SmallEntry(pending, limits) ==>
        && AllSmall(pages, limits) && (limits.light ==> !res.SplitFailed?)
        && (res.SplitFailed? ==> PlanLeafSplit(old(Entries(t, z)), pending).SplitPanics?)
      ensures old(NoHollow(t)) ==> NoHollow(t)
      ensures old(Lean(t)) ==> Lean(t)
    {
      hide Clear, SepClear, Inv, LeftLinked, Stores, AllFit, AllSmall, Standing, GoodPlan, StopsOn, SplitNeeded,
        PlanLeafSplit, SmallEntry, NextAt, SepOk, OrphansBelow, NoHollow, SameUpTo, Lean;
      var plan := PlanLeafSplit(pages[z].entries, pending);
      PlanHolds(t, z, pending, contents, limits);
      PlanSucceeds(t, z, pending, limits);
      if plan.SplitPanics? {
        return SplitFailed;
      }
      res := if plan.installed then InstalledPending else Retry;
      ghost var t0 := t;
      if z == root {
        var l, r := SplitRootLeaf(plan, pending);
        if !plan.installed && Clear(t0, pending.key) {
          RootLeafSplitClear(t0, l, r, pending, plan, pending.key);
        }
      } else {
        var r := CutLeaf(z, plan, pending);
        PlanFits(Entries(t0, z), pending, plan);
        if NoHollow(t0) {
          LeafSplitHollow(t0, z, r, plan);
        }
        if Lean(t0) {
          LeafSplitLean(t0, z, r, plan);
        }
        if !plan.installed && Clear(t0, pending.key) {
          LeafSplitClear(t0, z, r, pending, plan, pending.key);
        }
        InvTyped(t);
        OrphanBesideLeaf(t, z, r);
        ghost var t1 := t;
        var ok := PublishSibling(z, r, plan.left[|plan.left| - 1].key, pending.key);
        if NoHollow(t1) {
          SameUpToHollow(t1, t, Level(t1, z));
        }
        if !ok {
          return SplitFailed;
        }
        assert t.orphans == {};
        if !plan.installed {
          SameUpToStops(t1, t, Level(t1, z), pending.key, HalfFor(plan, pending.key));
        }
      }
    }

    // ----- insert and upsert -----

    /** One attempt to insert into the leaf where the search for the key stopped. */
    method TryInsertLeaf(z: Pid, e: Entry) returns (action: LeafAction)
      requires Settled() && IsLeaf(t, z) && Standing(t, z, e.key) && !ChaseRight(pages[z], e.key)
      modifies this
      ensures reachablePages == old(reachablePages) && height == old(height)
      ensures Settled()
      ensures action.Present? <==> e.key in old(contents)
      ensures action.Inserted? ==> contents == old(contents)[e.key := e.value]
      ensures !action.Inserted? ==> unchanged(this)
      ensures action.SplitRequired? <==> e.key !in old(contents) && SplitNeeded(old(Entries(t, z)), e)
      ensures old(AllSmall(pages, limits)) && SmallEntry(e, limits) ==> AllSmall(pages, limits)
      ensures old(NoHollow(t)) ==> NoHollow(t)
      ensures old(Lean(t)) ==> Lean(t)
    {
      hide Inv, LeftLinked, Stores, AllFit, AllSmall, Standing, LeafCost, EntryCost, SmallEntry, NoHollow, LowerBound,
        InsertBound, InsertedAt, Lean;
      StopPosition(t, z, e.key, contents);
      var (pos, exact) := InsertBound(pages[z].entries, e.key);
      if exact {
        return Present;
      }
      if LeafCost(pages[z].entries) + EntryCost(e) > LEAF_CAPACITY {
        return SplitRequired;
      }
      InsertIntoLeaf(z, e, pos);
      action := Inserted;
    }

    /** Writes the entry into the empty leaf `y` although its key belongs further right. */
    method Misplace(y: Pid, e: Entry) returns (ok: bool)
      requires Settled() && IsLeaf(t, y) && |Entries(t, y)| == 0 && Right(t, y) != 0
      modifies this
      ensures ok <==> EntryCost(e) <= LEAF_CAPACITY
      ensures ok ==> t == WithEntries(old(t), y, [e]) && pages == t.pages
      ensures ok ==> forall k :: LooksUp(pages, root, k, AnswerAfter(old(t), old(contents), y, e, k))
      ensures old(Lean(t)) ==> Lean(t)
      ensures !ok ==> unchanged(this)
    {
      hide Inv, LeftLinked, Stores, AllFit, LooksUp, AnswerAfter;
      ok := LeafCost(pages[y].entries) + EntryCost(e) <= LEAF_CAPACITY;
      if ok {
        forall k
          ensures LooksUp(WithEntries(t, y, [e]).pages, root, k, AnswerAfter(t, contents, y, e, k))
        {
          AnswersAfterWrite(t, contents, y, e, k);
        }
        pages := pages[y := pages[y].(entries := [e])];
        t := WithEntries(t, y, [e]);
      }
    }

    /** Makes room for `e` at the leaf where its search stops.  A descent that does not chase to the right is told to
        restart if it misses that leaf, unless it ends on an empty leaf, which then takes the entry. */
    method MakeRoom(e: Entry, blocking: bool) returns (step: RoomResult)
      requires Settled() && SplitNeeded(StopEntries(t, e.key), e)
      modifies this
      ensures step.Astray? <==> !blocking && Stranded(old(t), e.key)
      ensures step.Astray? ==> (step.fits <==> EntryCost(e) <= LEAF_CAPACITY)
      ensures step.Astray? && step.fits ==> pages == t.pages && t.root == root && Strayed(old(t), old(contents), e, t)
      ensures step.Restart? <==> !step.Astray? && !blocking && InvRouteLeaf(old(t), e.key) != StopLeaf(old(t), e.key)
      ensures step.Restart? || (step.Astray? && !step.fits) ==> unchanged(this)
      ensures step == Split(InstalledPending) ==>
        Settled() && e.key !in old(contents) && contents == old(contents)[e.key := e.value]
      ensures step == Split(Retry) ==> Settled() && contents == old(contents)
      ensures step.Split? ==> var plan := PlanLeafSplit(old(StopEntries(t, e.key)), e);
        && (plan.SplitPanics? ==> step.result.SplitFailed?)
        && (plan.SplitPlan? && !step.result.SplitFailed? ==> (step.result.InstalledPending? <==> plan.installed))
        && (step.result.Retry? ==> |plan.left| > 0 && StopEntries(t, e.key) == HalfFor(plan, e.key))
      ensures step == Split(Retry) && old(Clear(t, e.key)) ==> Clear(t, e.key)
      ensures step.Split? && old(AllSmall(pages, limits)) && SmallEntry(e, limits) ==>
        && AllSmall(pages, limits) && (limits.light ==> !step.result.SplitFailed?)
        && (step.result.SplitFailed? ==> PlanLeafSplit(old(StopEntries(t, e.key)), e).SplitPanics?)
      ensures old(NoHollow(t)) ==> !step.Astray? && NoHollow(t)
      ensures old(Lean(t)) ==> Lean(t)
    {
      hide Clear, Stranded, StopLeaf, LooksUp, AnswerAfter, Meets, Inv, LeftLinked, Stores, AllFit, AllSmall, Standing,
        LeafCost, EntryCost, SmallEntry, NoHollow, SplitNeeded, StopsOn, InvRouteLeaf, HalfFor, PlanLeafSplit,
        ChaseRight, Lean;
      var path, y;
      if blocking {
        path, y := FindLeafWithPathFallback(e.key);
      } else {
        var ok;
        ok, path, y := FindLeafWithPath(e.key);
        RoutedStop(t, e.key, y);
        if !ok {
          return Restart;
        }
        if ChaseRight(pages[y], e.key) {
          StrandedAt(t, e.key, y);
          RouteMeets(t, e.key);
          var fits := Misplace(y, e);
          return Astray(fits);
        }
      }
      StoppedAt(t, e.key, y);
      var split := SplitLeafNode(y, e);
      if split.Retry? {
        StopEntriesAre(t, e.key, HalfFor(PlanLeafSplit(old(StopEntries(t, e.key)), e), e.key));
      }
      step := Split(split);
    }

    /** Inserts unless the key is present.  `before` is the tree in front of the final write. */
    method Insert(key: Key, value: Value) returns (o: Outcome, ghost before: Tree)
      requires Settled()
      modifies this
      ensures o.Done? ==>
        && Settled() && o.changed == (key !in old(contents))
        && contents == (if o.changed then old(contents)[key := value] else old(contents))
      ensures key !in old(contents) && Blocked(old(t), Entry(key, value)) ==>
        before == old(t) && o == if EntryCost(Entry(key, value)) <= LEAF_CAPACITY then Misplaced else Panicked
      ensures o.Misplaced? ==>
        && key !in old(contents) && Blocked(before, Entry(key, value)) && EntryCost(Entry(key, value)) <= LEAF_CAPACITY
        && (before == old(t) || Slips(old(t), Entry(key, value)))
        && pages == t.pages && t.root == root && Strayed(before, old(contents), Entry(key, value), t)
      ensures old(NoHollow(t)) ==> !o.Misplaced? && NoHollow(t)
      ensures key in old(contents) || !SplitNeeded(StopEntries(old(t), key), Entry(key, value)) ==>
        o.Done? && reachablePages == old(reachablePages) && height == old(height)
      ensures old(Lean(t)) ==> Lean(t)
      ensures o.Done? && old(AllSmall(pages, limits)) && SmallEntry(Entry(key, value), limits) ==>
        AllSmall(pages, limits)
      ensures old(AllSmall(pages, limits)) && SmallEntry(Entry(key, value), limits) ==>
        && (limits.light ==> !o.Panicked?)
        && (!o.Misplaced? ==>
              (o.Panicked? <==> key !in old(contents) && !RoomFor(StopEntries(old(t), key), Entry(key, value))))
    {
      hide Clear, Stranded, StopLeaf, Strayed, Inv, LeftLinked, Stores, AllFit, AllSmall, Standing, LeafCost, EntryCost,
        SmallEntry, NoHollow, SplitNeeded, InvRouteLeaf, RoomFor, HalfFor, PlanLeafSplit, StopEntries, ChaseRight, Lean;
      var attempts := 0;
      var e := Entry(key, value);
      ghost var t0 := t;
      ghost var moved := false;
      while true
        invariant Settled() && contents == old(contents) && attempts <= WRITE_BLOCKING_FALLBACK_THRESHOLD
        invariant !moved ==> t == t0
        invariant RoomFor(StopEntries(t, key), e) <==> RoomFor(StopEntries(t0, key), e)
        invariant !moved && attempts > 0 ==> InvRouteLeaf(t0, key) != StopLeaf(t0, key)
        invariant moved || attempts > 0 ==> !Stranded(t0, key)
        invariant moved ==> key !in contents && SplitNeeded(StopEntries(t0, key), e)
        invariant moved && attempts < WRITE_BLOCKING_FALLBACK_THRESHOLD ==> InvRouteLeaf(t0, key) == StopLeaf(t0, key)
        invariant Clear(t0, key) ==> Clear(t, key)
        invariant old(NoHollow(t)) ==> NoHollow(t)
        invariant old(Lean(t)) ==> Lean(t)
        invariant old(AllSmall(pages, limits)) && SmallEntry(e, limits) ==> AllSmall(pages, limits)
        decreases |StopEntries(t, key)|, WRITE_BLOCKING_FALLBACK_THRESHOLD - attempts
      {
        before := t;
        ghost var es := StopEntries(t, key);
        var z := FindLeaf(key);
        StoppedAt(t, key, z);
        var action := TryInsertLeaf(z, e);
        RoomStep(es, e);
        if !action.SplitRequired? {
          return Done(action.Inserted?), before;
        }
        var step := MakeRoom(e, attempts >= WRITE_BLOCKING_FALLBACK_THRESHOLD);
        if step.Restart? {
          attempts := attempts + 1;
        } else if step.Astray? {
          StrandedIsStale(before, key);
          SmallFits(e, limits);
          if !step.fits {
            TooLarge(es, e);
          }
          return if step.fits then Misplaced else Panicked, before;
        } else if step.result.SplitFailed? {
          return Panicked, before;
        } else if step.result.InstalledPending? {
          return Done(true), before;
        } else {
          moved := true;
        }
      }
    }

    /** One attempt to write the entry at the leaf where the search for its key stopped. */
    method TryUpsertLeaf(z: Pid, e: Entry) returns (action: LeafAction)
      requires Settled() && IsLeaf(t, z) && Standing(t, z, e.key) && !ChaseRight(pages[z], e.key)
      modifies this
      ensures reachablePages == old(reachablePages) && height == old(height)
      ensures Settled()
      ensures !action.SplitRequired? ==>
        contents == old(contents)[e.key := e.value] && (action.Present? <==> e.key in old(contents))
      ensures action.SplitRequired? <==> SplitNeeded(old(Entries(t, z)), e)
      ensures action.SplitRequired? ==> unchanged(this)
      ensures old(AllSmall(pages, limits)) && SmallEntry(e, limits) ==> AllSmall(pages, limits)
      ensures old(NoHollow(t)) ==> NoHollow(t)
      ensures old(Lean(t)) ==> Lean(t)
    {
      hide Inv, LeftLinked, Stores, AllFit, AllSmall, Standing, LeafCost, SmallEntry, NoHollow, LowerBound, InsertBound,
        InsertedAt, Lean;
      StopPosition(t, z, e.key, contents);
      PageAt(pages, z, limits);
      var (pos, exact) := InsertBound(pages[z].entries, e.key);
      if exact {
        if |pages[z].entries[pos].value| != |e.value|
           && LeafCost(pages[z].entries) - EntryCost(pages[z].entries[pos]) + EntryCost(e) > LEAF_CAPACITY {
          return SplitRequired;
        }
        UpdateInLeaf(z, pos, e.value);
        return Present;
      }
      if LeafCost(pages[z].entries) + EntryCost(e) > LEAF_CAPACITY {
        return SplitRequired;
      }
      InsertIntoLeaf(z, e, pos);
      action := Inserted;
    }

    /** Inserts or overwrites.  `before` is the tree in front of the final write. */
    method Upsert(key: Key, value: Value) returns (o: Outcome, ghost before: Tree)
      requires Settled()
      modifies this
      ensures o.Done? ==>
        Settled() && o.changed == (key !in old(contents)) && contents == old(contents)[key := value]
      ensures Blocked(old(t), Entry(key, value)) ==>
        before == old(t) && o == if EntryCost(Entry(key, value)) <= LEAF_CAPACITY then Misplaced else Panicked
      ensures o.Misplaced? ==>
        && Blocked(before, Entry(key, value)) && EntryCost(Entry(key, value)) <= LEAF_CAPACITY
        && (before == old(t) || Slips(old(t), Entry(key, value)))
        && pages == t.pages && t.root == root && Strayed(before, old(contents), Entry(key, value), t)
      ensures old(NoHollow(t)) ==> !o.Misplaced? && NoHollow(t)
      ensures !SplitNeeded(StopEntries(old(t), key), Entry(key, value)) ==>
        o.Done? && reachablePages == old(reachablePages) && height == old(height)
      ensures old(Lean(t)) ==> Lean(t)
      ensures o.Done? && old(AllSmall(pages, limits)) && SmallEntry(Entry(key, value), limits) ==>
        AllSmall(pages, limits)
      ensures old(AllSmall(pages, limits)) && SmallEntry(Entry(key, value), limits) ==>
        && (limits.light ==> !o.Panicked?)
        && (!o.Misplaced? ==> (o.Panicked? <==> !RoomFor(StopEntries(old(t), key), Entry(key, value))))
    {
      hide Clear, Stranded, StopLeaf, Strayed, Inv, LeftLinked, Stores, AllFit, AllSmall, Standing, LeafCost, EntryCost,
        SmallEntry, NoHollow, SplitNeeded, InvRouteLeaf, RoomFor, HalfFor, PlanLeafSplit, StopEntries, ChaseRight, Lean;
      var attempts := 0;
      var e := Entry(key, value);
      ghost var t0 := t;
      ghost var moved := false;
      while true
        invariant Settled() && contents == old(contents) && attempts <= WRITE_BLOCKING_FALLBACK_THRESHOLD
        invariant !moved ==> t == t0
        invariant RoomFor(StopEntries(t, key), e) <==> RoomFor(StopEntries(t0, key), e)
        invariant !moved && attempts > 0 ==> InvRouteLeaf(t0, key) != StopLeaf(t0, key)
        invariant moved || attempts > 0 ==> !Stranded(t0, key)
        invariant moved ==> SplitNeeded(StopEntries(t0, key), e)
        invariant moved && attempts < WRITE_BLOCKING_FALLBACK_THRESHOLD ==> InvRouteLeaf(t0, key) == StopLeaf(t0, key)
        invariant Clear(t0, key) ==> Clear(t, key)
        invariant old(NoHollow(t)) ==> NoHollow(t)
        invariant old(Lean(t)) ==> Lean(t)
        invariant old(AllSmall(pages, limits)) && SmallEntry(e, limits) ==> AllSmall(pages, limits)
        decreases |StopEntries(t, key)|, WRITE_BLOCKING_FALLBACK_THRESHOLD - attempts
      {
        before := t;
        ghost var es := StopEntries(t, key);
        var z := FindLeaf(key);
        StoppedAt(t, key, z);
        var action := TryUpsertLeaf(z, e);
        RoomStep(es, e);
        if !action.SplitRequired? {
          return Done(action.Inserted?), before;
        }
        var step := MakeRoom(e, attempts >= WRITE_BLOCKING_FALLBACK_THRESHOLD);
        if step.Restart? {
          attempts := attempts + 1;
        } else if step.Astray? {
          StrandedIsStale(before, key);
          SmallFits(e, limits);
          if !step.fits {
            TooLarge(es, e);
          }
          return if step.fits then Misplaced else Panicked, before;
        } else if step.result.SplitFailed? {
          return Panicked, before;
        } else if step.result.InstalledPending? {
          return Done(true), before;
        } else {
          moved := true;
        }
      }
    }

    // ----- merging after a delete -----

    /** Copies the only child of an empty root into the root page. */
    method CollapseRoot()
      requires Settled() && IsInner(t, root) && Slots(t, root) == []
      modifies this
      ensures Settled() && contents == old(contents) && height == old(height) - 1
      ensures reachablePages == old(reachablePages) - 1
      ensures old(t).pages[root].upper in old(t).pages && t == Collapse(old(t))
      ensures old(AllSmall(pages, limits)) ==> AllSmall(pages, limits)
      ensures old(NoHollow(t)) ==> NoHollow(t)
      ensures old(LeanBelow(t)) ==> Lean(t)
    {
      hide Inv, LeftLinked, Stores, AllFit, AllSmall, Collapse, NoHollow, Lean, LeanBelow;
      CollapseAccounts(t, contents, limits);
      if NoHollow(t) {
        CollapseHollow(t);
      }
      if LeanBelow(t) {
        CollapseLean(t);
      }
      var c := pages[root].upper;
      pages := pages[root := pages[c]];
      pages := pages - {c};
      t := Collapse(t);
      height := height - 1;
      reachablePages := reachablePages - 1;
    }

    /** Merges the inner nodes at edges `i` and `i + 1` of `p`. */
    method MergeInnerPair(p: Pid, i: nat)
      requires Settled() && IsInner(t, p) && i < |Slots(t, p)| && IsInner(t, Kid(t, p, i))
      requires IsInner(t, Kid(t, p, i + 1))
      requires InnersFit(pages, Kid(t, p, i), Slots(t, p)[i].sep, Kid(t, p, i + 1))
      modifies this
      ensures Settled() && contents == old(contents) && height == old(height)
      ensures t == MergeInners(old(t), p, i) && reachablePages == old(reachablePages) - 1
      ensures IsInner(t, p) && Level(t, p) == Level(old(t), p)
      ensures forall q :: IsInner(old(t), q) && Level(old(t), q) > Level(old(t), p) ==>
        IsInner(t, q) && Level(t, q) == Level(old(t), q)
      ensures old(AllSmall(pages, limits)) ==> AllSmall(pages, limits)
    {
      hide Inv, LeftLinked, Stores, AllFit, AllSmall, MergeInners, MergedInner, RemoveEdge, InnerCost;
      MergeInnersKeeps(t, p, i, contents);
      InnerMergeAccounts(t, p, i, limits);
      var n := pages[p];
      var l, r := Child(n, i), Child(n, i + 1);
      pages := pages[l := MergedInner(pages[l], n.slots[i].sep, pages[r])];
      pages := pages[p := RemoveEdge(n, i)];
      pages := pages - {r};
      t := MergeInners(t, p, i);
      reachablePages := reachablePages - 1;
    }

    /** After a merge below `p`: an empty root collapses, an underfull inner node is merged in turn. */
    method AfterMerge(path: seq<Pid>, p: Pid, here: set<Pid>) returns (ok: bool)
      requires Settled() && IsInner(t, p) && PathOk(t, path, Level(t, p))
      modifies this
      ensures Settled() && contents == old(contents) && reachablePages <= old(reachablePages)
      ensures ok && p != root && Underfull(old(pages)[p]) && InnerMergeDue(old(t), path, p, here) ==>
        reachablePages < old(reachablePages)
      ensures ok <==> !UpwardSticks(old(t), path, p, here)
      ensures old(AllSmall(pages, limits)) ==> AllSmall(pages, limits) && (limits.width > 0 ==> ok)
      ensures old(NoHollow(t)) ==> NoHollow(t)
      ensures old(if p == root then LeanBelow(t) else Lean(t)) ==> Lean(t)
      ensures p == root && old(Slots(t, p)) == [] ==> height == old(height) - 1
      decreases |path|, 1
    {
      hide Inv, LeftLinked, Stores, AllFit, AllSmall, PathOk, Underfull, NoHollow, InnerSticks, LeanBelow;
      ok := true;
      if p == root && |pages[p].slots| == 0 {
        CollapseRoot();
      } else if p != root && Underfull(pages[p]) {
        ok := TryMergeInner(path, p, here);
      }
    }

    /** Merges two inner nodes under `p` if the separator behind them still fits, and goes on upward. */
    method MergeInnerAt(rest: seq<Pid>, p: Pid, i: nat, here: set<Pid>) returns (ok: bool)
      requires Settled() && IsInner(t, p) && i < |Slots(t, p)| && IsInner(t, Kid(t, p, i))
      requires IsInner(t, Kid(t, p, i + 1))
      requires InnersFit(pages, Kid(t, p, i), Slots(t, p)[i].sep, Kid(t, p, i + 1)) && PathOk(t, rest, Level(t, p))
      modifies this
      ensures Settled() && contents == old(contents) && reachablePages <= old(reachablePages)
      ensures ok <==> !InnerMergeSticks(old(t), rest, p, here, i)
      ensures ok ==> reachablePages < old(reachablePages)
      ensures old(AllSmall(pages, limits)) ==> AllSmall(pages, limits) && (limits.width > 0 ==> ok)
      ensures old(NoHollow(t)) ==> NoHollow(t)
      ensures old(Lean(t)) ==> Lean(t)
      decreases |rest|, 2
    {
      hide Inv, LeftLinked, Stores, AllFit, AllSmall, PathOk, InnerCost, RewriteFits, NoHollow, UpwardSticks,
        MergeInners, Lean, LeanBelow;
      ghost var t0 := t;
      var n := pages[p];
      RewriteSameWidth(pages, p, i, n.slots, limits);
      if i + 1 < |n.slots| && !RewriteFits(n, i, n.slots[i + 1].sep) {
        return false;
      }
      if NoHollow(t) {
        InnerMergeHollow(t, p, i);
      }
      if Lean(t) {
        InnerMergeLean(t, p, i);
      }
      MergeInnerPair(p, i);
      PathKept(t0, t, rest, Level(t0, p));
      ok := AfterMerge(rest, p, here);
    }

    /** Tries to merge inner node `c` with a sibling under the last page of the path. */
    method TryMergeInner(path: seq<Pid>, c: Pid, here: set<Pid>) returns (ok: bool)
      requires Settled() && IsInner(t, c) && PathOk(t, path, Level(t, c))
      modifies this
      ensures Settled() && contents == old(contents) && reachablePages <= old(reachablePages)
      ensures ok <==> !InnerSticks(old(t), path, c, here)
      ensures ok && InnerMergeDue(old(t), path, c, here) ==> reachablePages < old(reachablePages)
      ensures !InnerMergeDue(old(t), path, c, here) ==> ok && unchanged(this)
      ensures old(AllSmall(pages, limits)) ==> AllSmall(pages, limits) && (limits.width > 0 ==> ok)
      ensures old(NoHollow(t)) ==> NoHollow(t)
      ensures old(Lean(t)) ==> Lean(t)
      decreases |path|, 0
    {
      hide InnerPair, InnerMergeDue, InnerSticks, InnerMergeSticks, Inv, LeftLinked, Stores, AllFit, AllSmall, PathOk,
        InnersFit, NoHollow, Lean;
      NothingDue(t, path, c, here);
      if |path| == 0 {
        return true;
      }
      PathPop(t, path, Level(t, c));
      var p, rest := path[|path| - 1], path[..|path| - 1];
      var n := pages[p];
      var found, pos := ChildEdge(n, c);
      assert forall j :: 0 <= j <= |Slots(t, p)| ==> Kid(t, p, j) == Child(n, j);
      if !found {
        NoPair(t, p, c, here);
        return true;
      }
      InnerPairAt(t, p, c, here, pos);
      KidsOf(t, p, pos);
      if pos < |n.slots| {
        var r := Child(n, pos + 1);
        KidsOf(t, p, pos + 1);
        if r !in here {
          return true;
        }
        if InnersFit(pages, c, n.slots[pos].sep, r) {
          InnerSticksAt(t, path, c, here, pos);
          ok := MergeInnerAt(rest, p, pos, here);
          return;
        }
      }
      if pos > 0 {
        var l := Child(n, pos - 1);
        KidsOf(t, p, pos - 1);
        if l !in here {
          return true;
        }
        if InnersFit(pages, l, n.slots[pos - 1].sep, c) {
          InnerSticksAt(t, path, c, here, pos - 1);
          ok := MergeInnerAt(rest, p, pos - 1, here);
          return;
        }
      }
      ok := true;
    }

    /** Merges the leaves at edges `i` and `i + 1` of `p` and points the successor back at the merged leaf. */
    method MergeLeafPair(p: Pid, i: nat)
      requires Settled() && IsInner(t, p) && i < |Slots(t, p)| && IsLeaf(t, Kid(t, p, i)) && IsLeaf(t, Kid(t, p, i + 1))
      requires LeavesFit(pages, Kid(t, p, i), Kid(t, p, i + 1))
      requires i + 1 < |Slots(t, p)| ==>
        RewriteFits(pages[p], i, MergedSep(pages[p], i, Entries(t, Kid(t, p, i)) + Entries(t, Kid(t, p, i + 1))))
      modifies this
      ensures Settled() && contents == old(contents) && height == old(height)
      ensures Kid(old(t), p, i) != Kid(old(t), p, i + 1) && t == LeafMerge(old(t), p, i)
      ensures reachablePages == old(reachablePages) - 1
      ensures IsInner(t, p) && Level(t, p) == Level(old(t), p)
      ensures forall q :: IsInner(old(t), q) ==> IsInner(t, q) && Level(t, q) == Level(old(t), q)
      ensures old(AllSmall(pages, limits)) ==> AllSmall(pages, limits)
    {
      hide Inv, LeftLinked, Stores, AllFit, AllSmall, LeafMerge, MergedLeaf, ParentAfterLeafMerge, RewriteFits,
        MergedSep,
        LeafCost;
      LeafMergeKeeps(t, p, i, contents);
      LeafMergePages(t, p, i);
      LeafMergeAccounts(t, p, i, limits);
      var n := pages[p];
      var l, r := Child(n, i), Child(n, i + 1);
      var x := pages[r].right;
      var merged := pages[l].entries + pages[r].entries;
      pages := pages[l := MergedLeaf(pages[l], pages[r])];
      pages := pages[p := ParentAfterLeafMerge(n, i, merged)];
      pages := pages - {r};
      if x != 0 {
        pages := pages[x := pages[x].(left := l)];
      }
      t := LeafMerge(t, p, i);
      reachablePages := reachablePages - 1;
    }

    /** Merges two leaves under `p` if the separator behind them still fits, and goes on upward. */
    method MergeLeafAt(rest: seq<Pid>, p: Pid, i: nat, here: set<Pid>) returns (ok: bool)
      requires Settled() && IsInner(t, p) && i < |Slots(t, p)| && IsLeaf(t, Kid(t, p, i)) && IsLeaf(t, Kid(t, p, i + 1))
      requires LeavesFit(pages, Kid(t, p, i), Kid(t, p, i + 1)) && PathOk(t, rest, Level(t, p))
      modifies this
      ensures Settled() && contents == old(contents)
      ensures ok <==> !LeafMergeSticks(old(t), rest, p, here, i)
      ensures ok ==> reachablePages < old(reachablePages)
      ensures old(AllSmall(pages, limits)) ==> AllSmall(pages, limits) && (limits.width > 0 ==> ok)
      ensures old(NoHollow(t)) ==> NoHollow(t)
      ensures old(Lean(t)) ==> Lean(t)
    {
      hide Inv, LeftLinked, Stores, AllFit, AllSmall, PathOk, LeafCost, RewriteFits, MergedSep, NoHollow, UpwardSticks,
        LeafMerge, Lean, LeanBelow;
      ghost var t0 := t;
      var n := pages[p];
      var l, r := Child(n, i), Child(n, i + 1);
      MergedSameWidth(pages, p, i, l, r, limits);
      if i + 1 < |n.slots| && !RewriteFits(n, i, MergedSep(n, i, pages[l].entries + pages[r].entries)) {
        return false;
      }
      if NoHollow(t) {
        LeafMergeHollow(t, p, i);
      }
      if Lean(t) {
        LeafMergeLean(t, p, i);
      }
      MergeLeafPair(p, i);
      PathKept(t0, t, rest, Level(t0, p));
      ok := AfterMerge(rest, p, here);
    }

    /** Tries to merge leaf `z` with a sibling under the last page of the path, which is used up either way. */
    method TryMergeLeaf(path: seq<Pid>, z: Pid, here: set<Pid>) returns (res: MergeResult, rest: seq<Pid>)
      requires Settled() && IsLeaf(t, z) && PathOk(t, path, 0)
      modifies this
      ensures Settled() && contents == old(contents)
      ensures rest == if |path| == 0 then [] else path[..|path| - 1]
      ensures res.NotMerged? ==> unchanged(this) && PathOk(t, rest, 0)
      ensures res.Merged? ==> reachablePages < old(reachablePages)
      ensures res.NotMerged? <==> !LeafMergeDue(old(t), path, z, here)
      ensures res.MergePanics? <==> LeafSticks(old(t), path, z, here)
      ensures old(AllSmall(pages, limits)) ==> AllSmall(pages, limits) && (limits.width > 0 ==> !res.MergePanics?)
      ensures old(NoHollow(t)) ==> NoHollow(t)
      ensures old(Lean(t)) ==> Lean(t)
    {
      hide LeafPair, LeafMergeDue, LeafSticks, LeafMergeSticks, Inv, LeftLinked, Stores, AllFit, AllSmall, PathOk,
        LeavesFit, NoHollow, Lean;
      rest := path;
      NothingDue(t, path, z, here);
      if |path| == 0 {
        return NotMerged, rest;
      }
      PathPop(t, path, 0);
      PathLower(t, path[..|path| - 1], Level(t, path[|path| - 1]), 0);
      var p := path[|path| - 1];
      rest := path[..|path| - 1];
      var n := pages[p];
      var found, pos := ChildEdge(n, z);
      assert forall j :: 0 <= j <= |Slots(t, p)| ==> Kid(t, p, j) == Child(n, j);
      if !found {
        NoPair(t, p, z, here);
        return NotMerged, rest;
      }
      LeafPairAt(t, p, z, here, pos);
      KidsOf(t, p, pos);
      if pos < |n.slots| {
        var r := Child(n, pos + 1);
        KidsOf(t, p, pos + 1);
        if r !in here {
          return NotMerged, rest;
        }
        if LeavesFit(pages, z, r) {
          LeafSticksAt(t, path, z, here, pos);
          var ok := MergeLeafAt(rest, p, pos, here);
          return if ok then Merged else MergePanics, rest;
        }
      }
      if pos > 0 {
        var l := Child(n, pos - 1);
        KidsOf(t, p, pos - 1);
        if l !in here {
          return NotMerged, rest;
        }
        if LeavesFit(pages, l, z) {
          LeafSticksAt(t, path, z, here, pos - 1);
          var ok := MergeLeafAt(rest, p, pos - 1, here);
          return if ok then Merged else MergePanics, rest;
        }
      }
      res := NotMerged;
    }

    /** Writes the new maximum of leaf `z` into the first separator above it on the path. */
    method RepairSeparators(path: seq<Pid>, z: Pid, newMax: Option<Key>) returns (ok: bool, ghost spot: Option<Spot>)
      requires Settled() && IsLeaf(t, z) && PathOk(t, path, 0) && (newMax.Some? ==> EndsWith(t, z, newMax.value))
      requires newMax.Some? && AllSmall(pages, limits) ==> SmallSep(newMax.value, limits)
      modifies this
      ensures Settled() && contents == old(contents)
      ensures spot.Some? ==> FirstBehind(old(t), path, z, spot.value)
      ensures spot.None? ==> forall s :: !FirstBehind(old(t), path, z, s)
      ensures spot.Some? && newMax.Some? ==> (ok <==> RepairFits(old(t), spot.value, newMax.value))
      ensures spot.Some? && newMax.Some? && ok ==> Repaired(old(t), t, spot.value, newMax.value)
      ensures spot.None? || newMax.None? ==> ok && unchanged(this)
      ensures !ok ==> unchanged(this)
      ensures old(AllSmall(pages, limits)) ==> AllSmall(pages, limits) && (limits.width > 0 ==> ok)
      ensures old(NoHollow(t)) ==> NoHollow(t)
      ensures old(Lean(t)) ==> Lean(t)
    {
      hide NoHollow, Inv, LeftLinked, Stores, AllFit, AllSmall, PathOk, RewriteFits, EndsWith, SeparatorCost,
        FirstBehind;
      var c, rest := z, path;
      ok, spot := true, None;
      while |rest| > 0
        invariant unchanged(this) && PathOk(t, rest, 0)
        invariant newMax.Some? ==> EndsWith(t, c, newMax.value)
        invariant forall s :: FirstBehind(t, path, z, s) <==> FirstBehind(t, rest, c, s)
        decreases |rest|
      {
        PathPop(t, rest, 0);
        PathLower(t, rest[..|rest| - 1], Level(t, rest[|rest| - 1]), 0);
        var p := rest[|rest| - 1];
        var found, pos := ChildEdge(pages[p], c);
        assert forall j :: 0 <= j <= |Slots(t, p)| ==> Kid(t, p, j) == Child(pages[p], j);
        if !found {
          NoneBehind(t, rest, c);
          return;
        }
        KidsOf(t, p, pos);
        if pos < |pages[p].slots| {
          BehindHere(t, rest, c, pos);
          spot := Some(Spot(p, pos));
          if newMax.Some? && pages[p].slots[pos].sep != newMax.value {
            SameWidthFits(pages, p, pos, newMax.value, limits);
            if !RewriteFits(pages[p], pos, newMax.value) {
              ok := false;
              return;
            }
            RepairKeeps(t, p, pos, newMax.value, contents, limits);
            if NoHollow(t) {
              RepairHollow(t, p, pos, newMax.value);
            }
            var n := pages[p];
            pages := pages[p := n.(slots := n.slots[pos := n.slots[pos].(sep := newMax.value)])];
            t := SetSep(t, p, pos, newMax.value);
          } else if newMax.Some? {
            SameSep(t, p, pos);
          }
          return;
        }
        BehindAbove(t, rest, c);
        if newMax.Some? {
          EndsUp(t, p, newMax.value);
        }
        c, rest := p, rest[..|rest| - 1];
      }
      NoneBehind(t, rest, c);
    }

    /** Removes the entry at `pos` of leaf `z`, then merges the leaf if it is underfull, or repairs the separator
        behind it if its largest key is gone. */
    method RemoveAt(path: seq<Pid>, z: Pid, pos: nat, here: set<Pid>) returns (ok: bool)
      requires Settled() && IsLeaf(t, z) && pos < |Entries(t, z)| && PathOk(t, path, 0)
      modifies this
      ensures old(Lean(t)) ==> Lean(t)
      ensures Settled() && contents == old(contents) - {old(Entries(t, z)[pos].key)}
      ensures ok ==> (reachablePages < old(reachablePages) <==> DropMerges(old(t), path, z, pos, here))
      ensures ok && !DropMerges(old(t), path, z, pos, here) ==> Mended(old(t), path, z, pos, t)
      ensures ok <==> !DropSticks(old(t), path, z, pos, here)
      ensures old(NoHollow(t) && (|Entries(t, z)| > 1 || Right(t, z) == 0)) ==> NoHollow(t)
      ensures old(AllSmall(pages, limits)) ==> AllSmall(pages, limits) && (limits.width > 0 ==> ok)
    {
      hide Inv, LeftLinked, Stores, AllFit, AllSmall, PathOk, EndsWith, SeparatorCost, Underfull, NoHollow, FirstBehind,
        RepairFits, LeafSticks, LeafMergeDue, RemovedAt, Lean;
      var wasMax := pos + 1 == |pages[z].entries|;
      if NoHollow(t) && (|Entries(t, z)| > 1 || Right(t, z) == 0) {
        DropHollow(t, z, pos);
      }
      RemoveFromLeaf(z, pos);
      LeafPathKept(old(t), z, RemovedAt(Entries(old(t), z), pos), path);
      DroppedLast(old(t), z, pos);
      var newMax := None;
      if wasMax && |pages[z].entries| > 0 {
        newMax := Some(pages[z].entries[|pages[z].entries| - 1].key);
        EndsAt(t, z);
        LastKeySmall(pages, z, limits);
      }
      var merge := NotMerged;
      var rest := path;
      ghost var thin := Underfull(pages[z]);
      if Underfull(pages[z]) {
        merge, rest := TryMergeLeaf(path, z, here);
        if merge.MergePanics? {
          return false;
        }
      }
      ok := true;
      if wasMax && merge.NotMerged? {
        NoneTwoUp(t, path, rest, z);
        ghost var spot;
        ok, spot := RepairSeparators(rest, z, newMax);
        if !thin {
          RepairSticks(old(t), z, pos, path, spot, here);
          if ok {
            MendsHere(old(t), path, z, pos, spot, t);
          }
        }
      }
    }

    /** Removes the key.  A search that strands on an empty leaf reports the key as absent.  `here` are the pages at
        hand for merging, resident and with a free latch. */
    method Remove(key: Key, here: set<Pid>) returns (o: Outcome)
      requires Settled()
      modifies this
      ensures o.Done? && o.changed ==> (reachablePages < old(reachablePages) <==> DeleteMerges(old(t), key, here))
      ensures old(Lean(t)) ==> Lean(t)
      ensures Settled() && !o.Misplaced?
      ensures o.Done? ==> o.changed == (key in old(contents) && !Stranded(old(t), key))
      ensures contents == if o.Panicked? || o.changed then old(contents) - {key} else old(contents)
      ensures o.Done? && !o.changed ==> unchanged(this)
      ensures o.Panicked? <==> key in old(contents) && !Stranded(old(t), key) && DeleteSticks(old(t), key, here)
      ensures old(NoHollow(t)) && !Empties(old(t), key) ==> NoHollow(t)
      ensures old(AllSmall(pages, limits)) ==> AllSmall(pages, limits) && (limits.width > 0 ==> !o.Panicked?)
    {
      hide Inv, LeftLinked, Stores, AllFit, AllSmall, PathOk, Standing, Stranded, InvRouteLeaf, LowerBound, RemovedAt,
        NoHollow, RoutePath, DropSticks, DropMerges, DeleteMerges, Mended, DeleteSticks, Empties, ChaseRight, Lean;
      var attempts := 0;
      while true
        invariant unchanged(this) && attempts <= WRITE_BLOCKING_FALLBACK_THRESHOLD
        invariant attempts > 0 ==> !Stranded(t, key)
        decreases WRITE_BLOCKING_FALLBACK_THRESHOLD - attempts
      {
        var path, z;
        if attempts >= WRITE_BLOCKING_FALLBACK_THRESHOLD {
          path, z := FindLeafWithPathFallback(key);
        } else {
          var ok;
          ok, path, z := FindLeafWithPath(key);
          StrandedMeans(t, key, z);
          if !ok {
            attempts := attempts + 1;
            continue;
          }
        }
        var (pos, exact) := LowerBound(EntryKeys(pages[z].entries), key);
        DeletePosition(t, z, key, contents);
        if !exact {
          return Done(false);
        }
        SticksMeans(t, key, z, pos, here);
        var ok := RemoveAt(path, z, pos, here);
        return if ok then Done(true) else Panicked;
      }
    }

    // ----- scans -----

    /** The full scan: reads the rest of a leaf, then looks up the last key followed by a zero byte. */
    method Scan() returns (out: seq<Entry>)
      requires Readable()
      ensures Lists(contents, out, Between(Unbounded, Unbounded))
    {
      hide Inv, LeftLinked, Stores, AllFit, Standing, ListsUnder, Lists, LowerBound, Num;
      var current: Key := [];
      out := [];
      ScanStarts(contents);
      while true
        invariant ListsUnder(contents, out, Num(current))
        decreases |contents| - |out|
      {
        var z := FindLeaf(current);
        var es := pages[z].entries;
        var (pos, _) := LowerBound(EntryKeys(es), current);
        BoundWithin(es, current);
        ScanRound(t, contents, out, z, current, pos);
        var entries := es[pos..];
        if |entries| == 0 {
          return;
        }
        out := out + entries;
        current := entries[|entries| - 1].key + [0];
        UnderFits(contents, out, Num(current));
      }
    }

    /** Emits the entries of one leaf from `pos` on, up to the end of the range. */
    method EmitLeaf(es: seq<Entry>, pos: nat, r: Range) returns (stop: nat)
      requires pos <= |es|
      ensures pos <= stop <= |es| && (forall i :: pos <= i < stop ==> !Stops(r, es[i].key))
      ensures stop < |es| ==> Stops(r, es[stop].key)
    {
      stop := pos;
      while stop < |es| && !Stops(r, es[stop].key)
        invariant pos <= stop <= |es| && forall i :: pos <= i < stop ==> !Stops(r, es[i].key)
      {
        stop := stop + 1;
      }
    }

    /** Range and prefix scans: from the leaf of the start key along the right links. */
    method ScanForward(r: Range) returns (out: seq<Entry>)
      requires Readable()
      ensures Lists(contents, out, r)
    {
      hide Inv, LeftLinked, Stores, AllFit, Standing, ListsBelow, ListsUpTo, Lists, Stops, Admits, StartPos, ChaseRight;
      var z := FindLeaf(StartKey(r));
      ghost var z0 := z;
      ForwardStarts(t, z, r);
      var first := true;
      out := [];
      while true
        invariant IsLeaf(t, z) && ListsBelow(t, out, Lo(t, z), r)
        invariant if first then z == z0 else Lo(t, z0) < Lo(t, z)
        decreases |LeavesAfter(t, Lo(t, z))|
      {
        var es := pages[z].entries;
        var pos := if first then StartPos(r, es) else 0;
        ForwardCut(t, z0, z, r, first);
        var stop := EmitLeaf(es, pos, r);
        ForwardStep(t, out, z, r, pos, stop);
        out := out + es[pos..stop];
        var right := pages[z].right;
        if stop < |es| || right == 0 {
          ForwardEnds(t, contents, out, z, r);
          return;
        }
        ForwardNext(t, out, z, r);
        first := false;
        z := right;
      }
    }

    method ScanRange(lower: Bound, upper: Bound) returns (out: seq<Entry>)
      requires Readable()
      ensures Lists(contents, out, Between(lower, upper))
    {
      out := ScanForward(Between(lower, upper));
    }

    method ScanPrefix(prefix: Key) returns (out: seq<Entry>)
      requires Readable()
      ensures Lists(contents, out, Prefix(prefix))
    {
      out := ScanForward(Prefix(prefix));
    }

    /** The last leaf, by following upper edges from the root. */
    method FindRightmostLeaf() returns (z: Pid)
      requires Readable()
      ensures z == UpperLeaf(t) && IsLeaf(t, z)
      ensures t.orphans == {} ==> Right(t, z) == 0
    {
      hide Inv, Stores, SpineFrom, UpperLeaf;
      SpineStarts(t);
      z := root;
      while pages[z].Inner?
        invariant z in t.pages && z in pages && SpineFrom(t, z)
        decreases Level(t, z)
      {
        SpineDown(t, z);
        z := pages[z].upper;
      }
      SpineStops(t, z);
      if t.orphans == {} {
        UpperLeafIsLast(t);
      }
    }

    /** Emits the entries of one leaf below `top` downward, down to the start of the range. */
    method EmitLeafDown(es: seq<Entry>, top: nat, lower: Bound) returns (out: seq<Entry>, stop: nat)
      requires top <= |es|
      ensures stop <= top && (forall i :: stop <= i < top ==> AboveLower(lower, es[i].key))
      ensures stop > 0 ==> !AboveLower(lower, es[stop - 1].key)
      ensures Reversed(out) == es[stop..top]
    {
      hide AboveLower, Reversed;
      stop, out := top, [];
      ReversedConcat([], []);
      while stop > 0 && AboveLower(lower, es[stop - 1].key)
        invariant stop <= top && forall i :: stop <= i < top ==> AboveLower(lower, es[i].key)
        invariant Reversed(out) == es[stop..top]
      {
        stop := stop - 1;
        ReversedConcat(out, [es[stop]]);
        ReversedOne(es[stop]);
        out := out + [es[stop]];
      }
    }

    /** The descending range scan emits backwards what the range holds of the leaves that left links lead to from
        `start`. That is all of it if every left link is right and the last leaf is published. */
    method ScanRangeDesc(lower: Bound, upper: Bound) returns (out: seq<Entry>, ghost start: Pid)
      requires Readable() && LeftDown(t)
      ensures start == (if upper.Unbounded? then UpperLeaf(t) else StopLeaf(t, upper.key)) && IsLeaf(t, start)
      ensures Lists(Seen(t, contents, start), Reversed(out), Between(lower, upper))
      ensures LeftLinked(t) && (upper.Unbounded? ==> Right(t, start) == 0) ==>
        Lists(contents, Reversed(out), Between(lower, upper))
    {
      hide Inv, LeftLinked, LeftDown, Stores, Standing, ListsAbove, ListsFrom, Lists, AboveLower, BelowUpper, DownPos,
        ChaseRight,
        Reversed, LeftChain, Seen, Kept, StopLeaf;
      var z;
      if upper.Unbounded? {
        z := FindRightmostLeaf();
      } else {
        z := FindLeaf(upper.key);
        StopIs(t, upper.key, z);
      }
      start := z;
      DownBegins(t, z, Between(lower, upper));
      ReversedConcat([], []);
      var first := true;
      out := [];
      while true
        invariant IsLeaf(t, z) && z in LeftChain(t, start)
        invariant ListsAbove(Kept(t, LeftChain(t, start)), Reversed(out), Lo(t, z), Between(lower, upper))
        invariant if first then z == start else Lo(t, z) < Lo(t, start)
        decreases |LeavesBefore(t, Lo(t, z))|
      {
        var es := pages[z].entries;
        var top := if first then Top(DownPos(upper, es)) else |es|;
        DownCut(t, start, z, upper, first);
        var part, stop := EmitLeafDown(es, top, lower);
        DownReads(t, start, Reversed(out), z, lower, upper, stop, top);
        ReversedConcat(out, part);
        out := out + part;
        var left := pages[z].left;
        if stop > 0 || left == 0 {
          DownDone(t, contents, start, Reversed(out), z, lower, upper);
          if LeftLinked(t) && (upper.Unbounded? ==> Right(t, start) == 0) {
            SeesAll(t, contents, start, Reversed(out), lower, upper);
          }
          return;
        }
        DownOn(t, start, Reversed(out), z, Between(lower, upper));
        first := false;
        z := left;
      }
    }

    // ----- derived metadata -----

    /** All pages reachable from the root. */
    method OwnedPageIds() returns (seen: set<Pid>)
      requires Contains(pages, t) && t.root == root && Inv(t)
      ensures forall p :: p in seen <==> Reachable(pages, root, p)
      ensures t.orphans == {} ==> seen == t.pages.Keys
    {
      hide Inv, Searching;
      seen := {};
      var stack := [root];
      SearchStarts(t);
      while |stack| > 0
        invariant Searching(t.pages, root, seen, stack)
        decreases |t.pages.Keys - seen|, |stack|
      {
        var pid := stack[|stack| - 1];
        var rest := stack[..|stack| - 1];
        if pid == 0 || pid in seen {
          SearchNonzero(t.pages, root, seen, stack);
          SearchSkips(t.pages, root, seen, stack);
          stack := rest;
        } else {
          SearchSteps(t, seen, stack);
          assert t.pages.Keys - (seen + {pid}) == (t.pages.Keys - seen) - {pid};
          seen := seen + {pid};
          stack := if pages[pid].Leaf? then rest else rest + Children(pages[pid]);
        }
      }
      assert stack == [];
      SearchEnds(t.pages, root, seen);
      LinkedOnly(pages, t);
      if t.orphans == {} {
        ReachableIsAll(t, seen);
      }
    }

    /** The height, by following upper edges from the root; no page is met twice. */
    method RecoveredHeight() returns (h: nat)
      requires Contains(pages, t) && t.root == root && Inv(t)
      ensures h == Level(t, root)
    {
      hide Inv;
      h := 0;
      var page := root;
      var seen := {root};
      RootIn(t);
      UpperDown(t, page);
      while pages[page].Inner?
        invariant page in t.pages && page in pages && Level(t, page) + h == Level(t, root)
        invariant IsLeaf(t, page) ==> Level(t, page) == 0
        invariant page in seen && forall q :: q in seen ==> Level(t, q) >= Level(t, page)
        decreases Level(t, page)
      {
        UpperDown(t, page);
        var child := pages[page].upper;
        assert child !in seen && child != 0;
        UpperDown(t, child);
        seen := seen + {child};
        page := child;
        h := h + 1;
      }
    }

    /** Recomputes height and page count, whatever they were, from the recovered pages, also if a crash has left
        siblings that no parent names. */
    method RebuildRecoveredMetadata()
      requires Contains(pages, t) && t.root == root && Inv(t)
      modifies `height, `reachablePages
      ensures height == Level(t, root) && reachablePages == |ReachableSet(pages, root)|
      ensures t.pages == pages && t.orphans == {} && LeftLinked(t) && Stores(t, contents) && AllFit(pages) ==> Settled()
    {
      hide Inv, LeftLinked, Stores, AllFit, Reachable;
      height := RecoveredHeight();
      var owned := OwnedPageIds();
      reachablePages := |owned|;
      RootIn(t);
      ReachedIn(t);
      LinkedOnly(pages, t);
      assert owned == ReachableSet(pages, root);
      assert |pages.Keys| == |pages|;
    }
  }
}
