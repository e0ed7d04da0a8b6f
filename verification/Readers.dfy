/**
 What one thread's page write means for another thread that is in the middle of a
 descent: wherever that thread stands, it has still overshot nothing.
 */
module Readers {
  import opened Keys
  import opened Pages
  import opened Trees
  import opened LeafSteps
  import opened SplitSteps
  import opened EdgeSteps
  import opened InnerSteps
  import opened RootSteps
  import opened Splits
  import opened Accounts
  import opened Levels

  /** Every reader that stands well in `t` stands well in `t'`. */
  ghost predicate ReadersKept(t: Tree, t': Tree)
  {
    forall p, key :: Standing(t, p, key) ==> Standing(t', p, key)
  }

  lemma KeptTrans(a: Tree, b: Tree, c: Tree)
    requires ReadersKept(a, b) && ReadersKept(b, c)
    ensures ReadersKept(a, c)
  {
    hide Standing;
  }

  /** An entry written into a leaf disturbs nobody: it is capped by what the leaf already held. */
  lemma RewriteReaders(t: Tree, z: Pid, es: seq<Entry>)
    requires Inv(t) && IsLeaf(t, z) && MayHold(t, z, es)
    ensures ReadersKept(t, WithEntries(t, z, es))
  {
    hide Inv, MayHold, AllBelow, Rewritten, SameShape, Num;
    var t' := WithEntries(t, z, es);
    WithEntriesFrame(t, z, es);
    forall p, key | Standing(t, p, key)
      ensures Standing(t', p, key)
    {
      RewriteReader(t, t', z, es, p, Num(key));
    }
  }

  lemma RewriteReader(t: Tree, t': Tree, z: Pid, es: seq<Entry>, p: Pid, x: real)
    requires Inv(t) && IsLeaf(t, z) && MayHold(t, z, es) && Rewritten(t, t', z, es) && p in t.pages
    ensures AllBelow(t, Lo(t, p), x) ==> AllBelow(t', Lo(t, p), x)
  {
    hide MayHold, AllBelow, Rewritten;
    LinkedAt(t, z);
    var y := LeftmostLeaf(t, p);
    RewrittenBelow(t, t', z, es, Lo(t, p), y, x);
  }

  /** A leaf split moves keys only to a leaf behind them, in front of every older label. */
  lemma SplitReaders(u: Tree, s: Tree, l: Pid, r: Pid, k: nat)
    requires Inv(u) && Inv(s) && IsLeaf(u, l) && r != 0 && r !in u.pages && 0 < k < |Entries(u, l)|
    requires s == SplitLeaf(u, l, r, k)
    ensures ReadersKept(u, s)
  {
    hide Inv, AllBelow, LeafHalves, SplitLeaf, Num, SplitSteps.Between;
    SplitParts(u, l, r, k);
    forall p, key | Standing(u, p, key)
      ensures Standing(s, p, key)
    {
      SplitReader(u, s, l, r, p, Num(key));
    }
  }

  lemma SplitParts(u: Tree, l: Pid, r: Pid, k: nat)
    requires Inv(u) && IsLeaf(u, l) && r != 0 && r !in u.pages && 0 < k < |Entries(u, l)|
    ensures var s := SplitLeaf(u, l, r, k);
      && LeafHalves(u, s, l, r) && SplitSteps.Between(u, l, Lo(s, r))
      && (forall p :: p in u.pages ==> p in s.pages && Lo(s, p) == Lo(u, p))
  {
    hide SortedLeaves, SortedAcross, Routed, Nested, Parented, Kids, KidsUp, RootFirst, Distinct;
    LinkedAt(u, l);
    OrphansAreRealPages(u);
    SplitLeafHalves(u, l, r, k);
  }

  lemma SplitReader(u: Tree, s: Tree, l: Pid, r: Pid, p: Pid, x: real)
    requires Inv(u) && LeafHalves(u, s, l, r) && SplitSteps.Between(u, l, Lo(s, r)) && p in u.pages && IsLeaf(u, l)
    ensures AllBelow(u, Lo(u, p), x) ==> AllBelow(s, Lo(u, p), x)
  {
    hide AllBelow, LeafHalves, SplitSteps.Between;
    LinkedAt(u, l);
    var y := LeftmostLeaf(u, p);
    HalvesBelow(u, s, l, r, y, x);
  }

  /** Steps above the leaves do not concern readers. */
  lemma UpperReaders(t: Tree, t': Tree, k: nat)
    requires SameUpTo(t, t', k) && Inv(t) && Inv(t')
    requires (forall p :: p in t.pages ==> p in t'.pages && Lo(t', p) == Lo(t, p))
    ensures ReadersKept(t, t')
  {
    hide SameUpTo, AllBelow, Num;
    assert Typed(t) && Typed(t');
    forall p, key | Standing(t, p, key)
      ensures Standing(t', p, key)
    {
      SameUpToBelow(t, t', k, Lo(t, p), Num(key));
    }
  }

  lemma SameLeavesReaders(u: Tree, s: Tree)
    requires SameLeaves(u, s)
    ensures ReadersKept(u, s)
  {
  }

  /** Copying the root's page to a fresh child leaves readers at the root where they were. */
  lemma GrownReaders(u: Tree, g: Tree, l: Pid)
    requires GrownBy(u, g, l)
    ensures ReadersKept(u, g)
  {
    hide AllBelow, Num;
    forall p, key | Standing(u, p, key)
      ensures Standing(g, p, key)
    {
      GrownBounds(u, g, l, Lo(u, p), Num(key));
    }
  }

  // ----- whole steps -----

  lemma LeafSplitReaders(t: Tree, z: Pid, r: Pid, pending: Entry, plan: SplitPlan)
    requires Inv(t) && IsLeaf(t, z) && z != t.root && r != 0 && r !in t.pages
    requires Standing(t, z, pending.key) && !ChaseRight(t.pages[z], pending.key)
    requires plan.SplitPlan? && GoodPlan(Entries(t, z), pending, plan)
    requires var u := Installed(t, z, plan);
      && Inv(u) && Entries(u, z) == plan.left + plan.right && IsLeaf(u, z) && u.pages.Keys == t.pages.Keys
      && u.root == t.root
    ensures ReadersKept(t, SplitLeaf(Installed(t, z, plan), z, r, |plan.left|))
  {
    hide Inv, ReadersKept, GoodPlan, SplitLeaf, Installed, Standing;
    var u := Installed(t, z, plan);
    var s := SplitLeaf(u, z, r, |plan.left|);
    InstallReaders(t, z, pending, plan);
    PlanSizes(Entries(t, z), pending, plan);
    SplitIsNext(u, z, r, |plan.left|);
    SplitReaders(u, s, z, r, |plan.left|);
    KeptTrans(t, u, s);
  }

  lemma InstallReaders(t: Tree, z: Pid, pending: Entry, plan: SplitPlan)
    requires Inv(t) && IsLeaf(t, z) && Standing(t, z, pending.key) && !ChaseRight(t.pages[z], pending.key)
    requires plan.SplitPlan? && GoodPlan(Entries(t, z), pending, plan)
    ensures ReadersKept(t, Installed(t, z, plan))
  {
    hide Inv, MayHold, LowerBound, LeafCost, Standing, WithEntries;
    if plan.installed {
      var pos := LowerBound(EntryKeys(Entries(t, z)), pending.key).0;
      MayInsertAt(t, z, pending, pos);
      RewriteReaders(t, z, plan.left + plan.right);
    }
  }

  lemma MayInsertAt(t: Tree, z: Pid, e: Entry, pos: nat)
    requires Inv(t) && IsLeaf(t, z) && Standing(t, z, e.key) && !ChaseRight(t.pages[z], e.key)
    requires (pos, false) == LowerBound(EntryKeys(Entries(t, z)), e.key)
    ensures MayHold(t, z, InsertedAt(Entries(t, z), pos, e))
  {
    MayInsert(t, z, e, pos);
  }

  lemma RootLeafSplitReaders(t: Tree, l: Pid, r: Pid, pending: Entry, plan: SplitPlan)
    requires Inv(t) && IsLeaf(t, t.root) && l != 0 && r != 0 && l != r && l !in t.pages && r !in t.pages
    requires Standing(t, t.root, pending.key) && !ChaseRight(t.pages[t.root], pending.key)
    requires plan.SplitPlan? && GoodPlan(Entries(t, t.root), pending, plan)
    requires var u := Installed(t, t.root, plan);
      Inv(u) && Entries(u, t.root) == plan.left + plan.right && u.pages.Keys == t.pages.Keys && u.root == t.root
    ensures |plan.left| > 0 && ReadersKept(t, RootLeafSplit(t, l, r, plan))
  {
    hide Inv, ReadersKept, GoodPlan, SplitLeaf, Installed, Standing, EdgeAdded, GrownBy, LeafHalves, SepOk, NextAt;
    var u := Installed(t, t.root, plan);
    InstallReaders(t, t.root, pending, plan);
    PlanSizes(Entries(t, t.root), pending, plan);
    RootIn(u);
    OrphansAreRealPages(u);
    var g := Grow(u, l);
    GrowKeeps(u, l);
    GrownReaders(u, g, l);
    assert IsLeaf(g, l) && Entries(g, l) == plan.left + plan.right;
    var s := SplitLeaf(g, l, r, |plan.left|);
    SplitIsNext(g, l, r, |plan.left|);
    SplitReaders(g, s, l, r, |plan.left|);
    RootSlots(g, l, r, |plan.left|);
    var sep := plan.left[|plan.left| - 1].key;
    var p := Publish(s, t.root, 0, sep, r);
    PublishReaders(s, t.root, 0, sep, r);
    KeptTrans(t, u, g);
    KeptTrans(t, g, s);
    KeptTrans(t, s, p);
  }

  lemma RootSlots(g: Tree, l: Pid, r: Pid, k: nat)
    requires IsInner(g, g.root) && IsLeaf(g, l) && r !in g.pages && k <= |Entries(g, l)|
    ensures IsInner(SplitLeaf(g, l, r, k), g.root)
  {
  }

  lemma PublishReaders(t: Tree, p: Pid, i: nat, sep: Key, r: Pid)
    requires IsInner(t, p) && i <= |Slots(t, p)|
    ensures ReadersKept(t, Publish(t, p, i, sep, r))
  {
    hide ReadersKept, EdgeAdded;
    PublishSame(t, p, i, sep, r);
    SameLeavesReaders(t, Publish(t, p, i, sep, r));
  }

  lemma PublishSame(t: Tree, p: Pid, i: nat, sep: Key, r: Pid)
    requires IsInner(t, p) && i <= |Slots(t, p)|
    ensures SameLeaves(t, Publish(t, p, i, sep, r))
  {
  }

  lemma SplitInnerReaders(t: Tree, p: Pid, r: Pid, h: nat)
    requires Inv(t) && IsInner(t, p) && h < |Slots(t, p)| && r !in t.pages && Inv(SplitInner(t, p, r, h))
    ensures ReadersKept(t, SplitInner(t, p, r, h))
  {
    hide Inv, ReadersKept, SameUpTo;
    InvTyped(t);
    SplitInnerAbove(t, p, r, h, 0);
    UpperReaders(t, SplitInner(t, p, r, h), 0);
  }

  lemma RootInnerSplitReaders(t: Tree, l: Pid, r: Pid, h: nat)
    requires Inv(t) && IsInner(t, t.root) && h < |Slots(t, t.root)| && l !in t.pages && r !in t.pages && l != r
    requires Inv(RootInnerSplit(t, l, r, h))
    ensures ReadersKept(t, RootInnerSplit(t, l, r, h))
  {
    hide Inv, ReadersKept, SameUpTo;
    InvTyped(t);
    RootInnerSplitAbove(t, l, r, h, 0);
    UpperReaders(t, RootInnerSplit(t, l, r, h), 0);
  }
}
