/**
 How a full leaf is divided, and whole splits as changes of the tree.
 */
module Splits {
  import opened Keys
  import opened Pages
  import opened Trees
  import opened LeafSteps
  import opened SplitSteps
  import opened EdgeSteps
  import opened InnerSteps
  import opened RootSteps
  import opened LeftLinks

  /** The two halves, and whether the pending entry is already in one of them. */
  datatype SplitPlan = SplitPlan(left: seq<Entry>, right: seq<Entry>, installed: bool) | SplitPanics

  function InstallIn(es: seq<Entry>, pending: Entry): Option<seq<Entry>>
  {
    var (pos, exact) := LowerBound(EntryKeys(es), pending.key);
    if exact || LeafCost(es) + EntryCost(pending) > LEAF_CAPACITY then None
    else Some(InsertedAt(es, pos, pending))
  }

  /** Leaves of one or two entries install the pending entry while splitting, larger ones are cut in the middle.
      An entry that does not fit beside its new neighbours, or is already there, makes the split panic. */
  function PlanLeafSplit(es: seq<Entry>, pending: Entry): (plan: SplitPlan)
  {
    if |es| == 0 then SplitPanics
    else if |es| == 1 then
      if EntryCost(pending) > LEAF_CAPACITY then SplitPanics
      else if LexLess(pending.key, es[0].key) then SplitPlan([pending], es, true)
      else SplitPlan(es, [pending], true)
    else if |es| == 2 then
      var splitPos := if LexLess(pending.key, es[1].key) then 0 else 1;
      if LexLess(es[splitPos].key, pending.key) then
        var right := InstallIn(es[splitPos + 1..], pending);
        if right.None? then SplitPanics else SplitPlan(es[..splitPos + 1], right.value, true)
      else
        var left := InstallIn(es[..splitPos + 1], pending);
        if left.None? then SplitPanics else SplitPlan(left.value, es[splitPos + 1..], true)
    else
      var splitPos := |es| / 2;
      SplitPlan(es[..splitPos + 1], es[splitPos + 1..], false)
  }

  /** The leaf cannot take the entry, neither as a new one nor in place of the old value. */
  predicate SplitNeeded(es: seq<Entry>, pending: Entry)
  {
    var (pos, exact) := LowerBound(EntryKeys(es), pending.key);
    if exact then LeafCost(es) - EntryCost(es[pos]) + EntryCost(pending) > LEAF_CAPACITY
    else LeafCost(es) + EntryCost(pending) > LEAF_CAPACITY
  }

  lemma LeafCostOne(e: Entry)
    ensures LeafCost([e]) == EntryCost(e)
  {
    assert LeafCost([e]) == EntryCost(e) + LeafCost([e][1..]);
  }

  lemma InsertCost(es: seq<Entry>, pos: nat, e: Entry)
    requires pos <= |es|
    ensures LeafCost(InsertedAt(es, pos, e)) == LeafCost(es) + EntryCost(e)
  {
    assert es == es[..pos] + es[pos..];
    LeafCostConcat(es[..pos], es[pos..]);
    LeafCostConcat(es[..pos] + [e], es[pos..]);
    LeafCostConcat(es[..pos], [e]);
    LeafCostOne(e);
  }

  lemma RemoveCost(es: seq<Entry>, pos: nat)
    requires pos < |es|
    ensures LeafCost(RemovedAt(es, pos)) + EntryCost(es[pos]) == LeafCost(es)
  {
    hide LeafCost, EntryCost;
    var rest := RemovedAt(es, pos);
    assert es == InsertedAt(rest, pos, es[pos]);
    InsertCost(rest, pos, es[pos]);
  }

  lemma UpdateCost(es: seq<Entry>, pos: nat, e: Entry)
    requires pos < |es|
    ensures LeafCost(es[pos := e]) + EntryCost(es[pos]) == LeafCost(es) + EntryCost(e)
  {
    assert RemovedAt(es[pos := e], pos) == RemovedAt(es, pos);
    RemoveCost(es, pos);
    RemoveCost(es[pos := e], pos);
  }

  lemma CutCost(es: seq<Entry>, k: nat)
    requires k <= |es|
    ensures LeafCost(es[..k]) + LeafCost(es[k..]) == LeafCost(es)
  {
    assert es == es[..k] + es[k..];
    LeafCostConcat(es[..k], es[k..]);
  }

  /** The half of a split leaf at which a search for `key` then stops. */
  function HalfFor(plan: SplitPlan, key: Key): seq<Entry>
    requires plan.SplitPlan? && |plan.left| > 0
  {
    if LexLess(plan.left[|plan.left| - 1].key, key) then plan.right else plan.left
  }

  /** What a plan promises: nothing is lost, nothing doubled, both halves are non-empty and fit. */
  ghost predicate GoodPlan(es: seq<Entry>, pending: Entry, plan: SplitPlan)
    requires plan.SplitPlan?
  {
    var (pos, exact) := LowerBound(EntryKeys(es), pending.key);
    && plan.left + plan.right == (if plan.installed then InsertedAt(es, pos, pending) else es)
    && (plan.installed ==> !exact)
    && |plan.left| > 0 && |plan.right| > 0
    && LeafCost(plan.left) <= LEAF_CAPACITY && LeafCost(plan.right) <= LEAF_CAPACITY
    && (!plan.installed ==> |plan.left| < |es| && |plan.right| < |es|)
  }

  /** A position between smaller and larger keys is the search position. */
  lemma BoundIs(es: seq<Entry>, key: Key, pos: nat)
    requires SortedEntries(es) && pos <= |es|
    requires forall i :: 0 <= i < pos ==> Num(es[i].key) < Num(key)
    requires forall i :: pos <= i < |es| ==> Num(key) < Num(es[i].key)
    ensures LowerBound(EntryKeys(es), key) == (pos, false)
  {
    hide LowerBound, Num;
    var ks := EntryKeys(es);
    assert forall i :: 0 <= i < |es| ==> ks[i] == es[i].key;
    LowerBoundSorted(ks, key);
    var (q, exact) := LowerBound(ks, key);
    assert !exact;
    assert q < |es| ==> !(Num(es[q].key) < Num(key));
    assert q > 0 ==> Num(es[q - 1].key) < Num(key);
  }

  lemma BoundMeans(es: seq<Entry>, key: Key)
    requires SortedEntries(es)
    ensures var (pos, exact) := LowerBound(EntryKeys(es), key);
      && (forall i :: 0 <= i < pos ==> Num(es[i].key) < Num(key))
      && (!exact ==> forall i :: pos <= i < |es| ==> Num(key) < Num(es[i].key))
      && (exact ==> es[pos].key == key)
      && (exact <==> exists i :: 0 <= i < |es| && es[i].key == key)
  {
    hide LowerBound, Num, LexLess;
    var ks := EntryKeys(es);
    assert forall i :: 0 <= i < |es| ==> ks[i] == es[i].key;
    LowerBoundSorted(ks, key);
    var (pos, exact) := LowerBound(ks, key);
    forall i | 0 <= i < |es|
      ensures i < pos ==> Num(es[i].key) < Num(key)
      ensures !exact && pos <= i ==> Num(key) < Num(es[i].key)
      ensures es[i].key == key ==> exact
    {
      assert ks[i] in ks;
      NumIsOrder(key, ks[i]);
    }
    if exact {
      assert ks[pos] == key;
    }
  }

  lemma InstallIsGood(es: seq<Entry>, pending: Entry)
    requires SortedEntries(es)
    ensures var r := InstallIn(es, pending);
      r.Some? ==>
        && LeafCost(r.value) <= LEAF_CAPACITY
        && !LowerBound(EntryKeys(es), pending.key).1
        && r.value == InsertedAt(es, LowerBound(EntryKeys(es), pending.key).0, pending)
  {
    var (pos, exact) := LowerBound(EntryKeys(es), pending.key);
    InsertCost(es, pos, pending);
  }

  lemma PlanOne(es: seq<Entry>, pending: Entry)
    requires |es| == 1 && LeafCost(es) <= LEAF_CAPACITY && SplitNeeded(es, pending)
    ensures var plan := PlanLeafSplit(es, pending); plan.SplitPlan? ==> GoodPlan(es, pending, plan)
  {
    LeafCostOne(pending);
    assert es == [es[0]];
    LeafCostOne(es[0]);
    BoundMeans(es, pending.key);
    NumIsOrder(pending.key, es[0].key);
    assert [pending] + es == InsertedAt(es, 0, pending);
    assert es + [pending] == InsertedAt(es, 1, pending);
  }

  lemma PlanTwoRight(es: seq<Entry>, pending: Entry, s: nat)
    requires |es| == 2 && SortedEntries(es) && LeafCost(es) <= LEAF_CAPACITY && s < 2
    requires s == (if LexLess(pending.key, es[1].key) then 0 else 1) && LexLess(es[s].key, pending.key)
    ensures var right := InstallIn(es[s + 1..], pending);
      right.Some? ==> GoodPlan(es, pending, SplitPlan(es[..s + 1], right.value, true))
  {
    hide LowerBound, Num, LexLess, LeafCost, EntryCost, EntryKeys;
    var rest := es[s + 1..];
    CutCost(es, s + 1);
    NumIsOrder(es[s].key, pending.key);
    NumIsOrder(pending.key, es[1].key);
    assert SortedEntries(rest);
    InstallIsGood(rest, pending);
    if InstallIn(rest, pending).Some? {
      RightBound(es, pending, s + 1);
    }
  }

  /** When everything before `k` is smaller, the bound in `es` is the bound past `k`, shifted. */
  lemma RightBound(es: seq<Entry>, pending: Entry, k: nat)
    requires SortedEntries(es) && k <= |es| && (forall i :: 0 <= i < k ==> Num(es[i].key) < Num(pending.key))
    requires !LowerBound(EntryKeys(es[k..]), pending.key).1
    ensures var pos := LowerBound(EntryKeys(es[k..]), pending.key).0;
      && LowerBound(EntryKeys(es), pending.key) == (k + pos, false)
      && es[..k] + InsertedAt(es[k..], pos, pending) == InsertedAt(es, k + pos, pending)
  {
    hide LowerBound, Num, InsertedAt;
    var rest := es[k..];
    assert SortedEntries(rest);
    BoundMeans(rest, pending.key);
    var (pos, exact) := LowerBound(EntryKeys(rest), pending.key);
    forall i | k <= i < |es|
      ensures i < k + pos ==> Num(es[i].key) < Num(pending.key)
      ensures k + pos <= i ==> Num(pending.key) < Num(es[i].key)
    {
      assert es[i] == rest[i - k];
    }
    BoundIs(es, pending.key, k + pos);
    InsertPast(es, k, pos, pending);
  }

  lemma InsertPast(es: seq<Entry>, k: nat, pos: nat, e: Entry)
    requires k + pos <= |es|
    ensures es[..k] + InsertedAt(es[k..], pos, e) == InsertedAt(es, k + pos, e)
  {
    assert es[..k + pos] == es[..k] + es[k..][..pos];
    assert es[k..][pos..] == es[k + pos..];
  }

  lemma PlanTwoLeft(es: seq<Entry>, pending: Entry, s: nat)
    requires |es| == 2 && SortedEntries(es) && LeafCost(es) <= LEAF_CAPACITY
    requires s == 0 && LexLess(pending.key, es[1].key) && !LexLess(es[0].key, pending.key)
    ensures var left := InstallIn(es[..1], pending);
      left.Some? ==> GoodPlan(es, pending, SplitPlan(left.value, es[1..], true))
  {
    hide LowerBound, Num, LexLess, LeafCost, EntryCost, EntryKeys;
    var left := es[..1];
    CutCost(es, 1);
    NumIsOrder(pending.key, es[1].key);
    assert SortedEntries(left);
    InstallIsGood(left, pending);
    LeftBound(es, pending, 1);
  }

  /** When everything from `k` on is larger, the bound in `es` is the bound before `k`. */
  lemma LeftBound(es: seq<Entry>, pending: Entry, k: nat)
    requires SortedEntries(es) && k <= |es| && (forall i :: k <= i < |es| ==> Num(pending.key) < Num(es[i].key))
    ensures var (pos, exact) := LowerBound(EntryKeys(es[..k]), pending.key);
      !exact ==> (
        && LowerBound(EntryKeys(es), pending.key) == (pos, false)
        && InsertedAt(es[..k], pos, pending) + es[k..] == InsertedAt(es, pos, pending))
  {
    hide LowerBound, Num;
    var left := es[..k];
    assert SortedEntries(left);
    BoundMeans(left, pending.key);
    var (pos, exact) := LowerBound(EntryKeys(left), pending.key);
    if !exact {
      assert forall i :: 0 <= i < k ==> es[i] == left[i];
      BoundIs(es, pending.key, pos);
      assert InsertedAt(left, pos, pending) + es[k..] == InsertedAt(es, pos, pending);
    }
  }

  /** Every plan that does not panic is good. */
  lemma PlanIsGood(es: seq<Entry>, pending: Entry)
    requires SortedEntries(es) && LeafCost(es) <= LEAF_CAPACITY && SplitNeeded(es, pending)
    ensures var plan := PlanLeafSplit(es, pending); plan.SplitPlan? ==> GoodPlan(es, pending, plan)
  {
    hide LowerBound, Num, LexLess;
    if |es| == 1 {
      PlanOne(es, pending);
    } else if |es| == 2 {
      var s := if LexLess(pending.key, es[1].key) then 0 else 1;
      if LexLess(es[s].key, pending.key) {
        PlanTwoRight(es, pending, s);
      } else if s == 0 {
        PlanTwoLeft(es, pending, s);
      } else {
        SamePending(es, pending);
      }
    } else if |es| > 2 {
      var k := |es| / 2 + 1;
      assert es == es[..k] + es[k..];
      CutCost(es, k);
    }
  }

  /** A pending key that is neither below nor above the second key is that key: installing it panics. */
  lemma SamePending(es: seq<Entry>, pending: Entry)
    requires |es| == 2 && SortedEntries(es) && !LexLess(pending.key, es[1].key) && !LexLess(es[1].key, pending.key)
    ensures InstallIn(es[..2], pending).None?
  {
    hide LowerBound, Num, LexLess;
    NumIsOrder(pending.key, es[1].key);
    NumIsOrder(es[1].key, pending.key);
    assert es[..2] == es;
    BoundMeans(es, pending.key);
    assert es[1].key == pending.key;
  }

  /** With every entry at most half a leaf, splitting never panics. */
  lemma SmallEntriesSplit(es: seq<Entry>, pending: Entry)
    requires SortedEntries(es) && SplitNeeded(es, pending)
    requires 2 * EntryCost(pending) <= LEAF_CAPACITY
    requires forall i :: 0 <= i < |es| ==> 2 * EntryCost(es[i]) <= LEAF_CAPACITY
    ensures PlanLeafSplit(es, pending).SplitPlan?
  {
    hide LowerBound, Num, LexLess;
    BoundMeans(es, pending.key);
    if |es| == 1 {
      assert es == [es[0]];
      LeafCostOne(es[0]);
    } else if |es| == 2 {
      assert es == [es[0]] + [es[1]];
      LeafCostConcat([es[0]], [es[1]]);
      LeafCostOne(es[0]);
      LeafCostOne(es[1]);
      assert !LowerBound(EntryKeys(es), pending.key).1;
      var s := if LexLess(pending.key, es[1].key) then 0 else 1;
      NumIsOrder(pending.key, es[1].key);
      NumIsOrder(es[1].key, pending.key);
      if LexLess(es[s].key, pending.key) {
        SmallInstall(es, s + 1, 2, pending);
      } else {
        assert s == 0;
        SmallInstall(es, 0, 1, pending);
      }
    }
  }

  lemma SmallInstall(es: seq<Entry>, a: nat, b: nat, pending: Entry)
    requires SortedEntries(es) && a <= b <= |es| && b <= a + 1 && 2 * EntryCost(pending) <= LEAF_CAPACITY
    requires forall i :: 0 <= i < |es| ==> 2 * EntryCost(es[i]) <= LEAF_CAPACITY
    requires !LowerBound(EntryKeys(es), pending.key).1
    ensures InstallIn(es[a..b], pending).Some?
  {
    hide LowerBound, Num, LexLess;
    var part := es[a..b];
    BoundMeans(es, pending.key);
    BoundMeans(part, pending.key);
    if a < b {
      assert part == [es[a]];
      LeafCostOne(es[a]);
    }
  }

  // ----- whole leaf splits -----

  /** The tree with the pending entry in its leaf, if the plan installs it. */
  ghost function Installed(t: Tree, z: Pid, plan: SplitPlan): Tree
    requires IsLeaf(t, z) && plan.SplitPlan?
  {
    if plan.installed then WithEntries(t, z, plan.left + plan.right) else t
  }

  function MapAfter(m: map<Key, Value>, pending: Entry, installed: bool): map<Key, Value>
  {
    if installed then m[pending.key := pending.value] else m
  }

  lemma InstalledKeeps(t: Tree, z: Pid, pending: Entry, plan: SplitPlan, m: map<Key, Value>)
    requires Inv(t) && IsLeaf(t, z) && Standing(t, z, pending.key) && !ChaseRight(t.pages[z], pending.key)
    requires plan.SplitPlan? && GoodPlan(Entries(t, z), pending, plan) && Stores(t, m)
    ensures Inv(Installed(t, z, plan)) && Stores(Installed(t, z, plan), MapAfter(m, pending, plan.installed))
    ensures Entries(Installed(t, z, plan), z) == plan.left + plan.right
    ensures SameShape(t, Installed(t, z, plan))
    ensures LeftLinked(t) ==> LeftLinked(Installed(t, z, plan))
  {
    if plan.installed {
      var pos := LowerBound(EntryKeys(Entries(t, z)), pending.key).0;
      MayInsert(t, z, pending, pos);
      WithEntriesKeeps(t, z, plan.left + plan.right);
      WithEntriesFrame(t, z, plan.left + plan.right);
      StopAnswers(t, z, pending.key, m);
      InsertStores(t, z, pending, pos, m);
      if LeftLinked(t) {
        WithEntriesLeft(t, z, plan.left + plan.right);
      }
    }
  }

  /** Right after a leaf split the new sibling is the next page, and the left half's last key separates them. */
  lemma SplitIsNext(t: Tree, z: Pid, r: Pid, k: nat)
    requires Inv(t) && IsLeaf(t, z) && z != t.root && 0 < k < |Entries(t, z)| && r != 0 && r !in t.pages
    ensures var s := SplitLeaf(t, z, r, k);
      && Inv(s) && NextAt(s, z, r) && SepOk(s, Entries(t, z)[k - 1].key, Lo(s, r))
      && LeafHalves(t, s, z, r) && (LeftLinked(t) ==> LeftLinkedBut(s, Right(t, z)))
  {
    var s := SplitLeaf(t, z, r, k);
    SplitLeafKeeps(t, z, r, k);
    HalvesNext(t, s, z, r);
    if LeftLinked(t) {
      SplitLeft(t, z, r, k);
    }
  }

  lemma HalvesNext(t: Tree, s: Tree, z: Pid, r: Pid)
    requires LeafHalves(t, s, z, r) && Inv(s)
    ensures NextAt(s, z, r)
  {
    LinkedAt(s, z);
    assert Typed(s);
  }

  /** The tree after splitting leaf `z` by `plan` and relinking its old successor. */
  ghost function LeafSplit(t: Tree, z: Pid, r: Pid, plan: SplitPlan): Tree
    requires IsLeaf(t, z) && plan.SplitPlan? && Entries(Installed(t, z, plan), z) == plan.left + plan.right
  {
    var s := SplitLeaf(Installed(t, z, plan), z, r, |plan.left|);
    if IsLeaf(s, Right(t, z)) then WithLeft(s, Right(t, z), r) else s
  }

  /** A leaf split with its relink, but before the parent knows: everything holds, one orphan is pending. */
  lemma LeafSplitKeeps(t: Tree, z: Pid, r: Pid, pending: Entry, plan: SplitPlan, m: map<Key, Value>)
    requires Inv(t) && LeftLinked(t) && Stores(t, m) && z != t.root
    requires IsLeaf(t, z) && Standing(t, z, pending.key) && !ChaseRight(t.pages[z], pending.key)
    requires plan.SplitPlan? && GoodPlan(Entries(t, z), pending, plan) && r != 0 && r !in t.pages
    ensures Entries(Installed(t, z, plan), z) == plan.left + plan.right
    ensures var s := LeafSplit(t, z, r, plan);
      && Inv(s) && LeftLinked(s) && Stores(s, MapAfter(m, pending, plan.installed))
      && s.orphans == t.orphans + {r} && NextAt(s, z, r)
      && SepOk(s, plan.left[|plan.left| - 1].key, Lo(s, r))
  {
    hide Typed, Kids, KidsUp, RootFirst, Distinct, Nested, Parented, SortedLeaves, SortedAcross, Routed, SepOk, Stores,
      GoodPlan, SameShape, LeftLinked, LeftLinkedBut, NextAt;
    var m' := MapAfter(m, pending, plan.installed);
    var u := Installed(t, z, plan);
    PlanSizes(Entries(t, z), pending, plan);
    InstalledKeeps(t, z, pending, plan, m);
    InstalledFrame(t, z, plan);
    SplitIsNext(u, z, r, |plan.left|);
    var s := SplitLeaf(u, z, r, |plan.left|);
    SplitSteps.HalvesStore(u, s, z, r, m');
    Relinked(u, s, z, r, plan, m');
  }

  /** A leaf of three entries or more is divided in the middle, the left half taking one or two more. */
  lemma PlanBalances(es: seq<Entry>, pending: Entry)
    requires |es| > 2
    ensures var plan := PlanLeafSplit(es, pending);
      && plan.SplitPlan? && !plan.installed && plan.left + plan.right == es
      && |plan.right| + 1 <= |plan.left| <= |plan.right| + 2
  {
    hide LexLess;
    assert es[..|es| / 2 + 1] + es[|es| / 2 + 1..] == es;
  }

  /** A leaf of two entries is divided around a new one: behind both it goes alone, between them or in front it joins
      the one it is next to. */
  lemma PairPlan(es: seq<Entry>, pending: Entry)
    requires SortedEntries(es) && |es| == 2 && PlanLeafSplit(es, pending).SplitPlan?
    requires es[0].key != pending.key && es[1].key != pending.key
    ensures var plan := PlanLeafSplit(es, pending);
      && plan.installed
      && (Num(pending.key) < Num(es[0].key) ==> plan.left == [pending, es[0]] && plan.right == [es[1]])
      && (Num(es[0].key) < Num(pending.key) < Num(es[1].key) ==> plan.left == [es[0]] && plan.right == [pending, es[1]])
      && (Num(es[1].key) < Num(pending.key) ==> plan.left == es && plan.right == [pending])
  {
    hide LowerBound, Num, LexLess, LeafCost;
    NumIsOrder(pending.key, es[0].key);
    NumIsOrder(es[0].key, pending.key);
    NumIsOrder(pending.key, es[1].key);
    NumIsOrder(es[1].key, pending.key);
    if Num(pending.key) < Num(es[0].key) {
      BoundIs(es[..1], pending.key, 0);
    } else if Num(pending.key) < Num(es[1].key) {
      BoundIs(es[1..], pending.key, 0);
    } else {
      BoundIs(es[2..], pending.key, 0);
      assert es[..2] == es;
    }
  }

  lemma PlanSizes(es: seq<Entry>, pending: Entry, plan: SplitPlan)
    requires plan.SplitPlan? && GoodPlan(es, pending, plan)
    ensures 0 < |plan.left| < |plan.left + plan.right|
    ensures (plan.left + plan.right)[|plan.left| - 1] == plan.left[|plan.left| - 1]
  {
  }

  lemma InstalledFrame(t: Tree, z: Pid, plan: SplitPlan)
    requires IsLeaf(t, z) && plan.SplitPlan?
    ensures var u := Installed(t, z, plan);
      && u.pages.Keys == t.pages.Keys && u.orphans == t.orphans && u.root == t.root
      && Right(u, z) == Right(t, z) && IsLeaf(u, z)
  {
  }

  lemma Relinked(u: Tree, s: Tree, z: Pid, r: Pid, plan: SplitPlan, m: map<Key, Value>)
    requires Inv(s) && LeafHalves(u, s, z, r) && Stores(s, m) && LeftLinkedBut(s, Right(u, z)) && NextAt(s, z, r)
    requires plan.SplitPlan? && |plan.left| > 0 && SepOk(s, plan.left[|plan.left| - 1].key, Lo(s, r))
    ensures var s' := if IsLeaf(s, Right(u, z)) then WithLeft(s, Right(u, z), r) else s;
      && Inv(s') && LeftLinked(s') && Stores(s', m) && s'.orphans == u.orphans + {r} && NextAt(s', z, r)
      && SepOk(s', plan.left[|plan.left| - 1].key, Lo(s', r))
  {
    hide Inv, SepOk, Stores, LeftLinkedBut, LeftLinked;
    var x := Right(u, z);
    if IsLeaf(s, x) {
      WithLeftKeeps(s, x, r, m);
      RelinkRepairs(s, x, r);
      SameLeavesSep(s, WithLeft(s, x, r), plan.left[|plan.left| - 1].key, Lo(s, r));
    } else {
      NoneToRelink(s, r, x);
    }
  }

  lemma NoneToRelink(s: Tree, r: Pid, x: Pid)
    requires Inv(s) && IsLeaf(s, r) && Right(s, r) == x && !IsLeaf(s, x) && LeftLinkedBut(s, x)
    ensures LeftLinked(s)
  {
  }

  // ----- root splits -----

  /** A root split: the old root's page goes to `l`, is split there into `l` and `r`, and both are published. */
  ghost function RootLeafSplit(t: Tree, l: Pid, r: Pid, plan: SplitPlan): Tree
    requires IsLeaf(t, t.root) && plan.SplitPlan? && |plan.left| > 0
    requires Entries(Installed(t, t.root, plan), t.root) == plan.left + plan.right && l != t.root && r != t.root
  {
    var u := Installed(t, t.root, plan);
    var g := Grow(u, l);
    assert u.root == t.root && Entries(g, l) == Entries(u, t.root);
    Publish(SplitLeaf(g, l, r, |plan.left|), t.root, 0, plan.left[|plan.left| - 1].key, r)
  }

  lemma PublishUnderRoot(s: Tree, l: Pid, r: Pid, sep: Key, m: map<Key, Value>)
    requires Inv(s) && IsInner(s, s.root) && Slots(s, s.root) == [] && Kid(s, s.root, 0) == l && r in s.orphans
    requires NextAt(s, l, r) && SepOk(s, sep, Lo(s, r)) && Stores(s, m)
    ensures var s' := Publish(s, s.root, 0, sep, r);
      Inv(s') && Stores(s', m) && (LeftLinked(s) ==> LeftLinked(s'))
  {
    hide Typed, Kids, KidsUp, RootFirst, Distinct, Nested, Parented, SortedLeaves, SortedAcross, Routed, SepOk, Stores;
    var s' := Publish(s, s.root, 0, sep, r);
    PublishKeeps(s, s.root, 0, sep, r);
    PublishAdds(s, s.root, 0, sep, r);
    SameLeavesStore(s, s', m);
    if LeftLinked(s) {
      assert forall z :: Left(s', z) == Left(s, z);
      SameLeavesLeft(s, s');
    }
  }

  lemma RootLeafSplitKeeps(t: Tree, l: Pid, r: Pid, pending: Entry, plan: SplitPlan, m: map<Key, Value>)
    requires Inv(t) && t.orphans == {} && LeftLinked(t) && Stores(t, m)
    requires IsLeaf(t, t.root) && Standing(t, t.root, pending.key) && !ChaseRight(t.pages[t.root], pending.key)
    requires plan.SplitPlan? && GoodPlan(Entries(t, t.root), pending, plan)
    requires l != 0 && r != 0 && l != r && l !in t.pages && r !in t.pages
    ensures Entries(Installed(t, t.root, plan), t.root) == plan.left + plan.right
    ensures var s := RootLeafSplit(t, l, r, plan);
      && Inv(s) && LeftLinked(s) && Stores(s, MapAfter(m, pending, plan.installed)) && s.orphans == {}
  {
    hide Typed, Kids, KidsUp, RootFirst, Distinct, Nested, Parented, SortedLeaves, SortedAcross, Routed, SepOk, Stores,
      GoodPlan, SameShape, LeftLinked, LeftLinkedBut, NextAt, LeafHalves;
    var m' := MapAfter(m, pending, plan.installed);
    var u := Installed(t, t.root, plan);
    PlanSizes(Entries(t, t.root), pending, plan);
    InstalledKeeps(t, t.root, pending, plan, m);
    InstalledFrame(t, t.root, plan);
    GrowKeeps(u, l);
    GrowLeft(u, l);
    GrownStore(u, Grow(u, l), l, m');
    RootLeafHalves(u, l, r, plan, m');
  }

  lemma RootLeafHalves(u: Tree, l: Pid, r: Pid, plan: SplitPlan, m: map<Key, Value>)
    requires IsLeaf(u, u.root) && plan.SplitPlan? && Entries(u, u.root) == plan.left + plan.right
    requires 0 < |plan.left| < |plan.left + plan.right| && u.orphans == {} && l != r && r != 0 && r !in u.pages
    requires Inv(u) && Inv(Grow(u, l)) && LeftLinked(Grow(u, l)) && GrownBy(u, Grow(u, l), l) && Stores(Grow(u, l), m)
    ensures var s := Publish(SplitLeaf(Grow(u, l), l, r, |plan.left|), u.root, 0, plan.left[|plan.left| - 1].key, r);
      && Inv(s) && LeftLinked(s) && Stores(s, m) && s.orphans == {}
  {
    hide Kids, KidsUp, RootFirst, Distinct, Nested, Parented, SortedLeaves, SortedAcross, Routed, SepOk, Stores;
    var g := Grow(u, l);
    var s := SplitLeaf(g, l, r, |plan.left|);
    assert l != u.root;
    SplitIsNext(g, l, r, |plan.left|);
    SplitSteps.HalvesStore(g, s, l, r, m);
    LeafRootAlone(u);
    LinkedAt(u, u.root);
    assert Right(g, l) == 0;
    assert LeftLinked(s);
    PublishUnderRoot(s, l, r, plan.left[|plan.left| - 1].key, m);
  }

  /** A split of an inner root. */
  ghost function RootInnerSplit(t: Tree, l: Pid, r: Pid, k: nat): Tree
    requires IsInner(t, t.root) && k < |Slots(t, t.root)| && l != t.root && r != t.root
  {
    Publish(SplitInner(Grow(t, l), l, r, k), t.root, 0, Slots(t, t.root)[k].sep, r)
  }

  lemma SplitInnerIsNext(t: Tree, p: Pid, r: Pid, k: nat, m: map<Key, Value>)
    requires Inv(t) && IsInner(t, p) && p != t.root && k < |Slots(t, p)| && r != 0 && r !in t.pages && Stores(t, m)
    ensures var s := SplitInner(t, p, r, k);
      && Inv(s) && Stores(s, m) && NextAt(s, p, r) && SepOk(s, Slots(t, p)[k].sep, Lo(s, r))
      && InnerHalves(t, s, p, r, k) && (LeftLinked(t) ==> LeftLinked(s))
  {
    hide Typed, RootFirst, Parented, SortedLeaves, SortedAcross, Routed, SepOk, Stores;
    var s := SplitInner(t, p, r, k);
    SplitInnerKeeps(t, p, r, k);
    InnerSteps.HalvesStore(t, s, p, r, k, m);
    InnerHalvesNext(t, s, p, r, k);
    if LeftLinked(t) {
      SplitInnerLeft(t, p, r, k);
    }
  }

  lemma InnerHalvesNext(t: Tree, s: Tree, p: Pid, r: Pid, k: nat)
    requires InnerHalves(t, s, p, r, k) && Kids(t) && KidsUp(t) && Distinct(t) && Nested(t)
    ensures NextAt(s, p, r)
  {
    hide Kids, KidsUp, Distinct, Nested;
    forall q | q in s.pages && Level(s, q) == Level(s, p) && Lo(s, p) < Lo(s, q)
      ensures Lo(s, r) <= Lo(s, q)
    {
      if q != r {
        SplitNewLabel(t, s, p, r, k, q);
      }
    }
    SplitNewLabel(t, s, p, r, k, p);
  }

  lemma SplitInnerLeft(t: Tree, p: Pid, r: Pid, k: nat)
    requires LeftLinked(t) && IsInner(t, p) && k < |Slots(t, p)| && r !in t.pages
    ensures LeftLinked(SplitInner(t, p, r, k))
  {
    var s := SplitInner(t, p, r, k);
    assert forall z :: IsLeaf(s, z) <==> IsLeaf(t, z);
    assert forall z :: IsLeaf(t, z) ==> Left(s, z) == Left(t, z) && Right(s, z) == Right(t, z) && Lo(s, z) == Lo(t, z);
    forall z | IsLeaf(s, z)
      ensures LeftOk(s, z)
    {
      assert LeftOk(t, z);
    }
  }

  lemma RootInnerSplitKeeps(t: Tree, l: Pid, r: Pid, k: nat, m: map<Key, Value>)
    requires Inv(t) && Stores(t, m) && IsInner(t, t.root) && k < |Slots(t, t.root)|
    requires l != 0 && r != 0 && l != r && l !in t.pages && r !in t.pages
    ensures var s := RootInnerSplit(t, l, r, k);
      && Inv(s) && Stores(s, m) && s.orphans == t.orphans && (LeftLinked(t) ==> LeftLinked(s))
  {
    hide Kids, KidsUp, RootFirst, Distinct, Nested, SortedLeaves, SortedAcross, Routed, SepOk, Stores, NextAt;
    assert Typed(t);
    var g := Grow(t, l);
    GrowKeeps(t, l);
    GrownStore(t, g, l, m);
    assert Shaped(t) && r !in t.orphans;
    if LeftLinked(t) {
      GrowLeft(t, l);
    }
    var s := SplitInner(g, l, r, k);
    SplitInnerIsNext(g, l, r, k, m);
    PublishUnderRoot(s, l, r, Slots(t, t.root)[k].sep, m);
  }
}
