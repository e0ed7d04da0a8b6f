/**
 When a descent that records its path and does not chase right ends on the wrong leaf.

 A separator in front of which every key is smaller than `key`, but which is itself not
 smaller, is stale for `key`: it may route the search too far left.  Splits make no
 separator stale, so a search that starts without stale separators is never stranded, however
 often the leaf is split on the way.
 */
module Stale {
  import opened Keys
  import opened Pages
  import opened Trees
  import opened SplitSteps
  import opened EdgeSteps
  import opened InnerSteps
  import opened RootSteps
  import opened LeftLinks
  import opened SeparatorBounds
  import opened Splits
  import opened Levels
  import opened Descents
  import opened Scans
  import opened Accounts

  /** A separator in front of label `bound` is not stale for `key`. */
  ghost predicate SepClear(t: Tree, sep: Key, bound: real, key: Key)
  {
    AllBelow(t, bound, Num(key)) ==> Num(sep) < Num(key)
  }

  /** No separator is stale for `key`. */
  ghost predicate Clear(t: Tree, key: Key)
  {
    forall p, i :: 0 <= i < |Slots(t, p)| ==> SepClear(t, Slots(t, p)[i].sep, Lo(t, Kid(t, p, i + 1)), key)
  }

  lemma ClearAt(t: Tree, key: Key, p: Pid, i: nat)
    requires Clear(t, key) && i < |Slots(t, p)|
    ensures SepClear(t, Slots(t, p)[i].sep, Lo(t, Kid(t, p, i + 1)), key)
  {
  }

  /** Page `p` is the last of its level, or some key in front of the next page is not smaller than `key`. */
  ghost predicate Fenced(t: Tree, p: Pid, key: Key)
  {
    || (forall x :: x in t.pages && Level(t, x) == Level(t, p) ==> Lo(t, x) <= Lo(t, p))
    || (exists q :: NextAt(t, p, q) && !AllBelow(t, Lo(t, q), Num(key)))
  }

  lemma RootFenced(t: Tree, key: Key)
    requires Inv(t)
    ensures Fenced(t, t.root, key)
  {
    assert Typed(t);
  }

  /** Without stale separators routing stays within the fence. */
  lemma FencedDown(t: Tree, p: Pid, key: Key)
    requires Inv(t) && t.orphans == {} && Clear(t, key) && IsInner(t, p) && Fenced(t, p, key)
    ensures Kid(t, p, Route(t.pages[p], key)) in t.pages && Fenced(t, Kid(t, p, Route(t.pages[p], key)), key)
  {
    hide SortedLeaves, SortedAcross, Routed, Parented, Distinct, Linked, RootFirst, Nested, AllBelow, LowerBound, Num,
      Clear, KidsUp, Kids;
    var i := Route(t.pages[p], key);
    EdgeWithin(t, p, i);
    if i < |Slots(t, p)| {
      assert Separators(t.pages[p].slots)[i] == Slots(t, p)[i].sep;
      ClearAt(t, key, p, i);
      KidsAreNext(t, p, i);
      assert NextAt(t, Kid(t, p, i), Kid(t, p, i + 1)) && !AllBelow(t, Lo(t, Kid(t, p, i + 1)), Num(key));
    } else if exists q :: NextAt(t, p, q) && !AllBelow(t, Lo(t, q), Num(key)) {
      var q: Pid :| NextAt(t, p, q) && !AllBelow(t, Lo(t, q), Num(key));
      NextDown(t, p, q);
      FirstLabel(t, p, q);
    } else {
      forall x | x in t.pages && Level(t, x) == Level(t, Kid(t, p, i))
        ensures Lo(t, x) <= Lo(t, Kid(t, p, i))
      {
        LastKid(t, p, x);
      }
    }
  }

  lemma FirstLabel(t: Tree, p: Pid, q: Pid)
    requires Inv(t) && IsInner(t, p) && q in t.pages && Level(t, q) == Level(t, p)
    ensures Lo(t, Kid(t, q, 0)) == Lo(t, q)
  {
    assert Typed(t) && KidsUp(t) && IsInner(t, q);
  }

  /** A fenced leaf at which a reader stands has an entry or is the last one. */
  lemma FencedLeaf(t: Tree, y: Pid, key: Key)
    requires Inv(t) && IsLeaf(t, y) && Standing(t, y, key) && Fenced(t, y, key)
    ensures |Entries(t, y)| > 0 || Right(t, y) == 0
  {
    hide SortedLeaves, SortedAcross, Routed, Parented, RootFirst, Nested, KidsUp, Kids, Num;
    LinkedAt(t, y);
    if Right(t, y) != 0 {
      var q: Pid :| NextAt(t, y, q) && !AllBelow(t, Lo(t, q), Num(key));
      var z: Pid, j :| Lo(t, z) < Lo(t, q) && 0 <= j < |Entries(t, z)| && !(Num(Entries(t, z)[j].key) < Num(key));
      assert IsLeaf(t, z) && Lo(t, z) <= Lo(t, y);
      assert !(Lo(t, z) < Lo(t, y));
      assert z == y;
    }
  }

  lemma {:induction false} ClearRoutes(t: Tree, p: Pid, key: Key)
    requires Inv(t) && t.orphans == {} && Clear(t, key) && p in t.pages && Standing(t, p, key) && Fenced(t, p, key)
    ensures var y := InvRouteLeafFrom(t, p, key); |Entries(t, y)| > 0 || Right(t, y) == 0
    decreases Level(t, p)
  {
    hide Inv, Clear, Standing, Fenced, InvRouteLeafFrom, Route;
    RouteReader(t, p, key);
    if IsInner(t, p) {
      FencedDown(t, p, key);
      ClearRoutes(t, Kid(t, p, Route(t.pages[p], key)), key);
    } else {
      FencedLeaf(t, p, key);
    }
  }

  /** Without stale separators no search is stranded. */
  lemma ClearNotStranded(t: Tree, key: Key)
    requires Inv(t) && t.orphans == {} && Clear(t, key)
    ensures !Stranded(t, key)
  {
    hide Inv, Clear, Standing, Fenced;
    RootReader(t, key);
    RootFenced(t, key);
    ClearRoutes(t, t.root, key);
  }

  // ----- splits make no separator stale -----

  lemma PublishClear(t: Tree, p: Pid, i: nat, sep: Key, r: Pid, key: Key)
    requires IsInner(t, p) && i <= |Slots(t, p)| && r in t.orphans && Clear(t, key) && SepClear(t, sep, Lo(t, r), key)
    ensures Clear(Publish(t, p, i, sep, r), key)
  {
    hide Clear, Num;
    var s := Publish(t, p, i, sep, r);
    PublishAdds(t, p, i, sep, r);
    forall q, j | 0 <= j < |Slots(s, q)|
      ensures SepClear(s, Slots(s, q)[j].sep, Lo(s, Kid(s, q, j + 1)), key)
    {
      if q == p && j > i {
        ClearAt(t, key, p, j - 1);
      } else if q != p || j < i {
        ClearAt(t, key, q, j);
      }
      SameLeavesClear(t, s, Slots(s, q)[j].sep, Lo(s, Kid(s, q, j + 1)), key);
    }
    ClearIs(s, key);
  }

  lemma ClearIs(t: Tree, key: Key)
    requires forall p, i :: 0 <= i < |Slots(t, p)| ==> SepClear(t, Slots(t, p)[i].sep, Lo(t, Kid(t, p, i + 1)), key)
    ensures Clear(t, key)
  {
  }

  lemma SameLeavesClear(t: Tree, s: Tree, sep: Key, bound: real, key: Key)
    requires SameLeaves(t, s) && SepClear(t, sep, bound, key)
    ensures SepClear(s, sep, bound, key)
  {
    hide Num;
    if AllBelow(s, bound, Num(key)) {
      forall z, j | Lo(t, z) < bound && 0 <= j < |Entries(t, z)|
        ensures Num(Entries(t, z)[j].key) < Num(key)
      {
        assert Entries(s, z)[j] == Entries(t, z)[j];
      }
    }
  }

  lemma SplitInnerClear(t: Tree, s: Tree, p: Pid, r: Pid, h: nat, key: Key)
    requires InnerHalves(t, s, p, r, h) && Typed(t) && Kids(t) && Clear(t, key) && h < |Slots(t, p)|
    ensures Clear(s, key) && SepClear(s, Slots(t, p)[h].sep, Lo(s, r), key)
  {
    hide Clear, Num, InnerHalves, SepClear;
    forall q, j | 0 <= j < |Slots(s, q)|
      ensures SepClear(s, Slots(s, q)[j].sep, Lo(s, Kid(s, q, j + 1)), key)
    {
      HalvesLabel(t, s, p, r, h, q, j);
      var q', j' := if q == r then p else q, if q == r then h + 1 + j else j;
      ClearAt(t, key, q', j');
      HalvesClear(t, s, p, r, h, Slots(s, q)[j].sep, Lo(s, Kid(s, q, j + 1)), key);
    }
    ClearIs(s, key);
    ClearAt(t, key, p, h);
    HalvesNewLabel(t, s, p, r, h);
    HalvesClear(t, s, p, r, h, Slots(t, p)[h].sep, Lo(s, r), key);
  }

  lemma HalvesNewLabel(t: Tree, s: Tree, p: Pid, r: Pid, h: nat)
    requires InnerHalves(t, s, p, r, h)
    ensures Lo(s, r) == Lo(t, Kid(t, p, h + 1))
  {
  }

  lemma HalvesLabel(t: Tree, s: Tree, p: Pid, r: Pid, h: nat, q: Pid, j: nat)
    requires InnerHalves(t, s, p, r, h) && Kids(t) && h < |Slots(t, p)| && j < |Slots(s, q)|
    ensures var q', j' := if q == r then p else q, if q == r then h + 1 + j else j;
      && j' < |Slots(t, q')| && Slots(s, q)[j].sep == Slots(t, q')[j'].sep
      && Lo(s, Kid(s, q, j + 1)) == Lo(t, Kid(t, q', j' + 1))
  {
    var q', j' := if q == r then p else q, if q == r then h + 1 + j else j;
    assert Kid(s, q, j + 1) == Kid(t, q', j' + 1);
    assert Kid(t, q', j' + 1) in t.pages;
  }

  lemma HalvesClear(t: Tree, s: Tree, p: Pid, r: Pid, h: nat, sep: Key, bound: real, key: Key)
    requires InnerHalves(t, s, p, r, h) && Typed(t) && SepClear(t, sep, bound, key)
    ensures SepClear(s, sep, bound, key)
  {
    hide Num;
    if AllBelow(s, bound, Num(key)) {
      forall z, j | Lo(t, z) < bound && 0 <= j < |Entries(t, z)|
        ensures Num(Entries(t, z)[j].key) < Num(key)
      {
        assert z != r && Entries(s, z)[j] == Entries(t, z)[j] && Lo(s, z) == Lo(t, z);
      }
    }
  }

  lemma GrowClear(t: Tree, g: Tree, l: Pid, key: Key)
    requires GrownBy(t, g, l) && Typed(t) && Kids(t) && Clear(t, key)
    ensures Clear(g, key)
  {
    hide Clear, Num, AllBelow;
    forall q, j | 0 <= j < |Slots(g, q)|
      ensures SepClear(g, Slots(g, q)[j].sep, Lo(g, Kid(g, q, j + 1)), key)
    {
      var q' := if q == l then t.root else q;
      ClearAt(t, key, q', j);
      assert Kid(t, q', j + 1) in t.pages && Kid(g, q, j + 1) == Kid(t, q', j + 1);
      GrownBounds(t, g, l, Lo(t, Kid(t, q', j + 1)), Num(key));
    }
    ClearIs(g, key);
  }

  lemma RootInnerSplitClear(t: Tree, l: Pid, r: Pid, h: nat, key: Key)
    requires Inv(t) && IsInner(t, t.root) && h < |Slots(t, t.root)| && Clear(t, key)
    requires l != 0 && r != 0 && l != r && l !in t.pages && r !in t.pages
    ensures Clear(RootInnerSplit(t, l, r, h), key)
  {
    hide Clear, SepClear, GrownBy, InnerHalves;
    RootIn(t);
    InvTyped(t);
    var g := Grow(t, l);
    GrowKeeps(t, l);
    InvKids(t);
    InvKids(g);
    GrowClear(t, g, l, key);
    var s := SplitInner(g, l, r, h);
    assert IsInner(g, l) && Slots(g, l) == Slots(t, t.root) && l != g.root;
    SplitInnerKeeps(g, l, r, h);
    SplitInnerClear(g, s, l, r, h, key);
    PublishClear(s, t.root, 0, Slots(t, t.root)[h].sep, r, key);
  }

  lemma InvKids(t: Tree)
    requires Inv(t)
    ensures Typed(t) && Kids(t)
  {
  }

  lemma CutInnerClear(t: Tree, p: Pid, r: Pid, h: nat, key: Key)
    requires Inv(t) && IsInner(t, p) && p != t.root && h < |Slots(t, p)| && r != 0 && r !in t.pages && Clear(t, key)
    ensures var s := SplitInner(t, p, r, h); Clear(s, key) && SepClear(s, Slots(t, p)[h].sep, Lo(s, r), key)
  {
    hide Clear, SepClear, InnerHalves, Inv;
    InvKids(t);
    SplitInnerKeeps(t, p, r, h);
    SplitInnerClear(t, SplitInner(t, p, r, h), p, r, h, key);
  }

  /** The last key that stays left of a cut is a fresh separator, and the cut makes no other one stale. */
  lemma CutLeafClear(t: Tree, s: Tree, z: Pid, r: Pid, key: Key)
    requires Inv(t) && Inv(s) && LeafHalves(t, s, z, r) && |Entries(s, z)| > 0 && Clear(t, key)
    ensures Clear(s, key) && SepClear(s, Entries(s, z)[|Entries(s, z)| - 1].key, Lo(s, r), key)
  {
    hide Clear, Num, Shaped, SortedLeaves, SortedAcross, Routed, SepClear;
    forall q, j | 0 <= j < |Slots(s, q)|
      ensures SepClear(s, Slots(s, q)[j].sep, Lo(s, Kid(s, q, j + 1)), key)
    {
      CutLeafClearAt(t, s, z, r, key, q, j);
    }
    ClearIs(s, key);
    LastIsFresh(s, z, r, key);
  }

  lemma CutLeafClearAt(t: Tree, s: Tree, z: Pid, r: Pid, key: Key, q: Pid, j: nat)
    requires Inv(t) && Inv(s) && LeafHalves(t, s, z, r) && Clear(t, key) && j < |Slots(s, q)|
    ensures SepClear(s, Slots(s, q)[j].sep, Lo(s, Kid(s, q, j + 1)), key)
  {
    hide Clear, Num, SortedLeaves, SortedAcross, Routed, AllBelow, Nested, RootFirst, Parented;
    ClearAt(t, key, q, j);
    assert Kid(t, q, j + 1) in t.pages;
    LinkedAt(s, z);
    var y := LeftmostLeaf(t, Kid(t, q, j + 1));
    JoinedBelow(t, s, z, r, y, Num(key));
  }

  lemma LastIsFresh(s: Tree, z: Pid, r: Pid, key: Key)
    requires Inv(s) && IsLeaf(s, z) && Right(s, z) == r && r != 0 && |Entries(s, z)| > 0
    ensures SepClear(s, Entries(s, z)[|Entries(s, z)| - 1].key, Lo(s, r), key)
  {
    hide Num;
    LinkedAt(s, z);
  }

  lemma LeafSplitClear(t: Tree, z: Pid, r: Pid, pending: Entry, plan: SplitPlan, key: Key)
    requires Inv(t) && IsLeaf(t, z) && z != t.root && r != 0 && r !in t.pages && Clear(t, key)
    requires plan.SplitPlan? && !plan.installed && GoodPlan(Entries(t, z), pending, plan)
    ensures Entries(Installed(t, z, plan), z) == plan.left + plan.right
    ensures var s := LeafSplit(t, z, r, plan);
      Clear(s, key) && SepClear(s, plan.left[|plan.left| - 1].key, Lo(s, r), key)
  {
    hide Inv, Clear, SepClear, LeafHalves;
    PlanSizes(Entries(t, z), pending, plan);
    var s := SplitLeaf(t, z, r, |plan.left|);
    SplitIsNext(t, z, r, |plan.left|);
    assert Entries(s, z) == plan.left;
    CutLeafClear(t, s, z, r, key);
    if IsLeaf(s, Right(t, z)) {
      var s' := WithLeft(s, Right(t, z), r);
      WithLeftChanges(s, Right(t, z), r);
      RelinkClear(s, s', key);
      SameLeavesClear(s, s', plan.left[|plan.left| - 1].key, Lo(s, r), key);
    }
  }

  lemma RelinkClear(s: Tree, s': Tree, key: Key)
    requires SepChanged(s, s', 0, 0) && (forall q :: Slots(s', q) == Slots(s, q)) && Clear(s, key)
    ensures Clear(s', key)
  {
    hide Clear, SepClear;
    forall q, j | 0 <= j < |Slots(s', q)|
      ensures SepClear(s', Slots(s', q)[j].sep, Lo(s', Kid(s', q, j + 1)), key)
    {
      ClearAt(s, key, q, j);
      SameLeavesClear(s, s', Slots(s, q)[j].sep, Lo(s, Kid(s, q, j + 1)), key);
    }
    ClearIs(s', key);
  }

  lemma RootLeafSplitClear(t: Tree, l: Pid, r: Pid, pending: Entry, plan: SplitPlan, key: Key)
    requires Inv(t) && IsLeaf(t, t.root) && l != 0 && r != 0 && l !in t.pages && r !in t.pages && l != r
    requires Clear(t, key)
    requires plan.SplitPlan? && !plan.installed && GoodPlan(Entries(t, t.root), pending, plan)
    ensures Entries(Installed(t, t.root, plan), t.root) == plan.left + plan.right
    ensures Clear(RootLeafSplit(t, l, r, plan), key)
  {
    hide Inv, Clear, SepClear, GrownBy, LeafHalves;
    PlanSizes(Entries(t, t.root), pending, plan);
    RootIn(t);
    InvKids(t);
    var g := Grow(t, l);
    GrowKeeps(t, l);
    GrowClear(t, g, l, key);
    var s := SplitLeaf(g, l, r, |plan.left|);
    assert IsLeaf(g, l) && Entries(g, l) == Entries(t, t.root) && l != g.root;
    SplitIsNext(g, l, r, |plan.left|);
    assert Entries(s, l) == plan.left;
    CutLeafClear(g, s, l, r, key);
    PublishClear(s, t.root, 0, plan.left[|plan.left| - 1].key, r, key);
  }

  lemma SameUpToClear(t: Tree, t': Tree, k: nat, sep: Key, bound: real, key: Key)
    requires SameUpTo(t, t', k) && Typed(t) && Typed(t') && SepClear(t, sep, bound, key)
    ensures SepClear(t', sep, bound, key)
  {
    SameUpToBelow(t', t, k, bound, Num(key));
  }

  // ----- what a writer meets -----

  /** The leaf where the search for `key` stops. */
  ghost function StopLeaf(t: Tree, key: Key): (z: Pid)
    requires Inv(t)
    ensures IsLeaf(t, z) && Standing(t, z, key) && !ChaseRight(t.pages[z], key)
  {
    RootStands(t, key);
    Locate(t, t.root, key)
  }

  /** The entries of the leaf where the search for `key` stops. */
  ghost function StopEntries(t: Tree, key: Key): seq<Entry>
    requires Inv(t)
  {
    Entries(t, StopLeaf(t, key))
  }

  /** The leaf for `e` has no room for it, so it has to be split, and the descent for the split is stranded. */
  ghost predicate Blocked(t: Tree, e: Entry)
  {
    Stranded(t, e.key) && SplitNeeded(StopEntries(t, e.key), e)
  }

  /** The leaf has no room and the descent finds it, but past a stale separator. */
  ghost predicate Slips(t: Tree, e: Entry)
    requires Inv(t)
  {
    && SplitNeeded(StopEntries(t, e.key), e)
    && InvRouteLeaf(t, e.key) == StopLeaf(t, e.key) && !Clear(t, e.key)
  }

  lemma StopIs(t: Tree, key: Key, z: Pid)
    requires Inv(t) && IsLeaf(t, z) && Standing(t, z, key) && !ChaseRight(t.pages[z], key)
    ensures z == StopLeaf(t, key)
  {
    hide Inv, Standing, ChaseRight;
    StopUnique(t, z, StopLeaf(t, key), key);
  }

  /** A stranded search has a stale separator in its way. */
  lemma StrandedIsStale(t: Tree, key: Key)
    requires Inv(t) && t.orphans == {} && Stranded(t, key)
    ensures !Clear(t, key) && InvRouteLeaf(t, key) != StopLeaf(t, key)
  {
    hide Clear;
    if Clear(t, key) {
      ClearNotStranded(t, key);
    }
  }

  lemma StoppedAt(t: Tree, key: Key, z: Pid)
    requires Inv(t) && IsLeaf(t, z) && Standing(t, z, key) && !ChaseRight(t.pages[z], key)
    ensures z == StopLeaf(t, key) && Entries(t, z) == StopEntries(t, key)
  {
    hide Inv, Standing, ChaseRight, StopLeaf;
    StopIs(t, key, z);
  }

  lemma StopEntriesAre(t: Tree, key: Key, es: seq<Entry>)
    requires Inv(t) && StopsOn(t, key, es)
    ensures StopEntries(t, key) == es
  {
    hide Inv, StopsOn, Standing, ChaseRight, StopLeaf;
    StopsOnAt(t, key, es, StopLeaf(t, key));
  }

  /** What routing alone finds, compared with where the search stops. */
  lemma RoutedStop(t: Tree, key: Key, y: Pid)
    requires Inv(t) && IsLeaf(t, y) && Standing(t, y, key) && y == InvRouteLeaf(t, key)
    ensures y == StopLeaf(t, key) <==> !ChaseRight(t.pages[y], key)
    ensures Stranded(t, key) <==> ChaseRight(t.pages[y], key) && |Entries(t, y)| == 0
  {
    hide Inv, Standing, StopLeaf;
    if !ChaseRight(t.pages[y], key) {
      StopIs(t, key, y);
    }
  }
}
