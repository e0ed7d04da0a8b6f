/**
 Left links in a running tree: which of them are right after any steps, crashes included.
 */
module BackLinks {
  import opened Keys
  import opened Pages
  import opened Trees
  import opened LeafSteps
  import opened SplitSteps
  import opened EdgeSteps
  import opened InnerSteps
  import opened RootSteps
  import opened LeftLinks
  import opened Splits
  import opened Levels
  import opened Accounts
  import opened Readers
  import opened Descending
  import opened Concurrent

  /** Leaves and links are the same. */
  ghost predicate SameLinks(t: Tree, t': Tree)
  {
    forall z :: IsLeaf(t', z) == IsLeaf(t, z) && Left(t', z) == Left(t, z) && Right(t', z) == Right(t, z)
      && (IsLeaf(t, z) ==> Lo(t', z) == Lo(t, z))
  }

  /** How a step changes the set of leaves whose left link is not that of the leaf before them: the successor of a
      split leaf comes in, a relinked one goes. */
  ghost function SkewAfter(s: State, a: Action, skew: set<Pid>): set<Pid>
    requires Enabled(s, a)
  {
    match a
    case LinkSibling(tid, _, _, _) => skew + {Right(s.t, s.threads[tid].at)} - {0}
    case Relink(leaf, _) => skew - {leaf}
    case _ => skew
  }

  ghost function Skewed(states: seq<State>, actions: seq<Action>, n: nat): set<Pid>
    requires IsRun(states, actions) && n < |states|
  {
    if n == 0 then {} else SkewAfter(states[n - 1], actions[n - 1], Skewed(states, actions, n - 1))
  }

  lemma SameLinksOk(t: Tree, t': Tree)
    requires SameLinks(t, t')
    ensures LeftDown(t) ==> LeftDown(t')
    ensures forall z :: IsLeaf(t, z) ==> (LeftOk(t', z) <==> LeftOk(t, z))
  {
  }

  /** The steps that leave the links alone. */
  lemma SameLinksStep(s: State, a: Action)
    requires SysInv(s) && Enabled(s, a) && !a.LinkSibling? && !a.Relink? && !a.SplitRootLeaf?
    ensures SameLinks(s.t, Do(s, a).t)
  {
    hide Inv, Stores, PendingOk, ThreadsOk, Standing, LowerBound, GoodPlan, NextHop, ChaseRight, RootInnerSplit,
      LowerHalf, UpperHalf, InsertEdge, LeafCost, InnerCost, InsertedAt, RemovedAt;
    match a
    case SplitRootInner(h, l, r) =>
      RootInnerSplitPages(s.t, l, r, h);
      HalvesAreInner(s.t.pages[s.t.root], h);
    case CutInner(p, h, r) => HalvesAreInner(s.t.pages[p], h);
    case PublishTop(p, i) => PublishSame(s.t, p, i, Last(s.pending).sep, Last(s.pending).right);
      EdgeIsInner(s.t.pages[p], i, Last(s.pending).sep, Last(s.pending).right);
    case _ =>
  }

  lemma HalvesAreInner(n: Node, h: nat)
    requires n.Inner? && h < |n.slots|
    ensures LowerHalf(n, h).Inner? && UpperHalf(n, h).Inner?
  {
  }

  lemma EdgeIsInner(n: Node, i: nat, sep: Key, r: Pid)
    requires n.Inner? && i <= |n.slots|
    ensures InsertEdge(n, i, sep, r).Inner?
  {
  }

  /** A split leaf's sibling is linked right, its old successor is not. */
  lemma CutLinks(t: Tree, z: Pid, r: Pid, k: nat)
    requires Inv(t) && LeftDown(t) && IsLeaf(t, z) && k <= |Entries(t, z)| && r != 0 && r !in t.pages
    ensures var t' := SplitLeaf(t, z, r, k);
      && LeftDown(t')
      && (forall y :: IsLeaf(t', y) ==> (LeftOk(t', y) <==> y == r || (y != Right(t, z) && LeftOk(t, y))))
  {
    hide Inv, LeftDown, LeftOk, SplitLeaf;
    var t' := SplitLeaf(t, z, r, k);
    CutFrame(t, z, r, k);
    CutDown(t, t', z, r);
    forall y | IsLeaf(t', y)
      ensures LeftOk(t', y) <==> y == r || (y != Right(t, z) && LeftOk(t, y))
    {
      if y != r {
        CutLinkAt(t, t', z, r, y);
      } else {
        CutNewLink(t, t', z, r);
      }
    }
  }

  /** What a split does to the links and labels of leaves. */
  ghost predicate LinkCut(t: Tree, t': Tree, z: Pid, r: Pid)
  {
    && r != 0 && !IsLeaf(t, r) && IsLeaf(t, z) && IsLeaf(t', r) && Left(t', r) == z && Right(t', r) == Right(t, z)
    && Lo(t, z) < Lo(t', r)
    && (forall y :: y != r ==> IsLeaf(t', y) == IsLeaf(t, y) && Left(t', y) == Left(t, y) && Lo(t', y) == Lo(t, y))
    && (forall y :: y != r ==> Right(t', y) == if y == z then r else Right(t, y))
  }

  lemma CutFrame(t: Tree, z: Pid, r: Pid, k: nat)
    requires Inv(t) && IsLeaf(t, z) && k <= |Entries(t, z)| && r != 0 && r !in t.pages
    ensures LinkCut(t, SplitLeaf(t, z, r, k), z, r)
  {
    hide LabelAfter, Inv, Linked;
    InvLinked(t);
    LabelIsAfter(t, z);
  }

  lemma CutDown(t: Tree, t': Tree, z: Pid, r: Pid)
    requires LeftDown(t) && LinkCut(t, t', z, r)
    ensures LeftDown(t')
  {
  }

  lemma CutNewLink(t: Tree, t': Tree, z: Pid, r: Pid)
    requires Inv(t) && LinkCut(t, t', z, r)
    ensures LeftOk(t', r)
  {
    assert Typed(t);
  }

  lemma CutLinkAt(t: Tree, t': Tree, z: Pid, r: Pid, y: Pid)
    requires Inv(t) && LeftDown(t) && LinkCut(t, t', z, r) && IsLeaf(t, y) && y != r
    ensures LeftOk(t', y) <==> y != Right(t, z) && LeftOk(t, y)
  {
    hide Inv;
    SuccessorOnce(t, z, y);
    if Left(t, y) == 0 {
      assert forall x :: IsLeaf(t, x) ==> IsLeaf(t', x) && Lo(t', x) == Lo(t, x);
      if LeftOk(t, y) && y != Right(t, z) {
        assert Lo(t, y) <= Lo(t, z) < Lo(t', r);
      }
    }
  }

  /** A leaf is the successor of one leaf at most, and that is further left. */
  lemma SuccessorOnce(t: Tree, z: Pid, y: Pid)
    requires Inv(t) && IsLeaf(t, z) && IsLeaf(t, y)
    ensures y == Right(t, z) ==> Lo(t, z) < Lo(t, y)
    ensures forall w :: IsLeaf(t, w) && Right(t, w) == y == Right(t, z) ==> w == z
  {
    hide SortedLeaves, SortedAcross, Routed, Kids, KidsUp, Nested, Parented, RootFirst;
    LinkedAt(t, z);
    forall w | IsLeaf(t, w) && Right(t, w) == y == Right(t, z)
      ensures w == z
    {
      LinkedAt(t, w);
    }
  }

  /** Correcting one link corrects that one and no other. */
  lemma RelinkLinks(t: Tree, x: Pid, b: Pid)
    requires Inv(t) && LeftDown(t) && IsLeaf(t, x) && IsLeaf(t, b) && Right(t, b) == x
    ensures var t' := WithLeft(t, x, b);
      LeftDown(t') && forall y :: IsLeaf(t', y) ==> (LeftOk(t', y) <==> y == x || LeftOk(t, y))
  {
    hide Inv;
    SuccessorOnce(t, b, x);
    NoZeroLeaf(t, b);
    var t' := WithLeft(t, x, b);
    assert forall y :: IsLeaf(t', y) == IsLeaf(t, y) && Lo(t', y) == Lo(t, y) && Right(t', y) == Right(t, y);
    assert forall y :: Left(t', y) == if y == x then b else Left(t, y);
  }

  lemma NoZeroLeaf(t: Tree, z: Pid)
    requires Inv(t) && IsLeaf(t, z)
    ensures z != 0
  {
    assert Typed(t);
  }

  /** The two leaves of a split root are linked right. */
  lemma RootLinks(s: State, tid: nat, v: Value, plan: SplitPlan, l: Pid, r: Pid)
    requires SysInv(s) && LeftDown(s.t) && Enabled(s, SplitRootLeaf(tid, v, plan, l, r))
    ensures LeftLinked(Do(s, SplitRootLeaf(tid, v, plan, l, r)).t)
  {
    hide Inv, Stores, GoodPlan, Standing, Installed, RootLeafSplit, ChaseRight, PendingOk;
    SplitDefined(s, tid, v, plan);
    RootAlone(s.t);
    LeafRootNoOrphans(s.t);
    RootIn(s.t);
    RootLeafSplitKeeps(s.t, l, r, Entry(s.threads[tid].key, v), plan, s.m);
  }

  lemma RootAlone(t: Tree)
    requires Inv(t) && LeftDown(t) && IsLeaf(t, t.root)
    ensures Left(t, t.root) == 0 && (forall z :: IsLeaf(t, z) ==> z == t.root) && LeftLinked(t)
  {
    LeafRootAlone(t);
  }

  /** Exactly the left links of `skew` are wrong. */
  ghost predicate SkewIs(t: Tree, skew: set<Pid>)
  {
    LeftDown(t) && forall y :: y in skew <==> IsLeaf(t, y) && !LeftOk(t, y)
  }

  lemma SkewLink(s: State, tid: nat, v: Value, plan: SplitPlan, r: Pid, skew: set<Pid>)
    requires SysInv(s) && Enabled(s, LinkSibling(tid, v, plan, r)) && SkewIs(s.t, skew)
    ensures SkewIs(Do(s, LinkSibling(tid, v, plan, r)).t, skew + {Right(s.t, s.threads[tid].at)} - {0})
  {
    hide Inv, Stores, PendingOk, ThreadsOk, Standing, GoodPlan, ChaseRight, LeftOk, LeftDown;
    SplitDefined(s, tid, v, plan);
    var z := s.threads[tid].at;
    var u := Installed(s.t, z, plan);
    InstalledLinks(s.t, z, plan);
    SameLinksOk(s.t, u);
    CutLinks(u, z, r, |plan.left|);
    SplitFrame(u, z, r, |plan.left|);
    SuccessorIn(s.t, z);
  }

  lemma InstalledLinks(t: Tree, z: Pid, plan: SplitPlan)
    requires IsLeaf(t, z) && plan.SplitPlan?
    ensures SameLinks(t, Installed(t, z, plan))
  {
  }

  lemma SuccessorIn(t: Tree, z: Pid)
    requires Inv(t) && IsLeaf(t, z)
    ensures Right(t, z) == 0 || IsLeaf(t, Right(t, z))
    ensures 0 !in t.pages
  {
    assert Typed(t);
    LinkedAt(t, z);
  }

  lemma SkewStep(s: State, a: Action, skew: set<Pid>)
    requires SysInv(s) && Enabled(s, a) && SkewIs(s.t, skew)
    ensures SkewIs(Do(s, a).t, SkewAfter(s, a, skew))
  {
    hide SysInv, LeftOk, LeftDown, Do;
    match a
    case LinkSibling(tid, v, plan, r) => SkewLink(s, tid, v, plan, r, skew);
    case Relink(leaf, back) => SkewRelink(s, leaf, back, skew);
    case SplitRootLeaf(tid, v, plan, l, r) => SkewRoot(s, tid, v, plan, l, r, skew);
    case _ =>
      SameLinksStep(s, a);
      SameLinksOk(s.t, Do(s, a).t);
  }

  lemma SkewRelink(s: State, leaf: Pid, back: Pid, skew: set<Pid>)
    requires SysInv(s) && Enabled(s, Relink(leaf, back)) && SkewIs(s.t, skew)
    ensures SkewIs(Do(s, Relink(leaf, back)).t, skew - {leaf})
  {
    hide Inv, Stores, PendingOk, ThreadsOk, LeftOk, LeftDown;
    RelinkLinks(s.t, leaf, back);
  }

  lemma SkewRoot(s: State, tid: nat, v: Value, plan: SplitPlan, l: Pid, r: Pid, skew: set<Pid>)
    requires SysInv(s) && Enabled(s, SplitRootLeaf(tid, v, plan, l, r)) && SkewIs(s.t, skew)
    ensures SkewIs(Do(s, SplitRootLeaf(tid, v, plan, l, r)).t, skew)
  {
    hide Stores, GoodPlan, Standing, Installed, RootLeafSplit, ChaseRight, PendingOk, ThreadsOk, LeftOk, LeftDown, Inv;
    var a := SplitRootLeaf(tid, v, plan, l, r);
    RootLinks(s, tid, v, plan, l, r);
    StepOk(s, a);
    LinkedIsDown(Do(s, a).t);
    SplitDefined(s, tid, v, plan);
    RootIn(s.t);
    RootLeafSplitPages(s.t, l, r, plan);
    RootAlone(s.t);
  }

  lemma InvLinked(t: Tree)
    requires Inv(t)
    ensures Linked(t)
  {
  }

  /** In every state of every run the left link of a leaf is right exactly if no split, finished or cut off by a
      crash, has left it to be corrected; and it always leads further left. */
  lemma {:induction false} EveryLeftLink(states: seq<State>, actions: seq<Action>, n: nat)
    requires IsRun(states, actions) && n < |states|
    ensures SkewIs(states[n].t, Skewed(states, actions, n))
    ensures LeftLinked(states[n].t) <==> Skewed(states, actions, n) == {}
    decreases n
  {
    hide SysInv, Enabled, Do, SkewIs, SkewAfter, LeftLinked;
    if n == 0 {
      FirstLinks(states[0]);
    } else {
      EveryLeftLink(states, actions, n - 1);
      RunOk(states, actions, n - 1);
      SkewStep(states[n - 1], actions[n - 1], Skewed(states, actions, n - 1));
    }
    NoSkew(states[n].t, Skewed(states, actions, n));
  }

  lemma NoSkew(t: Tree, skew: set<Pid>)
    requires SkewIs(t, skew)
    ensures LeftLinked(t) <==> skew == {}
  {
    hide LeftOk;
  }

  lemma FirstLinks(s: State)
    requires Init(s)
    ensures SkewIs(s.t, {})
  {
  }

  /** Between the image that links a sibling and the one that relinks its successor, every descending scan that does
      not start at the sibling misses its entries. */
  lemma LinkHides(s: State, tid: nat, v: Value, plan: SplitPlan, r: Pid, z: Pid, i: nat)
    requires SysInv(s) && LeftLinked(s.t) && Enabled(s, LinkSibling(tid, v, plan, r)) && i < |plan.right|
    requires IsLeaf(Do(s, LinkSibling(tid, v, plan, r)).t, z) && z != r
    ensures var s' := Do(s, LinkSibling(tid, v, plan, r));
      LeftDown(s'.t) && plan.right[i].key in s'.m && plan.right[i].key !in Seen(s'.t, s'.m, z)
  {
    hide Inv, Stores, PendingOk, ThreadsOk, Standing, GoodPlan, ChaseRight, LeftOk, LeftDown, LeftLinked, Seen,
      SplitLeaf;
    var s' := Do(s, LinkSibling(tid, v, plan, r));
    var x := s.threads[tid].at;
    var u := Installed(s.t, x, plan);
    SplitDefined(s, tid, v, plan);
    StepOk(s, LinkSibling(tid, v, plan, r));
    LinkedIsDown(s.t);
    InstalledLinks(s.t, x, plan);
    SameLinksOk(s.t, u);
    CutFrame(u, x, r, |plan.left|);
    CutDown(u, s'.t, x, r);
    NoLinkTo(u, s'.t, x, r);
    RightHalf(u, x, r, plan);
    Missed(s'.t, s'.m, z, r, i);
  }

  lemma NoLinkTo(t: Tree, t': Tree, x: Pid, r: Pid)
    requires LeftDown(t) && LinkCut(t, t', x, r)
    ensures forall y :: IsLeaf(t', y) ==> Left(t', y) != r
  {
  }

  lemma RightHalf(t: Tree, x: Pid, r: Pid, plan: SplitPlan)
    requires IsLeaf(t, x) && plan.SplitPlan? && Entries(t, x) == plan.left + plan.right
    ensures Entries(SplitLeaf(t, x, r, |plan.left|), r) == plan.right
  {
  }
}
