/**
 Walking the whole tree from its root with an explicit stack: finding the parent of
 a page by its identity, and collecting every reachable page.
 */
module Search {
  import opened Pages
  import opened Trees
  import opened EdgeSteps

  /** The children of a node in the order in which they are pushed. */
  function ReversedChildren(n: Node): (cs: seq<Pid>)
    requires n.Inner?
    ensures |cs| == |n.slots| + 1
    ensures forall j :: 0 <= j < |cs| ==> cs[j] == Child(n, |n.slots| - j)
  {
    seq(|n.slots| + 1, j requires 0 <= j <= |n.slots| => Child(n, |n.slots| - j))
  }

  /** The edge of `n` that names `c`: slots first, the upper edge last. */
  method ChildEdge(n: Node, c: Pid) returns (found: bool, i: nat)
    requires n.Inner?
    ensures found ==> i <= |n.slots| && Child(n, i) == c && forall j :: 0 <= j < i ==> Child(n, j) != c
    ensures !found ==> forall j :: 0 <= j <= |n.slots| ==> Child(n, j) != c
  {
    for pos := 0 to |n.slots|
      invariant forall j :: 0 <= j < pos ==> Child(n, j) != c
    {
      if n.slots[pos].child == c {
        return true, pos;
      }
    }
    return n.upper == c, |n.slots|;
  }

  ghost predicate NoDuplicates(s: seq<Pid>)
  {
    forall i, j :: 0 <= i < j < |s| ==> s[i] != s[j]
  }

  ghost predicate ParentIn(t: Tree, c: Pid, seen: set<Pid>)
  {
    exists p, i :: p in seen && Edge(t, p, i, c)
  }

  /** The state of a search for the parent of `l` that has looked at `seen` and still has `stack` to look at. */
  ghost predicate Frontier(t: Tree, l: Pid, seen: set<Pid>, stack: seq<Pid>)
  {
    && NoDuplicates(stack)
    && seen <= t.pages.Keys
    && (forall x :: x in stack ==> x in t.pages && x !in seen)
    && (t.root in seen || t.root in stack)
    && (forall c :: (c in seen || c in stack) && c != t.root ==> ParentIn(t, c, seen))
    && (forall p, i :: p in seen && Level(t, p) > Level(t, l) && 0 <= i <= |Slots(t, p)| ==>
          Kid(t, p, i) != l && (Kid(t, p, i) in seen || Kid(t, p, i) in stack))
  }

  lemma FrontierStart(t: Tree, l: Pid)
    requires t.root in t.pages
    ensures Frontier(t, l, {}, [t.root])
  {
  }

  /** Popping a page without looking below it is fine for leaves and for `l` itself. */
  lemma FrontierPop(t: Tree, l: Pid, seen: set<Pid>, stack: seq<Pid>)
    requires Frontier(t, l, seen, stack) && |stack| > 0
    requires Level(t, stack[|stack| - 1]) <= Level(t, l)
    ensures Frontier(t, l, seen + {stack[|stack| - 1]}, stack[..|stack| - 1])
  {
    hide ParentIn, NoDuplicates;
    var x := stack[|stack| - 1];
    var rest := stack[..|stack| - 1];
    assert stack == rest + [x];
    FrontierSplit(t, l, seen, rest, x);
    PopParents(t, seen, stack);
    assert forall y :: y in stack <==> y == x || y in rest;
    PopKids(t, l, seen, rest, x);
  }

  lemma PopKids(t: Tree, l: Pid, seen: set<Pid>, rest: seq<Pid>, x: Pid)
    requires Frontier(t, l, seen, rest + [x]) && Level(t, x) <= Level(t, l)
    ensures forall p, i :: p in seen + {x} && Level(t, p) > Level(t, l) && 0 <= i <= |Slots(t, p)| ==>
      Kid(t, p, i) != l && (Kid(t, p, i) in seen + {x} || Kid(t, p, i) in rest)
  {
    hide ParentIn, NoDuplicates, Level, Slots, Kid;
    assert forall y :: y in rest + [x] ==> y == x || y in rest;
  }

  /** Taking the top off the stack. */
  lemma FrontierSplit(t: Tree, l: Pid, seen: set<Pid>, rest: seq<Pid>, x: Pid)
    requires Frontier(t, l, seen, rest + [x])
    ensures x in t.pages && x !in seen && x !in rest && NoDuplicates(rest)
    ensures forall y :: y in rest ==> y in t.pages && y !in seen
  {
    var stack := rest + [x];
    assert stack[|rest|] == x;
    forall i | 0 <= i < |rest|
      ensures rest[i] != x && rest[i] in stack
    {
      assert stack[i] == rest[i];
    }
    forall i, j | 0 <= i < j < |rest|
      ensures rest[i] != rest[j]
    {
      assert stack[i] == rest[i] && stack[j] == rest[j];
    }
  }

  lemma PopParents(t: Tree, seen: set<Pid>, stack: seq<Pid>)
    requires |stack| > 0
    requires forall c :: (c in seen || c in stack) && c != t.root ==> ParentIn(t, c, seen)
    ensures forall c :: (c in seen || c in stack) && c != t.root ==> ParentIn(t, c, seen + {stack[|stack| - 1]})
  {
    forall c | (c in seen || c in stack) && c != t.root
      ensures ParentIn(t, c, seen + {stack[|stack| - 1]})
    {
      assert ParentIn(t, c, seen);
      var p, i :| p in seen && Edge(t, p, i, c);
      assert p in seen + {stack[|stack| - 1]};
    }
  }

  /** A child of a page that was not looked at yet is itself neither seen nor waiting. */
  lemma NewChild(t: Tree, l: Pid, seen: set<Pid>, stack: seq<Pid>, x: Pid, i: nat)
    requires Frontier(t, l, seen, stack) && Shaped(t) && IsInner(t, x) && i <= |Slots(t, x)| && x !in seen
    ensures var c := Kid(t, x, i); c in t.pages && c !in seen && c !in stack && c != t.root
  {
    var c := Kid(t, x, i);
    EdgeWithin(t, x, i);
    if c in seen || c in stack {
      assert ParentIn(t, c, seen);
      var p, j :| p in seen && Edge(t, p, j, c);
      UniqueParent(t, x, i, p, j, c);
    }
  }

  lemma ChildrenDistinct(t: Tree, x: Pid)
    requires KidsUp(t) && IsInner(t, x)
    ensures NoDuplicates(ReversedChildren(t.pages[x]))
  {
    var cs := ReversedChildren(t.pages[x]);
    forall i, j | 0 <= i < j < |cs|
      ensures cs[i] != cs[j]
    {
      assert cs[i] == Kid(t, x, |Slots(t, x)| - i) && cs[j] == Kid(t, x, |Slots(t, x)| - j);
    }
  }

  /** Popping an inner page that does not name `l` and pushing its children continues the search. */
  lemma FrontierPush(t: Tree, l: Pid, seen: set<Pid>, stack: seq<Pid>)
    requires Frontier(t, l, seen, stack) && Shaped(t) && |stack| > 0
    requires var x := stack[|stack| - 1]; IsInner(t, x) && forall i :: 0 <= i <= |Slots(t, x)| ==> Kid(t, x, i) != l
    ensures var x := stack[|stack| - 1];
      Frontier(t, l, seen + {x}, stack[..|stack| - 1] + ReversedChildren(t.pages[x]))
  {
    hide Frontier, Typed, Kids, RootFirst, Distinct, Nested, Parented, Linked, NoDuplicates;
    var x := stack[|stack| - 1];
    var rest := stack[..|stack| - 1];
    var cs := ReversedChildren(t.pages[x]);
    assert stack == rest + [x];
    FrontierSplit(t, l, seen, rest, x);
    forall j | 0 <= j < |cs|
      ensures cs[j] == Kid(t, x, |Slots(t, x)| - j)
      ensures cs[j] in t.pages && cs[j] !in seen && cs[j] !in stack && ParentIn(t, cs[j], seen + {x})
    {
      NewChild(t, l, seen, stack, x, |Slots(t, x)| - j);
      assert Edge(t, x, |Slots(t, x)| - j, cs[j]);
    }
    forall y | y in cs
      ensures y in t.pages && y !in seen && y !in rest && y != x && ParentIn(t, y, seen + {x})
    {
      var j :| 0 <= j < |cs| && cs[j] == y;
      assert y !in stack;
    }
    ChildrenDistinct(t, x);
    PushedChildren(t, x, cs);
    FrontierPushed(t, l, seen, rest, x, cs);
  }

  lemma PushedChildren(t: Tree, x: Pid, cs: seq<Pid>)
    requires IsInner(t, x) && |cs| == |Slots(t, x)| + 1
    requires forall j :: 0 <= j < |cs| ==> cs[j] == Kid(t, x, |Slots(t, x)| - j)
    ensures forall i :: 0 <= i <= |Slots(t, x)| ==> Kid(t, x, i) in cs
  {
    forall i | 0 <= i <= |Slots(t, x)|
      ensures Kid(t, x, i) in cs
    {
      assert cs[|Slots(t, x)| - i] == Kid(t, x, i);
    }
  }

  lemma FrontierPushed(t: Tree, l: Pid, seen: set<Pid>, rest: seq<Pid>, x: Pid, cs: seq<Pid>)
    requires Frontier(t, l, seen, rest + [x]) && IsInner(t, x)
    requires NoDuplicates(cs)
    requires forall y :: y in cs ==> y in t.pages && y !in seen && y !in rest && y != x && ParentIn(t, y, seen + {x})
    requires forall i :: 0 <= i <= |Slots(t, x)| ==> Kid(t, x, i) in cs && Kid(t, x, i) != l
    ensures Frontier(t, l, seen + {x}, rest + cs)
  {
    var stack := rest + [x];
    var stack' := rest + cs;
    FrontierSplit(t, l, seen, rest, x);
    assert stack[|stack| - 1] == x;
    assert forall y :: y in stack <==> y == x || y in rest;
    assert forall y :: y in stack' <==> y in rest || y in cs;
    PopParents(t, seen, stack);
    forall i, j | 0 <= i < j < |stack'|
      ensures stack'[i] != stack'[j]
    {
      assert stack'[i] == if i < |rest| then rest[i] else cs[i - |rest|];
      assert stack'[j] == if j < |rest| then rest[j] else cs[j - |rest|];
      assert j >= |rest| ==> stack'[j] in cs;
      assert i < |rest| ==> stack'[i] in rest;
    }
  }

  /** No orphan sits above level `k`, so every page above it hangs off the root. */
  ghost predicate OrphansBelow(t: Tree, k: nat)
  {
    forall c :: c in t.orphans ==> Level(t, c) <= k
  }

  lemma {:induction false} AboveIsSeen(t: Tree, l: Pid, seen: set<Pid>, q: Pid)
    requires Frontier(t, l, seen, []) && Shaped(t) && OrphansBelow(t, Level(t, l))
    requires q in t.pages && Level(t, q) > Level(t, l)
    ensures q in seen
    decreases Level(t, t.root) - Level(t, q)
  {
    if q != t.root {
      assert HasParent(t, q);
      var p, i :| Edge(t, p, i, q);
      EdgeWithin(t, p, i);
      AboveIsSeen(t, l, seen, p);
    }
  }

  /** A search for the parent of a parented page does not run dry. */
  lemma FrontierNotDone(t: Tree, l: Pid, seen: set<Pid>)
    requires Shaped(t) && OrphansBelow(t, Level(t, l))
    requires l in t.pages && l != t.root && l !in t.orphans
    ensures !Frontier(t, l, seen, [])
  {
    assert HasParent(t, l);
    var p, i :| Edge(t, p, i, l);
    EdgeWithin(t, p, i);
    if Frontier(t, l, seen, []) {
      AboveIsSeen(t, l, seen, p);
    }
  }

  lemma StackTop(t: Tree, l: Pid, seen: set<Pid>, stack: seq<Pid>)
    requires Frontier(t, l, seen, stack) && |stack| > 0 && Typed(t)
    ensures var x := stack[|stack| - 1]; x in t.pages && x !in seen && (IsLeaf(t, x) ==> Level(t, x) == 0)
  {
    assert stack == stack[..|stack| - 1] + [stack[|stack| - 1]];
    FrontierSplit(t, l, seen, stack[..|stack| - 1], stack[|stack| - 1]);
  }

  // ----- every page -----

  // ----- counting a level -----

  ghost function PagesAt(t: Tree, k: nat): set<Pid>
  {
    set p | p in t.pages && Level(t, p) == k
  }

  lemma {:induction false} InjectiveImage(s: set<Pid>, f: map<Pid, Pid>, d: set<Pid>)
    requires s <= f.Keys
    requires forall x, y :: x in s && y in s && f[x] == f[y] ==> x == y
    requires forall x :: x in s ==> f[x] in d
    ensures |s| <= |d|
    decreases |s|
  {
    if s != {} {
      var x :| x in s;
      InjectiveImage(s - {x}, f, d - {f[x]});
    }
  }

  /** Each node has its own leftmost child, and an orphan is nobody's: a level below an orphan is smaller. */
  lemma FewerAbove(t: Tree, k: nat, r: Pid)
    requires Shaped(t) && r in t.orphans && Level(t, r) == k
    ensures |PagesAt(t, k + 1)| < |PagesAt(t, k)|
  {
    hide Shaped, Level, Kid;
    var s := PagesAt(t, k + 1);
    var f := map p | p in s :: Kid(t, p, 0);
    forall p | p in s
      ensures f[p] in PagesAt(t, k) - {r}
    {
      FirstKidBelow(t, k, r, p);
    }
    forall p, q | p in s && q in s && f[p] == f[q]
      ensures p == q
    {
      FirstKidOnce(t, p, q);
    }
    InjectiveImage(s, f, PagesAt(t, k) - {r});
    OrphanAt(t, r);
  }

  lemma OrphanAt(t: Tree, r: Pid)
    requires Shaped(t) && r in t.orphans
    ensures r in PagesAt(t, Level(t, r))
  {
  }

  lemma FirstKidBelow(t: Tree, k: nat, r: Pid, p: Pid)
    requires Shaped(t) && r in t.orphans && p in t.pages && Level(t, p) == k + 1
    ensures Kid(t, p, 0) in PagesAt(t, k) - {r}
  {
    hide Linked, Nested, Distinct, RootFirst;
    assert IsInner(t, p);
    EdgeWithin(t, p, 0);
    assert !Edge(t, p, 0, r);
  }

  lemma FirstKidOnce(t: Tree, p: Pid, q: Pid)
    requires Shaped(t) && p in t.pages && q in t.pages && Level(t, p) > 0 && Level(t, q) > 0
    requires Kid(t, p, 0) == Kid(t, q, 0)
    ensures p == q
  {
    hide Linked, Nested, Distinct, RootFirst, Parented, Kids, KidsUp;
    assert IsInner(t, p) && IsInner(t, q);
    UniqueParent(t, p, 0, q, 0, Kid(t, p, 0));
  }
}
