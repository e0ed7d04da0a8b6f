/**
 Pages reachable from the root, by number of edges.
 */
module Reach {
  import opened Pages
  import opened Trees
  import opened EdgeSteps
  import opened Walks

  /** Page `p` is `n` child edges below the root. */
  ghost predicate Reaches(pages: map<Pid, Node>, root: Pid, p: Pid, n: nat)
    decreases n
  {
    if n == 0 then p == root
    else exists q, i :: Reaches(pages, root, q, n - 1) && ChildOf(pages, q, i, p)
  }

  ghost predicate ChildOf(pages: map<Pid, Node>, q: Pid, i: int, p: Pid)
  {
    q in pages && pages[q].Inner? && 0 <= i <= |pages[q].slots| && Child(pages[q], i) == p
  }

  ghost predicate Reachable(pages: map<Pid, Node>, root: Pid, p: Pid)
  {
    exists n: nat :: Reaches(pages, root, p, n)
  }

  lemma ReachChild(pages: map<Pid, Node>, root: Pid, q: Pid, i: nat, p: Pid)
    requires Reachable(pages, root, q) && ChildOf(pages, q, i, p)
    ensures Reachable(pages, root, p)
  {
    var n: nat :| Reaches(pages, root, q, n);
    assert Reaches(pages, root, p, n + 1);
  }

  lemma ReachedFrom(t: Tree, p: Pid, n: nat) returns (q: Pid, i: nat)
    requires Reaches(t.pages, t.root, p, n) && n > 0
    ensures Reaches(t.pages, t.root, q, n - 1) && ChildOf(t.pages, q, i, p)
  {
    q, i :| Reaches(t.pages, t.root, q, n - 1) && ChildOf(t.pages, q, i, p);
  }

  lemma RootOrBelow(t: Tree, p: Pid, n: nat)
    requires Inv(t) && Reaches(t.pages, t.root, p, n)
    ensures n == 0 ==> p == t.root && p in t.pages
    ensures IsLeaf(t, p) ==> Level(t, p) == 0
  {
    assert Typed(t);
  }

  lemma ChildIn(t: Tree, p: Pid, i: nat)
    requires Inv(t) && IsInner(t, p) && i <= |Slots(t, p)|
    ensures var c := Child(t.pages[p], i); c in t.pages && c != 0 && Level(t, c) + 1 == Level(t, p)
  {
    EdgeWithin(t, p, i);
    assert Typed(t) && Kid(t, p, i) == Child(t.pages[p], i);
  }

  /** Every path from the root to a page has the same length; for leaves it is the height of the tree. */
  lemma {:induction false} DepthIsHeight(t: Tree, p: Pid, n: nat)
    requires Inv(t) && Reaches(t.pages, t.root, p, n)
    ensures p in t.pages && Level(t, p) + n == Level(t, t.root)
    ensures IsLeaf(t, p) ==> n == Level(t, t.root)
    decreases n
  {
    hide Inv, Reaches;
    if n > 0 {
      var q, i := ReachedFrom(t, p, n);
      DepthIsHeight(t, q, n - 1);
      ChildIn(t, q, i);
    }
    RootOrBelow(t, p, n);
  }

  /** With no orphans, every page is reachable. */
  lemma {:induction false} AllReached(t: Tree, p: Pid)
    requires Inv(t) && t.orphans == {} && p in t.pages
    ensures Reachable(t.pages, t.root, p)
    decreases Level(t, t.root) - Level(t, p)
  {
    assert Typed(t) && Parented(t);
    if p == t.root {
      assert Reaches(t.pages, t.root, p, 0);
    } else {
      assert HasParent(t, p);
      var q, i :| Edge(t, q, i, p);
      EdgeWithin(t, q, i);
      assert Level(t, q) <= Level(t, t.root);
      AllReached(t, q);
      assert ChildOf(t.pages, q, i, p);
      ReachChild(t.pages, t.root, q, i, p);
    }
  }

  /** The state of the search for all pages: `seen` is done, `stack` is still to do. */
  ghost predicate Searching(pages: map<Pid, Node>, root: Pid, seen: set<Pid>, stack: seq<Pid>)
  {
    && (root in seen || root in stack)
    && (forall p :: p in seen || p in stack ==> p in pages && p != 0 && Reachable(pages, root, p))
    && (forall q, i, p :: q in seen && ChildOf(pages, q, i, p) ==> p in seen || p in stack)
  }

  lemma SearchStarts(t: Tree)
    requires Inv(t)
    ensures Searching(t.pages, t.root, {}, [t.root])
  {
    assert Typed(t);
    assert Reaches(t.pages, t.root, t.root, 0);
  }

  lemma SearchNonzero(pages: map<Pid, Node>, root: Pid, seen: set<Pid>, stack: seq<Pid>)
    requires Searching(pages, root, seen, stack) && |stack| > 0
    ensures stack[|stack| - 1] != 0
  {
    assert stack[|stack| - 1] in stack;
  }

  lemma SearchSkips(pages: map<Pid, Node>, root: Pid, seen: set<Pid>, stack: seq<Pid>)
    requires Searching(pages, root, seen, stack) && |stack| > 0 && stack[|stack| - 1] in seen
    ensures Searching(pages, root, seen, stack[..|stack| - 1])
  {
    assert stack == stack[..|stack| - 1] + [stack[|stack| - 1]];
  }

  /** The children of a page, from left to right. */
  function Children(n: Node): (cs: seq<Pid>)
    requires n.Inner?
    ensures |cs| == |n.slots| + 1 && forall i :: 0 <= i <= |n.slots| ==> cs[i] == Child(n, i)
  {
    seq(|n.slots| + 1, i requires 0 <= i <= |n.slots| => Child(n, i))
  }

  lemma SearchSteps(t: Tree, seen: set<Pid>, stack: seq<Pid>)
    requires Inv(t) && Searching(t.pages, t.root, seen, stack) && |stack| > 0
    ensures var p := stack[|stack| - 1];
      var rest := stack[..|stack| - 1];
      && p in t.pages
      && (t.pages[p].Leaf? ==> Searching(t.pages, t.root, seen + {p}, rest))
      && (t.pages[p].Inner? ==>
          && Searching(t.pages, t.root, seen + {p}, rest + Children(t.pages[p]))
          && (forall c :: c in Children(t.pages[p]) ==> c != 0))
  {
    hide Inv, Reachable;
    var p, rest := stack[|stack| - 1], stack[..|stack| - 1];
    assert stack == rest + [p] && p in stack;
    assert forall x :: x in stack <==> x == p || x in rest;
    assert forall q, i, c :: q in seen && ChildOf(t.pages, q, i, c) ==> c in seen + {p} || c in rest;
    if t.pages[p].Leaf? {
      assert forall i, c :: !ChildOf(t.pages, p, i, c);
    } else {
      var cs := Children(t.pages[p]);
      forall c | c in cs
        ensures c in t.pages && c != 0 && Reachable(t.pages, t.root, c)
      {
        var i :| 0 <= i < |cs| && cs[i] == c;
        ChildIn(t, p, i);
        assert ChildOf(t.pages, p, i, c);
        ReachChild(t.pages, t.root, p, i, c);
      }
      forall q, i, c | q in seen + {p} && ChildOf(t.pages, q, i, c)
        ensures c in seen + {p} || c in rest + cs
      {
        if q == p {
          assert cs[i] == c;
        }
      }
    }
  }

  /** A finished search has seen exactly the reachable pages. */
  lemma SearchEnds(pages: map<Pid, Node>, root: Pid, seen: set<Pid>)
    requires Searching(pages, root, seen, [])
    ensures forall p :: p in seen <==> Reachable(pages, root, p)
  {
    forall p | Reachable(pages, root, p)
      ensures p in seen
    {
      var n: nat :| Reaches(pages, root, p, n);
      ClosedHasAll(pages, root, seen, p, n);
    }
  }

  lemma {:induction false} ClosedHasAll(pages: map<Pid, Node>, root: Pid, seen: set<Pid>, p: Pid, n: nat)
    requires Searching(pages, root, seen, []) && Reaches(pages, root, p, n)
    ensures p in seen
    decreases n
  {
    if n > 0 {
      var q, i :| Reaches(pages, root, q, n - 1) && ChildOf(pages, q, i, p);
      ClosedHasAll(pages, root, seen, q, n - 1);
    }
  }

  /** Without orphans the reachable pages are all the pages. */
  lemma ReachableIsAll(t: Tree, seen: set<Pid>)
    requires Inv(t) && t.orphans == {} && (forall p :: p in seen <==> Reachable(t.pages, t.root, p))
    ensures seen == t.pages.Keys
  {
    forall p | p in t.pages
      ensures p in seen
    {
      AllReached(t, p);
    }
    forall p | p in seen
      ensures p in t.pages
    {
      var n: nat :| Reaches(t.pages, t.root, p, n);
      DepthIsHeight(t, p, n);
    }
  }

  lemma UpperDown(t: Tree, p: Pid)
    requires Inv(t) && p in t.pages
    ensures IsLeaf(t, p) <==> Level(t, p) == 0
    ensures IsInner(t, p) ==>
      t.pages[p].upper in t.pages && t.pages[p].upper != 0 && Level(t, t.pages[p].upper) + 1 == Level(t, p)
  {
    assert Typed(t);
    if IsInner(t, p) {
      EdgeWithin(t, p, |Slots(t, p)|);
    }
  }

  /** The pages reachable from the root. */
  ghost function ReachableSet(pages: map<Pid, Node>, root: Pid): set<Pid>
  {
    set p | p in pages && Reachable(pages, root, p)
  }

  lemma ReachedIn(t: Tree)
    requires Inv(t)
    ensures forall p: Pid :: Reachable(t.pages, t.root, p) ==> p in t.pages
  {
    hide Inv, Reaches;
    forall p: Pid | Reachable(t.pages, t.root, p)
      ensures p in t.pages
    {
      var n: nat :| Reaches(t.pages, t.root, p, n);
      DepthIsHeight(t, p, n);
    }
  }

  /** Pages that nothing links change nothing. */
  lemma LinkedOnly(pages: map<Pid, Node>, t: Tree)
    requires Inv(t) && Contains(pages, t)
    ensures forall p :: Reachable(pages, t.root, p) <==> Reachable(t.pages, t.root, p)
  {
    hide Inv;
    forall p, n: nat
      ensures Reaches(pages, t.root, p, n) <==> Reaches(t.pages, t.root, p, n)
    {
      LinkedReaches(pages, t, p, n);
    }
  }

  lemma {:induction false} LinkedReaches(pages: map<Pid, Node>, t: Tree, p: Pid, n: nat)
    requires Inv(t) && Contains(pages, t)
    ensures Reaches(pages, t.root, p, n) <==> Reaches(t.pages, t.root, p, n)
    decreases n
  {
    hide Inv;
    if n > 0 {
      forall q, i
        ensures Reaches(pages, t.root, q, n - 1) && ChildOf(pages, q, i, p) <==>
          Reaches(t.pages, t.root, q, n - 1) && ChildOf(t.pages, q, i, p)
      {
        LinkedReaches(pages, t, q, n - 1);
        if Reaches(t.pages, t.root, q, n - 1) {
          DepthIsHeight(t, q, n - 1);
        }
      }
    }
  }
}
