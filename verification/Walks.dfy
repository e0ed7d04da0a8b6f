/**
 Lookups on bare pages, without the labels of a tree.

 Pages that satisfy no invariant can still be read: a lookup hops from page to page
 until the rules say stop.  This is how recovered pages are read, and the pages after a
 write that went to the wrong leaf.
 */
module Walks {
  import opened Keys
  import opened Pages
  import opened Trees
  import opened LeafSteps
  import opened Descents

  /** The pages contain the tree `u`, perhaps among others that nothing in it names. */
  ghost predicate Contains(pages: map<Pid, Node>, u: Tree)
  {
    forall p :: p in u.pages ==> p in pages && pages[p] == u.pages[p]
  }

  /** The page where a lookup on bare pages stops after at most `n` hops from `p`. */
  function Walk(pages: map<Pid, Node>, p: Pid, key: Key, n: nat): Option<Pid>
    decreases n
  {
    if p !in pages then None
    else if NextHop(pages[p], key) == 0 then Some(p)
    else if n == 0 then None
    else Walk(pages, NextHop(pages[p], key), key, n - 1)
  }

  /** A lookup on the bare pages from `p` ends at page `z`. */
  ghost predicate WalkEnds(pages: map<Pid, Node>, p: Pid, key: Key, z: Pid)
  {
    exists n: nat :: Walk(pages, p, key, n) == Some(z)
  }

  /** More hops do not change where a lookup stops. */
  lemma {:induction false} WalkStable(pages: map<Pid, Node>, p: Pid, key: Key, n: nat, k: nat)
    requires Walk(pages, p, key, n).Some? && Walk(pages, p, key, k).Some?
    ensures Walk(pages, p, key, n) == Walk(pages, p, key, k)
    decreases n
  {
    if NextHop(pages[p], key) != 0 {
      WalkStable(pages, NextHop(pages[p], key), key, n - 1, k - 1);
    }
  }

  /** A lookup on the bare pages ends, and with this answer. */
  ghost predicate LooksUp(pages: map<Pid, Node>, root: Pid, key: Key, answer: Option<Value>)
  {
    exists z :: WalkEnds(pages, root, key, z) && StopsWith(pages, z, key, answer)
  }

  ghost predicate StopsWith(pages: map<Pid, Node>, z: Pid, key: Key, answer: Option<Value>)
  {
    z in pages && pages[z].Leaf? && ValueIn(pages[z], key) == answer
  }

  /** A lookup ends at one page and has one answer. */
  lemma LooksUpOnce(pages: map<Pid, Node>, root: Pid, key: Key, a: Option<Value>, b: Option<Value>)
    requires LooksUp(pages, root, key, a) && LooksUp(pages, root, key, b)
    ensures a == b
  {
    hide Walk, ValueIn;
    var y: Pid :| WalkEnds(pages, root, key, y) && StopsWith(pages, y, key, a);
    var z: Pid :| WalkEnds(pages, root, key, z) && StopsWith(pages, z, key, b);
    var n: nat :| Walk(pages, root, key, n) == Some(y);
    var k: nat :| Walk(pages, root, key, k) == Some(z);
    WalkStable(pages, root, key, n, k);
  }

  /** A lookup on the bare pages follows the same hops as in the tree they contain. */
  lemma {:induction false} WalkFinds(pages: map<Pid, Node>, u: Tree, p: Pid, key: Key) returns (n: nat)
    requires Contains(pages, u) && Inv(u) && Standing(u, p, key)
    ensures Walk(pages, p, key, n) == Some(Locate(u, p, key))
    decreases Level(u, p), |LeavesAfter(u, Lo(u, p))|
  {
    hide Inv, AllBelow, NextHop;
    var h := NextHop(u.pages[p], key);
    if h == 0 {
      n := 0;
    } else {
      HopStands(u, p, key);
      n := WalkFinds(pages, u, h, key);
      n := n + 1;
    }
  }

  lemma RootReads(t: Tree, key: Key)
    requires Inv(t)
    ensures Standing(t, t.root, key)
  {
    RootStands(t, key);
  }

  /** Pages that contain a tree answer every lookup as the map the tree stores. */
  lemma LookupRecovered(pages: map<Pid, Node>, u: Tree, m: map<Key, Value>, key: Key)
    requires Contains(pages, u) && Inv(u) && Stores(u, m)
    ensures LooksUp(pages, u.root, key, MapGet(m, key))
  {
    hide Inv, Stores, Standing, Walk, ValueIn, ChaseRight;
    RootReads(u, key);
    var n := WalkFinds(pages, u, u.root, key);
    var z := Locate(u, u.root, key);
    StopAnswers(u, z, key, m);
    assert WalkEnds(pages, u.root, key, z);
    assert StopsWith(pages, z, key, MapGet(m, key));
  }

  // ----- an entry written into an empty leaf -----

  /** A reader for `key` at `p` comes past page `y`. */
  ghost predicate Passes(t: Tree, p: Pid, key: Key, y: Pid)
    requires Inv(t) && Standing(t, p, key)
    decreases Level(t, p), |LeavesAfter(t, Lo(t, p))|
  {
    var h := NextHop(t.pages[p], key);
    || p == y
    || (h != 0 && (HopStands(t, p, key); Passes(t, h, key, y)))
  }

  /** From the root. */
  ghost predicate Meets(t: Tree, key: Key, y: Pid)
    requires Inv(t)
  {
    RootStands(t, key);
    Passes(t, t.root, key, y)
  }

  /** A reader comes past the leaf that routing alone reaches. */
  lemma {:induction false} RoutePasses(t: Tree, p: Pid, key: Key)
    requires Inv(t) && p in t.pages && Standing(t, p, key)
    ensures Passes(t, p, key, InvRouteLeafFrom(t, p, key))
    decreases Level(t, p)
  {
    hide Inv, Standing, InvRouteLeafFrom, Route;
    RouteReader(t, p, key);
    if IsInner(t, p) {
      var h := NextHop(t.pages[p], key);
      NonzeroPage(t, h);
      RoutePasses(t, h, key);
    }
  }

  lemma NonzeroPage(t: Tree, p: Pid)
    requires Inv(t) && p in t.pages
    ensures p != 0
  {
    assert Typed(t);
  }

  lemma RouteMeets(t: Tree, key: Key)
    requires Inv(t)
    ensures Meets(t, key, InvRouteLeaf(t, key))
  {
    hide Inv, Standing, InvRouteLeaf, InvRouteLeafFrom, Passes;
    RootReader(t, key);
    RoutePasses(t, t.root, key);
  }

  /** What a lookup answers after `e` was written into the empty leaf `y` of a tree that stores `m`. */
  ghost function AnswerAfter(t: Tree, m: map<Key, Value>, y: Pid, e: Entry, key: Key): Option<Value>
    requires Inv(t)
  {
    if Meets(t, key, y) && !LexLess(e.key, key) then (if key == e.key then Some(e.value) else None)
    else MapGet(m, key)
  }

  /** Where a reader stops after the write: at the leaf it was written to, if the reader comes past it and its key is
      not larger, and where it stopped before otherwise. */
  lemma {:induction false} StopsAfterWrite(t: Tree, u: Tree, y: Pid, e: Entry, p: Pid, key: Key) returns (n: nat)
    requires Inv(t) && Standing(t, p, key) && IsLeaf(t, y) && Entries(t, y) == [] && Right(t, y) != 0
    requires u == WithEntries(t, y, [e])
    ensures Locate(t, p, key) != y
    ensures Walk(u.pages, p, key, n) ==
      Some(if Passes(t, p, key, y) && !LexLess(e.key, key) then y else Locate(t, p, key))
    decreases Level(t, p), |LeavesAfter(t, Lo(t, p))|
  {
    hide Inv, AllBelow, LexLess, Route;
    var h := NextHop(t.pages[p], key);
    if h == 0 {
      n := 0;
    } else {
      HopStands(t, p, key);
      n := StopsAfterWrite(t, u, y, e, h, key);
      n := n + 1;
      assert p != y ==> u.pages[p] == t.pages[p];
      assert p == y ==> u.pages[p] == Leaf([e], Left(t, y), Right(t, y));
    }
  }

  /** The tree `after` is `before` with the entry in the empty leaf where routing ends, and every lookup answers
      accordingly. */
  ghost predicate Strayed(before: Tree, m: map<Key, Value>, e: Entry, after: Tree)
  {
    && Inv(before) && Stores(before, m)
    && var y := InvRouteLeaf(before, e.key);
       && IsLeaf(before, y) && after == WithEntries(before, y, [e]) && Meets(before, e.key, y)
       && forall k :: LooksUp(after.pages, after.root, k, AnswerAfter(before, m, y, e, k))
  }

  /** The answer of every lookup after the write. */
  lemma AnswersAfterWrite(t: Tree, m: map<Key, Value>, y: Pid, e: Entry, key: Key)
    requires Inv(t) && Stores(t, m) && IsLeaf(t, y) && Entries(t, y) == [] && Right(t, y) != 0
    ensures LooksUp(WithEntries(t, y, [e]).pages, t.root, key, AnswerAfter(t, m, y, e, key))
  {
    hide Inv, Stores, Standing, Walk, Locate, Passes, LowerBound, ChaseRight, LexLess;
    var u := WithEntries(t, y, [e]);
    RootReads(t, key);
    var n := StopsAfterWrite(t, u, y, e, t.root, key);
    var z := Locate(t, t.root, key);
    StopAnswers(t, z, key, m);
    OneEntryAnswers(u.pages[y], e, key);
    var at := if Passes(t, t.root, key, y) && !LexLess(e.key, key) then y else z;
    assert WalkEnds(u.pages, t.root, key, at);
    assert u.pages[z] == t.pages[z];
    assert StopsWith(u.pages, at, key, AnswerAfter(t, m, y, e, key));
  }

  lemma OneEntryAnswers(n: Node, e: Entry, key: Key)
    requires n.Leaf? && n.entries == [e]
    ensures ValueIn(n, key) == if key == e.key then Some(e.value) else None
  {
    hide LowerBound;
    LowerBoundSorted(EntryKeys([e]), key);
    var (pos, exact) := LowerBound(EntryKeys([e]), key);
    assert EntryKeys([e]) == [e.key];
  }

  /** A stored key that is not found any more after the write. */
  ghost predicate Lost(t: Tree, m: map<Key, Value>, y: Pid, e: Entry, key: Key)
    requires Inv(t)
  {
    key in m && LexLess(key, e.key) && Meets(t, key, y)
  }

  /** The lookup is right after the write if and only if its key is not among the lost ones. */
  lemma RightUnlessLost(t: Tree, m: map<Key, Value>, y: Pid, e: Entry, key: Key)
    requires Inv(t) && Stores(t, m) && IsLeaf(t, y) && Entries(t, y) == [] && Right(t, y) != 0 && Meets(t, e.key, y)
    ensures LooksUp(WithEntries(t, y, [e]).pages, t.root, key, MapGet(m[e.key := e.value], key)) <==>
      !Lost(t, m, y, e, key)
  {
    hide Inv, Stores, Meets, LooksUp, LexLess, WithEntries;
    var pages := WithEntries(t, y, [e]).pages;
    AnswersAfterWrite(t, m, y, e, key);
    NumIsOrder(key, e.key);
    NumIsOrder(e.key, key);
    if LooksUp(pages, t.root, key, MapGet(m[e.key := e.value], key)) {
      LooksUpOnce(pages, t.root, key, MapGet(m[e.key := e.value], key), AnswerAfter(t, m, y, e, key));
    }
  }
}
