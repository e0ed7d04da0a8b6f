/**
 Steps that rewrite one leaf's entries in place: insert, update and remove.
 */
module LeafSteps {
  import opened Keys
  import opened Pages
  import opened Trees

  function WithEntries(t: Tree, p: Pid, es: seq<Entry>): Tree
    requires IsLeaf(t, p)
  {
    t.(pages := t.pages[p := t.pages[p].(entries := es)])
  }

  /** Two trees with the same labels, edges and right links. */
  ghost predicate SameShape(t: Tree, t': Tree)
  {
    && t.pages.Keys == t'.pages.Keys && t.root == t'.root
    && t.lo == t'.lo && t.level == t'.level && t.orphans == t'.orphans
    && (forall p :: IsLeaf(t', p) <==> IsLeaf(t, p))
    && (forall p :: IsInner(t', p) <==> IsInner(t, p))
    && (forall p :: |Slots(t', p)| == |Slots(t, p)|)
    && (forall p, i :: Kid(t', p, i) == Kid(t, p, i))
    && (forall z :: Right(t', z) == Right(t, z))
  }

  lemma SameShapeLinks(t: Tree, t': Tree)
    requires SameShape(t, t') && Linked(t)
    ensures Linked(t')
  {
    forall z | IsLeaf(t', z)
      ensures NextLeaf(t', Lo(t', z), Right(t', z))
    {
      assert NextLeaf(t, Lo(t, z), Right(t, z));
    }
  }

  lemma SameShapeParents(t: Tree, t': Tree)
    requires SameShape(t, t') && Parented(t)
    ensures Parented(t')
  {
    forall c | c in t'.pages && c != t'.root && c !in t'.orphans
      ensures HasParent(t', c)
    {
      assert HasParent(t, c);
      var p, i :| Edge(t, p, i, c);
      assert Edge(t', p, i, c);
    }
    forall c, p, i | c in t'.orphans
      ensures !Edge(t', p, i, c)
    {
      assert !Edge(t, p, i, c);
    }
  }

  lemma SameShapeKids(t: Tree, t': Tree)
    requires SameShape(t, t') && Kids(t) && KidsUp(t)
    ensures Kids(t') && KidsUp(t')
  {
    forall p, i | IsInner(t', p) && 0 <= i <= |Slots(t', p)|
      ensures Kid(t', p, i) in t'.pages && Level(t', Kid(t', p, i)) + 1 == Level(t', p)
    {
      assert Kid(t, p, i) in t.pages && Level(t, Kid(t, p, i)) + 1 == Level(t, p);
    }
  }

  lemma SameShapeRest(t: Tree, t': Tree)
    requires SameShape(t, t') && Typed(t) && RootFirst(t) && Distinct(t)
    ensures Typed(t') && RootFirst(t') && Distinct(t')
  {
  }

  lemma SameShapeNests(t: Tree, t': Tree)
    requires SameShape(t, t') && Nested(t)
    ensures Nested(t')
  {
  }

  lemma SameShapeKeeps(t: Tree, t': Tree)
    requires SameShape(t, t') && Shaped(t)
    ensures Shaped(t')
  {
    SameShapeLinks(t, t');
    SameShapeParents(t, t');
    SameShapeKids(t, t');
    SameShapeRest(t, t');
    SameShapeNests(t, t');
  }

  /** New entries may go where every leaf to the left is smaller, up to the leaf's largest old key;
      only the last leaf may grow beyond it. */
  ghost predicate MayHold(t: Tree, p: Pid, es: seq<Entry>)
  {
    && (forall i, j :: 0 <= i < j < |es| ==> Num(es[i].key) < Num(es[j].key))
    && (forall i :: 0 <= i < |es| ==> AllBelow(t, Lo(t, p), Num(es[i].key)))
    && (Right(t, p) != 0 ==> forall i :: 0 <= i < |es| ==> Capped(t, p, es[i].key))
  }

  ghost predicate Capped(t: Tree, p: Pid, k: Key)
  {
    exists j :: 0 <= j < |Entries(t, p)| && Num(k) <= Num(Entries(t, p)[j].key)
  }

  /** `t'` differs from `t` only in the entries of leaf `p`. */
  ghost predicate Rewritten(t: Tree, t': Tree, p: Pid, es: seq<Entry>)
  {
    && t'.lo == t.lo
    && (forall z :: IsLeaf(t', z) <==> IsLeaf(t, z))
    && Entries(t', p) == es
    && (forall z :: z != p ==> Entries(t', z) == Entries(t, z))
  }

  lemma RewrittenSorted(t: Tree, t': Tree, p: Pid, es: seq<Entry>)
    requires Rewritten(t, t', p, es) && IsLeaf(t, p) && MayHold(t, p, es)
    requires SortedLeaves(t)
    ensures SortedLeaves(t')
  {
  }

  lemma RewrittenAcross(t: Tree, t': Tree, p: Pid, es: seq<Entry>)
    requires Rewritten(t, t', p, es) && IsLeaf(t, p) && MayHold(t, p, es)
    requires SortedAcross(t) && NextLeaf(t, Lo(t, p), Right(t, p))
    ensures SortedAcross(t')
  {
    forall y, z, i, j | Lo(t', y) < Lo(t', z) && 0 <= i < |Entries(t', y)| && 0 <= j < |Entries(t', z)|
      ensures Num(Entries(t', y)[i].key) < Num(Entries(t', z)[j].key)
    {
      if y == p {
        assert IsLeaf(t, z);
        assert Capped(t, p, es[i].key);
      } else if z == p {
        assert AllBelow(t, Lo(t, p), Num(es[j].key));
      } else {
        assert Num(Entries(t, y)[i].key) < Num(Entries(t, z)[j].key);
      }
    }
  }

  lemma RewrittenBelow(t: Tree, t': Tree, p: Pid, es: seq<Entry>, bound: real, z: Pid, x: real)
    requires Rewritten(t, t', p, es) && IsLeaf(t, p) && MayHold(t, p, es)
    requires NextLeaf(t, Lo(t, p), Right(t, p))
    requires IsLeaf(t, z) && Lo(t, z) == bound
    ensures AllBelow(t, bound, x) ==> AllBelow(t', bound, x)
    ensures AtMost(t, bound, x) ==> AtMost(t', bound, x)
  {
    forall y, j | Lo(t', y) < bound && 0 <= j < |Entries(t', y)|
      ensures AllBelow(t, bound, x) ==> Num(Entries(t', y)[j].key) < x
      ensures AtMost(t, bound, x) ==> Num(Entries(t', y)[j].key) <= x
    {
      if y == p {
        assert Capped(t, p, es[j].key);
      }
    }
  }

  lemma RewrittenSep(t: Tree, t': Tree, p: Pid, es: seq<Entry>, sep: Key, bound: real, z: Pid)
    requires Rewritten(t, t', p, es) && IsLeaf(t, p) && MayHold(t, p, es)
    requires NextLeaf(t, Lo(t, p), Right(t, p))
    requires IsLeaf(t, z) && Lo(t, z) == bound
    requires SepOk(t, sep, bound)
    ensures SepOk(t', sep, bound)
  {
    RewrittenBelow(t, t', p, es, bound, z, Num(sep));
    forall x | IsLeaf(t', x) && Lo(t', x) < bound
      ensures AllBelow(t', Lo(t', x), Num(sep))
    {
      assert AllBelow(t, Lo(t, x), Num(sep));
      RewrittenBelow(t, t', p, es, Lo(t, x), x, Num(sep));
    }
  }

  lemma WithEntriesFrame(t: Tree, p: Pid, es: seq<Entry>)
    requires IsLeaf(t, p)
    ensures SameShape(t, WithEntries(t, p, es)) && Rewritten(t, WithEntries(t, p, es), p, es)
    ensures forall q :: Slots(WithEntries(t, p, es), q) == Slots(t, q)
  {
  }

  lemma RewrittenRoutes(t: Tree, t': Tree, p: Pid, es: seq<Entry>)
    requires Rewritten(t, t', p, es) && IsLeaf(t, p) && MayHold(t, p, es)
    requires NextLeaf(t, Lo(t, p), Right(t, p))
    requires forall q :: Slots(t', q) == Slots(t, q)
    requires forall q, i :: Kid(t', q, i) == Kid(t, q, i)
    requires Typed(t) && Kids(t) && KidsUp(t) && Routed(t)
    ensures Routed(t')
  {
    forall q, i | 0 <= i < |Slots(t', q)|
      ensures SepOk(t', Slots(t', q)[i].sep, Lo(t', Kid(t', q, i + 1)))
    {
      var c := Kid(t, q, i + 1);
      assert SepOk(t, Slots(t, q)[i].sep, Lo(t, c));
      var z := LeftmostLeaf(t, c);
      RewrittenSep(t, t', p, es, Slots(t, q)[i].sep, Lo(t, c), z);
    }
  }

  /** Any rewrite of a leaf that `MayHold` allows keeps the whole invariant. */
  lemma WithEntriesKeeps(t: Tree, p: Pid, es: seq<Entry>)
    requires Inv(t) && IsLeaf(t, p) && MayHold(t, p, es)
    ensures Inv(WithEntries(t, p, es))
  {
    var t' := WithEntries(t, p, es);
    WithEntriesFrame(t, p, es);
    SameShapeKeeps(t, t');
    RewrittenSorted(t, t', p, es);
    LinkedAt(t, p);
    RewrittenAcross(t, t', p, es);
    RewrittenRoutes(t, t', p, es);
  }

  // ----- insert, update, remove -----

  function InsertedAt(es: seq<Entry>, pos: nat, e: Entry): seq<Entry>
    requires pos <= |es|
  {
    es[..pos] + [e] + es[pos..]
  }

  function RemovedAt(es: seq<Entry>, pos: nat): seq<Entry>
    requires pos < |es|
  {
    es[..pos] + es[pos + 1..]
  }

  lemma OldEntriesBelow(t: Tree, z: Pid, i: nat)
    requires SortedAcross(t) && i < |Entries(t, z)|
    ensures AllBelow(t, Lo(t, z), Num(Entries(t, z)[i].key))
  {
  }

  ghost predicate SortedEntries(es: seq<Entry>)
  {
    forall i, j :: 0 <= i < j < |es| ==> Num(es[i].key) < Num(es[j].key)
  }

  lemma InsertSorted(es: seq<Entry>, e: Entry, pos: nat)
    requires SortedEntries(es) && (pos, false) == LowerBound(EntryKeys(es), e.key)
    ensures SortedEntries(InsertedAt(es, pos, e))
  {
    hide LowerBound, Num, LexLess;
    var ks := EntryKeys(es);
    assert forall i :: 0 <= i < |es| ==> ks[i] == es[i].key;
    LowerBoundSorted(ks, e.key);
    forall i | 0 <= i < |es|
      ensures i < pos ==> Num(es[i].key) < Num(e.key)
      ensures pos <= i ==> Num(e.key) < Num(es[i].key)
    {
      assert ks[i] in ks;
      NumIsOrder(e.key, ks[i]);
    }
    InsertBetween(es, e, pos);
  }

  lemma InsertBetween(es: seq<Entry>, e: Entry, pos: nat)
    requires SortedEntries(es) && pos <= |es|
    requires forall i :: 0 <= i < pos ==> Num(es[i].key) < Num(e.key)
    requires forall i :: pos <= i < |es| ==> Num(e.key) < Num(es[i].key)
    ensures SortedEntries(InsertedAt(es, pos, e))
  {
    hide Num;
    var es' := InsertedAt(es, pos, e);
    assert forall i :: 0 <= i < pos ==> es'[i] == es[i];
    assert forall i :: pos < i < |es'| ==> es'[i] == es[i - 1];
  }

  /** The leaf where a search for an absent key stops can take the key at the search position. */
  lemma MayInsert(t: Tree, z: Pid, e: Entry, pos: nat)
    requires SortedLeaves(t) && SortedAcross(t) && IsLeaf(t, z)
    requires Standing(t, z, e.key) && !ChaseRight(t.pages[z], e.key)
    requires (pos, false) == LowerBound(EntryKeys(Entries(t, z)), e.key)
    ensures MayHold(t, z, InsertedAt(Entries(t, z), pos, e))
  {
    hide SortedLeaves, SortedAcross, AllBelow, LowerBound;
    var es := Entries(t, z);
    var es' := InsertedAt(es, pos, e);
    assert SortedEntries(es) by {
      EntriesSorted(t, z);
    }
    InsertSorted(es, e, pos);
    forall i | 0 <= i < |es'|
      ensures AllBelow(t, Lo(t, z), Num(es'[i].key))
      ensures Right(t, z) != 0 ==> Capped(t, z, es'[i].key)
    {
      if i != pos {
        var i' := if i < pos then i else i - 1;
        assert es'[i] == es[i'];
        OldEntriesBelow(t, z, i');
      } else if Right(t, z) != 0 {
        NumIsOrder(es[|es| - 1].key, e.key);
        assert Num(e.key) <= Num(Entries(t, z)[|es| - 1].key);
      }
    }
  }

  lemma EntriesSorted(t: Tree, z: Pid)
    requires SortedLeaves(t)
    ensures SortedEntries(Entries(t, z))
  {
  }

  lemma MayUpdate(t: Tree, z: Pid, pos: nat, v: Value)
    requires SortedLeaves(t) && SortedAcross(t) && pos < |Entries(t, z)|
    ensures MayHold(t, z, Entries(t, z)[pos := Entry(Entries(t, z)[pos].key, v)])
  {
    hide SortedAcross, AllBelow, Capped, Num;
    var es := Entries(t, z);
    forall i | 0 <= i < |es|
      ensures AllBelow(t, Lo(t, z), Num(es[i].key)) && Capped(t, z, es[i].key)
    {
      OldEntriesBelow(t, z, i);
      OldEntriesCapped(t, z, i);
    }
  }

  lemma OldEntriesCapped(t: Tree, z: Pid, i: nat)
    requires i < |Entries(t, z)|
    ensures Capped(t, z, Entries(t, z)[i].key)
  {
  }

  lemma MayRemove(t: Tree, z: Pid, pos: nat)
    requires SortedLeaves(t) && SortedAcross(t) && pos < |Entries(t, z)|
    ensures MayHold(t, z, RemovedAt(Entries(t, z), pos))
  {
    var es := Entries(t, z);
    var es' := RemovedAt(es, pos);
    assert forall i :: 0 <= i < |es'| ==> es'[i] == es[if i < pos then i else i + 1];
    forall i | 0 <= i < |es'|
      ensures AllBelow(t, Lo(t, z), Num(es'[i].key)) && Capped(t, z, es'[i].key)
    {
      var i' := if i < pos then i else i + 1;
      OldEntriesBelow(t, z, i');
      assert Num(es'[i].key) <= Num(Entries(t, z)[i'].key);
    }
  }

  /** A key occurs at most once. */
  lemma OneEntry(t: Tree, z: Pid, i: nat, y: Pid, j: nat)
    requires Typed(t) && Distinct(t) && SortedLeaves(t) && SortedAcross(t)
    requires i < |Entries(t, z)| && j < |Entries(t, y)| && Entries(t, z)[i].key == Entries(t, y)[j].key
    ensures z == y && i == j
  {
    assert IsLeaf(t, z) && IsLeaf(t, y);
    assert Lo(t, z) == Lo(t, y) ==> z == y;
  }

  lemma RewrittenHolds(t: Tree, t': Tree, p: Pid, es: seq<Entry>, e: Entry)
    requires Rewritten(t, t', p, es)
    ensures Holds(t', e) <==> e in es || HoldsElsewhere(t, p, e)
    ensures Holds(t, e) <==> e in Entries(t, p) || HoldsElsewhere(t, p, e)
  {
    if Holds(t', e) {
      var z, i :| 0 <= i < |Entries(t', z)| && Entries(t', z)[i] == e;
      assert z != p ==> Entries(t, z)[i] == e;
    }
    if e in es {
      var i :| 0 <= i < |es| && es[i] == e;
      assert Entries(t', p)[i] == e;
    }
    if HoldsElsewhere(t, p, e) {
      var z, i :| z != p && 0 <= i < |Entries(t, z)| && Entries(t, z)[i] == e;
      assert Entries(t', z)[i] == e;
    }
    if e in Entries(t, p) {
      var i :| 0 <= i < |Entries(t, p)| && Entries(t, p)[i] == e;
    }
  }

  ghost predicate HoldsElsewhere(t: Tree, p: Pid, e: Entry)
  {
    exists z, i :: z != p && 0 <= i < |Entries(t, z)| && Entries(t, z)[i] == e
  }

  lemma InsertStores(t: Tree, z: Pid, e: Entry, pos: nat, m: map<Key, Value>)
    requires IsLeaf(t, z) && pos <= |Entries(t, z)| && Stores(t, m) && e.key !in m
    ensures Stores(WithEntries(t, z, InsertedAt(Entries(t, z), pos, e)), m[e.key := e.value])
  {
    var es := Entries(t, z);
    var es' := InsertedAt(es, pos, e);
    var t' := WithEntries(t, z, es');
    WithEntriesFrame(t, z, es');
    forall x: Entry
      ensures Holds(t', x) <==> x.key in m[e.key := e.value] && m[e.key := e.value][x.key] == x.value
    {
      RewrittenHolds(t, t', z, es', x);
      assert x in es' <==> x == e || x in es by {
        assert es == es[..pos] + es[pos..];
      }
    }
  }

  lemma RemoveStores(t: Tree, z: Pid, pos: nat, m: map<Key, Value>)
    requires Typed(t) && Distinct(t) && SortedLeaves(t) && SortedAcross(t)
    requires IsLeaf(t, z) && pos < |Entries(t, z)| && Stores(t, m)
    ensures Stores(WithEntries(t, z, RemovedAt(Entries(t, z), pos)), m - {Entries(t, z)[pos].key})
  {
    var es := Entries(t, z);
    var es' := RemovedAt(es, pos);
    var t' := WithEntries(t, z, es');
    var k := es[pos].key;
    WithEntriesFrame(t, z, es');
    forall x: Entry
      ensures Holds(t', x) <==> x.key in m - {k} && m[x.key] == x.value
    {
      RewrittenHolds(t, t', z, es', x);
      AllButOne(es, pos, x);
      NoTwin(t, z, pos, x);
    }
  }

  /** No entry other than the one at `pos` has its key. */
  lemma NoTwin(t: Tree, z: Pid, pos: nat, x: Entry)
    requires Typed(t) && Distinct(t) && SortedLeaves(t) && SortedAcross(t)
    requires IsLeaf(t, z) && pos < |Entries(t, z)|
    ensures x.key == Entries(t, z)[pos].key ==>
      !HoldsElsewhere(t, z, x) && x !in RemovedAt(Entries(t, z), pos)
  {
    var es := Entries(t, z);
    var es' := RemovedAt(es, pos);
    if x.key == es[pos].key {
      if HoldsElsewhere(t, z, x) {
        var y, i :| y != z && 0 <= i < |Entries(t, y)| && Entries(t, y)[i] == x;
        OneEntry(t, z, pos, y, i);
      }
      forall i | 0 <= i < |es'|
        ensures es'[i] != x
      {
        assert es'[i] == Entries(t, z)[if i < pos then i else i + 1];
      }
    }
  }

  lemma AllButOne(es: seq<Entry>, pos: nat, x: Entry)
    requires pos < |es|
    ensures x in es <==> x == es[pos] || x in RemovedAt(es, pos)
  {
    assert es == es[..pos] + [es[pos]] + es[pos + 1..];
  }

  lemma UpdateStores(t: Tree, z: Pid, pos: nat, v: Value, m: map<Key, Value>)
    requires Typed(t) && Distinct(t) && SortedLeaves(t) && SortedAcross(t)
    requires IsLeaf(t, z) && pos < |Entries(t, z)| && Stores(t, m)
    ensures var k := Entries(t, z)[pos].key;
      Stores(WithEntries(t, z, Entries(t, z)[pos := Entry(k, v)]), m[k := v])
  {
    hide Typed, Distinct, SortedLeaves, SortedAcross, Rewritten, RemovedAt, HoldsElsewhere, Holds, SameShape,
      WithEntries;
    var es := Entries(t, z);
    var k := es[pos].key;
    var es' := es[pos := Entry(k, v)];
    var t' := WithEntries(t, z, es');
    WithEntriesFrame(t, z, es');
    RemovedSame(es, pos, Entry(k, v));
    forall x: Entry
      ensures Holds(t', x) <==> x.key in m[k := v] && m[k := v][x.key] == x.value
    {
      RewrittenHolds(t, t', z, es', x);
      AllButOne(es, pos, x);
      AllButOne(es', pos, x);
      NoTwin(t, z, pos, x);
      assert Holds(t, x) <==> x.key in m && m[x.key] == x.value;
    }
  }

  lemma RemovedSame(es: seq<Entry>, pos: nat, e: Entry)
    requires pos < |es|
    ensures RemovedAt(es[pos := e], pos) == RemovedAt(es, pos)
  {
  }
}
