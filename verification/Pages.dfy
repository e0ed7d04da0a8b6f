/**
 Page contents as the B+tree sees them: a sorted leaf with its two sibling links,
 or an inner node of (separator, child) slots plus an upper child.  Byte layout is
 abstracted to the space each entry takes.
 */
module Pages {
  import opened Keys

  /** Page ids are positive; 0 means "no page". */
  type Pid = nat

  const PAGE_SIZE: nat := 64 * 1024
  const HEADER_SIZE: nat := 24
  const SLOT_SIZE: nat := 12
  const LEAF_SUFFIX: nat := 16
  const INNER_SUFFIX: nat := 8
  const LEAF_CAPACITY: nat := PAGE_SIZE - HEADER_SIZE - LEAF_SUFFIX
  const INNER_CAPACITY: nat := PAGE_SIZE - HEADER_SIZE - INNER_SUFFIX

  /** A node with more than this many free bytes is a merge candidate. */
  const UNDERFULL_THRESHOLD: nat := PAGE_SIZE * 60 / 100

  datatype Entry = Entry(key: Key, value: Value)
  datatype Slot = Slot(sep: Key, child: Pid)
  datatype Node =
    | Leaf(entries: seq<Entry>, left: Pid, right: Pid)
    | Inner(slots: seq<Slot>, upper: Pid)

  /** The child at edge position `i`; position `|slots|` is the upper edge. */
  function Child(n: Node, i: nat): Pid
    requires n.Inner? && i <= |n.slots|
  {
    if i < |n.slots| then n.slots[i].child else n.upper
  }

  // ----- space -----

  function EntryCost(e: Entry): (c: nat)
  {
    SLOT_SIZE + |e.key| + |e.value|
  }

  function SeparatorCost(sep: Key): (c: nat)
  {
    SLOT_SIZE + |sep| + 8
  }

  function LeafCost(es: seq<Entry>): (c: nat)
  {
    if |es| == 0 then 0 else EntryCost(es[0]) + LeafCost(es[1..])
  }

  function InnerCost(ss: seq<Slot>): (c: nat)
  {
    if |ss| == 0 then 0 else SeparatorCost(ss[0].sep) + InnerCost(ss[1..])
  }

  function NodeCost(n: Node): (c: nat)
  {
    if n.Leaf? then LeafCost(n.entries) else InnerCost(n.slots)
  }

  predicate Fits(n: Node)
  {
    NodeCost(n) <= if n.Leaf? then LEAF_CAPACITY else INNER_CAPACITY
  }

  /** Free bytes after compaction exceed the merge threshold. */
  predicate Underfull(n: Node)
  {
    (if n.Leaf? then LEAF_CAPACITY else INNER_CAPACITY) - NodeCost(n) > UNDERFULL_THRESHOLD
  }

  lemma {:induction false} LeafCostConcat(a: seq<Entry>, b: seq<Entry>)
    ensures LeafCost(a + b) == LeafCost(a) + LeafCost(b)
  {
    if |a| == 0 {
      assert a + b == b;
    } else {
      assert (a + b)[1..] == a[1..] + b;
      LeafCostConcat(a[1..], b);
    }
  }

  lemma {:induction false} InnerCostConcat(a: seq<Slot>, b: seq<Slot>)
    ensures InnerCost(a + b) == InnerCost(a) + InnerCost(b)
  {
    if |a| == 0 {
      assert a + b == b;
    } else {
      assert (a + b)[1..] == a[1..] + b;
      InnerCostConcat(a[1..], b);
    }
  }

  // ----- search -----

  function EntryKeys(es: seq<Entry>): (ks: seq<Key>)
  {
    seq(|es|, i requires 0 <= i < |es| => es[i].key)
  }

  function Separators(ss: seq<Slot>): (ks: seq<Key>)
  {
    seq(|ss|, i requires 0 <= i < |ss| => ss[i].sep)
  }

  /** What a search may rely on even when the keys are not sorted: the key just before the
      result is smaller, unless the result is itself an exact hit. */
  ghost predicate SafeBound(ks: seq<Key>, key: Key, pos: nat, exact: bool)
  {
    && pos <= |ks|
    && (exact ==> pos < |ks| && ks[pos] == key)
    && (!exact ==> (pos > 0 ==> Num(ks[pos - 1]) < Num(key)) && (pos < |ks| ==> Num(key) < Num(ks[pos])))
  }

  /** The binary search of a page between `lo` and `hi`; an exact hit returns at once. */
  function SearchFrom(ks: seq<Key>, key: Key, lo: nat, hi: nat): (r: (nat, bool))
    requires lo <= hi <= |ks|
    requires lo > 0 ==> Num(ks[lo - 1]) < Num(key)
    requires hi < |ks| ==> Num(key) < Num(ks[hi])
    ensures SafeBound(ks, key, r.0, r.1)
    decreases hi - lo
  {
    if lo == hi then (lo, false)
    else
      var mid := lo + (hi - lo) / 2;
      NumIsOrder(ks[mid], key);
      NumIsOrder(key, ks[mid]);
      if LexLess(ks[mid], key) then SearchFrom(ks, key, mid + 1, hi)
      else if LexLess(key, ks[mid]) then SearchFrom(ks, key, lo, mid)
      else (mid, true)
  }

  function LowerBound(ks: seq<Key>, key: Key): (r: (nat, bool))
    ensures SafeBound(ks, key, r.0, r.1)
  {
    SearchFrom(ks, key, 0, |ks|)
  }

  ghost predicate SortedKeys(ks: seq<Key>)
  {
    forall i, j :: 0 <= i < j < |ks| ==> Num(ks[i]) < Num(ks[j])
  }

  /** On sorted keys the search returns the insertion point, and says whether the key is there. */
  lemma LowerBoundSorted(ks: seq<Key>, key: Key)
    requires SortedKeys(ks)
    ensures var (pos, exact) := LowerBound(ks, key);
      && (forall i :: 0 <= i < pos ==> Num(ks[i]) < Num(key))
      && (forall i :: pos <= i < |ks| ==> Num(key) <= Num(ks[i]))
      && (exact <==> key in ks)
      && (exact ==> ks[pos] == key)
  {
    var (pos, exact) := LowerBound(ks, key);
    if exact {
      assert ks[pos] == key;
    }
  }

  /** The search as the page performs it. */
  method SearchPage(ks: seq<Key>, key: Key) returns (pos: nat, exact: bool)
    ensures (pos, exact) == LowerBound(ks, key)
  {
    var lo, hi := 0, |ks|;
    while lo < hi
      invariant 0 <= lo <= hi <= |ks|
      invariant lo > 0 ==> Num(ks[lo - 1]) < Num(key)
      invariant hi < |ks| ==> Num(key) < Num(ks[hi])
      invariant LowerBound(ks, key) == SearchFrom(ks, key, lo, hi)
    {
      var mid := lo + (hi - lo) / 2;
      NumIsOrder(ks[mid], key);
      NumIsOrder(key, ks[mid]);
      if LexLess(ks[mid], key) {
        lo := mid + 1;
      } else if LexLess(key, ks[mid]) {
        hi := mid;
      } else {
        return mid, true;
      }
    }
    return lo, false;
  }

  // ----- routing -----

  /** The edge a descent takes for `key`. */
  function Route(n: Node, key: Key): (i: nat)
    requires n.Inner?
    ensures i <= |n.slots|
  {
    LowerBound(Separators(n.slots), key).0
  }

  /** Whether a reader looking for `key` must move to the right sibling. */
  predicate ChaseRight(n: Node, key: Key)
    requires n.Leaf?
  {
    n.right != 0 && (|n.entries| == 0 || LexLess(n.entries[|n.entries| - 1].key, key))
  }
}
