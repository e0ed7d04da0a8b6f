/**
 Whether splitting a leaf, as often as needed, makes room for an entry.
 */
module Room {
  import opened Keys
  import opened Pages
  import opened LeafSteps
  import opened Splits

  /** Splitting a leaf with entries `es`, as often as needed, ends with `e` in it. */
  predicate RoomFor(es: seq<Entry>, e: Entry)
    decreases |es|
  {
    || !SplitNeeded(es, e)
    || var plan := PlanLeafSplit(es, e);
       plan.SplitPlan? && (plan.installed || RoomFor(HalfFor(plan, e.key), e))
  }

  lemma RoomStep(es: seq<Entry>, e: Entry)
    ensures !SplitNeeded(es, e) ==> RoomFor(es, e)
    ensures SplitNeeded(es, e) ==> var plan := PlanLeafSplit(es, e);
      && (plan.SplitPanics? ==> !RoomFor(es, e))
      && (plan.SplitPlan? && plan.installed ==> RoomFor(es, e))
      && (plan.SplitPlan? && !plan.installed ==>
            |plan.left| > 0 && |HalfFor(plan, e.key)| < |es| && (RoomFor(es, e) <==> RoomFor(HalfFor(plan, e.key), e)))
  {
    hide SplitNeeded, LexLess, InstallIn;
  }

  /** No split makes room for an entry larger than a leaf. */
  lemma {:induction false} TooLarge(es: seq<Entry>, e: Entry)
    requires EntryCost(e) > LEAF_CAPACITY
    ensures !RoomFor(es, e)
    decreases |es|
  {
    hide LexLess, LeafCost, EntryCost, RoomFor, SplitNeeded;
    LargeSplits(es, e);
    RoomStep(es, e);
    if |es| > 2 {
      TooLarge(HalfFor(PlanLeafSplit(es, e), e.key), e);
    }
  }

  lemma LargeSplits(es: seq<Entry>, e: Entry)
    requires EntryCost(e) > LEAF_CAPACITY
    ensures SplitNeeded(es, e)
  {
    hide LowerBound, LeafCost, EntryCost;
    var (pos, exact) := LowerBound(EntryKeys(es), e.key);
    if exact {
      RemoveCost(es, pos);
    }
  }

  // ----- overwriting -----

  /** In a leaf of two entries there is no room to overwrite one if the new entry does not fit beside the other. */
  lemma OverwriteInPair(es: seq<Entry>, pos: nat, e: Entry)
    requires SortedEntries(es) && |es| == 2 && pos < 2 && es[pos].key == e.key
    ensures RoomFor(es, e) <==> EntryCost(es[1 - pos]) + EntryCost(e) <= LEAF_CAPACITY
  {
    hide LowerBound, Num, LexLess, LeafCost, EntryCost;
    KeyAt(es, pos, e);
    PairCost(es);
    if SplitNeeded(es, e) {
      NumIsOrder(e.key, es[1].key);
      NumIsOrder(es[0].key, e.key);
      NumIsOrder(es[1].key, e.key);
      if pos == 0 {
        KeyAt(es[..1], 0, e);
      } else {
        KeyAt(es[..2], 1, e);
      }
    }
  }

  /** A stored entry can be overwritten if the new one fits a leaf together with any other one of the leaf. */
  lemma {:induction false} OverwriteFits(es: seq<Entry>, pos: nat, e: Entry)
    requires SortedEntries(es) && pos < |es| && es[pos].key == e.key && EntryCost(e) <= LEAF_CAPACITY
    requires forall i :: 0 <= i < |es| && i != pos ==> EntryCost(es[i]) + EntryCost(e) <= LEAF_CAPACITY
    ensures RoomFor(es, e)
    decreases |es|
  {
    hide LowerBound, Num, LexLess, LeafCost, EntryCost, RoomFor, SplitNeeded, PlanLeafSplit;
    RoomStep(es, e);
    if SplitNeeded(es, e) {
      OverwriteSplits(es, pos, e);
      var plan := PlanLeafSplit(es, e);
      var h := |es| / 2 + 1;
      NumIsOrder(es[h - 1].key, e.key);
      if pos < h {
        OverwriteFits(es[..h], pos, e);
      } else {
        OverwriteFits(es[h..], pos - h, e);
      }
    }
  }

  lemma OverwriteSplits(es: seq<Entry>, pos: nat, e: Entry)
    requires SortedEntries(es) && pos < |es| && es[pos].key == e.key && EntryCost(e) <= LEAF_CAPACITY
    requires SplitNeeded(es, e)
    requires forall i :: 0 <= i < |es| && i != pos ==> EntryCost(es[i]) + EntryCost(e) <= LEAF_CAPACITY
    ensures |es| > 2 && PlanLeafSplit(es, e) == SplitPlan(es[..|es| / 2 + 1], es[|es| / 2 + 1..], false)
  {
    hide LowerBound, Num, LexLess, LeafCost, EntryCost;
    KeyAt(es, pos, e);
    if |es| == 1 {
      assert es == [es[0]];
      LeafCostOne(es[0]);
    } else if |es| == 2 {
      PairCost(es);
    }
  }

  lemma KeyAt(es: seq<Entry>, pos: nat, e: Entry)
    requires SortedEntries(es) && pos < |es| && es[pos].key == e.key
    ensures LowerBound(EntryKeys(es), e.key) == (pos, true)
  {
    hide LowerBound, LexLess;
    BoundMeans(es, e.key);
  }

  lemma PairCost(es: seq<Entry>)
    requires |es| == 2
    ensures LeafCost(es) == EntryCost(es[0]) + EntryCost(es[1])
  {
    assert es == [es[0]] + [es[1]];
    LeafCostConcat([es[0]], [es[1]]);
    LeafCostOne(es[0]);
    LeafCostOne(es[1]);
  }
}
