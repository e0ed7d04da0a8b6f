/**
 Whole sequential histories of the tree, against a map from byte strings to byte strings.
 */
module Histories {
  import opened Keys
  import opened Pages
  import opened Trees
  import opened LeftLinks
  import opened Levels
  import opened Descents
  import opened Stale
  import opened Deletes
  import opened Room
  import opened Walks
  import opened SequentialTree

  /** One call.  A delete comes with the pages that are at hand for merging when it runs. */
  datatype Op =
    | Insert(key: Key, value: Value)
    | Upsert(key: Key, value: Value)
    | Remove(key: Key, here: set<Pid>)
    | Lookup(key: Key)

  datatype Answer = Changed(flag: bool) | Found(value: Option<Value>)

  /** What the operation does to a map. */
  function Step(m: map<Key, Value>, op: Op): map<Key, Value>
  {
    match op
    case Insert(k, v) => if k in m then m else m[k := v]
    case Upsert(k, v) => m[k := v]
    case Remove(k, _) => m - {k}
    case Lookup(_) => m
  }

  /** What the operation answers on a map. */
  function Reply(m: map<Key, Value>, op: Op): Answer
  {
    match op
    case Insert(k, _) => Changed(k !in m)
    case Upsert(k, _) => Changed(k !in m)
    case Remove(k, _) => Changed(k in m)
    case Lookup(k) => Found(MapGet(m, k))
  }

  function After(m: map<Key, Value>, ops: seq<Op>): map<Key, Value>
  {
    if |ops| == 0 then m else Step(After(m, ops[..|ops| - 1]), ops[|ops| - 1])
  }

  function Replies(m: map<Key, Value>, ops: seq<Op>): seq<Answer>
  {
    if |ops| == 0 then []
    else Replies(m, ops[..|ops| - 1]) + [Reply(After(m, ops[..|ops| - 1]), ops[|ops| - 1])]
  }

  /** The operation writes only a small entry, with a key of the width all keys have. */
  predicate SmallOp(op: Op, w: Limits)
  {
    (op.Insert? || op.Upsert?) ==> SmallEntry(Entry(op.key, op.value), w)
  }

  lemma Longer(m: map<Key, Value>, ops: seq<Op>, i: nat)
    requires i < |ops|
    ensures After(m, ops[..i + 1]) == Step(After(m, ops[..i]), ops[i])
    ensures Replies(m, ops[..i + 1]) == Replies(m, ops[..i]) + [Reply(After(m, ops[..i]), ops[i])]
  {
    assert ops[..i + 1][..i] == ops[..i];
  }

  /** The operation does something else on tree `t`, which stores `m`, than on the map: a delete of a stored key is
      stranded, or a write into a full leaf is. */
  ghost predicate Fails(t: Tree, m: map<Key, Value>, op: Op)
  {
    match op
    case Insert(k, v) => k !in m && Blocked(t, Entry(k, v)) && EntryCost(Entry(k, v)) <= LEAF_CAPACITY
    case Upsert(k, v) => Blocked(t, Entry(k, v)) && EntryCost(Entry(k, v)) <= LEAF_CAPACITY
    case Remove(k, _) => k in m && Stranded(t, k)
    case Lookup(_) => false
  }

  /** The operation panics on tree `t` if its keys are short: splits make no room for the entry, or a separator above
      the leaf of a deleted key overflows. */
  ghost predicate Panics(t: Tree, m: map<Key, Value>, op: Op)
    requires Inv(t)
  {
    match op
    case Insert(k, v) => k !in m && !RoomFor(StopEntries(t, k), Entry(k, v))
    case Upsert(k, v) => !RoomFor(StopEntries(t, k), Entry(k, v))
    case Remove(k, here) => k in m && !Stranded(t, k) && DeleteSticks(t, k, here)
    case Lookup(_) => false
  }

  /** Whether the write fails is decided only after it has split the leaf. */
  ghost predicate Undecided(t: Tree, op: Op)
  {
    Inv(t) && (op.Insert? || op.Upsert?) && Slips(t, Entry(op.key, op.value))
  }

  /** The operation, called on the tree `found` with contents `m`, failed on the tree `before` and left the tree
      `after`: a delete leaves it as it is, a write puts the entry into the empty leaf. */
  ghost predicate FailedOn(found: Tree, m: map<Key, Value>, op: Op, before: Tree, after: Tree)
  {
    && !op.Lookup? && Inv(before) && Stores(before, m) && Fails(before, m, op)
    && (before == found || Undecided(found, op))
    && if op.Remove? then after == before else Strayed(before, m, Entry(op.key, op.value), after)
  }

  /** The delete leaves an empty leaf in front of others, unless a merge takes it away. */
  ghost predicate Hollows(t: Tree, op: Op)
  {
    op.Remove? && Empties(t, op.key)
  }

  /** Runs one operation; `met` says that it failed, on the tree `before`, which is the one it started with unless the
      outcome was undecided there. */
  method Apply(tree: BTree, op: Op) returns (o: Outcome, answer: Answer, ghost before: Tree, ghost met: bool)
    requires tree.Settled()
    modifies tree
    ensures !met && o.Done? ==>
      && tree.Settled() && tree.contents == Step(old(tree.contents), op)
      && answer == Reply(old(tree.contents), op)
    ensures met ==> FailedOn(old(tree.t), old(tree.contents), op, before, tree.t)
    ensures Fails(old(tree.t), old(tree.contents), op) ==> met && before == old(tree.t)
    ensures met && op.Remove? ==> tree.Settled() && tree.contents == old(tree.contents)
    ensures met <==> o.Misplaced? || (o.Done? && answer != Reply(old(tree.contents), op))
    ensures old(NoHollow(tree.t)) ==> !met && (NoHollow(tree.t) || Hollows(old(tree.t), op))
    ensures old(Lean(tree.t)) ==> Lean(tree.t)
    ensures old(AllSmall(tree.pages, tree.limits)) && SmallOp(op, tree.limits) ==>
      && (o.Done? ==> AllSmall(tree.pages, tree.limits))
      && (!met ==> (o.Panicked? <==> Panics(old(tree.t), old(tree.contents), op)))
      && (tree.limits.light && (tree.limits.width > 0 || !op.Remove?) ==> !o.Panicked?)
  {
    hide Inv, LeftLinked, AllFit, AllSmall, Stores, Stranded, Blocked, Slips, NoHollow, SmallEntry, Strayed, RoomFor,
      StopEntries, DeleteSticks, Empties, Lean;
    before := tree.t;
    answer := Changed(false);
    if NoHollow(tree.t) {
      NoHollowNoStrand(tree.t, op.key);
    }
    match op
    case Insert(k, v) =>
      o, before := tree.Insert(k, v);
      met := o.Misplaced?;
      StrayedFrom(before, old(tree.contents), Entry(k, v), tree.t);
      answer := Changed(o.Done? && o.changed);
    case Upsert(k, v) =>
      o, before := tree.Upsert(k, v);
      met := o.Misplaced?;
      StrayedFrom(before, old(tree.contents), Entry(k, v), tree.t);
      answer := Changed(o.Done? && o.changed);
    case Remove(k, here) =>
      o := tree.Remove(k, here);
      met := o.Done? && o.changed != (k in old(tree.contents));
      answer := Changed(o.Done? && o.changed);
    case Lookup(k) =>
      var v := tree.Lookup(k);
      o, met := Done(false), false;
      answer := Found(v);
  }

  lemma StrayedFrom(before: Tree, m: map<Key, Value>, e: Entry, after: Tree)
    ensures Strayed(before, m, e, after) ==> Inv(before) && Stores(before, m)
  {
  }

  // ----- histories -----

  /** The trees of a history: `trees[i]` stores the map after `i` operations, and the next operation does not fail on
      it. Only a delete can make an empty leaf in front of others. */
  ghost predicate Traced(trees: seq<Tree>, model: map<Key, Value>, ops: seq<Op>)
  {
    && |trees| <= |ops| + 1
    && (forall i :: 0 <= i < |trees| ==> Inv(trees[i]) && Stores(trees[i], After(model, ops[..i])))
    && (forall i :: 0 <= i < |trees| - 1 ==>
          && !Fails(trees[i], After(model, ops[..i]), ops[i])
          && (NoHollow(trees[i]) ==> NoHollow(trees[i + 1]) || Hollows(trees[i], ops[i])))
  }

  /** None of the operations between the trees panics. */
  ghost predicate Calm(trees: seq<Tree>, model: map<Key, Value>, ops: seq<Op>)
    requires Traced(trees, model, ops)
  {
    forall i :: 0 <= i < |trees| - 1 ==> !Panics(trees[i], After(model, ops[..i]), ops[i])
  }

  lemma TraceOne(t: Tree, model: map<Key, Value>, ops: seq<Op>)
    requires Inv(t) && Stores(t, model)
    ensures Traced([t], model, ops)
  {
    hide Inv, Stores;
    assert ops[..0] == [];
  }

  lemma TraceMore(trees: seq<Tree>, t: Tree, model: map<Key, Value>, ops: seq<Op>, n: nat)
    requires Traced(trees, model, ops) && |trees| == n + 1 && n < |ops|
    requires Inv(t) && Stores(t, After(model, ops[..n + 1])) && !Fails(trees[n], After(model, ops[..n]), ops[n])
    requires NoHollow(trees[n]) ==> NoHollow(t) || Hollows(trees[n], ops[n])
    ensures Traced(trees + [t], model, ops)
    ensures Calm(trees, model, ops) && !Panics(trees[n], After(model, ops[..n]), ops[n]) ==>
      Calm(trees + [t], model, ops)
  {
    hide Inv, Stores, NoHollow, Fails, After, Panics, Hollows;
  }

  /** Without such a delete no leaf in front of others is ever empty. */
  lemma {:induction false} FirmTrace(trees: seq<Tree>, model: map<Key, Value>, ops: seq<Op>, i: nat)
    requires Traced(trees, model, ops) && i < |trees| && NoHollow(trees[0])
    requires forall j :: 0 <= j < i ==> !Hollows(trees[j], ops[j])
    ensures NoHollow(trees[i])
  {
    hide Inv, Stores, NoHollow, Fails, After, Hollows;
    if i > 0 {
      FirmTrace(trees, model, ops, i - 1);
    }
  }

  /** All entries, stored or to be written, keep to the limits. */
  ghost predicate Tame(pages: map<Pid, Node>, w: Limits, ops: seq<Op>)
  {
    AllSmall(pages, w) && forall i :: 0 <= i < |ops| ==> SmallOp(ops[i], w)
  }

  /** Runs a history beside a map, up to the first operation that answers differently or panics.  All answers before are
      those of the map, and if the history runs to its end so are the contents.  `trees` are the trees between the
      operations: an operation differs exactly if it fails on the tree it finds, or on the one its own split leaves, and
      that takes an earlier delete of the only key of a leaf. */
  method Run(tree: BTree, model: map<Key, Value>, ops: seq<Op>)
    returns (answers: seq<Answer>, met: bool, ghost before: Tree, ghost trees: seq<Tree>)
    requires tree.Settled() && tree.contents == model
    modifies tree
    ensures |answers| <= |ops| && answers == Replies(model, ops[..|answers|])
    ensures |trees| == |answers| + 1 && trees[0] == old(tree.t) && Traced(trees, model, ops)
    ensures |answers| == |ops| ==>
      !met && tree.Settled() && tree.contents == After(model, ops) && tree.t == trees[|answers|]
    ensures met ==>
      && |answers| < |ops|
      && FailedOn(trees[|answers|], After(model, ops[..|answers|]), ops[|answers|], before, tree.t)
    ensures |answers| < |ops| && Fails(trees[|answers|], After(model, ops[..|answers|]), ops[|answers|]) ==>
      met && before == trees[|answers|]
    ensures met && ops[|answers|].Remove? ==> tree.Settled() && tree.contents == After(model, ops[..|answers|])
    ensures old(NoHollow(tree.t)) && met ==> exists i :: 0 <= i < |answers| && Hollows(trees[i], ops[i])
    ensures old(Lean(tree.t)) ==> Lean(tree.t)
    ensures old(Tame(tree.pages, tree.limits, ops)) ==>
      && Calm(trees, model, ops)
      && (!met && |answers| < |ops| ==>
            && Panics(trees[|answers|], After(model, ops[..|answers|]), ops[|answers|])
            && !(tree.limits.light && (tree.limits.width > 0 || !ops[|answers|].Remove?)))
  {
    hide Inv, Stores, NoHollow, AllSmall, SmallOp, Step, Reply, BTree.Valid, Fails, FailedOn, After, Replies, Traced,
      Panics,
      Hollows, Calm, Lean;
    answers, met, before, trees := [], false, tree.t, [tree.t];
    var m := model;
    ghost var tame := Tame(tree.pages, tree.limits, ops);
    Nothing(model, ops);
    SettledStores(tree);
    TraceOne(tree.t, model, ops);
    CalmOne(tree.t, model, ops);
    for n := 0 to |ops|
      invariant |answers| == n && !met && tree.Settled()
      invariant |trees| == n + 1 && trees[0] == old(tree.t) && trees[n] == tree.t && Traced(trees, model, ops)
      invariant answers == Replies(model, ops[..n]) && tree.contents == m == After(model, ops[..n])
      invariant old(Lean(tree.t)) ==> Lean(tree.t)
      invariant tame ==> AllSmall(tree.pages, tree.limits) && Calm(trees, model, ops)
    {
      var o, answer, before', _ := Apply(tree, ops[n]);
      before := before';
      met := o.Misplaced? || (o.Done? && answer != Reply(m, ops[n]));
      if met || o.Panicked? {
        if NoHollow(trees[0]) && forall i :: 0 <= i < n ==> !Hollows(trees[i], ops[i]) {
          FirmTrace(trees, model, ops, n);
        }
        return;
      }
      m := Step(m, ops[n]);
      Longer(model, ops, n);
      SettledStores(tree);
      TraceMore(trees, tree.t, model, ops, n);
      answers := answers + [answer];
      trees := trees + [tree.t];
    }
    assert ops[..|ops|] == ops;
  }

  lemma SettledStores(tree: BTree)
    requires tree.Settled()
    ensures Inv(tree.t) && Stores(tree.t, tree.contents)
  {
  }

  lemma CalmOne(t: Tree, model: map<Key, Value>, ops: seq<Op>)
    requires Traced([t], model, ops)
    ensures Calm([t], model, ops)
  {
    hide Traced, Panics;
  }

  lemma Nothing(m: map<Key, Value>, ops: seq<Op>)
    ensures After(m, ops[..0]) == m && Replies(m, ops[..0]) == []
  {
  }
}
