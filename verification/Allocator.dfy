/**
 The sharded free-page allocator.  Every call is one atomic step.

 A page below the global cursor is in exactly one of four places: live, in a hot bucket
 of some shard, in the central free list, or in the reserved tail of some shard.
 */
module Allocator {
  import opened Extents
  import opened Shards

  const HOT_REFILL_BATCH: nat := 8
  const MONOTONIC_REFILL_BASE_PAGES: nat := 256

  // ----- the central free list -----

  class CentralInner {
    var byStart: map<nat, nat>
    var freeBasePages: nat

    ghost predicate Valid()
      reads this
    {
      CentralOk(byStart) && freeBasePages == |FreeSet(byStart)|
    }

    constructor ()
      ensures Valid() && byStart == map[]
    {
      byStart, freeBasePages := map[], 0;
      new;
      assert FreeSet(map[]) == {};
    }

    /** Adds an extent and merges it with the runs it touches.  Fails exactly if some page is already there. */
    method Insert(extent: Extent) returns (ok: bool)
      requires Valid() && extent.start > 0 && extent.len > 0
      modifies this
      ensures Valid()
      ensures ok <==> old(FreeSet(byStart)) !! PagesOf(extent)
      ensures ok ==> FreeSet(byStart) == old(FreeSet(byStart)) + PagesOf(extent)
      ensures !ok ==> unchanged(this)
    {
      hide FreeSet, Run, CentralOk, Beside;
      var start, end := extent.start, extent.start + extent.len;
      var c := byStart;
      var hasPrev, prev := LastAtMost(byStart, start);
      if hasPrev {
        if prev + byStart[prev] > start {
          OverlapAt(byStart, prev, extent, start);
          return false;
        }
        if prev + byStart[prev] == start {
          start := prev;
          c := c - {prev};
        }
      }
      var hasNext, next := FirstAtLeast(c, start);
      NextIsBehind(byStart, extent, hasPrev, prev, c, start, hasNext, next);
      if hasNext {
        if end > next {
          Positive(byStart, next);
          OverlapAt(byStart, next, extent, next);
          return false;
        }
        if end == next {
          end := next + c[next];
          c := c - {next};
        }
      }
      FoundBeside(byStart, extent, hasPrev, prev, start, hasNext, next, end);
      JoinedOk(byStart, extent, start, end);
      assert c[start := end - start] == Joined(byStart, extent, start, end);
      byStart := c[start := end - start];
      freeBasePages := freeBasePages + extent.len;
      ok := true;
    }

    /** Takes the head of the shortest run that is long enough. */
    method AllocateBestFit(len: nat) returns (r: Option<Extent>)
      requires Valid() && len > 0
      modifies this
      ensures Valid()
      ensures r.None? <==> forall s :: s in old(byStart) ==> old(byStart)[s] < len
      ensures r.None? ==> unchanged(this)
      ensures r.Some? ==>
        && r.value.len == len && r.value.start > 0 && r.value.start in old(byStart)
        && len <= old(byStart)[r.value.start]
        && (forall s :: s in old(byStart) && len <= old(byStart)[s] ==> Fitter(old(byStart), r.value.start, s))
        && PagesOf(r.value) <= old(FreeSet(byStart)) && FreeSet(byStart) == old(FreeSet(byStart)) - PagesOf(r.value)
    {
      hide FreeSet, Run, Fitter;
      var found, k := BestFit(byStart, len);
      if !found {
        return None;
      }
      var whole := byStart[k];
      HeadTaken(byStart, k, len);
      byStart := byStart - {k};
      if whole > len {
        byStart := byStart[k + len := whole - len];
      }
      freeBasePages := freeBasePages - len;
      r := Some(Extent(k, len));
    }
  }

  lemma Positive(c: map<nat, nat>, s: nat)
    requires CentralOk(c) && s in c
    ensures c[s] > 0 && s > 0
  {
  }

  lemma OverlapAt(c: map<nat, nat>, s: nat, extent: Extent, p: nat)
    requires s in c && s <= p < s + c[s] && extent.start <= p < extent.start + extent.len
    ensures !(FreeSet(c) !! PagesOf(extent))
  {
    assert p in RunAt(c, s);
    assert p in FreeSet(c) && p in PagesOf(extent);
  }

  /** With a joined predecessor taken out, the first run from its start on is the first behind the extent's start. */
  lemma NextIsBehind(c0: map<nat, nat>, extent: Extent, hasPrev: bool, prev: nat, c: map<nat, nat>, start: nat,
                     hasNext: bool, next: nat)
    requires CentralOk(c0) && extent.len > 0
    requires hasPrev <==> exists s :: s in c0 && s <= extent.start
    requires hasPrev ==>
      && prev in c0 && prev <= extent.start && prev + c0[prev] <= extent.start
      && forall s :: s in c0 && s <= extent.start ==> s <= prev
    requires var joined := hasPrev && prev + c0[prev] == extent.start;
      start == (if joined then prev else extent.start) && c == (if joined then c0 - {prev} else c0)
    requires hasNext <==> exists s :: s in c && start <= s
    requires hasNext ==> next in c && start <= next && forall s :: s in c && start <= s ==> next <= s
    ensures hasNext <==> exists s :: s in c0 && extent.start < s
    ensures hasNext ==>
      next in c0 && c[next] == c0[next] && extent.start < next && forall s :: s in c0 && extent.start < s ==> next <= s
  {
    forall s | s in c && start <= s
      ensures extent.start < s
    {
      assert s <= extent.start ==> s <= prev;
      assert s in c0 && prev in c0 && hasPrev ==> c0[prev] > 0;
    }
    forall s | s in c0 && extent.start < s
      ensures s in c && start <= s
    {
    }
  }

  // ----- set algebra -----

  lemma TakeHead(free: set<nat>, whole: set<nat>, head: set<nat>, tail: set<nat>)
    requires whole <= free && whole == head + tail && head !! tail
    ensures head <= free && (free - whole) + tail == free - head && |free - head| == |free| - |head| && |free| >= |head|
    ensures tail == {} ==> free - whole == free - head
  {
    SizeOf(free, head);
    if tail == {} {
      assert whole == head;
    }
  }

  lemma SizeOf(free: set<nat>, head: set<nat>)
    requires head <= free
    ensures |free - head| == |free| - |head|
  {
    assert free == (free - head) + head;
  }

  /** Removing the neighbours of an extent and adding the joined run adds the extent. */
  lemma JoinRuns(free: set<nat>, before: set<nat>, extent: set<nat>, after: set<nat>)
    requires before <= free && after <= free && free !! extent
    ensures (free - before - after) + (before + extent + after) == free + extent && |free + extent| == |free| + |extent|
  {
  }

  /** The runs beside an extent: what is joined before and behind it. */
  ghost predicate Beside(c0: map<nat, nat>, extent: Extent, start: nat, end: nat)
  {
    && 0 < start <= extent.start && extent.start + extent.len <= end
    && (start < extent.start ==> start in c0 && start + c0[start] == extent.start)
    && (end > extent.start + extent.len ==>
          extent.start + extent.len in c0 && extent.start + extent.len + c0[extent.start + extent.len] == end)
    && (forall t :: t in c0 ==> t == start || t == extent.start + extent.len || t + c0[t] < start || end < t)
    && (start == extent.start ==> start !in c0) && (end == extent.start + extent.len ==> end !in c0)
  }

  /** The map with an extent joined to the runs beside it. */
  function Joined(c0: map<nat, nat>, extent: Extent, start: nat, end: nat): map<nat, nat>
  {
    (c0 - {start, extent.start + extent.len})[start := if end > start then end - start else 0]
  }

  /** Joining keeps the runs separated and adds exactly the pages of the extent. */
  lemma JoinedOk(c0: map<nat, nat>, extent: Extent, start: nat, end: nat)
    requires CentralOk(c0) && extent.len > 0 && Beside(c0, extent, start, end)
    ensures var d := Joined(c0, extent, start, end);
      && CentralOk(d) && FreeSet(c0) !! PagesOf(extent)
      && FreeSet(d) == FreeSet(c0) + PagesOf(extent) && |FreeSet(d)| == |FreeSet(c0)| + extent.len
  {
    hide FreeSet, Run, CentralOk, Beside, RunAt, Joined;
    var mid, stop := extent.start, extent.start + extent.len;
    var c1 := c0 - {start};
    var c2 := c1 - {stop};
    BesideRuns(c0, extent, start, end, c1, c2);
    Without(c0, start);
    Without(c1, stop);
    AddRun(c2, start, end - start);
    NothingBetween(c0, extent, start, end);
    JoinedPages(FreeSet(c0), FreeSet(c2), start, mid, stop, end);
  }

  lemma JoinedPages(free: set<nat>, rest: set<nat>, start: nat, mid: nat, stop: nat, end: nat)
    requires start <= mid <= stop <= end && free !! Run(mid, stop)
    requires Run(start, mid) <= free && Run(stop, end) <= free - Run(start, mid)
    requires rest == free - Run(start, mid) - Run(stop, end)
    ensures rest + Run(start, end) == free + Run(mid, stop) && |free + Run(mid, stop)| == |free| + (stop - mid)
  {
    hide Run;
    RunSplit(start, mid, stop);
    RunSplit(start, stop, end);
    RunSize(mid, stop);
    JoinRuns(free, Run(start, mid), Run(mid, stop), Run(stop, end));
  }

  lemma Without(c: map<nat, nat>, s: nat)
    requires CentralOk(c)
    ensures CentralOk(c - {s}) && FreeSet(c - {s}) == FreeSet(c) - RunAt(c, s) && RunAt(c, s) <= FreeSet(c)
  {
    hide FreeSet, Run, CentralOk;
    if s in c {
      RemoveRun(c, s);
    } else {
      assert c - {s} == c;
    }
  }

  lemma BesideRuns(c0: map<nat, nat>, extent: Extent, start: nat, end: nat, c1: map<nat, nat>, c2: map<nat, nat>)
    requires CentralOk(c0) && extent.len > 0 && Beside(c0, extent, start, end)
    requires c1 == c0 - {start} && c2 == c1 - {extent.start + extent.len}
    ensures var stop := extent.start + extent.len;
      && 0 < start <= extent.start < stop <= end
      && RunAt(c0, start) == Run(start, extent.start) && RunAt(c1, stop) == Run(stop, end)
      && start !in c2 && (forall t :: t in c2 ==> t + c2[t] < start || start + (end - start) < t)
      && c2[start := end - start] == Joined(c0, extent, start, end)
  {
    hide Run, CentralOk;
    EmptyRun(extent.start);
    EmptyRun(end);
    assert c2 == c0 - {start, extent.start + extent.len};
  }

  lemma EmptyRun(a: nat)
    ensures Run(a, a) == {}
  {
  }

  lemma NothingBetween(c0: map<nat, nat>, extent: Extent, start: nat, end: nat)
    requires CentralOk(c0) && extent.len > 0 && Beside(c0, extent, start, end)
    ensures FreeSet(c0) !! PagesOf(extent)
  {
    forall p: nat | p in FreeSet(c0)
      ensures p !in PagesOf(extent)
    {
      var s :| s in c0 && p in RunAt(c0, s);
    }
  }

  lemma HeadTaken(c: map<nat, nat>, k: nat, len: nat)
    requires CentralOk(c) && k in c && 0 < len <= c[k]
    ensures var d := if c[k] > len then (c - {k})[k + len := c[k] - len] else c - {k};
      && CentralOk(d) && PagesOf(Extent(k, len)) <= FreeSet(c) && FreeSet(d) == FreeSet(c) - PagesOf(Extent(k, len))
      && |FreeSet(c)| >= len && |FreeSet(d)| == |FreeSet(c)| - len
  {
    hide FreeSet, Run, CentralOk;
    var d := if c[k] > len then (c - {k})[k + len := c[k] - len] else c - {k};
    var free, whole, head, tail := FreeSet(c), Run(k, k + c[k]), Run(k, k + len), Run(k + len, k + c[k]);
    RemoveRun(c, k);
    TailLeft(c, k, len, d);
    RunSplit(k, k + len, k + c[k]);
    RunSize(k, k + len);
    TakeHead(free, whole, head, tail);
  }

  lemma TailLeft(c: map<nat, nat>, k: nat, len: nat, d: map<nat, nat>)
    requires CentralOk(c) && k in c && 0 < len <= c[k]
    requires d == if c[k] > len then (c - {k})[k + len := c[k] - len] else c - {k}
    ensures CentralOk(d) && FreeSet(d) == FreeSet(c - {k}) + Run(k + len, k + c[k])
  {
    hide FreeSet, Run, CentralOk;
    RemoveRun(c, k);
    if c[k] > len {
      TailApart(c, k, len);
      AddRun(c - {k}, k + len, c[k] - len);
    } else {
      EmptyRun(k + len);
    }
  }

  lemma TailApart(c: map<nat, nat>, k: nat, len: nat)
    requires CentralOk(c) && k in c && 0 < len < c[k]
    ensures k + len !in c - {k} && forall t :: t in c - {k} ==> t + c[t] < k + len || k + c[k] < t
  {
    forall t | t in c - {k}
      ensures t != k + len && (t + c[t] < k + len || k + c[k] < t)
    {
      assert t < k ==> t + c[t] < k;
      assert k < t ==> k + c[k] < t;
    }
  }

  /** What the two searches of an insert find is what lies beside the extent. */
  lemma FoundBeside(c0: map<nat, nat>, extent: Extent, hasPrev: bool, prev: nat, start: nat, hasNext: bool, next: nat,
                    end: nat)
    requires CentralOk(c0) && extent.start > 0 && extent.len > 0
    requires hasPrev <==> exists s :: s in c0 && s <= extent.start
    requires hasPrev ==>
      && prev in c0 && prev <= extent.start && prev + c0[prev] <= extent.start
      && forall s :: s in c0 && s <= extent.start ==> s <= prev
    requires start == if hasPrev && prev + c0[prev] == extent.start then prev else extent.start
    requires hasNext <==> exists s :: s in c0 && extent.start < s
    requires hasNext ==>
      next in c0 && extent.start + extent.len <= next && forall s :: s in c0 && extent.start < s ==> next <= s
    requires end == if hasNext && extent.start + extent.len == next then next + c0[next] else extent.start + extent.len
    ensures Beside(c0, extent, start, end)
  {
    forall t | t in c0
      ensures t == start || t == extent.start + extent.len || t + c0[t] < start || end < t
    {
      if t <= extent.start {
        assert t <= prev;
        assert t < prev ==> t + c0[t] < prev;
      } else {
        assert next <= t;
        assert next < t ==> next + c0[next] < t;
      }
    }
  }

  // ----- which page is handed out -----

  /** The extent with which an empty shard is refilled: eight pages of the best-fitting run if there is one that
      long, else one page of the best-fitting run. */
  ghost predicate Refills(c: map<nat, nat>, e: Extent)
  {
    && e.len == (if exists s :: s in c && HOT_REFILL_BATCH <= c[s] then HOT_REFILL_BATCH else 1)
    && e.start in c && e.len <= c[e.start] && forall s :: s in c && e.len <= c[s] ==> Fitter(c, e.start, s)
  }

  /** Page `p` heads the first shard after `idx`, around the ring, that has an extent. */
  ghost predicate NextHead(ss: seq<Shard>, idx: nat, p: nat)
    requires |ss| > 0
  {
    exists k :: 0 < k < |ss| && HeadOf(ss[Around(idx, k, |ss|)], p)
      && forall j :: 0 <= j < k ==> AllCold(ss[Around(idx, j, |ss|)])
  }

  /** Page `p` heads the shard or, if it is empty, the extent that refills it. */
  ghost predicate LocalChoice(s: Shard, c: map<nat, nat>, p: nat)
  {
    if AllCold(s) then exists e :: Refills(c, e) && e.start == p else HeadOf(s, p)
  }

  /** The reusable page that goes first: the shard of the hint, then the central list, then the other shards. */
  ghost predicate Chosen(ss: seq<Shard>, c: map<nat, nat>, hint: nat, p: nat)
    requires |ss| > 0
  {
    var s := ss[hint % |ss|];
    if AllCold(s) && c == map[] then NextHead(ss, hint % |ss|, p) else LocalChoice(s, c, p)
  }

  /** The page that goes if none is reusable: the next one the shard has reserved, or the one at the cursor. */
  function Reserved(ss: seq<Shard>, hint: nat, cursor: nat): nat
    requires |ss| > 0
  {
    var s := ss[hint % |ss|];
    if s.next < s.end then s.next else cursor
  }

  // ----- the allocator -----

  class FreePageAllocator {
    var cursor: nat
    var shards: seq<Shard>
    const central: CentralInner
    ghost var live: set<nat>

    ghost predicate Shape()
      reads this, central
    {
      && |shards| > 0 && cursor > 0 && central.Valid()
      && (forall i :: 0 <= i < |shards| ==> ShardOk(shards[i]))
    }

    /** Pages that wait for reuse: in the central list or in a hot bucket. */
    ghost function Reusable(): multiset<nat>
      reads this, central
    {
      multiset(FreeSet(central.byStart)) + HotPages(shards)
    }

    /** Every page below the cursor, except the header page 0, is in exactly one place, once. */
    ghost predicate Accounted(inHand: multiset<nat>)
      reads this, central
    {
      multiset(live) + Reusable() + ReservedPages(shards) + inHand == multiset(Run(1, cursor))
    }

    ghost predicate Valid()
      reads this, central
    {
      Shape() && Accounted(multiset{})
    }

    constructor (nextPage: nat, shardCount: nat)
      requires nextPage > 0
      ensures Valid() && fresh(central) && cursor == nextPage && live == Run(1, nextPage)
      ensures |shards| == (if shardCount == 0 then 1 else shardCount) && Reusable() == multiset{}
      ensures forall i :: 0 <= i < |shards| ==> AllCold(shards[i]) && Run(shards[i].next, shards[i].end) == {}
    {
      cursor := nextPage;
      var n := if shardCount == 0 then 1 else shardCount;
      shards := seq(n, _ => Shard(seq(|HOT_BUCKET_LIMITS|, _ => []), 0, 0));
      central := new CentralInner();
      live := Run(1, nextPage);
      new;
      NewShards(shards);
      NoRuns();
      NothingElse(live);
    }

    /** Puts an extent into its hot bucket, or into the central list if it is too long. */
    method ReturnRemainder(idx: nat, e: Extent, ghost inHand: multiset<nat>)
      requires Shape() && idx < |shards| && e.start > 0 && e.len > 0
      requires Accounted(inHand + multiset(PagesOf(e)))
      modifies this, central
      ensures Shape() && |shards| == |old(shards)| && live == old(live) && cursor == old(cursor)
      ensures Reusable() == old(Reusable()) + multiset(PagesOf(e))
      ensures ReservedPages(shards) == old(ReservedPages(shards))
      ensures e.len <= 256 ==>
        shards == old(shards)[idx := Pushed(old(shards)[idx], e)] && central.byStart == old(central.byStart)
      ensures e.len > 256 ==>
        shards == old(shards) && FreeSet(central.byStart) == old(FreeSet(central.byStart)) + PagesOf(e)
      ensures forall i :: 0 <= i < |shards| ==>
        shards[i].next == old(shards)[i].next && shards[i].end == old(shards)[i].end
    {
      hide Run, FreeSet, HotPages, ReservedPages, PagesOf, CentralOk;
      var b := HotBucket(e.len);
      if b.Some? {
        PushPages(shards, idx, b.value, e);
        var s := shards[idx];
        shards := shards[idx := s.(buckets := s.buckets[b.value := s.buckets[b.value] + [e]])];
      } else {
        InHandIsApart(live, FreeSet(central.byStart), HotPages(shards), ReservedPages(shards), inHand, PagesOf(e),
          Run(1, cursor));
        var ok := central.Insert(e);
        assert ok;
        AddedCount(old(FreeSet(central.byStart)), PagesOf(e), HotPages(shards));
      }
    }

    /** Takes the oldest extent of the first bucket that has one. */
    method PopAny(idx: nat) returns (r: Option<Extent>, ghost b: nat)
      requires Shape() && idx < |shards|
      modifies this
      ensures Shape() && |shards| == |old(shards)| && live == old(live) && cursor == old(cursor)
      ensures r.None? ==> AllCold(shards[idx]) && shards == old(shards)
      ensures r.Some? ==>
        && FirstHot(old(shards)[idx], b) && r.value == old(shards)[idx].buckets[b][0]
        && shards == old(shards)[idx := Popped(old(shards)[idx], b)]
      ensures r.Some? ==>
        && r.value.start > 0 && 0 < r.value.len <= 256
        && Reusable() + multiset(PagesOf(r.value)) == old(Reusable())
      ensures ReservedPages(shards) == old(ReservedPages(shards))
      ensures forall i :: 0 <= i < |shards| ==>
        shards[i].next == old(shards)[i].next && shards[i].end == old(shards)[i].end
      ensures forall i :: 0 <= i < |shards| && i != idx ==> shards[i] == old(shards)[i]
    {
      hide Run, FreeSet, HotPages, ReservedPages, PagesOf, CentralOk;
      var s := shards[idx];
      for i := 0 to |HOT_BUCKET_LIMITS|
        invariant shards == old(shards) && s == shards[idx] && ShardOk(s)
        invariant Shape() && live == old(live) && cursor == old(cursor)
        invariant forall j :: 0 <= j < i ==> s.buckets[j] == []
      {
        if s.buckets[i] != [] {
          var e := s.buckets[i][0];
          PopPages(shards, idx, i);
          shards := shards[idx := s.(buckets := s.buckets[i := s.buckets[i][1..]])];
          PoppedCount(multiset(FreeSet(central.byStart)), HotPages(shards), multiset(PagesOf(e)));
          return Some(e), i;
        }
      }
      r, b := None, 0;
    }

    /** One page from the hot buckets of a shard. */
    method AllocateFromShard(idx: nat) returns (r: Option<nat>, ghost b: nat)
      requires Valid() && idx < |shards|
      modifies this, central
      ensures Shape() && |shards| == |old(shards)| && live == old(live) && cursor == old(cursor)
      ensures r.None? <==> AllCold(old(shards)[idx])
      ensures r.None? ==> shards == old(shards)
      ensures central.byStart == old(central.byStart)
      ensures r.Some? ==>
        && FirstHot(old(shards)[idx], b) && r.value == old(shards)[idx].buckets[b][0].start
        && shards == old(shards)[idx := Taken(old(shards)[idx], b)]
      ensures r.Some? ==> r.value > 0 && Reusable() + multiset{r.value} == old(Reusable())
      ensures ReservedPages(shards) == old(ReservedPages(shards))
      ensures forall i :: 0 <= i < |shards| ==>
        shards[i].next == old(shards)[i].next && shards[i].end == old(shards)[i].end
    {
      hide Run, FreeSet, HotPages, ReservedPages, CentralOk, ShardOk, FirstHot, AllCold, Popped, Pushed;
      var e;
      e, b := PopAny(idx);
      if e.None? {
        return None, b;
      }
      var p, rest := e.value.start, Extent(e.value.start + 1, e.value.len - 1);
      HeadIs(old(shards)[idx], b);
      SplitHead(e.value);
      if rest.len > 0 {
        HeadInHand(multiset(live), Reusable(), ReservedPages(shards), multiset(PagesOf(e.value)), p,
          multiset(PagesOf(rest)));
        ReturnRemainder(idx, rest, multiset{p});
      }
      r := Some(p);
    }

    /** Moves an extent from the central list to the buckets of a shard, if there is any. */
    method RefillShard(idx: nat) returns (ghost taken: Extent)
      requires Valid() && idx < |shards|
      modifies this, central
      ensures Valid() && |shards| == |old(shards)| && live == old(live) && cursor == old(cursor)
      ensures Reusable() == old(Reusable()) && ReservedPages(shards) == old(ReservedPages(shards))
      ensures old(central.byStart) != map[] ==>
        && Refills(old(central.byStart), taken) && shards == old(shards)[idx := Pushed(old(shards)[idx], taken)]
        && FreeSet(central.byStart) == old(FreeSet(central.byStart)) - PagesOf(taken)
      ensures old(central.byStart) == map[] ==> shards == old(shards) && central.byStart == map[]
      ensures forall i :: 0 <= i < |shards| ==>
        shards[i].next == old(shards)[i].next && shards[i].end == old(shards)[i].end
    {
      hide Run, FreeSet, HotPages, ReservedPages, PagesOf, Fitter, ShardOk, AllCold, Pushed, Refills;
      ghost var free := FreeSet(central.byStart);
      taken := Extent(0, 0);
      var e := central.AllocateBestFit(HOT_REFILL_BATCH);
      if e.None? {
        e := central.AllocateBestFit(1);
        if e.None? {
          NoneMeansEmpty(central.byStart);
          return;
        }
      }
      taken := e.value;
      RefillIs(old(central.byStart), taken);
      SomeMeansMore(old(central.byStart), e.value.start);
      TakenCount(free, PagesOf(e.value), multiset(live), HotPages(shards), ReservedPages(shards));
      ReturnRemainder(idx, e.value, multiset{});
      NoHand(multiset(PagesOf(e.value)));
    }

    /** A page from the hot buckets of the other shards, in ring order. */
    method Steal(idx: nat) returns (r: Option<nat>)
      requires Valid() && idx < |shards| && AllCold(shards[idx])
      modifies this, central
      ensures Shape() && |shards| == |old(shards)| && live == old(live) && cursor == old(cursor)
      ensures r.Some? ==> r.value > 0 && Reusable() + multiset{r.value} == old(Reusable())
      ensures central.byStart == old(central.byStart)
      ensures r.Some? ==> NextHead(old(shards), idx, r.value)
      ensures r.None? ==>
        Valid() && Reusable() == old(Reusable()) && forall i :: 0 <= i < |shards| ==> AllCold(shards[i])
      ensures ReservedPages(shards) == old(ReservedPages(shards))
      ensures forall i :: 0 <= i < |shards| ==>
        shards[i].next == old(shards)[i].next && shards[i].end == old(shards)[i].end
    {
      hide Run, FreeSet, HotPages, ReservedPages, PagesOf, ShardOk, AllCold, CentralOk, Around;
      AroundStarts(idx, |shards|);
      for offset := 1 to |shards|
        invariant Valid() && shards == old(shards) && live == old(live) && cursor == old(cursor)
        invariant Reusable() == old(Reusable()) && central.byStart == old(central.byStart)
        invariant forall k :: 0 <= k < offset ==> AllCold(shards[Around(idx, k, |shards|)])
      {
        ghost var b;
        r, b := AllocateFromShard(Around(idx, offset, |shards|));
        if r.Some? {
          assert HeadOf(old(shards)[Around(idx, offset, |shards|)], r.value);
          return;
        }
      }
      AllAround(shards, idx);
      r := None;
    }

    /** A page straight from the central list. */
    method AllocateFromCentral() returns (r: Option<nat>)
      requires Valid()
      modifies central
      ensures Shape()
      ensures r.Some? ==> r.value > 0 && Reusable() + multiset{r.value} == old(Reusable())
      ensures r.None? <==> old(central.byStart) == map[]
      ensures r.None? ==> Reusable() == old(Reusable()) && central.byStart == map[]
    {
      hide Run, FreeSet, HotPages, ReservedPages, ShardOk, CentralOk, Fitter;
      ghost var free := FreeSet(central.byStart);
      var e := central.AllocateBestFit(1);
      if e.Some? {
        SplitHead(e.value);
        TakenCount(free, PagesOf(e.value), multiset(live), HotPages(shards), ReservedPages(shards));
        return Some(e.value.start);
      }
      NoneMeansEmpty(central.byStart);
      r := None;
    }

    /** One page from the buckets of a shard, refilled from the central list if they are empty. */
    method AllocateLocal(idx: nat) returns (r: Option<nat>)
      requires Valid() && idx < |shards|
      modifies this, central
      ensures Shape() && |shards| == |old(shards)| && live == old(live) && cursor == old(cursor)
      ensures r.Some? ==> r.value > 0 && Reusable() + multiset{r.value} == old(Reusable())
      ensures r.Some? ==> LocalChoice(old(shards)[idx], old(central.byStart), r.value)
      ensures r.None? <==> AllCold(old(shards)[idx]) && old(central.byStart) == map[]
      ensures r.None? ==> Valid() && shards == old(shards) && central.byStart == map[] && Reusable() == old(Reusable())
      ensures ReservedPages(shards) == old(ReservedPages(shards))
      ensures forall i :: 0 <= i < |shards| ==>
        shards[i].next == old(shards)[i].next && shards[i].end == old(shards)[i].end
    {
      hide Run, FreeSet, HotPages, ReservedPages, PagesOf, Fitter, ShardOk, AllCold, CentralOk, Refills, FirstHot,
        Taken, Pushed,
        HeadOf;
      ghost var b, taken;
      r, b := AllocateFromShard(idx);
      if r.Some? {
        HeadIs(old(shards)[idx], b);
        return;
      }
      taken := RefillShard(idx);
      ghost var refilled := shards[idx];
      if old(central.byStart) != map[] {
        RefilledHot(old(shards)[idx], taken, old(central.byStart));
      }
      r, b := AllocateFromShard(idx);
      if r.Some? {
        HeadIs(refilled, b);
        RefilledHead(old(shards)[idx], refilled, taken, old(central.byStart), r.value);
      }
    }

    /** One reusable page: own buckets, refilled buckets, other shards' buckets, central list. */
    method AllocateExtent(hint: nat) returns (r: Option<nat>)
      requires Valid()
      modifies this, central
      ensures Shape() && |shards| == |old(shards)| && live == old(live) && cursor == old(cursor)
      ensures r.Some? ==> r.value > 0 && Reusable() + multiset{r.value} == old(Reusable())
      ensures r.Some? ==> Chosen(old(shards), old(central.byStart), hint, r.value)
      ensures r.None? ==> Reusable() == old(Reusable()) == multiset{}
      ensures ReservedPages(shards) == old(ReservedPages(shards))
      ensures forall i :: 0 <= i < |shards| ==>
        shards[i].next == old(shards)[i].next && shards[i].end == old(shards)[i].end
    {
      hide Run, FreeSet, HotPages, ReservedPages, PagesOf, Fitter, ShardOk, AllCold, CentralOk, LocalChoice, NextHead;
      var idx := hint % |shards|;
      r := AllocateLocal(idx);
      if r.Some? {
        return;
      }
      r := Steal(idx);
      if r.Some? {
        return;
      }
      ColdShards(shards);
      r := AllocateFromCentral();
      NoRuns();
    }

    /** The next page of a shard's reserved range.  The cursor of the range moves even if it is used up. */
    method TryAllocate(idx: nat) returns (r: Option<nat>)
      requires Shape() && idx < |shards|
      modifies this`shards
      ensures Shape() && |shards| == |old(shards)| && Reusable() == old(Reusable())
      ensures r.Some? ==> r.value > 0 && ReservedPages(shards) + multiset{r.value} == old(ReservedPages(shards))
      ensures r.Some? ==> r.value == old(shards)[idx].next < old(shards)[idx].end
      ensures r.None? ==> old(shards)[idx].end <= old(shards)[idx].next && shards[idx].end <= shards[idx].next
      ensures r.None? ==> ReservedPages(shards) == old(ReservedPages(shards))
      ensures r.None? ==>
        Run(old(shards)[idx].next, old(shards)[idx].end) == {} && Run(shards[idx].next, shards[idx].end) == {}
    {
      hide FreeSet, HotPages, ReservedPages, CentralOk;
      var s := shards[idx];
      var next := s.next;
      ReserveStep(shards, idx);
      shards := shards[idx := s.(next := next + 1)];
      if next == 0 {
        return None;
      }
      if next + 1 <= s.end {
        return Some(next);
      }
      r := None;
    }

    /** A page from the shard's reserve, or from a new range behind the global cursor. */
    method AllocateMonotonic(hint: nat) returns (p: nat)
      requires Valid()
      modifies this
      ensures Shape() && live == old(live) && Reusable() == old(Reusable()) && p > 0
      ensures multiset(live) + Reusable() + ReservedPages(shards) + multiset{p} == multiset(Run(1, cursor))
      ensures cursor != old(cursor) ==>
        && cursor == old(cursor) + MONOTONIC_REFILL_BASE_PAGES
        && var s := old(shards)[hint % |old(shards)|]; Run(s.next, s.end) == {}
      ensures p == Reserved(old(shards), hint, old(cursor))
    {
      hide FreeSet, HotPages, ReservedPages, CentralOk, ShardOk, Run;
      var idx := hint % |shards|;
      RunEmpty(shards[idx].next, shards[idx].end);
      var r := TryAllocate(idx);
      if r.Some? {
        FromReserve(multiset(live), Reusable(), ReservedPages(shards), r.value);
        return r.value;
      }
      r := TryAllocate(idx);
      assert r.None?;
      var start := cursor;
      NewReserve(shards, idx, start, MONOTONIC_REFILL_BASE_PAGES);
      cursor := cursor + MONOTONIC_REFILL_BASE_PAGES;
      FromCursor(multiset(live), Reusable(), ReservedPages(shards), start, MONOTONIC_REFILL_BASE_PAGES);
      shards := shards[idx := shards[idx].(next := start + 1, end := start + MONOTONIC_REFILL_BASE_PAGES)];
      p := start;
    }

    /** Hands out a page that is not live.  Reusable pages go first, whatever the hint; the global cursor moves only
        if there is none and the shard's own reserve is used up. */
    method AllocatePage(hint: nat) returns (p: nat)
      requires Valid()
      modifies this, central
      ensures Valid() && p > 0 && p !in old(live) && live == old(live) + {p}
      ensures old(Reusable()) != multiset{} ==>
        p in old(Reusable()) && Reusable() + multiset{p} == old(Reusable()) && cursor == old(cursor)
      ensures old(Reusable()) == multiset{} ==> Reusable() == multiset{}
      ensures old(Reusable()) != multiset{} ==> Chosen(old(shards), old(central.byStart), hint, p)
      ensures old(Reusable()) == multiset{} ==> p == Reserved(old(shards), hint, old(cursor))
      ensures cursor != old(cursor) ==>
        && cursor == old(cursor) + MONOTONIC_REFILL_BASE_PAGES && old(Reusable()) == multiset{}
        && var s := old(shards)[hint % |old(shards)|]; Run(s.next, s.end) == {}
    {
      hide FreeSet, HotPages, ReservedPages, CentralOk, ShardOk, Run;
      var r := AllocateExtent(hint);
      if r.Some? {
        p := r.value;
        FromReusable(multiset(live), Reusable(), ReservedPages(shards), p);
      } else {
        p := AllocateMonotonic(hint);
      }
      BecomesLive(live, Reusable(), ReservedPages(shards), p, Run(1, cursor));
      live := live + {p};
    }

    /** Gives back pages that are no longer in use; this never meets an overlap. */
    method PromoteReusableExtent(e: Extent)
      requires Valid() && e.start > 0 && e.len > 0 && PagesOf(e) <= live
      modifies this, central
      ensures Valid() && live == old(live) - PagesOf(e) && cursor == old(cursor) && shards == old(shards)
      ensures FreeSet(central.byStart) == old(FreeSet(central.byStart)) + PagesOf(e)
    {
      hide FreeSet, HotPages, ReservedPages, CentralOk, ShardOk, Run, PagesOf;
      LiveIsApart(live, FreeSet(central.byStart), HotPages(shards), ReservedPages(shards), Run(1, cursor));
      LiveGoesFree(live, FreeSet(central.byStart), HotPages(shards), ReservedPages(shards), PagesOf(e));
      var ok := central.Insert(e);
      assert ok;
      live := live - PagesOf(e);
    }
  }

  lemma {:induction false} NewShards(ss: seq<Shard>)
    requires forall i :: 0 <= i < |ss| ==> ss[i] == Shard(seq(|HOT_BUCKET_LIMITS|, _ => []), 0, 0)
    ensures forall i :: 0 <= i < |ss| ==> ShardOk(ss[i])
    ensures HotPages(ss) == multiset{} && ReservedPages(ss) == multiset{}
    decreases |ss|
  {
    hide BucketsPages, Run;
    if |ss| > 0 {
      ColdBuckets(ss[0].buckets);
      NoRun();
      NewShards(ss[1..]);
    }
  }

  lemma RunEmpty(a: nat, b: nat)
    ensures Run(a, b) == {} <==> b <= a
  {
    if a < b {
      assert a in Run(a, b);
    }
  }

  lemma HeadIs(s: Shard, b: nat)
    requires FirstHot(s, b)
    ensures HeadOf(s, s.buckets[b][0].start) && !AllCold(s)
  {
  }

  lemma RefilledHot(cold: Shard, e: Extent, c: map<nat, nat>)
    requires ShardOk(cold) && Refills(c, e)
    ensures e.len <= 256 && !AllCold(Pushed(cold, e))
  {
    hide Refills;
    RefillLength(c, e);
    var b := HotBucket(e.len).value;
    assert Pushed(cold, e).buckets[b] != [];
  }

  lemma RefilledHead(cold: Shard, s: Shard, e: Extent, c: map<nat, nat>, p: nat)
    requires AllCold(cold) && ShardOk(cold) && Refills(c, e) && e.len <= 256 && s == Pushed(cold, e) && HeadOf(s, p)
    ensures LocalChoice(cold, c, p)
  {
    hide Refills;
    PushedHead(cold, e, p);
  }

  lemma RefillIs(c: map<nat, nat>, e: Extent)
    requires e.start in c && e.len <= c[e.start] && (forall s :: s in c && e.len <= c[s] ==> Fitter(c, e.start, s))
    requires e.len == HOT_REFILL_BATCH || (e.len == 1 && forall s :: s in c ==> c[s] < HOT_REFILL_BATCH)
    ensures Refills(c, e) && e.len <= 256
  {
    hide Fitter;
  }

  lemma RefillLength(c: map<nat, nat>, e: Extent)
    requires Refills(c, e)
    ensures e.len <= 256
  {
  }

  lemma NoRun()
    ensures Run(0, 0) == {}
  {
  }

  lemma NoRuns()
    ensures FreeSet(map[]) == {}
  {
  }

  lemma NothingElse(live: set<nat>)
    ensures multiset(live) + (multiset({}) + multiset{}) + multiset{} + multiset{} == multiset(live)
  {
  }

  /** Pages in hand are in no other place. */
  lemma InHandIsApart(live: set<nat>, free: set<nat>, hot: multiset<nat>, reserved: multiset<nat>,
                      inHand: multiset<nat>, pages: set<nat>, all: set<nat>)
    requires multiset(live) + (multiset(free) + hot) + reserved + (inHand + multiset(pages)) == multiset(all)
    ensures free !! pages
  {
    forall p | p in free
      ensures p !in pages
    {
      assert (multiset(live) + (multiset(free) + hot) + reserved + (inHand + multiset(pages)))[p] ==
        multiset(all)[p] <= 1;
    }
  }

  lemma AddedCount(free: set<nat>, pages: set<nat>, hot: multiset<nat>)
    requires free !! pages
    ensures multiset(free + pages) + hot == (multiset(free) + hot) + multiset(pages)
  {
    UnionCounts(free, pages);
  }

  lemma PushPages(ss: seq<Shard>, i: nat, b: nat, e: Extent)
    requires i < |ss| && ShardOk(ss[i]) && HotBucket(e.len) == Some(b) && e.start > 0 && e.len > 0
    ensures var s := ss[i];
      var s' := s.(buckets := s.buckets[b := s.buckets[b] + [e]]);
      && ShardOk(s') && !AllCold(s')
      && HotPages(ss[i := s']) == HotPages(ss) + multiset(PagesOf(e)) && ReservedPages(ss[i := s']) == ReservedPages(ss)
  {
    hide HotPages, ReservedPages, BucketsPages, ExtentsPages, Run, PagesOf;
    var s := ss[i];
    var s' := s.(buckets := s.buckets[b := s.buckets[b] + [e]]);
    ExtentsAppend(s.buckets[b], e);
    BucketsUpdate(s.buckets, b, s.buckets[b] + [e]);
    HotUpdate(ss, i, s');
    ReservedUpdate(ss, i, s');
    CancelSame(ReservedPages(ss[i := s']), ReservedPages(ss), multiset(Run(s.next, s.end)));
    assert s'.buckets[b] != [];
    Cancel(HotPages(ss[i := s']), BucketsPages(s.buckets), HotPages(ss), BucketsPages(s'.buckets),
      ExtentsPages(s.buckets[b]), multiset(PagesOf(e)));
  }

  lemma CancelSame(a: multiset<nat>, b: multiset<nat>, c: multiset<nat>)
    requires a + c == b + c
    ensures a == b
  {
    forall p: nat
      ensures a[p] == b[p]
    {
      assert (a + c)[p] == (b + c)[p];
    }
  }

  lemma Cancel(hot': multiset<nat>, bs: multiset<nat>, hot: multiset<nat>, bs': multiset<nat>, had: multiset<nat>,
               more: multiset<nat>)
    requires hot' + bs == hot + bs' && bs' + had == bs + (had + more)
    ensures hot' == hot + more
  {
    forall p: nat
      ensures hot'[p] == (hot + more)[p]
    {
      assert (hot' + bs)[p] == (hot + bs')[p];
      assert (bs' + had)[p] == (bs + (had + more))[p];
    }
  }

  lemma PopPages(ss: seq<Shard>, i: nat, b: nat)
    requires i < |ss| && ShardOk(ss[i]) && b < |HOT_BUCKET_LIMITS| && ss[i].buckets[b] != []
    ensures var s := ss[i];
      var s' := s.(buckets := s.buckets[b := s.buckets[b][1..]]);
      && ShardOk(s')
      && HotPages(ss[i := s']) + multiset(PagesOf(s.buckets[b][0])) == HotPages(ss)
      && ReservedPages(ss[i := s']) == ReservedPages(ss)
  {
    hide HotPages, ReservedPages, BucketsPages, Run, PagesOf;
    var s := ss[i];
    var s' := s.(buckets := s.buckets[b := s.buckets[b][1..]]);
    BucketsUpdate(s.buckets, b, s.buckets[b][1..]);
    HotUpdate(ss, i, s');
    ReservedUpdate(ss, i, s');
    CancelSame(ReservedPages(ss[i := s']), ReservedPages(ss), multiset(Run(s.next, s.end)));
    Cancel(HotPages(ss), BucketsPages(s'.buckets), HotPages(ss[i := s']), BucketsPages(s.buckets),
      ExtentsPages(s.buckets[b][1..]), multiset(PagesOf(s.buckets[b][0])));
  }

  lemma PoppedCount(free: multiset<nat>, hot: multiset<nat>, gone: multiset<nat>)
    ensures (free + hot) + gone == free + (hot + gone)
  {
  }

  lemma HeadInHand(live: multiset<nat>, left: multiset<nat>, reserved: multiset<nat>, pages: multiset<nat>, p: nat,
                   rest: multiset<nat>)
    requires pages == multiset{p} + rest
    ensures live + (left + pages) + reserved + multiset{} == live + left + reserved + (multiset{p} + rest)
  {
  }

  lemma SplitHead(e: Extent)
    requires e.len > 0
    ensures PagesOf(e) == {e.start} + PagesOf(Extent(e.start + 1, e.len - 1))
    ensures e.start !in PagesOf(Extent(e.start + 1, e.len - 1))
    ensures multiset(PagesOf(e)) == multiset{e.start} + multiset(PagesOf(Extent(e.start + 1, e.len - 1)))
    ensures e.len == 1 ==> multiset(PagesOf(e)) == multiset{e.start}
  {
    var rest := PagesOf(Extent(e.start + 1, e.len - 1));
    assert PagesOf(e) == {e.start} + rest;
    UnionCounts({e.start}, rest);
    assert multiset({e.start}) == multiset{e.start};
    if e.len == 1 {
      assert rest == {};
    }
  }

  lemma NoneMeansEmpty(c: map<nat, nat>)
    requires CentralOk(c) && forall s :: s in c ==> c[s] < 1
    ensures c == map[]
  {
  }

  lemma SomeMeansMore(c: map<nat, nat>, s: nat)
    requires s in c
    ensures c != map[]
  {
  }

  lemma NoHand(m: multiset<nat>)
    ensures multiset{} + m == m
  {
  }

  lemma TakenCount(free: set<nat>, pages: set<nat>, live: multiset<nat>, hot: multiset<nat>, reserved: multiset<nat>)
    requires pages <= free
    ensures multiset(free) == multiset(free - pages) + multiset(pages)
    ensures live + (multiset(free) + hot) + reserved + multiset{} ==
      live + (multiset(free - pages) + hot) + reserved + (multiset{} + multiset(pages))
    ensures (multiset(free - pages) + hot) + multiset(pages) == multiset(free) + hot
  {
    assert free == (free - pages) + pages;
    UnionCounts(free - pages, pages);
  }

  /** Walking around the ring of shards from `idx`. */
  function Around(idx: nat, k: nat, n: nat): (j: nat)
    requires n > 0
    ensures j < n
  {
    (idx + k) % n
  }

  lemma AroundStarts(idx: nat, n: nat)
    requires idx < n
    ensures Around(idx, 0, n) == idx
  {
  }

  lemma AllAround(ss: seq<Shard>, idx: nat)
    requires |ss| > 0 && idx < |ss| && forall k :: 0 <= k < |ss| ==> AllCold(ss[Around(idx, k, |ss|)])
    ensures forall j :: 0 <= j < |ss| ==> AllCold(ss[j])
  {
    hide AllCold, Around;
    forall j | 0 <= j < |ss|
      ensures AllCold(ss[j])
    {
      var k := AroundBack(idx, j, |ss|);
    }
  }

  lemma AroundBack(idx: nat, j: nat, n: nat) returns (k: nat)
    requires idx < n && j < n
    ensures k < n && Around(idx, k, n) == j
  {
    if j >= idx {
      k := j - idx;
      RingStep(j, n, 0);
    } else {
      k := j + n - idx;
      RingStep(j, n, 1);
    }
  }

  /** Once around the ring changes nothing. */
  lemma RingStep(j: nat, n: nat, turns: nat)
    requires j < n && turns <= 1
    ensures (j + turns * n) % n == j
  {
    var x := j + turns * n;
    Quotient(n, turns, x / n, j, x % n);
  }

  lemma Quotient(n: nat, a: int, b: int, j: int, m: int)
    requires 0 <= j < n && 0 <= m < n && j + a * n == m + b * n
    ensures j == m
  {
    assert (a - b) * n == m - j;
    if a - b >= 1 {
      Grows(a - b, n);
    } else if b - a >= 1 {
      Grows(b - a, n);
    }
  }

  lemma Grows(d: int, n: nat)
    requires d >= 1
    ensures d * n >= n
  {
  }

  lemma ReserveStep(ss: seq<Shard>, i: nat)
    requires i < |ss| && ShardOk(ss[i])
    ensures var s := ss[i];
      var s' := s.(next := s.next + 1);
      && ShardOk(s') && HotPages(ss[i := s']) == HotPages(ss)
      && (0 < s.next < s.end ==> ReservedPages(ss[i := s']) + multiset{s.next} == ReservedPages(ss))
      && (s.next == 0 || s.next >= s.end ==>
            ReservedPages(ss[i := s']) == ReservedPages(ss) && Run(s.next, s.end) == {} && Run(s'.next, s'.end) == {})
  {
    hide HotPages, ReservedPages, BucketsPages;
    var s := ss[i];
    var s' := s.(next := s.next + 1);
    HotUpdate(ss, i, s');
    CancelSame(HotPages(ss[i := s']), HotPages(ss), BucketsPages(s.buckets));
    ReservedUpdate(ss, i, s');
    if 0 < s.next < s.end {
      RunSplit(s.next, s.next + 1, s.end);
      assert Run(s.next, s.next + 1) == {s.next};
      UnionCounts({s.next}, Run(s.next + 1, s.end));
      assert multiset({s.next}) == multiset{s.next};
      HeadGone(ReservedPages(ss[i := s']), ReservedPages(ss), multiset(Run(s.next + 1, s.end)), s.next);
    } else {
      assert Run(s.next, s.end) == {} && Run(s'.next, s'.end) == {};
      assert multiset(Run(s.next, s.end)) == multiset{} && multiset(Run(s'.next, s'.end)) == multiset{};
      CancelSame(ReservedPages(ss[i := s']), ReservedPages(ss), multiset{});
    }
  }

  lemma HeadGone(a: multiset<nat>, b: multiset<nat>, c: multiset<nat>, p: nat)
    requires a + (multiset{p} + c) == b + c
    ensures a + multiset{p} == b
  {
    assert (a + multiset{p}) + c == a + (multiset{p} + c);
    CancelSame(a + multiset{p}, b, c);
  }

  lemma FromReserve(live: multiset<nat>, reusable: multiset<nat>, reserved: multiset<nat>, p: nat)
    ensures live + reusable + (reserved + multiset{p}) + multiset{} == live + reusable + reserved + multiset{p}
  {
  }

  lemma FromReusable(live: multiset<nat>, reusable: multiset<nat>, reserved: multiset<nat>, p: nat)
    ensures live + (reusable + multiset{p}) + reserved + multiset{} == live + reusable + reserved + multiset{p}
    ensures p in reusable + multiset{p} && reusable + multiset{p} != multiset{}
  {
    assert (reusable + multiset{p})[p] > 0;
  }

  lemma NewReserve(ss: seq<Shard>, i: nat, start: nat, n: nat)
    requires i < |ss| && ShardOk(ss[i]) && Run(ss[i].next, ss[i].end) == {} && start > 0 && n > 0
    ensures var s' := ss[i].(next := start + 1, end := start + n);
      && ShardOk(s') && HotPages(ss[i := s']) == HotPages(ss)
      && ReservedPages(ss[i := s']) == ReservedPages(ss) + multiset(Run(start + 1, start + n))
  {
    hide HotPages, ReservedPages, BucketsPages, Run;
    var s' := ss[i].(next := start + 1, end := start + n);
    HotUpdate(ss, i, s');
    CancelSame(HotPages(ss[i := s']), HotPages(ss), BucketsPages(s'.buckets));
    ReservedUpdate(ss, i, s');
  }

  lemma FromCursor(live: multiset<nat>, reusable: multiset<nat>, reserved: multiset<nat>, start: nat, n: nat)
    requires live + reusable + reserved + multiset{} == multiset(Run(1, start)) && start > 0 && n > 0
    ensures live + reusable + (reserved + multiset(Run(start + 1, start + n))) + multiset{start} ==
      multiset(Run(1, start + n))
  {
    hide Run;
    RunSplit(1, start, start + n);
    RunSplit(start, start + 1, start + n);
    OnePage(start);
    UnionCounts(Run(1, start), Run(start, start + n));
    UnionCounts(Run(start, start + 1), Run(start + 1, start + n));
  }

  lemma OnePage(p: nat)
    ensures Run(p, p + 1) == {p} && multiset(Run(p, p + 1)) == multiset{p}
  {
    assert Run(p, p + 1) == {p};
    assert multiset({p}) == multiset{p};
  }

  lemma BecomesLive(live: set<nat>, reusable: multiset<nat>, reserved: multiset<nat>, p: nat, all: set<nat>)
    requires multiset(live) + reusable + reserved + multiset{p} == multiset(all)
    ensures p !in live && multiset(live + {p}) + reusable + reserved + multiset{} == multiset(all)
  {
    assert (multiset(live) + reusable + reserved + multiset{p})[p] == multiset(all)[p] <= 1;
    UnionCounts(live, {p});
    assert multiset({p}) == multiset{p};
  }

  lemma LiveIsApart(live: set<nat>, free: set<nat>, hot: multiset<nat>, reserved: multiset<nat>, all: set<nat>)
    requires multiset(live) + (multiset(free) + hot) + reserved + multiset{} == multiset(all)
    ensures live !! free
  {
    forall p | p in live
      ensures p !in free
    {
      assert (multiset(live) + (multiset(free) + hot) + reserved + multiset{})[p] == multiset(all)[p] <= 1;
    }
  }

  lemma LiveGoesFree(live: set<nat>, free: set<nat>, hot: multiset<nat>, reserved: multiset<nat>, pages: set<nat>)
    requires live !! free && pages <= live
    ensures free !! pages
    ensures multiset(live - pages) + (multiset(free + pages) + hot) + reserved + multiset{} ==
      multiset(live) + (multiset(free) + hot) + reserved + multiset{}
  {
    assert live == (live - pages) + pages;
    UnionCounts(live - pages, pages);
    UnionCounts(free, pages);
  }
}
