/**
 Shards of the allocator as values, and the multiset of pages they hold.
 */
module Shards {
  import opened Extents

  const HOT_BUCKET_LIMITS: seq<nat> := [1, 2, 4, 8, 16, 32, 64, 128, 256]

  /** Hot buckets, oldest extent first, and the reserved range of pages not handed out yet. */
  datatype Shard = Shard(buckets: seq<seq<Extent>>, next: nat, end: nat)

  datatype Option<T> = None | Some(value: T)

  /** The first bucket whose limit is not below the length, from bucket `i` on. */
  function BucketFrom(len: nat, i: nat): (b: Option<nat>)
    requires i <= |HOT_BUCKET_LIMITS|
    ensures b.Some? ==> i <= b.value < |HOT_BUCKET_LIMITS| && len <= HOT_BUCKET_LIMITS[b.value]
    ensures b.Some? ==> forall j :: i <= j < b.value ==> HOT_BUCKET_LIMITS[j] < len
    ensures b.None? ==> forall j :: i <= j < |HOT_BUCKET_LIMITS| ==> HOT_BUCKET_LIMITS[j] < len
    decreases |HOT_BUCKET_LIMITS| - i
  {
    if i == |HOT_BUCKET_LIMITS| then None
    else if len <= HOT_BUCKET_LIMITS[i] then Some(i)
    else BucketFrom(len, i + 1)
  }

  function HotBucket(len: nat): (b: Option<nat>)
    ensures b.Some? <==> len <= 256
    ensures b.Some? ==>
      && b.value < |HOT_BUCKET_LIMITS| && len <= HOT_BUCKET_LIMITS[b.value]
      && forall j :: 0 <= j < b.value ==> HOT_BUCKET_LIMITS[j] < len
  {
    BucketFrom(len, 0)
  }

  /** A bucket may hold extents shorter than a length that maps to it, unless that length is the bucket's shortest. */
  lemma BucketMayBeShort(len: nat, b: nat)
    requires HotBucket(len) == Some(b) && len > 0
    ensures (forall n: nat :: n > 0 && HotBucket(n) == Some(b) ==> len <= n) <==>
      b == 0 || len == HOT_BUCKET_LIMITS[b - 1] + 1
  {
    if b > 0 {
      var least := HOT_BUCKET_LIMITS[b - 1] + 1;
      assert HOT_BUCKET_LIMITS[b - 1] < len;
      LeastInBucket(b);
      assert HotBucket(least) == Some(b);
      forall n: nat | HotBucket(n) == Some(b)
        ensures least <= n
      {
        assert HOT_BUCKET_LIMITS[b - 1] < n;
      }
    }
  }

  lemma LeastInBucket(b: nat)
    requires 0 < b < |HOT_BUCKET_LIMITS|
    ensures HotBucket(HOT_BUCKET_LIMITS[b - 1] + 1) == Some(b)
  {
    var least := HOT_BUCKET_LIMITS[b - 1] + 1;
    assert least <= HOT_BUCKET_LIMITS[b];
    var h := HotBucket(least);
    assert forall i :: 0 <= i < b ==> HOT_BUCKET_LIMITS[i] <= HOT_BUCKET_LIMITS[b - 1];
  }

  ghost predicate ShardOk(s: Shard)
  {
    && |s.buckets| == |HOT_BUCKET_LIMITS|
    && (forall b, i :: 0 <= b < |s.buckets| && 0 <= i < |s.buckets[b]| ==>
          s.buckets[b][i].start > 0 && s.buckets[b][i].len > 0 && HotBucket(s.buckets[b][i].len) == Some(b))
    && (s.end > 0 ==> s.next > 0)
  }

  // ----- which extent is taken, and where the rest goes -----

  /** Bucket `b` is the first one that has an extent. */
  predicate FirstHot(s: Shard, b: nat)
  {
    b < |s.buckets| && s.buckets[b] != [] && forall j :: 0 <= j < b ==> s.buckets[j] == []
  }

  /** The shard without the oldest extent of bucket `b`. */
  function Popped(s: Shard, b: nat): Shard
    requires b < |s.buckets| && s.buckets[b] != []
  {
    s.(buckets := s.buckets[b := s.buckets[b][1..]])
  }

  /** The shard with the extent behind the others of the bucket for its length. */
  function Pushed(s: Shard, e: Extent): Shard
    requires |s.buckets| == |HOT_BUCKET_LIMITS| && e.len <= 256
  {
    var b := HotBucket(e.len).value;
    s.(buckets := s.buckets[b := s.buckets[b] + [e]])
  }

  /** The shard after one page of the oldest extent of bucket `b` is taken: the rest goes to the bucket for its
      length. */
  function Taken(s: Shard, b: nat): Shard
    requires |s.buckets| == |HOT_BUCKET_LIMITS| && b < |s.buckets| && s.buckets[b] != []
  {
    var e := s.buckets[b][0];
    if 1 < e.len <= 256 then Pushed(Popped(s, b), Extent(e.start + 1, e.len - 1)) else Popped(s, b)
  }

  /** Page `p` heads the oldest extent of the first bucket that has one. */
  ghost predicate HeadOf(s: Shard, p: nat)
  {
    exists b: nat :: FirstHot(s, b) && s.buckets[b][0].start == p
  }

  /** A cold shard that gets an extent has that one at its head. */
  lemma PushedHead(s: Shard, e: Extent, p: nat)
    requires AllCold(s) && |s.buckets| == |HOT_BUCKET_LIMITS| && e.len <= 256 && HeadOf(Pushed(s, e), p)
    ensures p == e.start
  {
  }

  // ----- pages held -----

  ghost function ExtentsPages(es: seq<Extent>): multiset<nat>
  {
    if |es| == 0 then multiset{} else multiset(PagesOf(es[0])) + ExtentsPages(es[1..])
  }

  ghost function BucketsPages(bs: seq<seq<Extent>>): multiset<nat>
  {
    if |bs| == 0 then multiset{} else ExtentsPages(bs[0]) + BucketsPages(bs[1..])
  }

  /** Pages in the buckets of all shards. */
  ghost function HotPages(ss: seq<Shard>): multiset<nat>
  {
    if |ss| == 0 then multiset{} else BucketsPages(ss[0].buckets) + HotPages(ss[1..])
  }

  /** Pages in the reserved ranges of all shards. */
  ghost function ReservedPages(ss: seq<Shard>): multiset<nat>
  {
    if |ss| == 0 then multiset{} else multiset(Run(ss[0].next, ss[0].end)) + ReservedPages(ss[1..])
  }

  lemma {:induction false} ExtentsAppend(es: seq<Extent>, e: Extent)
    ensures ExtentsPages(es + [e]) == ExtentsPages(es) + multiset(PagesOf(e))
    decreases |es|
  {
    hide PagesOf;
    if |es| == 0 {
      assert es + [e] == [e];
      assert ExtentsPages([e][1..]) == multiset{};
    } else {
      assert (es + [e])[1..] == es[1..] + [e];
      ExtentsAppend(es[1..], e);
    }
  }

  lemma Shift(a: multiset<nat>, x: multiset<nat>, o: multiset<nat>, y: multiset<nat>, n: multiset<nat>)
    requires x + o == y + n
    ensures (a + x) + o == (a + y) + n
  {
    assert (a + x) + o == a + (x + o);
    assert (a + y) + n == a + (y + n);
  }

  lemma {:induction false} BucketsUpdate(bs: seq<seq<Extent>>, b: nat, es: seq<Extent>)
    requires b < |bs|
    ensures BucketsPages(bs[b := es]) + ExtentsPages(bs[b]) == BucketsPages(bs) + ExtentsPages(es)
    decreases |bs|
  {
    hide ExtentsPages;
    if b == 0 {
      assert bs[b := es][1..] == bs[1..];
    } else {
      assert bs[b := es][1..] == bs[1..][b - 1 := es];
      BucketsUpdate(bs[1..], b - 1, es);
      Shift(ExtentsPages(bs[0]), BucketsPages(bs[1..][b - 1 := es]), ExtentsPages(bs[b]), BucketsPages(bs[1..]),
        ExtentsPages(es));
    }
  }

  lemma {:induction false} HotUpdate(ss: seq<Shard>, i: nat, s: Shard)
    requires i < |ss|
    ensures HotPages(ss[i := s]) + BucketsPages(ss[i].buckets) == HotPages(ss) + BucketsPages(s.buckets)
    decreases |ss|
  {
    hide BucketsPages;
    if i == 0 {
      assert ss[i := s][1..] == ss[1..];
    } else {
      assert ss[i := s][1..] == ss[1..][i - 1 := s];
      HotUpdate(ss[1..], i - 1, s);
      Shift(BucketsPages(ss[0].buckets), HotPages(ss[1..][i - 1 := s]), BucketsPages(ss[i].buckets), HotPages(ss[1..]),
        BucketsPages(s.buckets));
    }
  }

  lemma {:induction false} ReservedUpdate(ss: seq<Shard>, i: nat, s: Shard)
    requires i < |ss|
    ensures ReservedPages(ss[i := s]) + multiset(Run(ss[i].next, ss[i].end)) ==
      ReservedPages(ss) + multiset(Run(s.next, s.end))
    decreases |ss|
  {
    hide Run;
    if i == 0 {
      assert ss[i := s][1..] == ss[1..];
    } else {
      assert ss[i := s][1..] == ss[1..][i - 1 := s];
      ReservedUpdate(ss[1..], i - 1, s);
      Shift(multiset(Run(ss[0].next, ss[0].end)), ReservedPages(ss[1..][i - 1 := s]),
        multiset(Run(ss[i].next, ss[i].end)), ReservedPages(ss[1..]), multiset(Run(s.next, s.end)));
    }
  }

  /** No extent in any bucket. */
  predicate AllCold(s: Shard)
  {
    forall b :: 0 <= b < |s.buckets| ==> s.buckets[b] == []
  }

  lemma {:induction false} ColdBuckets(bs: seq<seq<Extent>>)
    requires forall b :: 0 <= b < |bs| ==> bs[b] == []
    ensures BucketsPages(bs) == multiset{}
    decreases |bs|
  {
    if |bs| > 0 {
      ColdBuckets(bs[1..]);
    }
  }

  lemma {:induction false} ColdShards(ss: seq<Shard>)
    requires forall i :: 0 <= i < |ss| ==> AllCold(ss[i])
    ensures HotPages(ss) == multiset{}
    decreases |ss|
  {
    if |ss| > 0 {
      ColdBuckets(ss[0].buckets);
      ColdShards(ss[1..]);
    }
  }
}
