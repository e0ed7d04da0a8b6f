/**
 Rewriting the resident child words of an inner page to page ids before it is written.
 */
module Unswizzle {
  import opened Keys
  import opened Swips

  const FRAME_ALIGN_MASK: bv64 := 0xFFF
  const LOWEST_FRAME: bv64 := 0x1_0000

  /** Only index pages hold child words. */
  datatype Kind = Index | OtherKind

  /** A slot value: an 8-byte word, or something of another length. */
  datatype Val = Word(w: bv64) | Bytes(bytes: seq<byte>)

  datatype Page = Page(kind: Kind, leaf: bool, keys: seq<Key>, values: seq<Val>, upper: bv64)

  /** The frames of the pool: their addresses and the pages they hold. */
  type Pool = map<bv64, bv64>

  predicate FrameAddress(a: bv64)
  {
    a >= LOWEST_FRAME && a & FRAME_ALIGN_MASK == 0
  }

  /** Frames are aligned, above the first page, and neither addresses nor page ids use the tag bits. */
  ghost predicate PoolOk(pool: Pool)
  {
    forall a :: a in pool ==> FrameAddress(a) && Untagged(a) && Untagged(pool[a])
  }

  predicate Resident(w: bv64)
  {
    IsHot(w) || IsCool(w)
  }

  /** The word names a frame of the pool, or no frame at all. */
  predicate Live(w: bv64, pool: Pool)
  {
    Resident(w) ==> PointerBits(w) in pool
  }

  predicate HasWords(p: Page)
  {
    p.kind.Index? && !p.leaf
  }

  predicate AllLive(p: Page, pool: Pool)
  {
    HasWords(p) ==>
      Live(p.upper, pool) && forall i :: 0 <= i < |p.values| && p.values[i].Word? ==> Live(p.values[i].w, pool)
  }

  /** The page a child word names. */
  function EdgeId(w: bv64, pool: Pool): bv64
    requires Live(w, pool)
  {
    if Resident(w) then pool[PointerBits(w)] else PageId(w)
  }

  // ----- one word -----

  /** In place: follow the pointer. */
  function InPlace(w: bv64, pool: Pool): bv64
    requires Live(w, pool)
  {
    if Resident(w) then EvictedWord(pool[PointerBits(w)]) else w
  }

  /** In a copy: only pointers that are frames of the pool are followed. */
  function InCopy(w: bv64, pool: Pool): bv64
  {
    if Resident(w) && FrameAddress(PointerBits(w)) && PointerBits(w) in pool
    then EvictedWord(pool[PointerBits(w)])
    else w
  }

  /** When a root is split: every edge is rewritten from the page it names. */
  function Renamed(w: bv64, pool: Pool): bv64
    requires Live(w, pool)
  {
    EvictedWord(EdgeId(w, pool))
  }

  /** All three rewrite a live word in the same way, to a word that is not resident and names the same page. */
  lemma WordRewrites(w: bv64, pool: Pool)
    requires PoolOk(pool) && Live(w, pool)
    ensures InPlace(w, pool) == InCopy(w, pool) == Renamed(w, pool)
    ensures !Resident(InPlace(w, pool)) && EdgeId(InPlace(w, pool), pool) == EdgeId(w, pool)
  {
    hide IsEvicted, IsCool, PointerBits, PageId, Untagged, FrameAddress;
    if Resident(w) {
      EvictedBits(pool[PointerBits(w)]);
    } else {
      FromEvicted(w);
    }
  }

  /** A copy keeps a resident word exactly if it is not live. */
  lemma StaleStays(w: bv64, pool: Pool)
    requires PoolOk(pool)
    ensures Resident(InCopy(w, pool)) <==> !Live(w, pool)
    ensures !Live(w, pool) ==> InCopy(w, pool) == w
  {
    if Live(w, pool) {
      WordRewrites(w, pool);
    }
  }

  // ----- one page -----

  function RewriteVal(v: Val, pool: Pool): Val
    requires v.Word? ==> Live(v.w, pool)
  {
    if v.Word? then Word(InPlace(v.w, pool)) else v
  }

  function CopyVal(v: Val, pool: Pool): Val
  {
    if v.Word? then Word(InCopy(v.w, pool)) else v
  }

  /** The page with every resident word replaced by the page id of its frame. */
  function Unswizzled(p: Page, pool: Pool): Page
    requires AllLive(p, pool)
  {
    if !HasWords(p) then p
    else p.(values := seq(|p.values|, i requires 0 <= i < |p.values| => RewriteVal(p.values[i], pool)),
            upper := InPlace(p.upper, pool))
  }

  function UnswizzledCopy(p: Page, pool: Pool): Page
  {
    if !HasWords(p) then p
    else p.(values := seq(|p.values|, i requires 0 <= i < |p.values| => CopyVal(p.values[i], pool)),
            upper := InCopy(p.upper, pool))
  }

  predicate NoResident(p: Page)
  {
    HasWords(p) ==>
      !Resident(p.upper) && forall i :: 0 <= i < |p.values| && p.values[i].Word? ==> !Resident(p.values[i].w)
  }

  /** If every resident word names a frame, rewriting in place and rewriting a copy give the same bytes. */
  lemma SameBytes(p: Page, pool: Pool)
    requires PoolOk(pool) && AllLive(p, pool)
    ensures UnswizzledCopy(p, pool) == Unswizzled(p, pool)
  {
    hide Live, InPlace, InCopy, Renamed, EdgeId, Resident;
    if HasWords(p) {
      WordRewrites(p.upper, pool);
      forall i | 0 <= i < |p.values|
        ensures CopyVal(p.values[i], pool) == RewriteVal(p.values[i], pool)
      {
        if p.values[i].Word? {
          WordRewrites(p.values[i].w, pool);
        }
      }
    }
  }

  /** Unswizzling keeps keys and kind, leaves no resident word, keeps the page every edge names, and is idempotent. */
  lemma UnswizzledMeans(p: Page, pool: Pool)
    requires PoolOk(pool) && AllLive(p, pool)
    ensures var q := Unswizzled(p, pool);
      && q.kind == p.kind && q.leaf == p.leaf && q.keys == p.keys && |q.values| == |p.values|
      && NoResident(q) && AllLive(q, pool) && Unswizzled(q, pool) == q
      && (HasWords(p) ==> EdgeId(q.upper, pool) == EdgeId(p.upper, pool))
      && (HasWords(p) ==> forall i :: 0 <= i < |p.values| && p.values[i].Word? ==>
            q.values[i].Word? && EdgeId(q.values[i].w, pool) == EdgeId(p.values[i].w, pool))
      && (forall i :: 0 <= i < |p.values| && p.values[i].Bytes? ==> q.values[i] == p.values[i])
  {
    hide IsEvicted, IsCool, PointerBits, PageId, FrameAddress;
    if HasWords(p) {
      WordRewrites(p.upper, pool);
      forall i | 0 <= i < |p.values| && p.values[i].Word?
        ensures !Resident(InPlace(p.values[i].w, pool))
        ensures EdgeId(InPlace(p.values[i].w, pool), pool) == EdgeId(p.values[i].w, pool)
      {
        WordRewrites(p.values[i].w, pool);
      }
    }
  }

  /** A rewritten copy is free of resident words exactly if every resident word named a frame of the pool. */
  lemma CopyIsCleanIff(p: Page, pool: Pool)
    requires PoolOk(pool)
    ensures NoResident(UnswizzledCopy(p, pool)) <==> AllLive(p, pool)
  {
    hide Live, InCopy, Resident;
    if HasWords(p) {
      var q := UnswizzledCopy(p, pool);
      StaleStays(p.upper, pool);
      forall i | 0 <= i < |p.values| && p.values[i].Word?
        ensures q.values[i].Word? && (Resident(q.values[i].w) <==> !Live(p.values[i].w, pool))
      {
        StaleStays(p.values[i].w, pool);
      }
    }
  }

  // ----- the page in memory -----

  class PageBuffer {
    const kind: Kind
    const leaf: bool
    const keys: seq<Key>
    var values: seq<Val>
    var upper: bv64

    constructor (p: Page)
      ensures View() == p
    {
      kind, leaf, keys, values, upper := p.kind, p.leaf, p.keys, p.values, p.upper;
    }

    function View(): Page
      reads this
    {
      Page(kind, leaf, keys, values, upper)
    }

    /** Rewrites the live page under its exclusive latch. */
    method ConvertHotSwipsToEvicted(pool: Pool)
      requires AllLive(View(), pool)
      modifies this
      ensures View() == Unswizzled(old(View()), pool)
    {
      hide Live, InPlace, Resident;
      if !kind.Index? || leaf {
        return;
      }
      for i := 0 to |values|
        invariant |values| == |old(values)| && upper == old(upper)
        invariant forall j :: 0 <= j < i ==> values[j] == RewriteVal(old(values)[j], pool)
        invariant forall j :: i <= j < |values| ==> values[j] == old(values)[j]
      {
        if values[i].Word? {
          values := values[i := Word(InPlace(values[i].w, pool))];
        }
      }
      upper := InPlace(upper, pool);
    }

    /** Rewrites a copy of the page, leaving words alone that name no frame of the pool. */
    method ConvertSwipsInBuf(pool: Pool)
      modifies this
      ensures View() == UnswizzledCopy(old(View()), pool)
    {
      hide InCopy, Resident;
      if !kind.Index? || leaf {
        return;
      }
      for i := 0 to |values|
        invariant |values| == |old(values)| && upper == old(upper)
        invariant forall j :: 0 <= j < i ==> values[j] == CopyVal(old(values)[j], pool)
        invariant forall j :: i <= j < |values| ==> values[j] == old(values)[j]
      {
        if values[i].Word? {
          values := values[i := Word(InCopy(values[i].w, pool))];
        }
      }
      upper := InCopy(upper, pool);
    }

    /** Rewrites every edge of a copied inner page from the page it names. */
    method UnswizzleCopiedInnerEdges(pool: Pool)
      requires PoolOk(pool) && HasWords(View()) && AllLive(View(), pool) && forall i :: 0 <= i < |values| ==>
        values[i].Word?
      modifies this
      ensures View() == Unswizzled(old(View()), pool)
    {
      hide Live, InPlace, InCopy, Renamed, EdgeId, Resident, PoolOk;
      for i := 0 to |values|
        invariant |values| == |old(values)| && upper == old(upper)
        invariant forall j :: 0 <= j < i ==> values[j] == RewriteVal(old(values)[j], pool)
        invariant forall j :: i <= j < |values| ==> values[j] == old(values)[j]
      {
        WordRewrites(values[i].w, pool);
        values := values[i := Word(Renamed(values[i].w, pool))];
      }
      WordRewrites(upper, pool);
      upper := Renamed(upper, pool);
    }
  }
}
