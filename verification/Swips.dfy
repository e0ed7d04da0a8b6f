/**
 SWIP words: child references that are a pointer while the child is resident and a page
 id while it is not, told apart by the top two bits.
 */
module Swips {

  const EVICTED_BIT: bv64 := 0x8000_0000_0000_0000
  const COOL_BIT: bv64 := 0x4000_0000_0000_0000
  const STATE_MASK: bv64 := 0xC000_0000_0000_0000
  const PTR_MASK: bv64 := 0x3FFF_FFFF_FFFF_FFFF

  /** What a word stands for. */
  datatype Swip = Hot(ptr: bv64) | Cool(ptr: bv64) | Evicted(pid: bv64)

  predicate IsEvicted(raw: bv64)
  {
    raw & EVICTED_BIT != 0
  }

  predicate IsCool(raw: bv64)
  {
    !IsEvicted(raw) && raw & STATE_MASK == COOL_BIT
  }

  predicate IsHot(raw: bv64)
  {
    !IsEvicted(raw) && !IsCool(raw)
  }

  function PointerBits(raw: bv64): bv64
  {
    raw & PTR_MASK
  }

  function PageId(raw: bv64): bv64
  {
    raw & !EVICTED_BIT
  }

  function EvictedWord(pid: bv64): bv64
  {
    pid | EVICTED_BIT
  }

  /** The meaning of a raw word. */
  function Meaning(raw: bv64): Swip
  {
    if IsEvicted(raw) then Evicted(PageId(raw))
    else if IsCool(raw) then Cool(PointerBits(raw))
    else Hot(PointerBits(raw))
  }

  /** The word for a meaning. */
  function Encode(s: Swip): bv64
  {
    match s
    case Hot(ptr) => ptr
    case Cool(ptr) => ptr | COOL_BIT
    case Evicted(pid) => pid | EVICTED_BIT
  }

  /** The payload does not use the tag bits. */
  predicate Legal(s: Swip)
  {
    match s
    case Hot(ptr) => Untagged(ptr)
    case Cool(ptr) => Untagged(ptr)
    case Evicted(pid) => Untagged(pid)
  }

  // ----- bit facts -----

  predicate Untagged(x: bv64)
  {
    x & STATE_MASK == 0
  }

  lemma HotBits(p: bv64)
    requires Untagged(p)
    ensures !IsEvicted(p) && !IsCool(p) && PointerBits(p) == p
  {
  }

  lemma CoolBits(p: bv64)
    requires Untagged(p)
    ensures IsCool(p | COOL_BIT) && !IsEvicted(p | COOL_BIT) && PointerBits(p | COOL_BIT) == p
  {
  }

  lemma EvictedBits(p: bv64)
    requires Untagged(p)
    ensures IsEvicted(p | EVICTED_BIT) && !IsCool(p | EVICTED_BIT) && PageId(p | EVICTED_BIT) == p
  {
  }

  lemma FromHot(r: bv64)
    requires !IsEvicted(r) && !IsCool(r)
    ensures Untagged(r) && PointerBits(r) == r
  {
  }

  lemma FromCool(r: bv64)
    requires IsCool(r)
    ensures !IsEvicted(r) && Untagged(PointerBits(r)) && PointerBits(r) | COOL_BIT == r
    ensures r & !COOL_BIT == PointerBits(r)
  {
    CoolParts(r);
    CoolCleared(r);
  }

  lemma CoolParts(r: bv64)
    requires IsCool(r)
    ensures Untagged(PointerBits(r)) && PointerBits(r) | COOL_BIT == r
  {
  }

  lemma CoolCleared(r: bv64)
    requires IsCool(r)
    ensures r & !COOL_BIT == PointerBits(r)
  {
  }

  lemma FromEvicted(r: bv64)
    requires IsEvicted(r)
    ensures PageId(r) | EVICTED_BIT == r
  {
  }

  /** As numbers, hot words lie below a quarter of the range, cool ones in the second quarter and evicted ones in the
      upper half, and the payload is the distance from there. */
  lemma TopBits(raw: bv64)
    ensures Meaning(raw).Hot? <==> raw < 0x4000_0000_0000_0000
    ensures Meaning(raw).Evicted? <==> raw >= 0x8000_0000_0000_0000
    ensures Meaning(raw).Hot? ==> Meaning(raw).ptr == raw
    ensures Meaning(raw).Cool? ==> Meaning(raw).ptr == raw - 0x4000_0000_0000_0000
    ensures Meaning(raw).Evicted? ==> Meaning(raw).pid == raw - 0x8000_0000_0000_0000
  {
    hide IsEvicted, IsCool, PointerBits, PageId;
    EvictedRange(raw);
    CoolRange(raw);
    HotRange(raw);
  }

  lemma EvictedRange(raw: bv64)
    ensures IsEvicted(raw) <==> raw >= 0x8000_0000_0000_0000
    ensures IsEvicted(raw) ==> PageId(raw) == raw - 0x8000_0000_0000_0000
  {
  }

  lemma CoolRange(raw: bv64)
    ensures IsCool(raw) <==> 0x4000_0000_0000_0000 <= raw < 0x8000_0000_0000_0000
    ensures IsCool(raw) ==> PointerBits(raw) == raw - 0x4000_0000_0000_0000
  {
  }

  lemma HotRange(raw: bv64)
    ensures raw < 0x4000_0000_0000_0000 ==> PointerBits(raw) == raw
  {
  }

  lemma EncodeMeans(s: Swip)
    requires Legal(s)
    ensures Meaning(Encode(s)) == s
  {
    hide IsEvicted, IsCool, PointerBits, PageId, Untagged;
    match s
    case Hot(ptr) => HotBits(ptr);
    case Cool(ptr) => CoolBits(ptr);
    case Evicted(pid) => EvictedBits(pid);
  }

  /** Words and meanings correspond one to one: no two words mean the same. */
  lemma MeaningEncodes(raw: bv64)
    ensures Encode(Meaning(raw)) == raw
  {
    hide IsEvicted, IsCool, PointerBits, PageId, Untagged;
    if IsEvicted(raw) {
      FromEvicted(raw);
    } else if IsCool(raw) {
      FromCool(raw);
    } else {
      FromHot(raw);
    }
  }

  datatype Op = CoolDown | WarmUp | Evict(pid: bv64) | Resolve(ptr: bv64)

  /** The operation is allowed for this swip. */
  predicate Allowed(s: Swip, op: Op)
  {
    match op
    case CoolDown => s.Hot?
    case WarmUp => s.Cool?
    case Evict(pid) => s.Cool? && Untagged(pid)
    case Resolve(ptr) => s.Evicted? && Untagged(ptr)
  }

  /** What the operation means. */
  function Next(s: Swip, op: Op): Swip
    requires Allowed(s, op)
  {
    match op
    case CoolDown => Cool(s.ptr)
    case WarmUp => Hot(s.ptr)
    case Evict(pid) => Evicted(pid)
    case Resolve(ptr) => Hot(ptr)
  }

  /** A word in memory, updated in place. */
  class SwipWord {
    var raw: bv64

    constructor Hot(ptr: bv64)
      requires Untagged(ptr)
      ensures Meaning(raw) == Swip.Hot(ptr)
    {
      raw := ptr;
      new;
      hide IsEvicted, IsCool, PointerBits, PageId, Untagged;
      HotBits(ptr);
    }

    constructor Evicted(pid: bv64)
      requires Untagged(pid)
      ensures Meaning(raw) == Swip.Evicted(pid)
    {
      raw := EvictedWord(pid);
      new;
      hide IsEvicted, IsCool, PointerBits, PageId, Untagged;
      EvictedBits(pid);
    }

    method CoolDown()
      requires IsHot(raw)
      modifies this
      ensures Meaning(raw) == Next(Meaning(old(raw)), Op.CoolDown)
    {
      hide IsEvicted, IsCool, PointerBits, PageId, Untagged;
      FromHot(raw);
      CoolBits(raw);
      raw := raw | COOL_BIT;
    }

    method WarmUp()
      requires IsCool(raw)
      modifies this
      ensures Meaning(raw) == Next(Meaning(old(raw)), Op.WarmUp)
    {
      hide IsEvicted, IsCool, PointerBits, PageId, Untagged;
      FromCool(raw);
      HotBits(PointerBits(raw));
      raw := raw & !COOL_BIT;
    }

    method Evict(pid: bv64)
      requires IsCool(raw) && Untagged(pid)
      modifies this
      ensures Meaning(raw) == Next(Meaning(old(raw)), Op.Evict(pid))
    {
      hide IsEvicted, IsCool, PointerBits, PageId, Untagged;
      EvictedBits(pid);
      raw := EvictedWord(pid);
    }

    method Resolve(ptr: bv64)
      requires IsEvicted(raw) && Untagged(ptr)
      modifies this
      ensures Meaning(raw) == Next(Meaning(old(raw)), Op.Resolve(ptr))
    {
      hide IsEvicted, IsCool, PointerBits, PageId, Untagged;
      HotBits(ptr);
      raw := ptr;
    }

    /** Any allowed sequence of operations on the word does what the same sequence means. */
    method Apply(ops: seq<Op>) returns (done: nat)
      modifies this
      ensures done <= |ops| && Meaning(raw) == After(Meaning(old(raw)), ops[..done])
      ensures AllowedAll(Meaning(old(raw)), ops) ==> done == |ops|
    {
      hide IsEvicted, IsCool, PointerBits, PageId, Untagged, After, AllowedAll;
      AfterNone(Meaning(raw), ops);
      done := 0;
      ghost var start := Meaning(raw);
      while done < |ops|
        invariant done <= |ops| && Meaning(raw) == After(start, ops[..done])
        decreases |ops| - done
      {
        RunLonger(start, ops, done);
        if !Allowed(Meaning(raw), ops[done]) {
          return;
        }
        match ops[done] {
          case CoolDown => CoolDown();
          case WarmUp => WarmUp();
          case Evict(pid) => Evict(pid);
          case Resolve(ptr) => Resolve(ptr);
        }
        done := done + 1;
      }
      assert ops[..done] == ops;
    }
  }

  /** The meaning after a sequence of operations; it stops changing at one that is not allowed. */
  function After(s: Swip, ops: seq<Op>): Swip
  {
    if |ops| == 0 then s
    else
      var before := After(s, ops[..|ops| - 1]);
      if Allowed(before, ops[|ops| - 1]) then Next(before, ops[|ops| - 1]) else before
  }

  predicate AllowedAll(s: Swip, ops: seq<Op>)
  {
    |ops| == 0 || (AllowedAll(s, ops[..|ops| - 1]) && Allowed(After(s, ops[..|ops| - 1]), ops[|ops| - 1]))
  }

  lemma AfterNone(s: Swip, ops: seq<Op>)
    ensures After(s, ops[..0]) == s
  {
  }

  lemma RunLonger(s: Swip, ops: seq<Op>, n: nat)
    requires n < |ops|
    ensures Allowed(After(s, ops[..n]), ops[n]) ==> After(s, ops[..n + 1]) == Next(After(s, ops[..n]), ops[n])
    ensures AllowedAll(s, ops) ==> Allowed(After(s, ops[..n]), ops[n])
  {
    assert ops[..n + 1][..n] == ops[..n];
    if AllowedAll(s, ops) {
      AllowedPrefix(s, ops, n + 1);
    }
  }

  lemma {:induction false} AllowedPrefix(s: Swip, ops: seq<Op>, n: nat)
    requires n <= |ops| && AllowedAll(s, ops)
    ensures AllowedAll(s, ops[..n])
    decreases |ops|
  {
    if n == |ops| {
      assert ops[..n] == ops;
    } else {
      AllowedPrefix(s, ops[..|ops| - 1], n);
      assert ops[..|ops| - 1][..n] == ops[..n];
    }
  }
}
