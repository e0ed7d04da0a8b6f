/**
 The header page of the page store: little-endian fields at fixed offsets.
 */
module Header {
  import opened Keys
  import opened Pages

  const HEADER_MAGIC: nat := 0x424F5854
  const HEADER_VERSION: nat := 2
  const MAGIC_OFF: nat := 0
  const VERSION_OFF: nat := 4
  const PAGE_COUNT_OFF: nat := 8
  const CHECKPOINT_LSN_OFF: nat := 16
  const USER_META_0_OFF: nat := 24
  const USER_META_1_OFF: nat := 32
  const USER_META_2_OFF: nat := 40
  const PAGE_SIZE_OFF: nat := 48
  const U64: nat := 0x1_0000_0000_0000_0000

  type u64 = n: nat | n < U64

  datatype Fields = Fields(pageCount: u64, checkpointLsn: u64, meta0: u64, meta1: u64, meta2: u64)

  datatype Result = Ok(fields: Fields) | BadMagic(found: nat) | BadVersion(found: nat) | BadPageSize(found: nat)

  // ----- little-endian numbers -----

  function ToLe(n: nat, w: nat): (bs: seq<byte>)
    ensures |bs| == w
    decreases w
  {
    if w == 0 then [] else [(n % 256) as byte] + ToLe(n / 256, w - 1)
  }

  function FromLe(bs: seq<byte>): nat
  {
    if |bs| == 0 then 0 else bs[0] as nat + 256 * FromLe(bs[1..])
  }

  function Power(w: nat): nat
  {
    if w == 0 then 1 else 256 * Power(w - 1)
  }

  lemma {:induction false} ReadsBack(n: nat, w: nat)
    requires n < Power(w)
    ensures FromLe(ToLe(n, w)) == n
    decreases w
  {
    if w > 0 {
      assert n / 256 < Power(w - 1);
      ReadsBack(n / 256, w - 1);
      assert ToLe(n, w)[1..] == ToLe(n / 256, w - 1);
    }
  }

  lemma {:induction false} WritesBack(bs: seq<byte>)
    ensures FromLe(bs) < Power(|bs|) && ToLe(FromLe(bs), |bs|) == bs
    decreases |bs|
  {
    if |bs| > 0 {
      var n := FromLe(bs);
      var rest := FromLe(bs[1..]);
      assert n == bs[0] as nat + 256 * rest;
      WritesBack(bs[1..]);
      LowByte(bs[0] as nat, rest);
      assert bs == [bs[0]] + bs[1..];
    }
  }

  lemma LowByte(b: nat, rest: nat)
    requires b < 256
    ensures (b + 256 * rest) % 256 == b && (b + 256 * rest) / 256 == rest
  {
  }

  lemma Powers()
    ensures Power(2) == 0x1_0000 && Power(4) == 0x1_0000_0000 && Power(8) == U64
  {
    assert Power(1) == 256 && Power(2) == 256 * 256 && Power(3) == 256 * 256 * 256;
    assert Power(5) == 256 * Power(4) && Power(6) == 256 * Power(5) && Power(7) == 256 * Power(6);
  }

  /** The number stored in `w` bytes at an offset. */
  function Field(hdr: seq<byte>, off: nat, w: nat): nat
    requires off + w <= |hdr|
  {
    FromLe(hdr[off..off + w])
  }

  // ----- building -----

  function Zeros(n: nat): (bs: seq<byte>)
    ensures |bs| == n
  {
    seq(n, _ => 0)
  }

  /** The header with the bytes `bs` put at an offset. */
  function Put(hdr: seq<byte>, off: nat, bs: seq<byte>): (r: seq<byte>)
    requires off + |bs| <= |hdr|
    ensures |r| == |hdr|
  {
    hdr[..off] + bs + hdr[off + |bs|..]
  }

  lemma PutReads(hdr: seq<byte>, off: nat, bs: seq<byte>)
    requires off + |bs| <= |hdr|
    ensures Put(hdr, off, bs)[off..off + |bs|] == bs
  {
  }

  lemma PutElsewhere(hdr: seq<byte>, off: nat, bs: seq<byte>, a: nat, b: nat)
    requires off + |bs| <= |hdr| && a <= b <= |hdr| && (b <= off || off + |bs| <= a)
    ensures Put(hdr, off, bs)[a..b] == hdr[a..b]
  {
    var r := Put(hdr, off, bs);
    assert forall i :: a <= i < b ==> r[i] == hdr[i];
  }

  /** Copies bytes into a buffer. */
  method CopyInto(buf: array<byte>, off: nat, bs: seq<byte>)
    requires off + |bs| <= buf.Length
    modifies buf
    ensures buf[..] == Put(old(buf[..]), off, bs)
  {
    for i := 0 to |bs|
      invariant forall j :: 0 <= j < i ==> buf[off + j] == bs[j]
      invariant forall j :: 0 <= j < buf.Length && !(off <= j < off + i) ==> buf[j] == old(buf[j])
    {
      buf[off + i] := bs[i];
    }
  }

  function HeaderBytes(f: Fields): (hdr: seq<byte>)
    ensures |hdr| == PAGE_SIZE
  {
    var h0 := Put(Zeros(PAGE_SIZE), MAGIC_OFF, ToLe(HEADER_MAGIC, 4));
    var h1 := Put(h0, VERSION_OFF, ToLe(HEADER_VERSION, 2));
    var h2 := Put(h1, PAGE_COUNT_OFF, ToLe(f.pageCount, 8));
    var h3 := Put(h2, CHECKPOINT_LSN_OFF, ToLe(f.checkpointLsn, 8));
    var h4 := Put(h3, USER_META_0_OFF, ToLe(f.meta0, 8));
    var h5 := Put(h4, USER_META_1_OFF, ToLe(f.meta1, 8));
    var h6 := Put(h5, USER_META_2_OFF, ToLe(f.meta2, 8));
    Put(h6, PAGE_SIZE_OFF, ToLe(PAGE_SIZE, 4))
  }

  method BuildHeader(f: Fields) returns (hdr: array<byte>)
    ensures fresh(hdr) && hdr[..] == HeaderBytes(f)
  {
    hide Put, ToLe;
    hdr := new byte[PAGE_SIZE](_ => 0);
    assert hdr[..] == Zeros(PAGE_SIZE);
    CopyInto(hdr, MAGIC_OFF, ToLe(HEADER_MAGIC, 4));
    CopyInto(hdr, VERSION_OFF, ToLe(HEADER_VERSION, 2));
    CopyInto(hdr, PAGE_COUNT_OFF, ToLe(f.pageCount, 8));
    CopyInto(hdr, CHECKPOINT_LSN_OFF, ToLe(f.checkpointLsn, 8));
    CopyInto(hdr, USER_META_0_OFF, ToLe(f.meta0, 8));
    CopyInto(hdr, USER_META_1_OFF, ToLe(f.meta1, 8));
    CopyInto(hdr, USER_META_2_OFF, ToLe(f.meta2, 8));
    CopyInto(hdr, PAGE_SIZE_OFF, ToLe(PAGE_SIZE, 4));
  }

  // ----- validating -----

  lemma FieldFits(hdr: seq<byte>, off: nat)
    requires off + 8 <= |hdr|
    ensures Field(hdr, off, 8) < U64
  {
    WritesBack(hdr[off..off + 8]);
    Powers();
  }

  function Validate(hdr: seq<byte>): (r: Result)
    requires |hdr| == PAGE_SIZE
  {
    var magic := Field(hdr, MAGIC_OFF, 4);
    var version := Field(hdr, VERSION_OFF, 2);
    var size := Field(hdr, PAGE_SIZE_OFF, 4);
    if magic != HEADER_MAGIC then BadMagic(magic)
    else if version != HEADER_VERSION then BadVersion(version)
    else if size != PAGE_SIZE then BadPageSize(size)
    else
      FieldFits(hdr, PAGE_COUNT_OFF);
      FieldFits(hdr, CHECKPOINT_LSN_OFF);
      FieldFits(hdr, USER_META_0_OFF);
      FieldFits(hdr, USER_META_1_OFF);
      FieldFits(hdr, USER_META_2_OFF);
      Ok(Fields(Field(hdr, PAGE_COUNT_OFF, 8), Field(hdr, CHECKPOINT_LSN_OFF, 8),
                Field(hdr, USER_META_0_OFF, 8), Field(hdr, USER_META_1_OFF, 8), Field(hdr, USER_META_2_OFF, 8)))
  }

  /** What one field of a built header reads as, whatever is put behind it later. */
  lemma Reads(hdr: seq<byte>, off: nat, n: nat, w: nat)
    requires off + w <= |hdr| && n < Power(w) && hdr[off..off + w] == ToLe(n, w)
    ensures Field(hdr, off, w) == n
  {
    ReadsBack(n, w);
  }

  /** The bytes of every field in a built header. */
  lemma HeaderFields(f: Fields)
    ensures var h := HeaderBytes(f);
      && h[MAGIC_OFF..MAGIC_OFF + 4] == ToLe(HEADER_MAGIC, 4)
      && h[VERSION_OFF..VERSION_OFF + 2] == ToLe(HEADER_VERSION, 2)
      && h[PAGE_COUNT_OFF..PAGE_COUNT_OFF + 8] == ToLe(f.pageCount, 8)
      && h[CHECKPOINT_LSN_OFF..CHECKPOINT_LSN_OFF + 8] == ToLe(f.checkpointLsn, 8)
      && h[USER_META_0_OFF..USER_META_0_OFF + 8] == ToLe(f.meta0, 8)
      && h[USER_META_1_OFF..USER_META_1_OFF + 8] == ToLe(f.meta1, 8)
      && h[USER_META_2_OFF..USER_META_2_OFF + 8] == ToLe(f.meta2, 8)
      && h[PAGE_SIZE_OFF..PAGE_SIZE_OFF + 4] == ToLe(PAGE_SIZE, 4)
  {
    hide Put, ToLe, Zeros;
    var writes := [(MAGIC_OFF, ToLe(HEADER_MAGIC, 4)), (VERSION_OFF, ToLe(HEADER_VERSION, 2)),
                   (PAGE_COUNT_OFF, ToLe(f.pageCount, 8)),
                   (CHECKPOINT_LSN_OFF, ToLe(f.checkpointLsn, 8)), (USER_META_0_OFF, ToLe(f.meta0, 8)),
                   (USER_META_1_OFF, ToLe(f.meta1, 8)), (USER_META_2_OFF, ToLe(f.meta2, 8)),
                   (PAGE_SIZE_OFF, ToLe(PAGE_SIZE, 4))];
    AllPut(Zeros(PAGE_SIZE), writes);
    assert PutAll(Zeros(PAGE_SIZE), writes) == HeaderBytes(f) by {
      Unroll(Zeros(PAGE_SIZE), writes);
    }
    forall i | 0 <= i < |writes|
      ensures HeaderBytes(f)[writes[i].0..writes[i].0 + |writes[i].1|] == writes[i].1
    {
    }
    assert writes[0].0 == MAGIC_OFF && writes[1].0 == VERSION_OFF && writes[2].0 == PAGE_COUNT_OFF;
    assert writes[3].0 == CHECKPOINT_LSN_OFF;
    assert writes[4].0 == USER_META_0_OFF && writes[5].0 == USER_META_1_OFF && writes[6].0 == USER_META_2_OFF;
    assert writes[7].0 == PAGE_SIZE_OFF;
  }

  /** A sequence of writes at increasing offsets that do not overlap. */
  ghost predicate Ordered(writes: seq<(nat, seq<byte>)>, size: nat)
  {
    && (forall i :: 0 <= i < |writes| ==> writes[i].0 + |writes[i].1| <= size)
    && (forall i, j :: 0 <= i < j < |writes| ==> writes[i].0 + |writes[i].1| <= writes[j].0)
  }

  ghost function PutAll(hdr: seq<byte>, writes: seq<(nat, seq<byte>)>): (r: seq<byte>)
    requires Ordered(writes, |hdr|)
    ensures |r| == |hdr|
  {
    if |writes| == 0 then hdr
    else Put(PutAll(hdr, writes[..|writes| - 1]), writes[|writes| - 1].0, writes[|writes| - 1].1)
  }

  lemma {:induction false} AllPut(hdr: seq<byte>, writes: seq<(nat, seq<byte>)>)
    requires Ordered(writes, |hdr|)
    ensures forall i :: 0 <= i < |writes| ==>
      PutAll(hdr, writes)[writes[i].0..writes[i].0 + |writes[i].1|] == writes[i].1
    decreases |writes|
  {
    hide Put;
    if |writes| > 0 {
      var n := |writes| - 1;
      var before := PutAll(hdr, writes[..n]);
      AllPut(hdr, writes[..n]);
      forall i | 0 <= i < |writes|
        ensures PutAll(hdr, writes)[writes[i].0..writes[i].0 + |writes[i].1|] == writes[i].1
      {
        if i == n {
          PutReads(before, writes[n].0, writes[n].1);
        } else {
          PutElsewhere(before, writes[n].0, writes[n].1, writes[i].0, writes[i].0 + |writes[i].1|);
          assert writes[..n][i] == writes[i];
        }
      }
    }
  }

  lemma Unroll(hdr: seq<byte>, w: seq<(nat, seq<byte>)>)
    requires |w| == 8 && Ordered(w, |hdr|)
    ensures PutAll(hdr, w) ==
      Put(Put(Put(Put(Put(Put(Put(Put(hdr, w[0].0, w[0].1), w[1].0, w[1].1), w[2].0, w[2].1), w[3].0, w[3].1),
          w[4].0, w[4].1), w[5].0, w[5].1), w[6].0, w[6].1), w[7].0, w[7].1)
  {
    hide Put;
    assert w[..8] == w;
    UnrollTo(hdr, w, 8);
    UnrollTo(hdr, w, 7);
    UnrollTo(hdr, w, 6);
    UnrollTo(hdr, w, 5);
    UnrollTo(hdr, w, 4);
    UnrollTo(hdr, w, 3);
    UnrollTo(hdr, w, 2);
    UnrollTo(hdr, w, 1);
    assert w[..0] == [];
  }

  lemma UnrollTo(hdr: seq<byte>, w: seq<(nat, seq<byte>)>, n: nat)
    requires 0 < n <= |w| && Ordered(w, |hdr|)
    ensures Ordered(w[..n], |hdr|) && Ordered(w[..n - 1], |hdr|)
    ensures PutAll(hdr, w[..n]) == Put(PutAll(hdr, w[..n - 1]), w[n - 1].0, w[n - 1].1)
  {
    hide Put, Ordered;
    OrderedPrefix(w, n, |hdr|);
    OrderedPrefix(w, n - 1, |hdr|);
    assert w[..n][..n - 1] == w[..n - 1];
    assert w[..n][n - 1] == w[n - 1];
  }

  lemma OrderedPrefix(w: seq<(nat, seq<byte>)>, n: nat, size: nat)
    requires n <= |w| && Ordered(w, size)
    ensures Ordered(w[..n], size)
  {
    assert forall i :: 0 <= i < n ==> w[..n][i] == w[i];
  }

  /** Every header reads back as the fields it was built from. */
  lemma HeaderRoundTrip(f: Fields)
    ensures Validate(HeaderBytes(f)) == Ok(f)
  {
    hide HeaderBytes, ToLe, FromLe, Power;
    HeaderFields(f);
    Powers();
    var h := HeaderBytes(f);
    Reads(h, MAGIC_OFF, HEADER_MAGIC, 4);
    Reads(h, VERSION_OFF, HEADER_VERSION, 2);
    Reads(h, PAGE_COUNT_OFF, f.pageCount, 8);
    Reads(h, CHECKPOINT_LSN_OFF, f.checkpointLsn, 8);
    Reads(h, USER_META_0_OFF, f.meta0, 8);
    Reads(h, USER_META_1_OFF, f.meta1, 8);
    Reads(h, USER_META_2_OFF, f.meta2, 8);
    Reads(h, PAGE_SIZE_OFF, PAGE_SIZE, 4);
  }

  /** A page is accepted exactly if the bytes of magic, version and page size are those of this format; otherwise the
      first of them that differs is reported. */
  lemma AcceptedIff(hdr: seq<byte>)
    requires |hdr| == PAGE_SIZE
    ensures Validate(hdr).BadMagic? <==> hdr[0..4] != ToLe(HEADER_MAGIC, 4)
    ensures Validate(hdr).BadVersion? <==> hdr[0..4] == ToLe(HEADER_MAGIC, 4) && hdr[4..6] != ToLe(HEADER_VERSION, 2)
    ensures Validate(hdr).BadPageSize? <==>
      hdr[0..4] == ToLe(HEADER_MAGIC, 4) && hdr[4..6] == ToLe(HEADER_VERSION, 2) && hdr[48..52] != ToLe(PAGE_SIZE, 4)
  {
    hide ToLe, FromLe, Power;
    Powers();
    SameBytes(hdr[0..4], HEADER_MAGIC);
    SameBytes(hdr[4..6], HEADER_VERSION);
    SameBytes(hdr[48..52], PAGE_SIZE);
  }

  lemma SameBytes(bs: seq<byte>, n: nat)
    requires n < Power(|bs|)
    ensures FromLe(bs) == n <==> bs == ToLe(n, |bs|)
  {
    WritesBack(bs);
    ReadsBack(n, |bs|);
  }

  // ----- byte by byte -----

  /** The digit of a number, to base 256, at position `j` from the lowest. */
  function Digit(n: nat, j: nat): nat
  {
    if j == 0 then n % 256 else Digit(n / 256, j - 1)
  }

  /** Byte `j` of a number is its digit at that position: the lowest comes first. */
  lemma {:induction false} DigitAt(n: nat, w: nat, j: nat)
    requires j < w
    ensures ToLe(n, w)[j] as nat == Digit(n, j)
    decreases w
  {
    if j > 0 {
      DigitAt(n / 256, w - 1, j - 1);
    }
  }

  /** The header, byte by byte: the letters and the version, the five numbers with their lowest byte first at 8, 16,
      24, 32 and 40, and the page size. */
  lemma Layout(f: Fields, j: nat)
    requires j < 8
    ensures var h := HeaderBytes(f);
      && h[0..4] == [0x54, 0x58, 0x4f, 0x42] && h[4..6] == [2, 0] && h[48..52] == [0, 0, 1, 0]
      && h[8 + j] as nat == Digit(f.pageCount, j) && h[16 + j] as nat == Digit(f.checkpointLsn, j)
      && h[24 + j] as nat == Digit(f.meta0, j) && h[32 + j] as nat == Digit(f.meta1, j)
      && h[40 + j] as nat == Digit(f.meta2, j)
  {
    hide HeaderBytes, ToLe, Digit;
    HeaderFields(f);
    FixedBytes();
    DigitAt(f.pageCount, 8, j);
    DigitAt(f.checkpointLsn, 8, j);
    DigitAt(f.meta0, 8, j);
    DigitAt(f.meta1, 8, j);
    DigitAt(f.meta2, 8, j);
    var h := HeaderBytes(f);
    assert h[8 + j] == h[8..16][j] && h[16 + j] == h[16..24][j] && h[24 + j] == h[24..32][j];
    assert h[32 + j] == h[32..40][j] && h[40 + j] == h[40..48][j];
  }

  lemma FixedBytes()
    ensures ToLe(HEADER_MAGIC, 4) == [0x54, 0x58, 0x4f, 0x42] && ToLe(HEADER_VERSION, 2) == [2, 0]
    ensures ToLe(PAGE_SIZE, 4) == [0, 0, 1, 0]
  {
    assert ToLe(0x424f, 2) == [0x4f] + ToLe(0x42, 1);
    assert ToLe(0x42, 1) == [0x42] + ToLe(0, 0);
    assert ToLe(0x42_4f58, 3) == [0x58] + ToLe(0x424f, 2);
    assert ToLe(2, 2) == [2] + ToLe(0, 1) && ToLe(0, 1) == [0] + ToLe(0, 0);
    assert ToLe(0x1_0000, 4) == [0] + ToLe(0x100, 3) && ToLe(0x100, 3) == [0] + ToLe(1, 2);
    assert ToLe(1, 2) == [1] + ToLe(0, 1);
  }

  /** The fields of an accepted page are the numbers stored at 8, 16, 24, 32 and 40, lowest byte first. */
  lemma AcceptedFields(hdr: seq<byte>)
    requires |hdr| == PAGE_SIZE && Validate(hdr).Ok?
    ensures var f := Validate(hdr).fields;
      && hdr[8..16] == ToLe(f.pageCount, 8) && hdr[16..24] == ToLe(f.checkpointLsn, 8)
      && hdr[24..32] == ToLe(f.meta0, 8) && hdr[32..40] == ToLe(f.meta1, 8) && hdr[40..48] == ToLe(f.meta2, 8)
  {
    hide ToLe, FromLe, Power;
    WritesBack(hdr[8..16]);
    WritesBack(hdr[16..24]);
    WritesBack(hdr[24..32]);
    WritesBack(hdr[32..40]);
    WritesBack(hdr[40..48]);
  }
}
