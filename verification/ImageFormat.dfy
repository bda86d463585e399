/** The common image header, big-endian fields, and what an image checksum is. */
module ImageFormat {
  import opened MachineWords

  // Byte offsets of the header fields (common_types.h, struct image_header).
  const EP_BRANCH_INST: nat := 64
  const IMAGE_SIZE: nat := 72
  const START_ADDR: nat := 76
  const GPE0_SIZE: nat := 100
  const GPE1_SIZE: nat := 104
  const EP_ADDR: nat := 108
  const CHECKSUM: nat := 112
  const GPE0_CHECKSUM: nat := 116
  const GPE1_CHECKSUM: nat := 120
  const VERSION: nat := 124
  const IMAGE_ID_STR: nat := 128
  const FIELD_LEN: nat := 4
  const IMAGE_ID_STR_SZ: nat := 16

  type Bytes = seq<Byte>

  /** The 32-bit big-endian number at an offset. */
  function Be32(b: Bytes, off: nat): Word32
    requires off + FIELD_LEN <= |b|
  {
    FromBytes(b[off], b[off + 1], b[off + 2], b[off + 3])
  }

  function FromBytes(b0: Byte, b1: Byte, b2: Byte, b3: Byte): Word32 {
    b0 * 0x100_0000 + b1 * 0x1_0000 + b2 * 0x100 + b3
  }

  /** A number in the byte order of the headers. */
  function ToBytes(v: Word32): (b: Bytes)
    ensures |b| == FIELD_LEN
  {
    [v / 0x100_0000, v / 0x1_0000 % 0x100, v / 0x100 % 0x100, v % 0x100]
  }

  lemma BytesRoundTrip(v: Word32)
    ensures Be32(ToBytes(v), 0) == v
  {
    var hi, lo := v / 0x1_0000, v % 0x1_0000;
    assert v / 0x100_0000 == hi / 0x100;
    assert v / 0x100 % 0x100 == lo / 0x100 && v % 0x100 == lo % 0x100;
  }

  /** The file after `bytes` is written at an offset: replaced in place, with zeros filling
      any gap between the end of the file and the offset. */
  function Put(f: Bytes, off: nat, bytes: Bytes): Bytes {
    if off <= |f| then f[..off] + bytes + (if off + |bytes| <= |f| then f[off + |bytes|..] else [])
    else f + seq(off - |f|, _ => 0) + bytes
  }

  /** Writing inside a file changes only the bytes written. */
  lemma PutInside(f: Bytes, off: nat, bytes: Bytes)
    requires off + |bytes| <= |f|
    ensures var p := Put(f, off, bytes);
            && |p| == |f|
            && (forall i :: 0 <= i < |f| ==> p[i] == if off <= i < off + |bytes| then bytes[i - off] else f[i])
  {
  }

  /** Writing anywhere, past the end of the file included, leaves the fields it does not touch. */
  lemma PutKeeps(f: Bytes, off: nat, bytes: Bytes, field: nat)
    requires field + FIELD_LEN <= |f| && (field + FIELD_LEN <= off || off + |bytes| <= field)
    ensures var p := Put(f, off, bytes); |p| >= |f| && Be32(p, field) == Be32(f, field)
  {
  }

  lemma PutThere(f: Bytes, off: nat, v: Word32)
    ensures var p := Put(f, off, ToBytes(v)); |p| >= off + FIELD_LEN && Be32(p, off) == v
  {
    BytesRoundTrip(v);
  }

  lemma Put32Inside(f: Bytes, off: nat, v: Word32)
    requires off + FIELD_LEN <= |f|
    ensures var p := Put(f, off, ToBytes(v));
            && |p| == |f| && Be32(p, off) == v
            && (forall i :: 0 <= i < |f| && !(off <= i < off + FIELD_LEN) ==> p[i] == f[i])
  {
    PutInside(f, off, ToBytes(v));
    BytesRoundTrip(v);
  }

  // ---------- Checksums ----------

  /** The bytes a main image's checksum leaves out: the three checksum fields. */
  predicate InChecksumField(i: int) {
    CHECKSUM <= i < GPE1_CHECKSUM + FIELD_LEN
  }

  function Contribution(b: Bytes, i: nat, gpeFile: bool): nat {
    if i >= |b| || (!gpeFile && InChecksumField(i)) then 0 else b[i]
  }

  /** The sum of the first `n` bytes, without the checksum fields unless it is a GPE image. */
  function SumTo(b: Bytes, n: nat, gpeFile: bool): nat {
    if n == 0 then 0 else SumTo(b, n - 1, gpeFile) + Contribution(b, n - 1, gpeFile)
  }

  function Checksum(b: Bytes, gpeFile: bool): Word32 {
    Low32(SumTo(b, |b|, gpeFile))
  }

  /** Jumping over a checksum field leaves the sum as it is. */
  lemma SumOverField(b: Bytes, n: nat)
    requires n in {CHECKSUM, GPE0_CHECKSUM, GPE1_CHECKSUM}
    ensures SumTo(b, n + FIELD_LEN, false) == SumTo(b, n, false)
  {
    assert SumTo(b, n + 4, false) == SumTo(b, n + 3, false) == SumTo(b, n + 2, false) == SumTo(b, n + 1, false);
  }

  /** Nothing is added beyond the end. */
  lemma {:induction false} SumPastEnd(b: Bytes, n: nat, gpeFile: bool)
    requires n >= |b|
    ensures SumTo(b, n, gpeFile) == SumTo(b, |b|, gpeFile)
  {
    if n > |b| {
      SumPastEnd(b, n - 1, gpeFile);
    }
  }

  /** Two images that differ at most inside the checksum fields have the same checksum. */
  predicate SameOutsideChecksums(a: Bytes, b: Bytes) {
    |a| == |b| && forall i :: 0 <= i < |a| && !InChecksumField(i) ==> a[i] == b[i]
  }

  lemma {:induction false} ChecksumFieldsDoNotCount(a: Bytes, b: Bytes, n: nat)
    requires SameOutsideChecksums(a, b)
    ensures SumTo(a, n, false) == SumTo(b, n, false)
  {
    if n > 0 {
      ChecksumFieldsDoNotCount(a, b, n - 1);
    }
  }
}
