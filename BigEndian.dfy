/**
 * What BigEndianBinaryReader reads from a class-file stream, as functions of the
 * bytes and a position. Stream.ReadByte returns -1 at the end of the stream and the
 * reader casts it to a byte, so every read past the end yields 0xFF: no read fails.
 */
module BigEndian {

  /** An unsigned 8-bit value as the stream delivers it. */
  newtype byte = b: int | 0 <= b < 0x100

  /** The byte the reader obtains at position p. */
  function ByteAt(data: seq<byte>, p: nat): byte {
    if p < |data| then data[p] else 0xFF
  }

  /** ReadUInt16: two bytes, the first one most significant. */
  function U16At(data: seq<byte>, p: nat): (v: nat)
    ensures v < 0x1_0000
  {
    ByteAt(data, p) as int * 0x100 + ByteAt(data, p + 1) as int
  }

  /** ReadUInt32: four bytes, the first one most significant. */
  function U32At(data: seq<byte>, p: nat): (v: nat)
    ensures v < 0x1_0000_0000
  {
    U16At(data, p) * 0x1_0000 + U16At(data, p + 2)
  }

  /** ReadInt32: the four bytes as a two's-complement integer. */
  function I32At(data: seq<byte>, p: nat): (v: int)
    ensures -0x8000_0000 <= v < 0x8000_0000
    ensures v >= 0 <==> ByteAt(data, p) < 0x80
  {
    var u := U32At(data, p);
    if u < 0x8000_0000 then u else u - 0x1_0000_0000
  }

  /** ReadBytes(n): the next n bytes. */
  function BytesAt(data: seq<byte>, p: nat, n: nat): seq<byte> {
    seq(n, i requires 0 <= i < n => ByteAt(data, p + i))
  }

  /** The standard big-endian reading of a CONSTANT_Long's two words, as a signed 64-bit value. */
  function Int64At(data: seq<byte>, p: nat): (v: int)
    ensures -0x8000_0000_0000_0000 <= v < 0x8000_0000_0000_0000
  {
    var u := U32At(data, p) * 0x1_0000_0000 + U32At(data, p + 4);
    if u < 0x8000_0000_0000_0000 then u else u - 0x1_0000_0000_0000_0000
  }

  /**
   * ReadInt64 as the reader computes it: `(long) (lowBits << 32) + highBits`, where
   * lowBits is the first word read. C# masks the shift count of a uint to five bits,
   * so the shift by 32 leaves lowBits unchanged and the result is the sum of the words.
   */
  function Int64AsWritten(data: seq<byte>, p: nat): (v: int)
    ensures 0 <= v < 0x2_0000_0000
  {
    var lowBits := U32At(data, p);
    var highBits := U32At(data, p + 4);
    lowBits % 0x1_0000_0000 + highBits  // lowBits << 32 on a uint: shift count 32 & 31 == 0
  }

  // Encoders: the layout a class-file writer produces.

  function EncodeU16(v: nat): (bs: seq<byte>)
    requires v < 0x1_0000
    ensures |bs| == 2
  {
    [(v / 0x100) as byte, (v % 0x100) as byte]
  }

  function EncodeU32(v: nat): (bs: seq<byte>)
    requires v < 0x1_0000_0000
    ensures |bs| == 4
  {
    EncodeU16(v / 0x1_0000) + EncodeU16(v % 0x1_0000)
  }

  function EncodeI32(x: int): (bs: seq<byte>)
    requires -0x8000_0000 <= x < 0x8000_0000
    ensures |bs| == 4
  {
    EncodeU32(if x < 0 then x + 0x1_0000_0000 else x)
  }

  function EncodeI64(x: int): (bs: seq<byte>)
    requires -0x8000_0000_0000_0000 <= x < 0x8000_0000_0000_0000
    ensures |bs| == 8
  {
    var u := if x < 0 then x + 0x1_0000_0000_0000_0000 else x;
    EncodeU32(u / 0x1_0000_0000) + EncodeU32(u % 0x1_0000_0000)
  }

  // Reading what was written.

  /** The ways of grouping a byte string cut in four. */
  lemma Regroup(a: seq<byte>, b: seq<byte>, c: seq<byte>, e: seq<byte>)
    ensures a + (b + c) + e == a + b + (c + e) == (a + b) + c + e
  {
  }

  lemma Reassociate(a: seq<byte>, b: seq<byte>, c: seq<byte>)
    ensures a + (b + c) == a + b + c
  {
  }

  /** Cutting a byte string at p and gluing it back gives the same string. */
  lemma SplitAt(d: seq<byte>, p: nat)
    requires p <= |d|
    ensures d == d[..p] + d[p..]
  {
  }

  /** What follows a known prefix of the bytes from p starts right after it. */
  lemma SuffixAfter(d: seq<byte>, p: nat, a: seq<byte>, b: seq<byte>, c: seq<byte>)
    requires p <= |d| && d[p..] == a + b + c
    ensures d[p..] == a + (b + c)
    ensures p + |a| <= |d| && d[p + |a|..] == b + c
  {
    assert d[p + |a|..] == d[p..][|a|..];
  }

  /** The bytes after a prefix. */
  lemma DropPrefix(a: seq<byte>, b: seq<byte>, c: seq<byte>)
    ensures (a + b + c)[|a|..] == b + c
  {
  }

  /** A record of four u2-sized pieces and a body, between pre and post, read piece by piece. */
  lemma RegroupRecord(pre: seq<byte>, a: seq<byte>, b: seq<byte>, c: seq<byte>, g: seq<byte>, h: seq<byte>, post: seq<byte>)
    ensures var x := pre + (a + b + c + (g + h)) + post;
      && x == pre + a + (b + (c + (g + (h + post))))
      && x == (pre + a) + b + (c + (g + (h + post)))
      && x == (pre + a + b) + c + (g + (h + post))
      && x == (pre + a + b + c) + g + h + post
  {
  }

  lemma ByteAtSplice(pre: seq<byte>, mid: seq<byte>, post: seq<byte>, k: nat)
    requires k < |mid|
    ensures ByteAt(pre + mid + post, |pre| + k) == mid[k]
  {
    assert (pre + mid + post)[|pre| + k] == mid[k];
  }

  lemma {:induction false} U16RoundTrip(pre: seq<byte>, v: nat, post: seq<byte>)
    requires v < 0x1_0000
    ensures U16At(pre + EncodeU16(v) + post, |pre|) == v
  {
    ByteAtSplice(pre, EncodeU16(v), post, 0);
    ByteAtSplice(pre, EncodeU16(v), post, 1);
  }

  lemma {:induction false} U32RoundTrip(pre: seq<byte>, v: nat, post: seq<byte>)
    requires v < 0x1_0000_0000
    ensures U32At(pre + EncodeU32(v) + post, |pre|) == v
  {
    var hi, lo := EncodeU16(v / 0x1_0000), EncodeU16(v % 0x1_0000);
    assert pre + EncodeU32(v) + post == pre + hi + (lo + post);
    assert pre + EncodeU32(v) + post == (pre + hi) + lo + post;
    U16RoundTrip(pre, v / 0x1_0000, lo + post);
    U16RoundTrip(pre + hi, v % 0x1_0000, post);
  }

  lemma {:induction false} I32RoundTrip(pre: seq<byte>, x: int, post: seq<byte>)
    requires -0x8000_0000 <= x < 0x8000_0000
    ensures I32At(pre + EncodeI32(x) + post, |pre|) == x
  {
    U32RoundTrip(pre, if x < 0 then x + 0x1_0000_0000 else x, post);
  }

  /** The corrected ReadInt64 reads back every signed 64-bit value. */
  lemma {:induction false} Int64RoundTrip(pre: seq<byte>, x: int, post: seq<byte>)
    requires -0x8000_0000_0000_0000 <= x < 0x8000_0000_0000_0000
    ensures Int64At(pre + EncodeI64(x) + post, |pre|) == x
  {
    var u := if x < 0 then x + 0x1_0000_0000_0000_0000 else x;
    var hi, lo := EncodeU32(u / 0x1_0000_0000), EncodeU32(u % 0x1_0000_0000);
    assert pre + EncodeI64(x) + post == pre + hi + (lo + post);
    assert pre + EncodeI64(x) + post == (pre + hi) + lo + post;
    U32RoundTrip(pre, u / 0x1_0000_0000, lo + post);
    U32RoundTrip(pre + hi, u % 0x1_0000_0000, post);
  }

  /** Reading then re-encoding gives back the bytes read: the first byte read is the most significant. */
  lemma U16Encodes(data: seq<byte>, p: nat)
    ensures EncodeU16(U16At(data, p)) == [ByteAt(data, p), ByteAt(data, p + 1)]
  {
    var b0, b1 := ByteAt(data, p) as int, ByteAt(data, p + 1) as int;
    assert (b0 * 0x100 + b1) / 0x100 == b0;
    assert (b0 * 0x100 + b1) % 0x100 == b1;
  }

  lemma U32Encodes(data: seq<byte>, p: nat)
    ensures EncodeU32(U32At(data, p)) == BytesAt(data, p, 4)
  {
    var h, l := U16At(data, p), U16At(data, p + 2);
    assert (h * 0x1_0000 + l) / 0x1_0000 == h;
    assert (h * 0x1_0000 + l) % 0x1_0000 == l;
    U16Encodes(data, p);
    U16Encodes(data, p + 2);
  }

  /** The first byte of a word alone decides its top eight bits. */
  lemma FirstByteMostSignificant(data: seq<byte>, p: nat)
    ensures U16At(data, p) / 0x100 == ByteAt(data, p) as int
    ensures U32At(data, p) / 0x100_0000 == ByteAt(data, p) as int
  {
    var b0 := ByteAt(data, p) as int;
    var h, l := U16At(data, p), U16At(data, p + 2);
    assert h / 0x100 == b0;
    assert (h * 0x1_0000 + l) / 0x100_0000 == h / 0x100;
  }

  /** Reading past the end of the stream yields all-ones words. */
  lemma PastEndReadsOnes(data: seq<byte>, p: nat)
    requires p >= |data|
    ensures U16At(data, p) == 0xFFFF && U32At(data, p) == 0xFFFF_FFFF && I32At(data, p) == -1
  {
  }

  /**
   * ReadInt64 as written does not read the standard layout: the bytes 00 00 00 01 00 00 00 00,
   * whose words are 0x00000001 and 0x00000000 and which stand for 2^32, come back as 1.
   */
  lemma Int64AsWrittenDiffers()
    ensures Int64AsWritten(EncodeU32(1) + EncodeU32(0), 0) == 1
    ensures Int64At(EncodeU32(1) + EncodeU32(0), 0) == 0x1_0000_0000
  {
    var hi, lo := EncodeU32(1), EncodeU32(0);
    U32RoundTrip([], 1, lo);
    U32RoundTrip(hi, 0, []);
    assert [] + hi + lo == hi + lo + [] == hi + lo;
  }

  /** As written, a negative long such as -1 (all bytes 0xFF) comes back positive. */
  lemma Int64AsWrittenLosesSign()
    ensures Int64AsWritten(EncodeI64(-1), 0) == 0x1_FFFF_FFFE
  {
    var ones := EncodeU32(0xFFFF_FFFF);
    var u := 0xFFFF_FFFF_FFFF_FFFF;
    assert u / 0x1_0000_0000 == 0xFFFF_FFFF && u % 0x1_0000_0000 == 0xFFFF_FFFF;
    assert EncodeI64(-1) == ones + ones;
    U32RoundTrip([], 0xFFFF_FFFF, ones);
    U32RoundTrip(ones, 0xFFFF_FFFF, []);
    assert [] + ones + ones == ones + ones + [] == ones + ones;
  }

  /** As written, the two words commute, so the order of the words is lost. */
  lemma Int64AsWrittenIgnoresWordOrder(a: nat, b: nat)
    requires a < 0x1_0000_0000 && b < 0x1_0000_0000
    ensures Int64AsWritten(EncodeU32(a) + EncodeU32(b), 0) == Int64AsWritten(EncodeU32(b) + EncodeU32(a), 0)
  {
    U32RoundTrip([], a, EncodeU32(b));
    U32RoundTrip(EncodeU32(a), b, []);
    U32RoundTrip([], b, EncodeU32(a));
    U32RoundTrip(EncodeU32(b), a, []);
    assert [] + EncodeU32(a) + EncodeU32(b) == EncodeU32(a) + EncodeU32(b);
    assert EncodeU32(a) + EncodeU32(b) + [] == EncodeU32(a) + EncodeU32(b);
    assert [] + EncodeU32(b) + EncodeU32(a) == EncodeU32(b) + EncodeU32(a);
    assert EncodeU32(b) + EncodeU32(a) + [] == EncodeU32(b) + EncodeU32(a);
  }
}
