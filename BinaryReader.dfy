/**
 * BigEndianBinaryReader: a cursor over the bytes of one class file. Each Read*
 * method advances the cursor and returns what the BigEndian functions say is at
 * the old position.
 */
module BinaryReader {
  import opened BigEndian

  /** ASCIIEncoding.GetString: bytes up to 0x7F are their character, the rest become '?'. */
  function AsciiChar(b: byte): char {
    if b < 0x80 then (b as int) as char else '?'
  }

  function AsciiDecode(bs: seq<byte>): (s: string)
    ensures |s| == |bs|
  {
    seq(|bs|, i requires 0 <= i < |bs| => AsciiChar(bs[i]))
  }

  /** Every character the decoder produces is 7-bit. */
  lemma AsciiDecodeIsSevenBit(bs: seq<byte>)
    ensures forall i :: 0 <= i < |bs| ==> AsciiDecode(bs)[i] as int < 0x80
  {
  }

  class Reader {
    const data: seq<byte>
    var pos: nat

    constructor (data: seq<byte>)
      ensures this.data == data && pos == 0
    {
      this.data := data;
      pos := 0;
    }

    method ReadByte() returns (b: byte)
      modifies this
      ensures b == ByteAt(data, old(pos)) && pos == old(pos) + 1
    {
      // Stream.ReadByte() returns -1 at the end; (byte) -1 is 0xFF
      b := if pos < |data| then data[pos] else 0xFF;
      pos := pos + 1;
    }

    method ReadUInt16() returns (v: nat)
      modifies this
      ensures v == U16At(data, old(pos)) && pos == old(pos) + 2
    {
      var b1 := ReadByte();
      var b0 := ReadByte();
      v := b1 as int * 0x100 + b0 as int;
    }

    method ReadUInt32() returns (v: nat)
      modifies this
      ensures v == U32At(data, old(pos)) && pos == old(pos) + 4
    {
      var b3 := ReadByte();
      var b2 := ReadByte();
      var b1 := ReadByte();
      var b0 := ReadByte();
      v := ((b3 as int * 0x100 + b2 as int) * 0x100 + b1 as int) * 0x100 + b0 as int;
    }

    method ReadInt32() returns (v: int)
      modifies this
      ensures v == I32At(data, old(pos)) && pos == old(pos) + 4
    {
      var u := ReadUInt32();
      v := if u < 0x8000_0000 then u else u as int - 0x1_0000_0000;
    }

    /** ReadInt64 as the source computes it; see Int64AsWritten. */
    method ReadInt64() returns (v: int)
      modifies this
      ensures v == Int64AsWritten(data, old(pos)) && pos == old(pos) + 8
    {
      var lowBits := ReadUInt32();
      var highBits := ReadUInt32();
      v := lowBits % 0x1_0000_0000 + highBits;
    }

    method ReadBytes(length: nat) returns (bytes: seq<byte>)
      modifies this
      ensures bytes == BytesAt(data, old(pos), length) && pos == old(pos) + length
    {
      var a := new byte[length];
      var i := 0;
      while i < length
        invariant 0 <= i <= length && pos == old(pos) + i
        invariant forall k :: 0 <= k < i ==> a[k] == ByteAt(data, old(pos) + k)
      {
        a[i] := ReadByte();
        i := i + 1;
      }
      bytes := a[..];
    }

    method ReadString(length: nat) returns (s: string)
      modifies this
      ensures s == AsciiDecode(BytesAt(data, old(pos), length)) && pos == old(pos) + length
    {
      var utf8 := ReadBytes(length);
      s := AsciiDecode(utf8);
    }
  }
}
