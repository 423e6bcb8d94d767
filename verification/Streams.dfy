/**
  The buffered streams: an output buffer that grows in steps of 64 bytes, an input cursor that is
  clamped at the end, and big-endian numbers and counted strings on both.
 */
module Streams {
  import opened RowFile
  import opened Slices

  /** The low n bytes of a number, the high one first. */
  function BigEndian(n: nat, value: nat): (r: Block)
    ensures |r| == n
  {
    if n == 0 then [] else BigEndian(n - 1, value / 256) + [(value % 256) as byte]
  }

  function FromBigEndian(bytes: Block): nat {
    if bytes == [] then 0 else 256 * FromBigEndian(bytes[..|bytes| - 1]) + bytes[|bytes| - 1] as nat
  }

  function Limit(n: nat): nat { if n == 0 then 1 else 256 * Limit(n - 1) }

  lemma {:induction false} BigEndianInverts(n: nat, value: nat)
    ensures value < Limit(n) ==> FromBigEndian(BigEndian(n, value)) == value
  {
    if n > 0 {
      BigEndianInverts(n - 1, value / 256);
      assert BigEndian(n, value)[..n - 1] == BigEndian(n - 1, value / 256);
    }
  }

  /** A counted string. */
  function Counted(s: Block): Block { BigEndian(4, |s|) + s }

  class OutputStream {
    var buffer: Block    // as long as the memory allocated
    var offset: nat      // how much of it has been written

    ghost predicate Valid() reads this { offset <= |buffer| }

    ghost function Contents(): Block requires Valid() reads this { buffer[..offset] }

    constructor ()
      ensures Valid() && Contents() == []
    {
      buffer, offset := [], 0;
    }

    /** Makes room for so many more bytes, at a multiple of 64, and keeps what is there. */
    method EnsureBuffer(n: nat)
      requires Valid()
      modifies `buffer
      ensures Valid() && offset + n <= |buffer| && Contents() == old(Contents())
      ensures buffer == old(buffer) || |buffer| % 64 == 0
    {
      if offset + n > |buffer| {
        var length := (|buffer| + n + 64) / 64 * 64;
        buffer := buffer + seq(length - |buffer|, _ => 0);
      }
    }

    method Write(data: Block)
      requires Valid()
      modifies this
      ensures Valid() && Contents() == old(Contents()) + data
    {
      EnsureBuffer(|data|);
      buffer := Overlay(buffer, offset, data);
      offset := offset + |data|;
    }

    /** WriteUInt8, WriteUInt32 and WriteUInt64, by their width in bytes. */
    method WriteUInt(width: nat, value: nat)
      requires Valid()
      modifies this
      ensures Valid() && Contents() == old(Contents()) + BigEndian(width, value)
    {
      Write(BigEndian(width, value));
    }

    method WriteString(s: Block)
      requires Valid()
      modifies this
      ensures Valid() && Contents() == old(Contents()) + Counted(s)
    {
      WriteUInt(4, |s|);
      if |s| > 0 {
        Write(s);
      }
    }
  }

  class InputStream {
    const data: Block
    var offset: nat
    var isValid: bool

    ghost predicate Valid() reads this { offset <= |data| }

    constructor (data: Block)
      ensures Valid() && this.data == data && offset == 0 && isValid
    {
      this.data, offset, isValid := data, 0, true;
    }

    function Remainder(): nat
      requires Valid()
      reads this
    {
      |data| - offset
    }

    /** As many bytes as asked for, or all that are left, and then the stream is no longer valid. */
    method Read(n: nat) returns (bytes: Block)
      requires Valid()
      modifies this
      ensures Valid() && old(offset) <= offset && bytes == data[old(offset)..offset]
      ensures offset == old(offset) + if n <= old(Remainder()) then n else old(Remainder())
      ensures isValid == (old(isValid) && n <= old(Remainder()))
    {
      var length := n;
      if Remainder() < n {
        isValid, length := false, Remainder();
      }
      bytes := data[offset..offset + length];
      offset := offset + length;
    }

    /** The number of that width at the cursor, 0 if the data ends in it. */
    method ReadUInt(width: nat, ghost value: nat) returns (number: nat)
      requires Valid()
      modifies this
      ensures Valid() && old(offset) <= offset && isValid == (old(isValid) && width <= old(Remainder()))
      ensures old(isValid) && At(data, old(offset), BigEndian(width, value)) && value < Limit(width) ==>
                isValid && number == value && offset == old(offset) + width
    {
      var bytes := Read(width);
      BigEndianInverts(width, value);
      number := if |bytes| == width then FromBigEndian(bytes) else 0;
    }

    /** A counted string over the one given: what the data is short of stays or is NUL; an empty one changes nothing. */
    method ReadString(before: Block, ghost value: Block) returns (s: Block)
      requires Valid()
      modifies this
      ensures Valid() && old(offset) <= offset
      ensures old(isValid) && At(data, old(offset), Counted(value)) && |value| < Limit(4) ==>
                isValid && s == (if value == [] then before else value) && offset == old(offset) + |Counted(value)|
    {
      AtParts(data, offset, BigEndian(4, |value|), value);
      var length := ReadUInt(4, |value|);
      s := before;
      if isValid && length > 0 {
        var bytes := Read(length);
        var resized := seq(length, i => if 0 <= i < |before| then before[i] else 0);
        s := Overlay(resized, 0, bytes);
      }
    }
  }
}
