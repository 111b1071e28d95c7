/**
 The byte buffer that frames are read from and written to: fixed storage with a read and a write index,
 and big-endian 16 and 32 bit integers.
 */
module SharedBuffers {
  type byte = x: int | 0 <= x < 256
  type bytes = seq<byte>
  type uint32 = x: int | 0 <= x < 0x1_0000_0000
  type uint16 = x: int | 0 <= x < 0x1_0000

  function U32(v: uint32): (r: bytes)
    ensures |r| == 4
  {
    [v / 0x100_0000, v / 0x1_0000 % 256, v / 256 % 256, v % 256]
  }

  function U16(v: uint16): (r: bytes)
    ensures |r| == 2
  {
    [v / 256, v % 256]
  }

  function ReadU32(s: bytes): uint32
    requires |s| >= 4
  {
    s[0] as int * 0x100_0000 + s[1] as int * 0x1_0000 + s[2] as int * 256 + s[3]
  }

  function ReadU16(s: bytes): uint16
    requires |s| >= 2
  {
    s[0] as int * 256 + s[1]
  }

  /** What is written is read back; the first half of a 32 bit integer is its high 16 bits. */
  lemma {:induction false} IntegersRoundTrip(v: uint32, h: uint16, rest: bytes)
    ensures ReadU32(U32(v) + rest) == v
    ensures ReadU16(U16(h) + rest) == h
    ensures ReadU16(U32(v) + rest) == v / 0x1_0000
  {
    var hi, lo := v / 0x1_0000, v % 0x1_0000;
    assert v / 256 == hi * 256 + lo / 256;
    assert v / 256 % 256 == lo / 256;
    assert (U32(v) + rest)[..4] == U32(v);
    assert ReadU32(U32(v) + rest) == hi / 256 * 0x100_0000 + hi % 256 * 0x1_0000 + lo / 256 * 256 + v % 256;
  }

  /** Bytes as the digits of a number, most significant first. */
  function BigEndian(s: bytes): nat
    decreases |s|
  {
    if s == [] then 0 else BigEndian(s[..|s| - 1]) * 256 + s[|s| - 1]
  }

  /** Integers are read in network byte order, and writing one that was read gives its bytes back. */
  lemma {:induction false} IntegersAreBigEndian(s: bytes)
    ensures |s| >= 2 ==> ReadU16(s) == BigEndian(s[..2]) && U16(ReadU16(s)) == s[..2]
    ensures |s| >= 4 ==> ReadU32(s) == BigEndian(s[..4]) && U32(ReadU32(s)) == s[..4]
  {
    hide BigEndian, U32, U16, ReadU32, ReadU16;
    if |s| >= 2 {
      Digits([], s[0]);
      Digits([s[0]], s[1]);
      assert s[..2] == [s[0], s[1]] == [s[0]] + [s[1]] && [] + [s[0]] == [s[0]];
      ShortDigits(s);
    }
    if |s| >= 4 {
      Digits([s[0], s[1]], s[2]);
      Digits([s[0], s[1], s[2]], s[3]);
      assert s[..4] == [s[0], s[1], s[2], s[3]] == [s[0], s[1], s[2]] + [s[3]];
      assert [s[0], s[1]] + [s[2]] == [s[0], s[1], s[2]];
      IntDigits(s);
    }
  }

  lemma {:induction false} Digits(s: bytes, b: byte)
    ensures BigEndian(s + [b]) == BigEndian(s) * 256 + b && BigEndian([]) == 0
  {
    assert (s + [b])[..|s|] == s;
  }

  lemma {:induction false} ShortDigits(s: bytes)
    requires |s| >= 2
    ensures ReadU16(s) == s[0] as int * 256 + s[1] && U16(ReadU16(s)) == [s[0], s[1]]
  {
  }

  lemma {:induction false} IntDigits(s: bytes)
    requires |s| >= 4
    ensures ReadU32(s) == ((s[0] as int * 256 + s[1]) * 256 + s[2]) * 256 + s[3]
    ensures U32(ReadU32(s)) == [s[0], s[1], s[2], s[3]]
  {
    var a: int, b: int, c: int, d: int := s[0], s[1], s[2], s[3];
    LastDigit((a * 256 + b) * 256 + c, d);
    LastDigit(a * 256 + b, c);
    LastDigit(a, b);
    HighHalf(a * 256 + b, c * 256 + d);
    HighByte(a, (b * 256 + c) * 256 + d);
  }

  lemma {:induction false} LastDigit(x: nat, d: byte)
    ensures (x * 256 + d) / 256 == x && (x * 256 + d) % 256 == d
  {
  }

  lemma {:induction false} HighHalf(x: nat, low: uint16)
    ensures (x * 0x1_0000 + low) / 0x1_0000 == x
  {
  }

  lemma {:induction false} HighByte(x: nat, low: nat)
    requires low < 0x100_0000
    ensures (x * 0x100_0000 + low) / 0x100_0000 == x
  {
  }

  /** `s` with the bytes from `at` on replaced by `t`. */
  function Splice(s: bytes, at: nat, t: bytes): (r: bytes)
    requires at + |t| <= |s|
    ensures |r| == |s|
  {
    s[..at] + t + s[at + |t|..]
  }

  class SharedBuffer {
    var data: array<byte>
    var readIdx: nat
    var writeIdx: nat

    /** Both indexes lie in the storage. */
    ghost predicate InStorage() reads this {
      readIdx <= data.Length && writeIdx <= data.Length < 0x1_0000_0000
    }

    ghost predicate Valid() reads this {
      InStorage() && readIdx <= writeIdx
    }

    /** The bytes that can be read. */
    ghost function Readable(): bytes
      requires Valid()
      reads this, data
    {
      data[readIdx..writeIdx]
    }

    constructor (capacity: uint32)
      ensures Valid() && fresh(data) && data.Length == capacity
      ensures readIdx == writeIdx == 0 && Readable() == []
    {
      data := new byte[capacity];
      readIdx, writeIdx := 0, 0;
    }

    /** A second view of the same storage. */
    constructor Sharing(other: SharedBuffer)
      requires other.Valid()
      ensures Valid() && data == other.data && readIdx == other.readIdx && writeIdx == other.writeIdx
    {
      data, readIdx, writeIdx := other.data, other.readIdx, other.writeIdx;
    }

    function ReadableBytes(): (n: nat)
      requires Valid()
      reads this, data
      ensures n == |Readable()|
    {
      writeIdx - readIdx
    }

    /** The next `n` readable bytes. */
    function Peek(n: nat): (s: bytes)
      requires Valid() && n <= ReadableBytes()
      reads this, data
      ensures s == Readable()[..n]
    {
      data[readIdx..readIdx + n]
    }

    /** `n` readable bytes, from the `offset`-th on. */
    function Slice(offset: nat, n: nat): (s: bytes)
      requires Valid() && offset + n <= ReadableBytes()
      reads this, data
      ensures s == Readable()[offset..offset + n]
    {
      Peek(offset + n)[offset..]
    }

    function WritableBytes(): nat
      requires Valid()
      reads this
    {
      data.Length - writeIdx
    }

    method ReadUnsignedInt() returns (v: uint32)
      requires Valid() && ReadableBytes() >= 4
      modifies this`readIdx
      ensures Valid() && readIdx == old(readIdx) + 4
      ensures v == ReadU32(old(Readable())) && Readable() == old(Readable())[4..]
    {
      v := ReadU32(data[readIdx..readIdx + 4]);
      readIdx := readIdx + 4;
    }

    method ReadUnsignedShort() returns (v: uint16)
      requires Valid() && ReadableBytes() >= 2
      modifies this`readIdx
      ensures Valid() && readIdx == old(readIdx) + 2
      ensures v == ReadU16(old(Readable())) && Readable() == old(Readable())[2..]
    {
      v := ReadU16(data[readIdx..readIdx + 2]);
      readIdx := readIdx + 2;
    }

    method Consume(n: nat)
      requires Valid() && n <= ReadableBytes()
      modifies this`readIdx
      ensures Valid() && readIdx == old(readIdx) + n
      ensures Readable() == old(Readable())[n..]
    {
      readIdx := readIdx + n;
    }

    method Rollback(n: nat)
      requires Valid() && n <= readIdx
      modifies this`readIdx
      ensures Valid() && readIdx == old(readIdx) - n
    {
      readIdx := readIdx - n;
    }

    method SetReaderIndex(index: nat)
      requires InStorage() && index <= data.Length
      modifies this`readIdx
      ensures InStorage() && readIdx == index && (index <= writeIdx ==> Valid())
    {
      readIdx := index;
    }

    method SetWriterIndex(index: nat)
      requires InStorage() && index <= data.Length
      modifies this`writeIdx
      ensures InStorage() && writeIdx == index && (readIdx <= index ==> Valid())
    {
      writeIdx := index;
    }

    method SkipBytes(n: nat)
      requires Valid() && n <= WritableBytes()
      modifies this`writeIdx
      ensures Valid() && writeIdx == old(writeIdx) + n
      ensures Readable() == old(Readable()) + old(data[writeIdx..writeIdx + n])
    {
      writeIdx := writeIdx + n;
    }

    method Reset()
      requires Valid()
      modifies this`readIdx, this`writeIdx
      ensures Valid() && readIdx == writeIdx == 0 && Readable() == []
    {
      readIdx, writeIdx := 0, 0;
    }

    /** Stores bytes after the write index; also what a receive into the free space does. */
    method Write(s: bytes)
      requires Valid() && |s| <= WritableBytes()
      modifies this`writeIdx, data
      ensures Valid() && writeIdx == old(writeIdx) + |s|
      ensures data[..] == Splice(old(data[..]), old(writeIdx), s)
      ensures Readable() == old(Readable()) + s
    {
      forall i | 0 <= i < |s| {
        data[writeIdx + i] := s[i];
      }
      writeIdx := writeIdx + |s|;
    }

    method WriteUnsignedInt(v: uint32)
      requires Valid() && WritableBytes() >= 4
      modifies this`writeIdx, data
      ensures Valid() && writeIdx == old(writeIdx) + 4
      ensures data[..] == Splice(old(data[..]), old(writeIdx), U32(v))
      ensures Readable() == old(Readable()) + U32(v)
    {
      Write(U32(v));
    }

    method WriteUnsignedShort(v: uint16)
      requires Valid() && WritableBytes() >= 2
      modifies this`writeIdx, data
      ensures Valid() && writeIdx == old(writeIdx) + 2
      ensures data[..] == Splice(old(data[..]), old(writeIdx), U16(v))
      ensures Readable() == old(Readable()) + U16(v)
    {
      Write(U16(v));
    }

    /** Moves the readable bytes to the start of new storage. */
    method Reallocate(capacity: uint32)
      requires Valid() && ReadableBytes() <= capacity
      modifies this
      ensures Valid() && fresh(data) && data.Length == capacity
      ensures readIdx == 0 && Readable() == old(Readable())
    {
      var storage := new byte[capacity];
      forall i | 0 <= i < writeIdx - readIdx {
        storage[i] := data[readIdx + i];
      }
      ghost var before := Readable();
      data, readIdx, writeIdx := storage, 0, writeIdx - readIdx;
      assert Readable() == before;
    }
  }
}
