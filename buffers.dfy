/**
 * MemoryBuffer: a fixed-size block of native memory with typed put/get at
 * offset 0, byte-copy loops and two provenance fields recording where its
 * contents were last read from.
 */
module Buffers {
  import opened JavaLang
  import opened Bytes

  function Min(a: int, b: int): int
  {
    if a <= b then a else b
  }

  /** The byte a boolean is stored as: 1 for true, 0 for false. */
  function BooleanByte(value: bool): uint8
  {
    if value then 1 else 0
  }

  class MemoryBuffer {
    /** The size given at construction; no operation changes it. */
    const size: nat
    /** The native block the buffer points at. */
    const bytes: array<uint8>
    /** `_lastreadsrc`: the data source the contents were last read from, or null. */
    var lastReadSource: object?
    /** `_lastreadaddress`: the remote address the contents were last read from. */
    var lastReadAddress: int64

    ghost predicate Valid()
    {
      bytes.Length == size && size <= INT_MAX
    }

    /** The current contents of the block. */
    function Contents(): (s: seq<uint8>)
      reads bytes
      requires Valid()
      ensures |s| == size
    {
      bytes[..]
    }

    /** MemoryBuffer(int size): a freshly allocated block of `size` bytes, contents unspecified. */
    constructor (size: nat)
      requires size <= INT_MAX
      ensures Valid() && this.size == size && fresh(bytes)
      ensures lastReadSource == null && lastReadAddress == 0
    {
      this.size := size;
      bytes := new uint8[size];
      lastReadSource := null;
      lastReadAddress := 0;
    }

    /** MemoryBuffer(byte[] arr): a fresh block of arr.length bytes holding arr. */
    constructor FromArray(arr: seq<uint8>)
      requires |arr| <= INT_MAX
      ensures Valid() && size == |arr| && fresh(bytes)
      ensures Contents() == arr
      ensures lastReadSource == null && lastReadAddress == 0
    {
      size := |arr|;
      bytes := new uint8[|arr|];
      lastReadSource := null;
      lastReadAddress := 0;
      new;
      var _ := SetBytesArray(arr);
    }

    /**
     * MemoryBuffer(Pointer ptr): records the pointer's address; the `size`
     * field is never assigned, so it keeps Java's default 0. The memory the
     * pointer addresses is not linked to this block.
     */
    constructor FromPointer(ptr: int64)
      ensures Valid() && size == 0
      ensures lastReadSource == null && lastReadAddress == ptr
    {
      size := 0;
      bytes := new uint8[0];
      lastReadSource := null;
      lastReadAddress := ptr;
    }

    /**
     * MemoryBuffer(long addr, int size): a block of `size` bytes recording
     * addr; the memory at addr is not linked to it, and its contents are
     * left open.
     */
    constructor FromAddress(addr: int64, size: nat)
      requires size <= INT_MAX
      ensures Valid() && this.size == size
      ensures lastReadSource == null && lastReadAddress == addr
    {
      this.size := size;
      bytes := new uint8[size];
      lastReadSource := null;
      lastReadAddress := addr;
    }

    /** JNA's raw store at offset 0: the bytes of w replace the first |w| bytes. */
    method Store(w: seq<uint8>)
      requires Valid() && |w| <= size
      modifies bytes
      ensures Contents() == w + old(Contents())[|w|..]
    {
      forall i | 0 <= i < |w| {
        bytes[i] := w[i];
      }
      assert Contents() == w + old(Contents())[|w|..];
    }

    method PutBoolean(value: bool) returns (self: MemoryBuffer)
      requires Valid() && 1 <= size
      modifies bytes
      ensures self == this
      ensures Contents() == [BooleanByte(value)] + old(Contents())[1..]
      ensures GetBoolean() == value
    {
      Store([BooleanByte(value)]);
      self := this;
    }

    method PutByte(value: int32) returns (self: MemoryBuffer)
      requires Valid() && 1 <= size
      modifies bytes
      ensures self == this
      ensures Contents() == LowBytes(value, 1) + old(Contents())[1..]
      ensures GetByte() == ToByte(value)
    {
      Store(LowBytes(value, 1));
      SignedLowBytes(value, 1);
      self := this;
    }

    method PutShort(value: int32) returns (self: MemoryBuffer)
      requires Valid() && 2 <= size
      modifies bytes
      ensures self == this
      ensures Contents() == LowBytes(value, 2) + old(Contents())[2..]
      ensures GetShort() == ToShort(value)
    {
      // (short) value keeps the low 16 bits, which are the two bytes stored
      Store(LowBytes(value, 2));
      SignedLowBytes(value, 2);
      self := this;
    }

    method PutInt(value: int32) returns (self: MemoryBuffer)
      requires Valid() && 4 <= size
      modifies bytes
      ensures self == this
      ensures Contents() == LowBytes(value, 4) + old(Contents())[4..]
      ensures GetInt() == value
    {
      Store(LowBytes(value, 4));
      SignedLowBytes(value, 4);
      Pow256Values();
      WrapInRange(value, 4);
      self := this;
    }

    method PutLong(value: int64) returns (self: MemoryBuffer)
      requires Valid() && 8 <= size
      modifies bytes
      ensures self == this
      ensures Contents() == LowBytes(value, 8) + old(Contents())[8..]
      ensures GetLong() == value
    {
      Store(LowBytes(value, 8));
      SignedLowBytes(value, 8);
      Pow256Values();
      WrapInRange(value, 8);
      self := this;
    }

    /**
     * setBytes(long offset, byte[] data): byte offset+i becomes data[i];
     * there is no bounds check, so the model requires the range to fit.
     */
    method SetBytes(offset: nat, data: seq<uint8>) returns (self: MemoryBuffer)
      requires Valid() && offset + |data| <= size
      modifies bytes
      ensures self == this
      ensures Contents() == old(Contents())[..offset] + data + old(Contents())[offset + |data|..]
    {
      var i := 0;
      while i < |data|
        invariant 0 <= i <= |data|
        invariant forall k | 0 <= k < size ::
          bytes[k] == if offset <= k < offset + i then data[k - offset] else old(bytes[k])
      {
        bytes[offset + i] := data[i];
        i := i + 1;
      }
      assert Contents() == old(Contents())[..offset] + data + old(Contents())[offset + |data|..];
      self := this;
    }

    /** setBytes(byte[] data): setBytes(0, data). */
    method SetBytesArray(data: seq<uint8>) returns (self: MemoryBuffer)
      requires Valid() && |data| <= size
      modifies bytes
      ensures self == this
      ensures Contents() == data + old(Contents())[|data|..]
    {
      self := SetBytes(0, data);
    }

    /**
     * setBytes(long offset, Pointer data, long length): byte offset+i
     * becomes data's byte i for every 0 <= i < length (none when length is
     * negative). Neither block is bounds-checked; the model requires both
     * ranges to fit, and a self-copy only at offset 0.
     */
    method SetBytesFrom(offset: nat, data: MemoryBuffer, length: int64) returns (self: MemoryBuffer)
      requires Valid() && data.Valid()
      requires length <= data.size && offset + Count(length) <= size
      requires data.bytes == bytes ==> offset == 0
      modifies bytes
      ensures self == this
      ensures var n := Count(length);
        Contents() == old(Contents())[..offset] + old(data.Contents())[..n] + old(Contents())[offset + n..]
    {
      var i := 0;
      while i < length
        invariant 0 <= i <= Count(length)
        invariant forall k | 0 <= k < size ::
          bytes[k] == if offset <= k < offset + i then old(data.bytes[k - offset]) else old(bytes[k])
        invariant forall k | i <= k < data.size :: data.bytes[k] == old(data.bytes[k])
      {
        bytes[offset + i] := data.bytes[i];
        i := i + 1;
      }
      ghost var n := Count(length);
      ghost var expected := old(Contents())[..offset] + old(data.Contents())[..n] + old(Contents())[offset + n..];
      forall k | 0 <= k < size
        ensures Contents()[k] == expected[k]
      {
        if k < offset {
        } else if k < offset + n {
          assert expected[k] == old(data.bytes[k - offset]);
        } else {
          assert expected[k] == old(bytes[k]);
        }
      }
      self := this;
    }

    /** setBytes(MemoryBuffer data): copies the first min(size, data.size) bytes of data to position 0. */
    method SetBytesBuffer(data: MemoryBuffer) returns (self: MemoryBuffer)
      requires Valid() && data.Valid()
      modifies bytes
      ensures self == this
      ensures var n := Min(size, data.size);
        Contents() == old(data.Contents())[..n] + old(Contents())[n..]
    {
      self := SetBytesFrom(0, data, Min(size, data.size));
    }

    /**
     * setBytes(long offset, MemoryBuffer data): `offset` does not move the
     * destination; it only enlarges the count to min(size, offset + data.size),
     * copied to position 0 (the long addition wraps on overflow). A count beyond data.size reads past data's block,
     * which the requires excludes.
     */
    method SetBytesAt(offset: int64, data: MemoryBuffer) returns (self: MemoryBuffer)
      requires Valid() && data.Valid()
      requires Min(size, AddLong(offset, data.size)) <= data.size
      modifies bytes
      ensures self == this
      ensures var n := Count(Min(size, AddLong(offset, data.size)));
        Contents() == old(data.Contents())[..n] + old(Contents())[n..]
    {
      self := SetBytesFrom(0, data, Min(size, AddLong(offset, data.size)));
    }

    /** get(byte[] dest): the first dest.length bytes are copied into dest. */
    method Get(dest: array<uint8>)
      requires Valid() && dest.Length <= size && dest != bytes
      modifies dest
      ensures dest[..] == Contents()[..dest.Length]
    {
      forall i | 0 <= i < dest.Length {
        dest[i] := bytes[i];
      }
    }

    /** array(): a fresh Java array holding exactly the `size` bytes of the block. */
    method Array() returns (data: array<uint8>)
      requires Valid()
      ensures fresh(data) && data.Length == size
      ensures data[..] == Contents()
    {
      data := new uint8[size];
      Get(data);
    }

    /** getByteArray(): the `size` bytes of the block. */
    function ByteArray(): (r: seq<uint8>)
      reads bytes
      requires Valid()
      ensures |r| == size
      ensures forall i | 0 <= i < size :: r[i] == bytes[i]
    {
      bytes[..]
    }

    /** getBoolean(): only the byte value 1 reads as true. */
    function GetBoolean(): (b: bool)
      reads bytes
      requires Valid() && 1 <= size
      ensures b <==> GetByte() == 1
    {
      bytes[0] == 1
    }

    /** getBoolean(long offset) */
    function GetBooleanAt(offset: nat): (b: bool)
      reads bytes
      requires Valid() && offset < size
      ensures b <==> Signed(bytes[offset..offset + 1]) == 1
    {
      bytes[offset] == 1
    }

    /** getByte(): the byte at offset 0, sign-extended. */
    function GetByte(): (r: int)
      reads bytes
      requires Valid() && 1 <= size
      ensures -0x80 <= r < 0x80
    {
      Pow256Values();
      Signed(bytes[..1])
    }

    function GetShort(): (r: int)
      reads bytes
      requires Valid() && 2 <= size
      ensures -0x8000 <= r < 0x8000
    {
      Pow256Values();
      Signed(bytes[..2])
    }

    /** getInt(): the int whose little-endian encoding is the first 4 bytes. */
    function GetInt(): (r: int32)
      reads bytes
      requires Valid() && 4 <= size
      ensures LowBytes(r, 4) == bytes[..4]
    {
      Pow256Values();
      LowBytesSigned(bytes[..4]);
      Signed(bytes[..4])
    }

    /** getLong(): the long whose little-endian encoding is the first 8 bytes. */
    function GetLong(): (r: int64)
      reads bytes
      requires Valid() && 8 <= size
      ensures LowBytes(r, 8) == bytes[..8]
    {
      Pow256Values();
      LowBytesSigned(bytes[..8]);
      Signed(bytes[..8])
    }

    function Size(): (r: nat)
      requires Valid()
      reads bytes
      ensures r == bytes.Length
    {
      size
    }

    /** lastReadSource(): the source of the last read into this buffer, or null. */
    function LastReadSource(): (src: object?)
      reads this
      ensures src == lastReadSource
    {
      lastReadSource
    }

    /** lastReadAddress(): the address of the last read into this buffer. */
    function LastReadAddress(): (address: int64)
      reads this
      ensures address == lastReadAddress
    {
      lastReadAddress
    }
  }
}
