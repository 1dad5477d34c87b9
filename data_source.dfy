/**
 * The typed accessors every data source offers on top of its raw read and
 * write: each picks a width, transfers exactly that many bytes at the
 * address, and decodes or encodes them little-endian at offset 0 of a
 * buffer. The data source here is a Linux process.
 */
module DataSources {
  import opened Wrappers
  import opened JavaLang
  import opened Bytes
  import opened Buffers
  import opened Memory
  import opened UnixProcesses

  /** The n bytes at a (signed, pointer-sized) address of m. */
  function Load(m: AddressSpace, address: int64, n: nat): (bs: seq<uint8>)
    requires Readable(m, Unsigned64(address), n)
    ensures |bs| == n
  {
    Slice(m, Unsigned64(address), n)
  }

  // ---------------------------------------------------------------------
  // Typed reads

  /** readBoolean: one byte, true exactly when it is 1. */
  method ReadBoolean(src: UnixProcess, address: int64) returns (r: Result<bool>)
    ensures r.Ok? ==> Readable(src.Memory(), Unsigned64(address), 1)
    ensures r.Ok? ==> (r.value <==> Load(src.Memory(), address, 1)[0] == 1)
    ensures !Readable(src.Memory(), Unsigned64(address), 1) ==> r.Err?
  {
    var buffer := src.Read(address, 1);
    if buffer.Err? {
      return Err(buffer.error);
    }
    r := Ok(buffer.value.GetBoolean());
  }

  /** readByte: one byte, sign-extended. */
  method ReadByte(src: UnixProcess, address: int64) returns (r: Result<int32>)
    ensures r.Ok? ==> Readable(src.Memory(), Unsigned64(address), 1)
    ensures r.Ok? ==> r.value == Signed(Load(src.Memory(), address, 1))
    ensures !Readable(src.Memory(), Unsigned64(address), 1) ==> r.Err?
  {
    var buffer := src.Read(address, 1);
    if buffer.Err? {
      return Err(buffer.error);
    }
    r := Ok(buffer.value.GetByte());
  }

  /** readShort: two bytes, sign-extended. */
  method ReadShort(src: UnixProcess, address: int64) returns (r: Result<int32>)
    ensures r.Ok? ==> Readable(src.Memory(), Unsigned64(address), 2)
    ensures r.Ok? ==> r.value == Signed(Load(src.Memory(), address, 2))
    ensures !Readable(src.Memory(), Unsigned64(address), 2) ==> r.Err?
  {
    var buffer := src.Read(address, 2);
    if buffer.Err? {
      return Err(buffer.error);
    }
    assert buffer.value.bytes[..2] == buffer.value.Contents();
    r := Ok(buffer.value.GetShort());
  }

  /** readInt: four bytes. */
  method ReadInt(src: UnixProcess, address: int64) returns (r: Result<int32>)
    ensures r.Ok? ==> Readable(src.Memory(), Unsigned64(address), 4)
    ensures r.Ok? ==> r.value == Signed(Load(src.Memory(), address, 4))
    ensures !Readable(src.Memory(), Unsigned64(address), 4) ==> r.Err?
  {
    var buffer := src.Read(address, 4);
    if buffer.Err? {
      return Err(buffer.error);
    }
    assert buffer.value.bytes[..4] == buffer.value.Contents();
    r := Ok(buffer.value.GetInt());
  }

  /** readUnsignedInt: the four bytes of readInt, zero-extended instead. */
  method ReadUnsignedInt(src: UnixProcess, address: int64) returns (r: Result<int64>)
    ensures r.Ok? ==> Readable(src.Memory(), Unsigned64(address), 4)
    ensures r.Ok? ==> r.value == Unsigned(Load(src.Memory(), address, 4))
    ensures r.Ok? ==> r.value == Signed(Load(src.Memory(), address, 4)) % TWO_32
    ensures !Readable(src.Memory(), Unsigned64(address), 4) ==> r.Err?
  {
    var buffer := src.Read(address, 4);
    if buffer.Err? {
      return Err(buffer.error);
    }
    UnsignedOfSigned(buffer.value.Contents());
    assert buffer.value.bytes[..4] == buffer.value.Contents();
    r := Ok(ToUnsignedLong(buffer.value.GetInt()));
  }

  /** readLong: eight bytes. */
  method ReadLong(src: UnixProcess, address: int64) returns (r: Result<int64>)
    ensures r.Ok? ==> Readable(src.Memory(), Unsigned64(address), 8)
    ensures r.Ok? ==> r.value == Signed(Load(src.Memory(), address, 8))
    ensures !Readable(src.Memory(), Unsigned64(address), 8) ==> r.Err?
  {
    var buffer := src.Read(address, 8);
    if buffer.Err? {
      return Err(buffer.error);
    }
    assert buffer.value.bytes[..8] == buffer.value.Contents();
    r := Ok(buffer.value.GetLong());
  }

  /** readPointer: the same eight-byte read and decoding as readLong. */
  method ReadPointer(src: UnixProcess, address: int64) returns (r: Result<int64>)
    ensures r.Ok? ==> Readable(src.Memory(), Unsigned64(address), 8)
    ensures r.Ok? ==> r.value == Signed(Load(src.Memory(), address, 8))
    ensures !Readable(src.Memory(), Unsigned64(address), 8) ==> r.Err?
  {
    r := ReadLong(src, address);
  }

  /** Zero-extending four loaded bytes is the signed value taken mod 2^32. */
  lemma UnsignedOfSigned(bs: seq<uint8>)
    requires |bs| == 4
    ensures -0x8000_0000 <= Signed(bs) < 0x8000_0000
    ensures ToUnsignedLong(Signed(bs)) == Unsigned(bs)
    ensures Unsigned(bs) == Signed(bs) % TWO_32
  {
    Pow256Values();
  }

  // ---------------------------------------------------------------------
  // Overloads

  /** read(Pointer, size): the long overload at the pointer's address. */
  method ReadAt(src: UnixProcess, address: Pointer, size: nat) returns (r: Result<MemoryBuffer>)
    requires size <= INT_MAX
    ensures r.Ok? ==> r.value.Valid() && r.value.size == size
    ensures r.Ok? ==> Readable(src.Memory(), Unsigned64(address.peer), size)
    ensures r.Ok? ==> r.value.Contents() == Load(src.Memory(), address.peer, size)
    ensures !Readable(src.Memory(), Unsigned64(address.peer), size) ==> r.Err?
  {
    r := src.Read(address.peer, size);
  }

  /**
   * read(address, size, target): the bytes go into target, which then
   * records this source and the address as its provenance and is returned.
   * A failed transfer raises before the provenance is recorded.
   */
  method ReadInto(src: UnixProcess, address: int64, size: nat, target: MemoryBuffer) returns (r: Result<MemoryBuffer>)
    requires target.Valid() && size <= target.size
    modifies target, target.bytes
    ensures r.Ok? ==> r.value == target
    ensures r.Ok? ==> Readable(src.Memory(), Unsigned64(address), size)
    ensures r.Ok? ==> target.Contents() == Load(src.Memory(), address, size) + old(target.Contents())[size..]
    ensures r.Ok? ==> target.lastReadAddress == address && target.lastReadSource == src
    ensures r.Err? ==> target.Contents()[size..] == old(target.Contents())[size..]
    ensures r.Err? ==> target.lastReadAddress == old(target.lastReadAddress)
    ensures r.Err? ==> target.lastReadSource == old(target.lastReadSource)
    ensures !Readable(src.Memory(), Unsigned64(address), size) ==> r.Err?
  {
    var done := src.ReadInto(address, size, target);
    if done.Failed? {
      return Err(done.error);
    }
    target.lastReadAddress := address;
    target.lastReadSource := src;
    r := Ok(target);
  }

  /** read(Pointer, size, target): ReadInto at the pointer's address. */
  method ReadIntoAt(src: UnixProcess, address: Pointer, size: nat, target: MemoryBuffer) returns (r: Result<MemoryBuffer>)
    requires target.Valid() && size <= target.size
    modifies target, target.bytes
    ensures r.Ok? ==> r.value == target
    ensures r.Ok? ==> Readable(src.Memory(), Unsigned64(address.peer), size)
    ensures r.Ok? ==> target.Contents() == Load(src.Memory(), address.peer, size) + old(target.Contents())[size..]
    ensures r.Ok? ==> target.lastReadAddress == address.peer && target.lastReadSource == src
    ensures r.Err? ==> target.Contents()[size..] == old(target.Contents())[size..]
    ensures r.Err? ==> target.lastReadAddress == old(target.lastReadAddress)
    ensures r.Err? ==> target.lastReadSource == old(target.lastReadSource)
    ensures !Readable(src.Memory(), Unsigned64(address.peer), size) ==> r.Err?
  {
    r := ReadInto(src, address.peer, size, target);
  }

  /** read(address, target): fills the whole target; a failed read leaves its provenance as it was. */
  method ReadFull(src: UnixProcess, address: int64, target: MemoryBuffer) returns (r: Result<MemoryBuffer>)
    requires target.Valid()
    modifies target, target.bytes
    ensures r.Ok? ==> r.value == target
    ensures r.Ok? ==> Readable(src.Memory(), Unsigned64(address), target.size)
    ensures r.Ok? ==> target.Contents() == Load(src.Memory(), address, target.size)
    ensures r.Ok? ==> target.lastReadAddress == address && target.lastReadSource == src
    ensures r.Err? ==> target.lastReadAddress == old(target.lastReadAddress)
    ensures r.Err? ==> target.lastReadSource == old(target.lastReadSource)
    ensures !Readable(src.Memory(), Unsigned64(address), target.size) ==> r.Err?
  {
    r := ReadInto(src, address, target.Size(), target);
  }

  /** write(long, buffer): the Pointer overload at that address. */
  method WriteAt(src: UnixProcess, address: int64, buffer: MemoryBuffer) returns (r: Outcome)
    requires buffer.Valid()
    modifies src.kernel`spaces
    ensures r == Done ==> Readable(old(src.Memory()), Unsigned64(address), buffer.size)
    ensures r == Done ==> src.Memory() == Store(old(src.Memory()), Unsigned64(address), buffer.Contents())
    ensures !Readable(old(src.Memory()), Unsigned64(address), buffer.size) ==> r.Failed?
    ensures forall q | q != src.id :: src.kernel.MemoryOf(q) == old(src.kernel.MemoryOf(q))
  {
    r := src.Write(Pointer(address), buffer);
  }

  /** canRead(long, size): the Pointer overload at that address. */
  method CanRead(src: UnixProcess, address: int64, size: nat) returns (b: bool)
    requires size <= INT_MAX
    ensures b ==> Readable(src.Memory(), Unsigned64(address), size)
  {
    b := src.CanRead(Pointer(address), size);
  }

  // ---------------------------------------------------------------------
  // Typed writes: a fresh buffer of the width, filled by put*, written whole

  /** writeBoolean: the single byte 1 or 0. */
  method WriteBoolean(src: UnixProcess, address: int64, value: bool) returns (r: Outcome)
    modifies src.kernel`spaces
    ensures r == Done ==> Readable(old(src.Memory()), Unsigned64(address), 1)
    ensures r == Done ==> src.Memory() == Store(old(src.Memory()), Unsigned64(address), [BooleanByte(value)])
    ensures !Readable(old(src.Memory()), Unsigned64(address), 1) ==> r.Failed?
    ensures forall q | q != src.id :: src.kernel.MemoryOf(q) == old(src.kernel.MemoryOf(q))
  {
    var buffer := new MemoryBuffer(1);
    var filled := buffer.PutBoolean(value);
    r := src.Write(Pointer(address), filled);
  }

  /** writeByte: the low byte of the value. */
  method WriteByte(src: UnixProcess, address: int64, value: int32) returns (r: Outcome)
    modifies src.kernel`spaces
    ensures r == Done ==> Readable(old(src.Memory()), Unsigned64(address), 1)
    ensures r == Done ==> src.Memory() == Store(old(src.Memory()), Unsigned64(address), LowBytes(value, 1))
    ensures !Readable(old(src.Memory()), Unsigned64(address), 1) ==> r.Failed?
    ensures forall q | q != src.id :: src.kernel.MemoryOf(q) == old(src.kernel.MemoryOf(q))
  {
    var buffer := new MemoryBuffer(1);
    var filled := buffer.PutByte(value);
    r := src.Write(Pointer(address), filled);
  }

  /** writeShort: the low two bytes of the value. */
  method WriteShort(src: UnixProcess, address: int64, value: int32) returns (r: Outcome)
    modifies src.kernel`spaces
    ensures r == Done ==> Readable(old(src.Memory()), Unsigned64(address), 2)
    ensures r == Done ==> src.Memory() == Store(old(src.Memory()), Unsigned64(address), LowBytes(value, 2))
    ensures !Readable(old(src.Memory()), Unsigned64(address), 2) ==> r.Failed?
    ensures forall q | q != src.id :: src.kernel.MemoryOf(q) == old(src.kernel.MemoryOf(q))
  {
    var buffer := new MemoryBuffer(2);
    var filled := buffer.PutShort(value);
    r := src.Write(Pointer(address), filled);
  }

  /** writeInt: the four bytes of the value. */
  method WriteInt(src: UnixProcess, address: int64, value: int32) returns (r: Outcome)
    modifies src.kernel`spaces
    ensures r == Done ==> Readable(old(src.Memory()), Unsigned64(address), 4)
    ensures r == Done ==> src.Memory() == Store(old(src.Memory()), Unsigned64(address), LowBytes(value, 4))
    ensures !Readable(old(src.Memory()), Unsigned64(address), 4) ==> r.Failed?
    ensures forall q | q != src.id :: src.kernel.MemoryOf(q) == old(src.kernel.MemoryOf(q))
  {
    var buffer := new MemoryBuffer(4);
    var filled := buffer.PutInt(value);
    r := src.Write(Pointer(address), filled);
  }

  /** writeLong: the eight bytes of the value. */
  method WriteLong(src: UnixProcess, address: int64, value: int64) returns (r: Outcome)
    modifies src.kernel`spaces
    ensures r == Done ==> Readable(old(src.Memory()), Unsigned64(address), 8)
    ensures r == Done ==> src.Memory() == Store(old(src.Memory()), Unsigned64(address), LowBytes(value, 8))
    ensures !Readable(old(src.Memory()), Unsigned64(address), 8) ==> r.Failed?
    ensures forall q | q != src.id :: src.kernel.MemoryOf(q) == old(src.kernel.MemoryOf(q))
  {
    var buffer := new MemoryBuffer(8);
    var filled := buffer.PutLong(value);
    r := src.Write(Pointer(address), filled);
  }

  // ---------------------------------------------------------------------
  // Round trips over the target's memory

  /** writeBoolean then readBoolean at the same address gives the value back. */
  lemma BooleanRoundTrip(m: AddressSpace, address: int64, value: bool)
    requires Readable(m, Unsigned64(address), 1)
    ensures Readable(Store(m, Unsigned64(address), [BooleanByte(value)]), Unsigned64(address), 1)
    ensures (Load(Store(m, Unsigned64(address), [BooleanByte(value)]), address, 1)[0] == 1) == value
  {
    SliceOfStore(m, Unsigned64(address), [BooleanByte(value)]);
  }

  /** writeByte then readByte gives the low byte of the value, sign-extended. */
  lemma ByteRoundTrip(m: AddressSpace, address: int64, value: int32)
    requires Readable(m, Unsigned64(address), 1)
    ensures Readable(Store(m, Unsigned64(address), LowBytes(value, 1)), Unsigned64(address), 1)
    ensures Signed(Load(Store(m, Unsigned64(address), LowBytes(value, 1)), address, 1)) == ToByte(value)
  {
    SliceOfStore(m, Unsigned64(address), LowBytes(value, 1));
    SignedLowBytes(value, 1);
  }

  /** writeShort then readShort gives the low 16 bits of the value, sign-extended. */
  lemma ShortRoundTrip(m: AddressSpace, address: int64, value: int32)
    requires Readable(m, Unsigned64(address), 2)
    ensures Readable(Store(m, Unsigned64(address), LowBytes(value, 2)), Unsigned64(address), 2)
    ensures Signed(Load(Store(m, Unsigned64(address), LowBytes(value, 2)), address, 2)) == ToShort(value)
  {
    SliceOfStore(m, Unsigned64(address), LowBytes(value, 2));
    SignedLowBytes(value, 2);
  }

  /** writeInt then readInt is exact. */
  lemma IntRoundTrip(m: AddressSpace, address: int64, value: int32)
    requires Readable(m, Unsigned64(address), 4)
    ensures Readable(Store(m, Unsigned64(address), LowBytes(value, 4)), Unsigned64(address), 4)
    ensures Signed(Load(Store(m, Unsigned64(address), LowBytes(value, 4)), address, 4)) == value
  {
    SliceOfStore(m, Unsigned64(address), LowBytes(value, 4));
    SignedLowBytes(value, 4);
    Pow256Values();
    WrapInRange(value, 4);
  }

  /** writeLong then readLong (or readPointer) is exact. */
  lemma LongRoundTrip(m: AddressSpace, address: int64, value: int64)
    requires Readable(m, Unsigned64(address), 8)
    ensures Readable(Store(m, Unsigned64(address), LowBytes(value, 8)), Unsigned64(address), 8)
    ensures Signed(Load(Store(m, Unsigned64(address), LowBytes(value, 8)), address, 8)) == value
  {
    SliceOfStore(m, Unsigned64(address), LowBytes(value, 8));
    SignedLowBytes(value, 8);
    Pow256Values();
    WrapInRange(value, 8);
  }

  /** writeInt then readUnsignedInt gives the value mod 2^32. */
  lemma UnsignedIntRoundTrip(m: AddressSpace, address: int64, value: int32)
    requires Readable(m, Unsigned64(address), 4)
    ensures Readable(Store(m, Unsigned64(address), LowBytes(value, 4)), Unsigned64(address), 4)
    ensures Unsigned(Load(Store(m, Unsigned64(address), LowBytes(value, 4)), address, 4)) == value % TWO_32
  {
    SliceOfStore(m, Unsigned64(address), LowBytes(value, 4));
    UnsignedLowBytes(value, 4);
    Pow256Values();
  }
}
