/**
 * A Linux target process: its module map, filled from the lines of
 * /proc/<pid>/maps, and the exact-count transfers through
 * process_vm_readv and process_vm_writev. A transfer succeeds only when
 * the kernel reports exactly the requested number of bytes.
 */
module UnixProcesses {
  import opened Wrappers
  import opened JavaLang
  import opened Buffers
  import opened Memory
  import opened Unix
  import opened Maps

  /** One outcome more is one Apply more, unless the scan has already failed. */
  lemma ScanStep(modules: map<string, Module>, outs: seq<LineOutcome>, k: nat)
    requires k < |outs| && Scan(modules, outs[..k]).1 == Done
    ensures Scan(modules, outs[..k + 1]) == Apply(Scan(modules, outs[..k]).0, outs[k])
  {
    assert outs[..k + 1][..k] == outs[..k];
  }

  /** Once a scan has failed, later lines change nothing. */
  lemma ScanStopsAtFailure(modules: map<string, Module>, outs: seq<LineOutcome>, k: nat)
    requires k <= |outs| && Scan(modules, outs[..k]).1.Failed?
    ensures Scan(modules, outs) == Scan(modules, outs[..k])
  {
    ScanAppend(modules, outs[..k], outs[k..]);
    assert outs[..k] + outs[k..] == outs;
  }

  class UnixProcess {
    const id: int32
    /** The kernel the transfers go through. */
    const kernel: Kernel
    /** The module map inherited from the process base class, by name. */
    var modules: map<string, Module>

    constructor (id: int32, kernel: Kernel)
      ensures this.id == id && this.kernel == kernel && modules == map[]
    {
      this.id := id;
      this.kernel := kernel;
      modules := map[];
    }

    /** The target's address space. */
    function Memory(): AddressSpace
      reads kernel
    {
      kernel.MemoryOf(id)
    }

    /**
     * initModules over the lines of the maps file, in order: every line
     * is parsed, an executable mapping is put into the map under its
     * name, and the first index exception ends the scan with the entries
     * of the earlier lines kept.
     */
    method InitModules(lines: seq<string>) returns (r: Outcome)
      modifies this`modules
      ensures (modules, r) == Scan(old(modules), Outcomes(lines))
    {
      ghost var start, outs := modules, Outcomes(lines);
      var k := 0;
      assert outs[..0] == [];
      while k < |lines|
        invariant k <= |lines|
        invariant Scan(start, outs[..k]) == (modules, Done)
      {
        var o := ScanLineAt(lines, k);
        ScanStep(start, outs, k);
        match o {
          case Skip =>
          case Add(name, entry) =>
            modules := modules[name := entry];
          case Abort(e) =>
            ScanStopsAtFailure(start, outs, k + 1);
            return Failed(e);
        }
        k := k + 1;
      }
      assert outs[..k] == outs;
      r := Done;
    }

    /**
     * read(address, size): a new buffer of `size` bytes filled by
     * process_vm_readv. A kernel error raises LastErrorException; a count
     * other than `size` raises a RuntimeException.
     */
    method Read(address: int64, size: nat) returns (r: Result<MemoryBuffer>)
      requires size <= INT_MAX
      ensures r.Ok? ==> r.value.Valid() && r.value.size == size
      ensures r.Ok? ==> Readable(Memory(), Unsigned64(address), size)
      ensures r.Ok? ==> r.value.Contents() == Slice(Memory(), Unsigned64(address), size)
      ensures r.Ok? ==> r.value.lastReadSource == null
      ensures !Readable(Memory(), Unsigned64(address), size) ==> r.Err?
      ensures r.Err? ==> r.error == LastError || r.error == TransferFailed
    {
      var buffer := new MemoryBuffer(size);
      var count := kernel.ProcessVmReadv(id, buffer, address, size);
      if count.Err? {
        return Err(count.error);
      }
      if count.value != size {
        return Err(TransferFailed);
      }
      assert buffer.Contents() == Slice(Memory(), Unsigned64(address), size) + buffer.Contents()[size..];
      r := Ok(buffer);
    }

    /**
     * read(address, size, target): the same transfer into an existing
     * block (the raw target address is modelled as the buffer it
     * belongs to). A short count raises after the bytes that did arrive
     * were already written; bytes from `size` on are never touched.
     */
    method ReadInto(address: int64, size: nat, target: MemoryBuffer) returns (r: Outcome)
      requires target.Valid() && size <= target.size
      modifies target.bytes
      ensures r == Done ==> Readable(Memory(), Unsigned64(address), size)
      ensures r == Done ==>
        target.Contents() == Slice(Memory(), Unsigned64(address), size) + old(target.Contents())[size..]
      ensures r.Failed? ==> target.Contents()[size..] == old(target.Contents())[size..]
      ensures r.Failed? ==> r.error == LastError || r.error == TransferFailed
      ensures !Readable(Memory(), Unsigned64(address), size) ==> r.Failed?
    {
      var count := kernel.ProcessVmReadv(id, target, address, size);
      if count.Err? {
        return Failed(count.error);
      }
      if count.value != size {
        assert target.Contents()[size..] == old(target.Contents())[size..];
        return Failed(TransferFailed);
      }
      r := Done;
    }

    /**
     * write(address, buffer): the whole buffer through process_vm_writev.
     * On success the target holds the buffer's bytes at the address and
     * nothing else changed; a short count raises after the bytes that
     * did arrive were already written.
     */
    method Write(address: Pointer, buffer: MemoryBuffer) returns (r: Outcome)
      requires buffer.Valid()
      modifies kernel`spaces
      ensures r == Done ==> Readable(old(Memory()), Unsigned64(address.peer), buffer.size)
      ensures r == Done ==> Memory() == Store(old(Memory()), Unsigned64(address.peer), buffer.Contents())
      ensures r.Failed? ==> r.error == LastError || r.error == TransferFailed
      ensures !Readable(old(Memory()), Unsigned64(address.peer), buffer.size) ==> r.Failed?
      ensures forall q | q != id :: kernel.MemoryOf(q) == old(kernel.MemoryOf(q))
    {
      var count := kernel.ProcessVmWritev(id, buffer, address.peer, buffer.size);
      if count.Err? {
        return Failed(count.error);
      }
      if count.value != buffer.size {
        return Failed(TransferFailed);
      }
      assert buffer.Contents()[..buffer.size] == buffer.Contents();
      r := Done;
    }

    /** canRead(address, size): whether read(address, size) completes without an exception. */
    method CanRead(address: Pointer, size: nat) returns (b: bool)
      requires size <= INT_MAX
      ensures b ==> Readable(Memory(), Unsigned64(address.peer), size)
    {
      var r := Read(address.peer, size);
      b := r.Ok?;
    }
  }
}
