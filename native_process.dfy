/**
 * The platform-neutral process handle: lookup by name or id on each
 * platform, and the typed accessors it derives from its raw read, write
 * and canRead. On Windows a lookup by name walks a Toolhelp snapshot of
 * the running processes and always closes the snapshot again.
 */
module NativeProcesses {
  import opened Wrappers
  import opened JavaLang
  import opened Bytes
  import opened Buffers
  import opened Memory
  import opened UnixProcesses
  import opened DataSources

  /** The operating system the library runs on. */
  datatype Platform = Windows | Mac | Linux | OtherOS

  /** What a lookup yields: a Windows process with its OpenProcess handle (0 is null), or a Linux process. */
  datatype Process = WindowsProcess(id: int32, handle: int) | LinuxProcess(id: int32)

  /** One PROCESSENTRY32 of a snapshot: the process id and executable name. */
  datatype ProcessEntry = ProcessEntry(pid: int32, exeFile: string)

  /** One OpenProcess call: desired access, inherit flag and process id. */
  datatype OpenCall = OpenCall(access: int, inherit: bool, pid: int32)

  /** PROCESS_QUERY_INFORMATION | PROCESS_VM_WRITE | PROCESS_VM_READ | PROCESS_VM_OPERATION. */
  const PROCESS_ACCESS: int := 0x438
  /** TH32CS_SNAPALL: heaps, modules, processes and threads. */
  const TH32CS_SNAPALL: int := 0xF

  /** The position of the first entry whose executable name equals `name` (case-sensitive). */
  function FirstMatch(entries: seq<ProcessEntry>, name: string): (r: Option<nat>)
    ensures r.Some? ==> r.value < |entries| && entries[r.value].exeFile == name
    ensures r.Some? ==> forall j | 0 <= j < r.value :: entries[j].exeFile != name
    ensures r.None? ==> forall j | 0 <= j < |entries| :: entries[j].exeFile != name
    decreases |entries|
  {
    if entries == [] then None
    else if entries[0].exeFile == name then Some(0)
    else
      match FirstMatch(entries[1..], name)
      case None => None
      case Some(i) => Some(i + 1)
  }

  /**
   * The Windows kernel as far as the lookup uses it. Handles are
   * positive and handed out in order; a snapshot handle maps to its
   * cursor into the process list; the OpenProcess and CloseHandle calls
   * are logged.
   */
  class Kernel32 {
    /** The running processes, in the order a snapshot lists them. */
    const processes: seq<ProcessEntry>
    var nextHandle: int
    var snapshots: map<int, nat>
    var openCalls: seq<OpenCall>
    var closedHandles: seq<int>

    ghost predicate Valid()
      reads this
    {
      nextHandle >= 1 && forall h | h in snapshots :: 1 <= h < nextHandle
    }

    constructor (processes: seq<ProcessEntry>)
      ensures Valid() && this.processes == processes
      ensures nextHandle == 1 && snapshots == map[] && openCalls == [] && closedHandles == []
    {
      this.processes := processes;
      nextHandle := 1;
      snapshots := map[];
      openCalls := [];
      closedHandles := [];
    }

    /** Whether a process with this id is running. */
    predicate Running(pid: int32)
    {
      exists j | 0 <= j < |processes| :: processes[j].pid == pid
    }

    /** CreateToolhelp32Snapshot: a new handle whose cursor is at the first entry. */
    method CreateToolhelp32Snapshot(flags: int, pid: int32) returns (h: int)
      requires Valid()
      modifies this`nextHandle, this`snapshots
      ensures Valid()
      ensures h == old(nextHandle) && h !in old(snapshots) && nextHandle == h + 1
      ensures snapshots == old(snapshots)[h := 0]
    {
      h := nextHandle;
      nextHandle := nextHandle + 1;
      snapshots := snapshots[h := 0];
    }

    /** Process32Next: the entry under the cursor and a step forward, or false past the end. */
    method Process32Next(h: int) returns (found: bool, entry: ProcessEntry)
      requires Valid()
      modifies this`snapshots
      ensures Valid()
      ensures found <==> h in old(snapshots) && old(snapshots)[h] < |processes|
      ensures found ==> entry == processes[old(snapshots)[h]]
      ensures found ==> snapshots == old(snapshots)[h := old(snapshots)[h] + 1]
      ensures !found ==> snapshots == old(snapshots)
    {
      if h in snapshots && snapshots[h] < |processes| {
        found, entry := true, processes[snapshots[h]];
        snapshots := snapshots[h := snapshots[h] + 1];
      } else {
        found, entry := false, ProcessEntry(0, "");
      }
    }

    /** CloseHandle: the handle is released and the call logged. */
    method CloseHandle(h: int)
      requires Valid()
      modifies this`snapshots, this`closedHandles
      ensures Valid()
      ensures closedHandles == old(closedHandles) + [h]
      ensures snapshots == old(snapshots) - {h}
    {
      closedHandles := closedHandles + [h];
      snapshots := snapshots - {h};
    }

    /** OpenProcess: a new handle when the process is running, the null handle 0 otherwise. */
    method OpenProcess(access: int, inherit: bool, pid: int32) returns (h: int)
      requires Valid()
      modifies this`nextHandle, this`openCalls
      ensures Valid()
      ensures openCalls == old(openCalls) + [OpenCall(access, inherit, pid)]
      ensures Running(pid) ==> h == old(nextHandle) && h >= 1 && nextHandle == h + 1
      ensures !Running(pid) ==> h == 0 && nextHandle == old(nextHandle)
    {
      openCalls := openCalls + [OpenCall(access, inherit, pid)];
      if Running(pid) {
        h := nextHandle;
        nextHandle := nextHandle + 1;
      } else {
        h := 0;
      }
    }
  }

  /**
   * byId: on Windows a process opened with access 0x438 (even when the id
   * is not running: the handle is then null); on Linux a Linux process;
   * Mac is unsupported and any other platform is an illegal state.
   */
  method ById(k: Kernel32, platform: Platform, id: int32) returns (r: Result<Process>)
    requires k.Valid()
    modifies k`nextHandle, k`openCalls
    ensures k.Valid()
    ensures platform == Windows ==> r.Ok? && r.value.WindowsProcess? && r.value.id == id
    ensures platform == Windows ==> k.openCalls == old(k.openCalls) + [OpenCall(PROCESS_ACCESS, true, id)]
    ensures platform == Windows && !k.Running(id) ==> r.value.handle == 0
    ensures platform == Linux ==> r == Ok(LinuxProcess(id))
    ensures platform == Mac ==> r == Err(UnsupportedOperation)
    ensures platform == OtherOS ==> r == Err(IllegalState)
    ensures platform != Windows ==> k.openCalls == old(k.openCalls) && k.nextHandle == old(k.nextHandle)
  {
    match platform {
      case Windows =>
        var handle := k.OpenProcess(PROCESS_ACCESS, true, id);
        r := Ok(WindowsProcess(id, handle));
      case Mac =>
        r := Err(UnsupportedOperation);
      case Linux =>
        r := Ok(LinuxProcess(id));
      case OtherOS =>
        r := Err(IllegalState);
    }
  }

  /**
   * byName: on Windows, byId of the first snapshot entry whose name
   * equals `name`, or an illegal state when none does; the snapshot
   * handle is closed exactly once either way. Every other platform,
   * Linux included, is unsupported.
   */
  method ByName(k: Kernel32, platform: Platform, name: string) returns (r: Result<Process>)
    requires k.Valid()
    modifies k
    ensures k.Valid()
    ensures platform != Windows ==> r == Err(UnsupportedOperation)
    ensures platform != Windows ==> k.closedHandles == old(k.closedHandles) && k.openCalls == old(k.openCalls)
    ensures platform == Windows ==> k.closedHandles == old(k.closedHandles) + [old(k.nextHandle)]
    ensures platform == Windows ==> k.snapshots == old(k.snapshots)
    ensures platform == Windows && FirstMatch(k.processes, name).None? ==>
      r == Err(IllegalState) && k.openCalls == old(k.openCalls)
    ensures platform == Windows && FirstMatch(k.processes, name).Some? ==>
      var pid := k.processes[FirstMatch(k.processes, name).value].pid;
      r.Ok? && r.value.WindowsProcess? && r.value.id == pid &&
      k.openCalls == old(k.openCalls) + [OpenCall(PROCESS_ACCESS, true, pid)]
  {
    if platform != Windows {
      return Err(UnsupportedOperation);
    }
    var snapshot := k.CreateToolhelp32Snapshot(TH32CS_SNAPALL, 0);
    ghost var before := old(k.snapshots);
    var found, entry := k.Process32Next(snapshot);
    ghost var i: nat := 0;
    while found
      invariant k.Valid() && snapshot == old(k.nextHandle) && snapshot !in before
      invariant i <= |k.processes|
      invariant found ==> i < |k.processes| && entry == k.processes[i]
      invariant found ==> k.snapshots == before[snapshot := i + 1]
      invariant !found ==> i == |k.processes| && k.snapshots == before[snapshot := i]
      invariant forall j | 0 <= j < i :: k.processes[j].exeFile != name
      invariant k.openCalls == old(k.openCalls) && k.closedHandles == old(k.closedHandles)
      decreases |k.processes| - i
    {
      if name == entry.exeFile {
        assert FirstMatch(k.processes, name) == Some(i);
        r := ById(k, Windows, entry.pid);
        k.CloseHandle(snapshot);
        assert k.snapshots == before;
        return;
      }
      i := i + 1;
      found, entry := k.Process32Next(snapshot);
    }
    k.CloseHandle(snapshot);
    assert k.snapshots == before;
    r := Err(IllegalState);
  }

  // ---------------------------------------------------------------------
  // Typed accessors over the raw read, write and canRead of a process
  // (here the exact-count transfers of a Linux process)

  /** read(long, size): the Pointer overload at that address. */
  method Read(p: UnixProcess, address: int64, size: nat) returns (r: Result<MemoryBuffer>)
    requires size <= INT_MAX
    ensures r.Ok? ==> r.value.Valid() && r.value.size == size
    ensures r.Ok? ==> Readable(p.Memory(), Unsigned64(address), size)
    ensures r.Ok? ==> r.value.Contents() == Load(p.Memory(), address, size)
    ensures !Readable(p.Memory(), Unsigned64(address), size) ==> r.Err?
  {
    r := ReadAt(p, Pointer(address), size);
  }

  /**
   * canRead(long, size): NativeProcess declares the same default as
   * DataSource, so it is that method.
   */
  method CanRead(p: UnixProcess, address: int64, size: nat) returns (b: bool)
    requires size <= INT_MAX
    ensures b ==> Readable(p.Memory(), Unsigned64(address), size)
  {
    b := DataSources.CanRead(p, address, size);
  }

  /** readByte: the byte at offset 0 of a one-byte read, as a Java byte. */
  method ReadByte(p: UnixProcess, address: int64) returns (r: Result<int8>)
    ensures r.Ok? ==> Readable(p.Memory(), Unsigned64(address), 1)
    ensures r.Ok? ==> r.value == Signed(Load(p.Memory(), address, 1))
    ensures !Readable(p.Memory(), Unsigned64(address), 1) ==> r.Err?
  {
    var m := Read(p, address, 1);
    if m.Err? {
      return Err(m.error);
    }
    r := Ok(m.value.GetByte());
  }

  /** readShort: the short at offset 0 of a two-byte read, widened to int. */
  method ReadShort(p: UnixProcess, address: int64) returns (r: Result<int32>)
    ensures r.Ok? ==> Readable(p.Memory(), Unsigned64(address), 2)
    ensures r.Ok? ==> r.value == Signed(Load(p.Memory(), address, 2))
    ensures !Readable(p.Memory(), Unsigned64(address), 2) ==> r.Err?
  {
    var m := Read(p, address, 2);
    if m.Err? {
      return Err(m.error);
    }
    assert m.value.bytes[..2] == m.value.Contents();
    r := Ok(m.value.GetShort());
  }

  /** readInt: the int at offset 0 of a four-byte read. */
  method ReadInt(p: UnixProcess, address: int64) returns (r: Result<int32>)
    ensures r.Ok? ==> Readable(p.Memory(), Unsigned64(address), 4)
    ensures r.Ok? ==> r.value == Signed(Load(p.Memory(), address, 4))
    ensures !Readable(p.Memory(), Unsigned64(address), 4) ==> r.Err?
  {
    var m := Read(p, address, 4);
    if m.Err? {
      return Err(m.error);
    }
    assert m.value.bytes[..4] == m.value.Contents();
    r := Ok(m.value.GetInt());
  }

  /** readLong: the long at offset 0 of an eight-byte read. */
  method ReadLong(p: UnixProcess, address: int64) returns (r: Result<int64>)
    ensures r.Ok? ==> Readable(p.Memory(), Unsigned64(address), 8)
    ensures r.Ok? ==> r.value == Signed(Load(p.Memory(), address, 8))
    ensures !Readable(p.Memory(), Unsigned64(address), 8) ==> r.Err?
  {
    var m := Read(p, address, 8);
    if m.Err? {
      return Err(m.error);
    }
    assert m.value.bytes[..8] == m.value.Contents();
    r := Ok(m.value.GetLong());
  }

  /** writeBoolean: a one-byte block holding 1 or 0, written whole. */
  method WriteBoolean(p: UnixProcess, address: int64, value: bool) returns (r: Outcome)
    modifies p.kernel`spaces
    ensures r == Done ==> Readable(old(p.Memory()), Unsigned64(address), 1)
    ensures r == Done ==> p.Memory() == Store(old(p.Memory()), Unsigned64(address), [if value then 1 else 0])
    ensures !Readable(old(p.Memory()), Unsigned64(address), 1) ==> r.Failed?
    ensures forall q | q != p.id :: p.kernel.MemoryOf(q) == old(p.kernel.MemoryOf(q))
  {
    var m := new MemoryBuffer(1);
    m.Store([if value then 1 else 0]);
    r := p.Write(Pointer(address), m);
  }

  /** writeByte: a one-byte block holding (byte) value. */
  method WriteByte(p: UnixProcess, address: int64, value: int32) returns (r: Outcome)
    modifies p.kernel`spaces
    ensures r == Done ==> Readable(old(p.Memory()), Unsigned64(address), 1)
    ensures r == Done ==> p.Memory() == Store(old(p.Memory()), Unsigned64(address), LowBytes(value, 1))
    ensures !Readable(old(p.Memory()), Unsigned64(address), 1) ==> r.Failed?
    ensures forall q | q != p.id :: p.kernel.MemoryOf(q) == old(p.kernel.MemoryOf(q))
  {
    var m := new MemoryBuffer(1);
    m.Store(LowBytes(value, 1));
    r := p.Write(Pointer(address), m);
  }

  /** writeShort: a two-byte block holding (short) value. */
  method WriteShort(p: UnixProcess, address: int64, value: int32) returns (r: Outcome)
    modifies p.kernel`spaces
    ensures r == Done ==> Readable(old(p.Memory()), Unsigned64(address), 2)
    ensures r == Done ==> p.Memory() == Store(old(p.Memory()), Unsigned64(address), LowBytes(value, 2))
    ensures !Readable(old(p.Memory()), Unsigned64(address), 2) ==> r.Failed?
    ensures forall q | q != p.id :: p.kernel.MemoryOf(q) == old(p.kernel.MemoryOf(q))
  {
    var m := new MemoryBuffer(2);
    m.Store(LowBytes(value, 2));
    r := p.Write(Pointer(address), m);
  }

  /** writeInt: a four-byte block holding the value. */
  method WriteInt(p: UnixProcess, address: int64, value: int32) returns (r: Outcome)
    modifies p.kernel`spaces
    ensures r == Done ==> Readable(old(p.Memory()), Unsigned64(address), 4)
    ensures r == Done ==> p.Memory() == Store(old(p.Memory()), Unsigned64(address), LowBytes(value, 4))
    ensures !Readable(old(p.Memory()), Unsigned64(address), 4) ==> r.Failed?
    ensures forall q | q != p.id :: p.kernel.MemoryOf(q) == old(p.kernel.MemoryOf(q))
  {
    var m := new MemoryBuffer(4);
    m.Store(LowBytes(value, 4));
    r := p.Write(Pointer(address), m);
  }

  /** writeLong: an eight-byte block holding the value. */
  method WriteLong(p: UnixProcess, address: int64, value: int64) returns (r: Outcome)
    modifies p.kernel`spaces
    ensures r == Done ==> Readable(old(p.Memory()), Unsigned64(address), 8)
    ensures r == Done ==> p.Memory() == Store(old(p.Memory()), Unsigned64(address), LowBytes(value, 8))
    ensures !Readable(old(p.Memory()), Unsigned64(address), 8) ==> r.Failed?
    ensures forall q | q != p.id :: p.kernel.MemoryOf(q) == old(p.kernel.MemoryOf(q))
  {
    var m := new MemoryBuffer(8);
    m.Store(LowBytes(value, 8));
    r := p.Write(Pointer(address), m);
  }

  /** A Windows lookup by a name nobody runs fails, and by the name of the first process finds its id. */
  lemma FirstMatchExample()
    ensures FirstMatch([ProcessEntry(4, "a.exe"), ProcessEntry(8, "b.exe"), ProcessEntry(9, "b.exe")], "b.exe") == Some(1)
    ensures FirstMatch([ProcessEntry(4, "a.exe")], "A.exe") == None
  {
    assert "a.exe"[0] != "A.exe"[0];
    assert "a.exe"[0] != "b.exe"[0];
  }
}
