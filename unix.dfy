/**
 * The unix bindings: the wait(2) status decoders (glibc bit layout of the
 * POSIX <sys/wait.h> macros), the `hex` formatter, iovec descriptors, the
 * process_vm_readv/process_vm_writev system calls as oracles over the
 * target's address space, and the validating loop that issues an array of
 * iovec pairs one pair at a time.
 */
module Unix {
  import opened Wrappers
  import opened JavaLang
  import opened Bytes
  import opened Memory
  import opened Buffers

  // ---------------------------------------------------------------------
  // wait(2) status decoders. For a Java int, `status & m` with a
  // non-negative mask m + 1 = 2^k is the Euclidean remainder modulo 2^k,
  // and `status >> 8` is floor division by 256.

  /** The termination signal. */
  function WTermSig(status: int32): (r: int)
    ensures 0 <= r <= 0x7f
  {
    status % 0x80
  }

  /** The exit status. */
  function WExitStatus(status: int32): (r: int)
    ensures 0 <= r <= 0xff
  {
    (status / 0x100) % 0x100
  }

  /** The stopping signal. */
  function WStopSig(status: int32): (r: int)
    ensures 0 <= r <= 0x7f
  {
    (status / 0x100) % 0x80
  }

  /**
   * WIFEXITED: the status is an exit code shifted left by 8, with at most
   * the core-dump bit below it.
   */
  predicate WIfExited(status: int32): (b: bool)
    ensures b <==> status == 0x100 * (status / 0x100) + (if WCoreDump(status) then 0x80 else 0)
  {
    WTermSig(status) == 0
  }

  /**
   * WIFSTOPPED: the status is a stop signal shifted left by 8, then 0x7f,
   * with at most the core-dump bit besides.
   */
  predicate WIfStopped(status: int32): (b: bool)
    ensures b <==> status == 0x100 * (status / 0x100) + 0x7f + (if WCoreDump(status) then 0x80 else 0)
  {
    WTermSig(status) == 0x7f
  }

  /** WIFSIGNALED: neither exited nor stopped. */
  predicate WIfSignaled(status: int32): (b: bool)
    ensures b <==> !WIfExited(status) && !WIfStopped(status)
  {
    WTermSig(status) != 0 && WTermSig(status) != 0x7f
  }

  /** WIFCONTINUED: the one status 0xffff, which also reads as stopped, by signal 0x7f. */
  predicate WIfContinued(status: int32): (b: bool)
    ensures b ==> WIfStopped(status) && WStopSig(status) == 0x7f
  {
    status == 0xffff
  }

  /** Bit 7 of the low byte is bit 7 of the whole value, for negative values too. */
  lemma LowByteBit7(status: int)
    ensures (status % 0x100) / 0x80 == (status / 0x80) % 2
  {
    var q := status / 0x100;
    var low := status % 0x100;
    assert status == 0x100 * q + low;
    assert status / 0x80 == 2 * q + low / 0x80 by {
      DivModUnique(status, 0x80, 2 * q + low / 0x80, low % 0x80);
    }
  }

  /** WCOREDUMP, `(status & 0x80) > 0`: bit 7 of the status is set, for negative statuses too. */
  predicate WCoreDump(status: int32): (b: bool)
    ensures b <==> (status / 0x80) % 2 == 1
  {
    LowByteBit7(status);
    (status % 0x100) / 0x80 == 1
  }

  /** For every int status exactly one of WIFSIGNALED, WIFEXITED and WIFSTOPPED holds. */
  lemma ExactlyOneState(status: int32)
    ensures (if WIfSignaled(status) then 1 else 0) + (if WIfExited(status) then 1 else 0)
          + (if WIfStopped(status) then 1 else 0) == 1
  {
  }

  /** The status of an exit with `code` (exit(code), no core) decodes as exited with that code. */
  lemma ExitedStatus(code: int)
    requires 0 <= code < 0x100
    ensures WIfExited(code * 0x100) && !WIfSignaled(code * 0x100) && !WIfStopped(code * 0x100)
    ensures WExitStatus(code * 0x100) == code && !WCoreDump(code * 0x100)
  {
    DivModUnique(code * 0x100, 0x100, code, 0);
    DivModUnique(code * 0x100, 0x80, 2 * code, 0);
  }

  /** The status of a stop by `sig` decodes as stopped by that signal. */
  lemma StoppedStatus(sig: int)
    requires 0 <= sig < 0x80
    ensures WIfStopped(sig * 0x100 + 0x7f) && !WIfSignaled(sig * 0x100 + 0x7f) && !WIfExited(sig * 0x100 + 0x7f)
    ensures WStopSig(sig * 0x100 + 0x7f) == sig && !WCoreDump(sig * 0x100 + 0x7f)
  {
    DivModUnique(sig * 0x100 + 0x7f, 0x100, sig, 0x7f);
    DivModUnique(sig * 0x100 + 0x7f, 0x80, 2 * sig, 0x7f);
  }

  /** The status of a kill by `sig`, with or without a core dump, decodes as signaled by that signal. */
  lemma SignaledStatus(sig: int, core: bool)
    requires 0 < sig < 0x7f
    ensures WIfSignaled(sig + (if core then 0x80 else 0))
    ensures WTermSig(sig + (if core then 0x80 else 0)) == sig
    ensures WCoreDump(sig + (if core then 0x80 else 0)) == core
  {
    var status := sig + (if core then 0x80 else 0);
    DivModUnique(status, 0x80, if core then 1 else 0, sig);
    DivModUnique(status, 0x100, 0, status);
  }

  /** A negative status decodes like its low bits: -1 is a stop by signal 0x7f with a core-dump flag. */
  lemma MinusOneStatus()
    ensures WTermSig(-1) == 0x7f && WExitStatus(-1) == 0xff && WStopSig(-1) == 0x7f
    ensures WIfStopped(-1) && WCoreDump(-1) && !WIfContinued(-1)
  {
  }

  // ---------------------------------------------------------------------
  // hex(long n) = String.format("0x%8s", Long.toHexString(n)).replace(' ', '0')

  /** `%8s`: left-padded with spaces to at least 8 characters. */
  function PadLeft8(s: string): string
  {
    if |s| >= 8 then s else seq(8 - |s|, _ => ' ') + s
  }

  /** String.replace(char, char) */
  function Replace(s: string, a: char, b: char): (r: string)
    ensures |r| == |s|
    ensures forall i | 0 <= i < |s| :: r[i] == if s[i] == a then b else s[i]
  {
    seq(|s|, i requires 0 <= i < |s| => if s[i] == a then b else s[i])
  }

  /** hex(n): "0x", then at least eight characters, none of them a space. */
  function Hex(n: int64): (r: string)
    ensures |r| >= 10 && r[0] == '0' && r[1] == 'x'
    ensures forall i | 0 <= i < |r| :: r[i] != ' '
  {
    Replace("0x" + PadLeft8(ToHexString(n)), ' ', '0')
  }

  /** hex(n) is "0x", then the unsigned lower-case digits of n zero-padded to at least 8. */
  lemma HexLayout(n: int64)
    ensures Hex(n) == "0x" + PaddedHex(n, 8)
  {
    var d := ToHexString(n);
    HexDigitsAreHex(Unsigned64(n));
    var z := if |d| >= 8 then 0 else 8 - |d|;
    var target := "0x" + PaddedHex(n, 8);
    assert PaddedHex(n, 8) == Zeros(z) + d;
    var padded := "0x" + PadLeft8(d);
    assert PadLeft8(d) == seq(z, _ => ' ') + d;
    assert |padded| == |target| == 2 + z + |d|;
    forall i | 0 <= i < |padded|
      ensures Hex(n)[i] == target[i]
    {
      if i < 2 {
      } else if i < 2 + z {
        assert padded[i] == ' ' && target[i] == '0';
      } else {
        assert padded[i] == d[i - 2 - z] && target[i] == d[i - 2 - z];
        assert DigitValue(d[i - 2 - z]).Some?;
      }
    }
    assert Hex(n) == target;
  }

  /** The digits of hex(n) parse back to n with Long.parseLong(_, 16) when n >= 0. */
  lemma HexParsesBack(n: int64)
    requires n >= 0
    ensures ParseLong16(Hex(n)[2..]) == Some(n)
  {
    HexLayout(n);
    assert Hex(n)[2..] == PaddedHex(n, 8);
    PaddedHexParses(n, 8);
  }

  // ---------------------------------------------------------------------
  // iovec descriptors and the kernel

  /** struct iovec: a base pointer and a length (a Java int). */
  datatype IoVec = IoVec(base: int64, len: int32)

  /** One single-pair process_vm_writev call as the kernel receives it. */
  datatype Transfer = Transfer(pid: int32, local: IoVec, remote: IoVec)

  /**
   * The kernel side of the transfer calls: the address space of every
   * process by id, and the single-pair writes issued with raw iovecs.
   */
  class Kernel {
    var spaces: map<int32, AddressSpace>
    var writes: seq<Transfer>

    constructor (spaces: map<int32, AddressSpace>)
      ensures this.spaces == spaces && writes == []
    {
      this.spaces := spaces;
      writes := [];
    }

    /** The address space of process pid; a process that does not exist maps nothing. */
    function MemoryOf(pid: int32): AddressSpace
      reads this
    {
      if pid in spaces then spaces[pid] else map[]
    }

    /**
     * process_vm_readv with one local and one remote iovec of `len` bytes.
     * The kernel reports -1 (raised as LastErrorException) or a count of
     * bytes it copied from mapped addresses into the local buffer;
     * which of these it reports is not determined by the model.
     */
    method ProcessVmReadv(pid: int32, local: MemoryBuffer, remote: int64, len: nat) returns (r: Result<int>)
      requires local.Valid() && len <= local.size
      modifies local.bytes
      ensures r.Ok? ==> 0 <= r.value <= len && Readable(MemoryOf(pid), Unsigned64(remote), r.value)
      ensures r.Ok? ==>
        local.Contents() == Slice(MemoryOf(pid), Unsigned64(remote), r.value) + old(local.Contents())[r.value..]
      ensures r.Err? ==> r.error == LastError && local.Contents() == old(local.Contents())
    {
      var m, start := MemoryOf(pid), Unsigned64(remote);
      var count: int :| -1 <= count <= len && (count >= 0 ==> Readable(m, start, count));
      if count < 0 {
        return Err(LastError);
      }
      var copied := Slice(m, start, count);
      forall i | 0 <= i < count {
        local.bytes[i] := copied[i];
      }
      assert local.Contents() == Slice(m, start, count) + old(local.Contents())[count..];
      r := Ok(count);
    }

    /**
     * process_vm_writev with one local and one remote iovec of `len` bytes:
     * -1 (LastErrorException), or a count of leading bytes of the local
     * buffer written to mapped addresses of the target.
     */
    method ProcessVmWritev(pid: int32, local: MemoryBuffer, remote: int64, len: nat) returns (r: Result<int>)
      requires local.Valid() && len <= local.size
      modifies this`spaces
      ensures r.Ok? ==> 0 <= r.value <= len && Readable(old(MemoryOf(pid)), Unsigned64(remote), r.value)
      ensures r.Ok? ==>
        MemoryOf(pid) == Store(old(MemoryOf(pid)), Unsigned64(remote), local.Contents()[..r.value])
      ensures r.Err? ==> r.error == LastError && MemoryOf(pid) == old(MemoryOf(pid))
      ensures forall q | q != pid :: MemoryOf(q) == old(MemoryOf(q))
    {
      var m, start := MemoryOf(pid), Unsigned64(remote);
      var count: int :| -1 <= count <= len && (count >= 0 ==> Readable(m, start, count));
      if count < 0 {
        return Err(LastError);
      }
      spaces := spaces[pid := Store(m, start, local.Contents()[..count])];
      r := Ok(count);
    }

    /**
     * process_vm_writev with one raw local and one raw remote iovec. The
     * call is recorded; its effect on the target is not modelled, since
     * the bytes at local.base are not part of the model.
     */
    method ProcessVmWritevPair(pid: int32, local: IoVec, remote: IoVec, flags: int64) returns (r: Result<int>)
      modifies this`writes
      ensures writes == old(writes) + [Transfer(pid, local, remote)]
      ensures r.Ok? ==> 0 <= r.value
      ensures r.Err? ==> r.error == LastError
    {
      writes := writes + [Transfer(pid, local, remote)];
      var failed: bool :| true;
      r := if failed then Err(LastError) else Ok(Count(local.len));
    }
  }

  // ---------------------------------------------------------------------
  // process_vm_writev over arrays of iovecs

  /**
   * Validation of pairs i, i+1, ... below n, in the order the loop meets
   * them: the outcome, and how many pairs pass before it stops.
   */
  function ScanPairs(local: seq<IoVec>, n: int, remote: seq<IoVec>, i: nat): (r: (Outcome, nat))
    requires i <= |local| && i <= |remote|
    ensures i <= r.1 <= |local| && r.1 <= |remote|
    decreases Count(n - i)
  {
    if i >= n then (Done, i)
    else if i >= |local| then (Failed(IndexOutOfBounds), i)
    else if local[i].len < 0 then (Failed(IllegalState), i)
    else if i >= |remote| then (Failed(IndexOutOfBounds), i)
    else if remote[i].len < 0 then (Failed(IllegalState), i)
    else ScanPairs(local, n, remote, i + 1)
  }

  /** What the array overload does: its outcome and the number of single-pair transfers it issues. */
  function ArrayPlan(local: seq<IoVec>, liovcnt: int64, remote: seq<IoVec>, riovcnt: int64): (r: (Outcome, nat))
    ensures r.1 <= |local| && r.1 <= |remote|
  {
    if riovcnt > liovcnt then (Failed(IllegalState), 0) else ScanPairs(local, liovcnt, remote, 0)
  }

  /** The transfers issued for pairs 0 .. n-1, in index order. */
  function Pairs(pid: int32, local: seq<IoVec>, remote: seq<IoVec>, n: nat): (r: seq<Transfer>)
    requires n <= |local| && n <= |remote|
    ensures |r| == n
  {
    seq(n, j requires 0 <= j < n => Transfer(pid, local[j], remote[j]))
  }

  /** Well-formed arrays: every pair is issued, in order, and the call completes. */
  lemma {:induction false} ArrayPlanComplete(local: seq<IoVec>, liovcnt: int64, remote: seq<IoVec>, riovcnt: int64)
    requires riovcnt <= liovcnt && liovcnt <= |local| && liovcnt <= |remote|
    requires forall j | 0 <= j < liovcnt :: local[j].len >= 0 && remote[j].len >= 0
    ensures ArrayPlan(local, liovcnt, remote, riovcnt) == (Done, Count(liovcnt))
  {
    var i: nat := 0;
    while i < liovcnt
      invariant i <= Count(liovcnt)
      invariant ScanPairs(local, liovcnt, remote, i) == ScanPairs(local, liovcnt, remote, 0)
      decreases liovcnt - i
    {
      i := i + 1;
    }
  }

  /**
   * Validation is not atomic: a negative length in pair k stops the call
   * with IllegalStateException after the k pairs before it were issued.
   */
  lemma {:induction false} ArrayPlanStopsAtNegative(local: seq<IoVec>, liovcnt: int64, remote: seq<IoVec>, riovcnt: int64, k: nat)
    requires riovcnt <= liovcnt && k < liovcnt && k < |local| && k < |remote|
    requires forall j | 0 <= j < k :: local[j].len >= 0 && remote[j].len >= 0
    requires local[k].len < 0 || remote[k].len < 0
    ensures ArrayPlan(local, liovcnt, remote, riovcnt) == (Failed(IllegalState), k)
  {
    var i: nat := 0;
    while i < k
      invariant i <= k
      invariant ScanPairs(local, liovcnt, remote, i) == ScanPairs(local, liovcnt, remote, 0)
    {
      i := i + 1;
    }
  }

  /**
   * process_vm_writev(pid, iovec[] local, liovcnt, iovec[] remote, riovcnt, flags):
   * fails with IllegalStateException before any transfer when riovcnt > liovcnt;
   * otherwise checks pair i and then issues it as a single-pair call, for
   * i = 0 .. liovcnt-1, ignoring the byte counts; a LastErrorException of a
   * single-pair call ends the loop.
   */
  method ProcessVmWritevArray(k: Kernel, pid: int32, local: seq<IoVec>, liovcnt: int64,
                              remote: seq<IoVec>, riovcnt: int64, flags: int64) returns (r: Outcome)
    modifies k`writes
    ensures var plan := ArrayPlan(local, liovcnt, remote, riovcnt);
      var issued := |k.writes| - |old(k.writes)|;
      && 0 <= issued <= plan.1
      && k.writes == old(k.writes) + Pairs(pid, local, remote, issued)
      && ((r == plan.0 && issued == plan.1) || (r == Failed(LastError) && issued >= 1))
  {
    if riovcnt > liovcnt {
      return Failed(IllegalState);
    }
    var i := 0;
    while i < liovcnt
      invariant 0 <= i <= |local| && i <= |remote|
      invariant ScanPairs(local, liovcnt, remote, i) == ArrayPlan(local, liovcnt, remote, riovcnt)
      invariant k.writes == old(k.writes) + Pairs(pid, local, remote, i)
      decreases liovcnt - i
    {
      if i >= |local| {
        return Failed(IndexOutOfBounds);
      }
      if local[i].len < 0 {
        return Failed(IllegalState);
      }
      if i >= |remote| {
        return Failed(IndexOutOfBounds);
      }
      if remote[i].len < 0 {
        return Failed(IllegalState);
      }
      var count := k.ProcessVmWritevPair(pid, local[i], remote[i], flags);
      assert Pairs(pid, local, remote, i + 1) == Pairs(pid, local, remote, i) + [Transfer(pid, local[i], remote[i])];
      if count.Err? {
        return Failed(count.error);
      }
      i := i + 1;
    }
    r := Done;
  }
}
