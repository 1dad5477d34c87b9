# Java-Memory-Manipulation: the byte-level memory reader/writer in Dafny

This project models the byte-level core of Java-Memory-Manipulation, a
library that reads and writes the memory of another process. It covers
five pieces:

- `MemoryBuffer`, a fixed-size native byte block. It offers typed put and
  get at offset 0, the `setBytes` copy loops and the provenance fields
  (`_lastreadsrc`, `_lastreadaddress`). It becomes the class
  `Buffers.MemoryBuffer`, which keeps its bytes in an `array<uint8>`.
- `unix`: the bindings from the unix package. This covers:
  - the wait-status decoders (the POSIX `<sys/wait.h>` macros in the glibc
    bit layout);
  - the `hex` formatter;
  - `process_vm_readv` and `process_vm_writev`, which become oracle methods
    of a `Kernel` class over each process's address space;
  - the validating loop of the iovec-array `process_vm_writev`.
- `UnixProcess`, the Linux process. Its `initModules` parses the lines of
  `/proc/<pid>/maps` (the layout of the proc(5) manual page) into a
  name-to-module map: the pure parser is `Maps`, the loop over lines is
  `UnixProcesses.UnixProcess.InitModules`. Its `read`, `write` and `canRead`
  are exact-count transfers.
- `DataSource`, the typed accessors a data source derives from its raw
  read and write. Each picks a width, transfers exactly that many bytes and
  decodes or encodes them at offset 0. Round trips such as `writeInt`
  followed by `readInt` are proved over the address space.
- `NativeProcess`. This covers:
  - `byId` and `byName` on each platform, including the Windows snapshot
    search over a `Kernel32` oracle class, which closes the snapshot handle
    exactly once;
  - the same typed accessors over a raw channel.

The model rests on these conventions:

- **Memory.** A target's memory is an `AddressSpace`, a map from a 64-bit
  unsigned address to a byte. An address absent from the map is unmapped.
- **Kernel calls.** A kernel call reports either an error
  (`LastErrorException`) or a count of bytes that it really copied to or
  from mapped addresses. Which of these it reports is left open: the
  oracle picks it with `:|`.
- **Byte order.** It is fixed as little-endian, the native order of the
  hosts JNA runs on here.
- **Integers.** Java `int`, `long`, `byte` and `short` are subset types.
  Narrowing casts, sign extension, `long` wrap-around and
  `Integer.toUnsignedLong` are written out.
- **Exceptions.** They become `Result`, `Outcome` or `LineOutcome` values.

The proofs that carry the weight are these:
- the inductions in `Bytes.UnsignedLowBytes`, `Bytes.LowBytesSigned` and
  `Maps.PathFromIsConcat`;
- the scan lemmas `Maps.ScanKeys`, `Maps.ScanLastWins` and `Maps.ScanAppend`;
- the loop invariants of `UnixProcesses.UnixProcess.InitModules`,
  `Maps.BuildPath` and `Buffers.MemoryBuffer.SetBytes`.

Where the code and what its method names and comments suggest disagree,
the model follows the code:

- Looking up a numeric id that does not exist does not fail. On Windows,
  `byId` returns a `WindowsProcess` holding the null handle that
  `OpenProcess` gave back. On Linux it returns a `LinuxProcess`
  unconditionally (`NativeProcesses.ById`).
- `byName` on Linux throws `UnsupportedOperationException`; it does not
  enumerate processes (`NativeProcesses.ByName`).
- `getBoolean`/`readBoolean` are true only for the byte value 1. Any
  other nonzero byte reads as false.
- In `initModules` only `NumberFormatException` is caught. A line whose
  first fields parse but which is too short ends the whole scan with an
  index exception, and the modules found so far are kept. So does a hex
  range field without '-': the start is parsed before the second part is
  looked up, so `ab` ends the scan while `zz` and the empty line are only
  skipped (`Maps.RangeWithoutDashAborts`, `Maps.RangeWithoutDashSkips`).
- The path loop's guard `++i > split.length` can never hold. A field that
  is whitespace but not empty (a tab, say), sitting last and reached as a
  field of its own, therefore makes the look-ahead index run one past the
  end, and the whole scan aborts. `Maps.PathFrom` models this as written,
  and `Maps.TrailingBlankFieldAborts` shows it. `String.split(" ")` drops
  trailing empty strings, so a plain trailing space never triggers it.

## Model

Source paths are relative to the repository root.

| member | source | states |
|---|---|---|
| Buffers.MemoryBuffer.constructor | src/main/java/com/github/jonatino/misc/MemoryBuffer.java:32-35 | a new block has exactly `size` bytes and no provenance; `size` is a constant no method changes |
| Buffers.MemoryBuffer.FromArray | src/main/java/com/github/jonatino/misc/MemoryBuffer.java:37-40 | the block built from an array has size `arr.length` and contents equal to `arr` |
| Buffers.MemoryBuffer.FromPointer | src/main/java/com/github/jonatino/misc/MemoryBuffer.java:42-45 | wrapping a pointer gives size 0 and `lastReadAddress()` equal to the pointer's address |
| Buffers.MemoryBuffer.FromAddress | src/main/java/com/github/jonatino/misc/MemoryBuffer.java:47-51 | wrapping (addr, size) gives that size and `lastReadAddress() == addr` |
| Buffers.MemoryBuffer.PutBoolean | src/main/java/com/github/jonatino/misc/MemoryBuffer.java:53-56 | writes byte 1 for true and 0 for false at offset 0 only, returns the same buffer, and `getBoolean()` then gives the value back |
| Buffers.MemoryBuffer.PutByte | src/main/java/com/github/jonatino/misc/MemoryBuffer.java:58-61 | writes the low byte of the value at offset 0, nothing else changes; `getByte()` then gives `(byte) value` |
| Buffers.MemoryBuffer.PutShort | src/main/java/com/github/jonatino/misc/MemoryBuffer.java:63-66 | writes the low 2 bytes at [0,2), nothing else changes; `getShort()` then gives `(short) value` |
| Buffers.MemoryBuffer.PutInt | src/main/java/com/github/jonatino/misc/MemoryBuffer.java:68-71 | writes the 4 bytes of the value at [0,4), nothing else changes; `putInt(v).getInt() == v` |
| Buffers.MemoryBuffer.PutLong | src/main/java/com/github/jonatino/misc/MemoryBuffer.java:73-76 | writes the 8 bytes of the value at [0,8), nothing else changes; `putLong(v).getLong() == v` |
| Buffers.MemoryBuffer.SetBytes | src/main/java/com/github/jonatino/misc/MemoryBuffer.java:88-93 | the loop sets byte `offset+i` to `data[i]` for every i and changes nothing else |
| Buffers.MemoryBuffer.SetBytesArray | src/main/java/com/github/jonatino/misc/MemoryBuffer.java:110-113 | `setBytes(data)` puts `data` at offset 0 and keeps the rest |
| Buffers.MemoryBuffer.SetBytesFrom | src/main/java/com/github/jonatino/misc/MemoryBuffer.java:103-108 | the loop copies the first `length` bytes of `data` (none for a negative length) to `offset`, keeping the rest |
| Buffers.MemoryBuffer.SetBytesBuffer | src/main/java/com/github/jonatino/misc/MemoryBuffer.java:95-97 | copies exactly `min(this.size, data.size)` bytes from `data[0..]` to `this[0..]` |
| Buffers.MemoryBuffer.SetBytesAt | src/main/java/com/github/jonatino/misc/MemoryBuffer.java:99-101 | ignores `offset` as a destination: copies `min(this.size, offset + data.size)` bytes (long addition) to position 0 |
| Buffers.MemoryBuffer.Get | src/main/java/com/github/jonatino/misc/MemoryBuffer.java:115-117 | `get(dest)` fills dest with the first `dest.length` bytes of the block |
| Buffers.MemoryBuffer.Array | src/main/java/com/github/jonatino/misc/MemoryBuffer.java:168-172 | `array()` returns a new array of exactly `size` bytes equal to the contents |
| Buffers.MemoryBuffer.ByteArray | src/main/java/com/github/jonatino/misc/MemoryBuffer.java:131-133 | `getByteArray()` has exactly `size` bytes, each equal to the block's byte |
| Buffers.MemoryBuffer.GetByte | src/main/java/com/github/jonatino/misc/MemoryBuffer.java:127-129 | the byte at offset 0, sign-extended into [-128, 128) |
| Buffers.MemoryBuffer.GetShort | src/main/java/com/github/jonatino/misc/MemoryBuffer.java:135-137 | the short at offset 0, sign-extended into [-32768, 32768) |
| Buffers.MemoryBuffer.GetBoolean | src/main/java/com/github/jonatino/misc/MemoryBuffer.java:119-121 | true exactly when `getByte()` is 1 |
| Buffers.MemoryBuffer.GetBooleanAt | src/main/java/com/github/jonatino/misc/MemoryBuffer.java:123-125 | true exactly when the byte at `offset`, sign-extended, is 1 |
| Buffers.MemoryBuffer.GetInt | src/main/java/com/github/jonatino/misc/MemoryBuffer.java:140-142 | the int whose 4 little-endian bytes are the first 4 bytes of the block, so `putInt` then `getInt` is exact |
| Buffers.MemoryBuffer.GetLong | src/main/java/com/github/jonatino/misc/MemoryBuffer.java:144-146 | the long whose 8 little-endian bytes are the first 8 bytes of the block |
| Buffers.MemoryBuffer.LastReadSource | src/main/java/com/github/jonatino/misc/MemoryBuffer.java:160-162 | the source recorded by the last read into the buffer (null before any) |
| Buffers.MemoryBuffer.LastReadAddress | src/main/java/com/github/jonatino/misc/MemoryBuffer.java:164-166 | the address recorded by the last read into the buffer |
| Buffers.MemoryBuffer.Size | src/main/java/com/github/jonatino/misc/MemoryBuffer.java:156-158 | `size()` is the length of the block |
| Bytes.UnsignedLowBytes | src/main/java/com/github/jonatino/misc/MemoryBuffer.java:63-76 | the n bytes a put writes hold the value mod 256^n, least significant first |
| Bytes.SignedLowBytes | src/main/java/com/github/jonatino/misc/MemoryBuffer.java:135-146 | a sign-extending get of the n bytes a put wrote is the value wrapped into n bytes, as a Java narrowing cast |
| Bytes.WrapInRange | src/main/java/com/github/jonatino/misc/MemoryBuffer.java:68-71 | wrapping is the identity on values that fit, so int and long round trips are exact |
| Bytes.LowBytesUnsigned | src/main/java/com/github/jonatino/misc/MemoryBuffer.java:135-146 | encoding the unsigned value of any bytes gives those bytes back |
| Bytes.LowBytesShift | src/main/java/com/github/jonatino/misc/MemoryBuffer.java:140-146 | adding 256^n to a value does not change its low n bytes |
| Bytes.LowBytesSigned | src/main/java/com/github/jonatino/misc/MemoryBuffer.java:140-146 | encoding the signed (sign-extended) value of any bytes gives those bytes back |
| JavaLang.ParseLong16 | src/main/java/com/github/jonatino/process/impl/unix/UnixProcess.java:52-54 | `Long.parseLong(s, 16)` gives a result exactly when the text after an optional sign is non-empty, all hex digits, and its signed value fits a long (-2^63 included); the result is that signed value |
| JavaLang.HexValue | src/main/java/com/github/jonatino/process/impl/unix/UnixProcess.java:52-54 | a digit string has a value exactly when every character is a hex digit |
| JavaLang.PaddedHexDigits | src/main/java/com/github/jonatino/process/impl/unix/UnixProcess.java:52-54 | zero-padded hex text (the kernel's `%08lx`) is all hex digits, with no sign and no space |
| JavaLang.PaddedHexParses | src/main/java/com/github/jonatino/process/impl/unix/UnixProcess.java:52-54 | zero-padded hex text of n >= 0 parses back to n |
| JavaLang.ParseLong16OfToHexString | src/main/java/com/github/jonatino/natives/unix/unix.java:71-73 | parsing `Long.toHexString(n)` gives n back for n >= 0, and fails for n < 0, whose digits exceed the long range |
| JavaLang.HexValueOfHexDigits | src/main/java/com/github/jonatino/natives/unix/unix.java:71-73 | the hex digits of u evaluate back to u |
| JavaLang.HexValueLeadingZeros | src/main/java/com/github/jonatino/natives/unix/unix.java:71-73 | leading zero digits do not change a hex value |
| JavaLang.JoinSplitAll | src/main/java/com/github/jonatino/process/impl/unix/UnixProcess.java:47-48 | joining the parts of a split with the separator restores the string, and no part holds the separator |
| JavaLang.SplitAllJoin | src/main/java/com/github/jonatino/process/impl/unix/UnixProcess.java:47-48 | splitting parts joined by a separator they do not contain gives the parts back |
| JavaLang.DropTrailingEmpty | src/main/java/com/github/jonatino/process/impl/unix/UnixProcess.java:47 | `split` keeps a prefix of the parts, ending in a non-empty part, having dropped only empty ones |
| JavaLang.LastIndexOf | src/main/java/com/github/jonatino/process/impl/unix/UnixProcess.java:76 | the index of the last occurrence, or -1 when there is none |
| Maps.BaseName | src/main/java/com/github/jonatino/process/impl/unix/UnixProcess.java:76 | the module name is the suffix of the path after its last '/', and holds no '/' |
| Maps.PathFrom | src/main/java/com/github/jonatino/process/impl/unix/UnixProcess.java:64-74 | the path loop as written fails only with an index exception, and only when the last field is blank |
| Maps.PathFromIsConcat | src/main/java/com/github/jonatino/process/impl/unix/UnixProcess.java:63-74 | when the path loop completes, the path is the separator-less concatenation of the non-blank fields from index 5 on, and it completes whenever the last field is not blank |
| Maps.PathOfIsConcat | src/main/java/com/github/jonatino/process/impl/unix/UnixProcess.java:63-74 | for a whole line: a completed loop yields `PathOf(split)`, and it completes when there are at most 5 fields or the last is not blank |
| Maps.ConcatAfterBlanks | src/main/java/com/github/jonatino/process/impl/unix/UnixProcess.java:63-74 | empty padding fields before a non-blank path add nothing to it |
| Maps.TrailingBlankFieldAborts | src/main/java/com/github/jonatino/process/impl/unix/UnixProcess.java:69-72 | a whitespace last field reached as a field of its own throws an index exception, while one reached by the look-ahead is skipped |
| Maps.BuildPath | src/main/java/com/github/jonatino/process/impl/unix/UnixProcess.java:63-74 | the imperative loop, with its in-loop `++i`, computes `PathFrom(split, 5)` |
| Maps.ReadNumbers | src/main/java/com/github/jonatino/process/impl/unix/UnixProcess.java:47-57 | the first stage of a line: start, end and offset parsed in the source's order; what it yields is stated by `ReadNumbersParsed` |
| Maps.ReadEntry | src/main/java/com/github/jonatino/process/impl/unix/UnixProcess.java:63-79 | the last stage of a line: the path loop, then the execute flag; what it yields is stated by `ReadEntryOutcome` |
| Maps.ParseLine | src/main/java/com/github/jonatino/process/impl/unix/UnixProcess.java:47-79 | one maps line as `initModules` reads it, `ReadNumbers`, the sign filters, then `ReadEntry`; its contract is stated by `ParseLineAdds`, `ParseLineSkips`, `ParseLineAborts` and `ParseLineExecutable` |
| Maps.ReadNumbersParsed | src/main/java/com/github/jonatino/process/impl/unix/UnixProcess.java:47-57 | the three numbers come through exactly when start, end and offset are all there and parse, and are then those parsed values; otherwise the line is skipped or the scan aborts on a missing index |
| Maps.ReadEntryOutcome | src/main/java/com/github/jonatino/process/impl/unix/UnixProcess.java:63-79 | past the filters, the line aborts exactly when the path loop fails or the permissions are shorter than 3; otherwise it is added exactly when the third permission is 'x', as `Module(BaseName(path), start, end - start, perms)` |
| Maps.ParseLineAdds | src/main/java/com/github/jonatino/process/impl/unix/UnixProcess.java:47-79 | an added entry's numbers parsed and passed the filters, its base is the parsed start and base + size the parsed end, its perms are the second field with 'x' third, and its name is the last component of the path |
| Maps.ParseLineSkips | src/main/java/com/github/jonatino/process/impl/unix/UnixProcess.java:51-61 | a start, end or offset that does not parse, or a parsed offset < 0, start <= 0 or end <= 0, skips the line |
| Maps.ParseLineAborts | src/main/java/com/github/jonatino/process/impl/unix/UnixProcess.java:47-79 | only an index exception aborts; it happens with no range parts, a parsed start without an end part, a parsed range with fewer than 3 fields, and past the filters exactly when the path loop fails or the permissions are shorter than 3 |
| Maps.ParseLineExecutable | src/main/java/com/github/jonatino/process/impl/unix/UnixProcess.java:78-79 | once the numbers, the path and the permission length are fine, the line is added exactly when the third permission is 'x' and skipped otherwise |
| Maps.RangeWithoutDashSkips | src/main/java/com/github/jonatino/process/impl/unix/UnixProcess.java:48-57 | the lines `zz` and the empty line are skipped: their start fails to parse |
| Maps.RangeWithoutDashAborts | src/main/java/com/github/jonatino/process/impl/unix/UnixProcess.java:48-57 | the line `ab` ends the scan: its start parses and the range has no second part |
| Maps.ScanLine | src/main/java/com/github/jonatino/process/impl/unix/UnixProcess.java:47-79 | the statement-by-statement line body, with the path loop, agrees with `ParseLine` |
| Maps.FieldsOfJoin | src/main/java/com/github/jonatino/process/impl/unix/UnixProcess.java:47 | splitting on ' ' a line built from space-free fields, the last non-empty, gives the fields back |
| Maps.RangeOfJoin | src/main/java/com/github/jonatino/process/impl/unix/UnixProcess.java:48 | splitting `lo-hi` on '-' gives `[lo, hi]` when neither holds '-' and hi is not empty |
| Maps.MapsFieldsLayout | src/main/java/com/github/jonatino/process/impl/unix/UnixProcess.java:63-74 | in the proc(5) field layout, the range, permissions and offset are fields 0-2 and the path loop completes with the path field |
| Maps.ParseFields | src/main/java/com/github/jonatino/process/impl/unix/UnixProcess.java:47-79 | a line with range `lo-hi`, perms and offset fields that parse to start, end, offset passing the filters, and path `path`, is added as `Module(BaseName(path), start, end - start, perms)` when perms[2] is 'x' and skipped otherwise |
| Maps.LineOfFields | src/main/java/com/github/jonatino/process/impl/unix/UnixProcess.java:47-79 | the same for every line built from space-free fields `lo-hi perms off dev inode`, any number of padding spaces, and the path |
| Maps.KernelLine | src/main/java/com/github/jonatino/process/impl/unix/UnixProcess.java:47-79 | the same for the kernel's own `%08lx` layout of start, end and offset |
| Maps.TypicalName | src/main/java/com/github/jonatino/process/impl/unix/UnixProcess.java:76 | the module name of `/lib/libtest.so` is `libtest.so` |
| Maps.TypicalLine | src/main/java/com/github/jonatino/process/impl/unix/UnixProcess.java:47-79 | `7f0000000000-7f0000001000 r-xp 00000000 08:01 1234 /lib/libtest.so` adds `libtest.so` with base 0x7f0000000000, size 0x1000 and perms `r-xp` |
| Maps.TypicalPaddedLine | src/main/java/com/github/jonatino/process/impl/unix/UnixProcess.java:47-79 | `7f0000000000-7f0000001000 r-xp 00000000 00:00 0  /lib/libtest.so`, with two spaces before the path, adds the same `libtest.so` module |
| Maps.Scan | src/main/java/com/github/jonatino/process/impl/unix/UnixProcess.java:46-79 | a fold over the outcomes completes exactly when no line aborts, and a failure is the error of an aborting line |
| Maps.ScanSkip | src/main/java/com/github/jonatino/process/impl/unix/UnixProcess.java:55-61 | a skipped line (parse failure or sign filter) leaves no trace in the scan |
| Maps.ScanAbort | src/main/java/com/github/jonatino/process/impl/unix/UnixProcess.java:45-56 | an index exception ends the scan with that exception, and the map keeps the entries of the earlier lines |
| Maps.ScanKeys | src/main/java/com/github/jonatino/process/impl/unix/UnixProcess.java:78-79 | a completed scan holds exactly the starting names plus the names the lines add |
| Maps.ScanLastWins | src/main/java/com/github/jonatino/process/impl/unix/UnixProcess.java:79 | for duplicate names the last line that adds the name wins |
| Maps.ScanAppend | src/main/java/com/github/jonatino/process/impl/unix/UnixProcess.java:46 | scanning a + b is scanning a and then b from where a left off, unless a failed |
| UnixProcesses.UnixProcess.constructor | src/main/java/com/github/jonatino/process/impl/unix/UnixProcess.java:39-41 | a new process has the given id and kernel and an empty module map |
| UnixProcesses.UnixProcess.InitModules | src/main/java/com/github/jonatino/process/impl/unix/UnixProcess.java:44-84 | the loop over the lines leaves the map and the outcome that the fold of the parsed lines gives |
| UnixProcesses.UnixProcess.Read | src/main/java/com/github/jonatino/process/impl/unix/UnixProcess.java:86-97 | a successful read returns a `size`-byte buffer equal to the target's memory at the address; unmapped memory always raises |
| UnixProcesses.UnixProcess.ReadInto | src/main/java/com/github/jonatino/process/impl/unix/UnixProcess.java:99-107 | fills the first `size` bytes of the target under the exact-count rule; bytes from `size` on are never touched |
| UnixProcesses.UnixProcess.Write | src/main/java/com/github/jonatino/process/impl/unix/UnixProcess.java:109-118 | success means all of the buffer's bytes now sit at the address and no other process changed; unmapped memory always raises |
| UnixProcesses.UnixProcess.CanRead | src/main/java/com/github/jonatino/process/impl/unix/UnixProcess.java:120-128 | `canRead` is whether `read` completes, so it is true only when every byte of the range is mapped |
| Unix.WTermSig | src/main/java/com/github/jonatino/natives/unix/unix.java:76-78 | WTERMSIG is in [0,127] for every int status, negative ones included |
| Unix.WExitStatus | src/main/java/com/github/jonatino/natives/unix/unix.java:81-83 | WEXITSTATUS is in [0,255] for every int status |
| Unix.WStopSig | src/main/java/com/github/jonatino/natives/unix/unix.java:86-88 | WSTOPSIG is in [0,127] for every int status |
| Unix.ExactlyOneState | src/main/java/com/github/jonatino/natives/unix/unix.java:90-101 | for every int status exactly one of WIFSIGNALED, WIFEXITED and WIFSTOPPED holds |
| Unix.WIfSignaled | src/main/java/com/github/jonatino/natives/unix/unix.java:91-93 | WIFSIGNALED holds exactly when the status is neither WIFEXITED nor WIFSTOPPED |
| Unix.WIfExited | src/main/java/com/github/jonatino/natives/unix/unix.java:95-97 | WIFEXITED holds exactly when the status is a code shifted left by 8 plus at most the core-dump bit 0x80 |
| Unix.WIfStopped | src/main/java/com/github/jonatino/natives/unix/unix.java:99-101 | WIFSTOPPED holds exactly when the status is a signal shifted left by 8, plus 0x7f, plus at most the core-dump bit 0x80 |
| Unix.WIfContinued | src/main/java/com/github/jonatino/natives/unix/unix.java:103-105 | a WIFCONTINUED status is also WIFSTOPPED, with stop signal 0x7f |
| Unix.WCoreDump | src/main/java/com/github/jonatino/natives/unix/unix.java:108-110 | WCOREDUMP holds exactly when bit 7 (0x80) of the status is set, negative statuses included |
| Unix.ExitedStatus | src/main/java/com/github/jonatino/natives/unix/unix.java:81-97 | the status `code << 8` of an exit with code in [0,256) decodes as exited, not signaled or stopped, with WEXITSTATUS == code and no core dump |
| Unix.StoppedStatus | src/main/java/com/github/jonatino/natives/unix/unix.java:86-101 | the status `(sig << 8) + 0x7f` of a stop by sig in [0,128) decodes as stopped, not exited or signaled, with WSTOPSIG == sig |
| Unix.SignaledStatus | src/main/java/com/github/jonatino/natives/unix/unix.java:76-110 | the status `sig`, or `sig + 0x80` with a core dump, of a kill by sig in (0,0x7f) decodes as signaled with WTERMSIG == sig and WCOREDUMP telling the two apart |
| Unix.MinusOneStatus | src/main/java/com/github/jonatino/natives/unix/unix.java:76-110 | status -1 decodes like its low bits: stopped by signal 0x7f, exit status 0xff, core-dump flag set, not continued |
| Unix.Hex | src/main/java/com/github/jonatino/natives/unix/unix.java:71-73 | `hex(n)` starts with "0x", has at least 10 characters, and holds no space |
| Unix.HexLayout | src/main/java/com/github/jonatino/natives/unix/unix.java:71-73 | `hex(n)` is "0x", then the unsigned lower-case hex digits of n left-padded with '0' to at least 8 |
| Unix.HexParsesBack | src/main/java/com/github/jonatino/natives/unix/unix.java:71-73 | for n >= 0 the digits of `hex(n)` parse back to n with `Long.parseLong(_, 16)` |
| Unix.Kernel.ProcessVmReadv | src/main/java/com/github/jonatino/natives/unix/unix.java:39 | the kernel reports an error, or a count c of bytes copied from mapped addresses into the first c bytes of the buffer |
| Unix.Kernel.ProcessVmWritev | src/main/java/com/github/jonatino/natives/unix/unix.java:41 | the kernel reports an error, or a count c of leading buffer bytes stored at mapped addresses of that process only |
| Unix.ArrayPlanComplete | src/main/java/com/github/jonatino/natives/unix/unix.java:51-56 | with all lengths non-negative the array call issues exactly `liovcnt` single-pair transfers and completes |
| Unix.ArrayPlanStopsAtNegative | src/main/java/com/github/jonatino/natives/unix/unix.java:51-55 | a negative length at pair k throws IllegalStateException after exactly k transfers were issued |
| Unix.ProcessVmWritevArray | src/main/java/com/github/jonatino/natives/unix/unix.java:48-57 | the loop issues the planned pairs in index order, ignoring their counts, and throws IllegalStateException before any transfer when `riovcnt > liovcnt` |
| DataSources.ReadBoolean | src/main/java/com/github/jonatino/process/DataSource.java:37-39 | reads exactly 1 byte and is true exactly when that byte is 1 |
| DataSources.ReadByte | src/main/java/com/github/jonatino/process/DataSource.java:41-43 | reads exactly 1 byte, sign-extended |
| DataSources.ReadShort | src/main/java/com/github/jonatino/process/DataSource.java:45-47 | reads exactly 2 bytes at offset 0, sign-extended |
| DataSources.ReadInt | src/main/java/com/github/jonatino/process/DataSource.java:49-51 | reads exactly 4 bytes at offset 0 as a signed int |
| DataSources.ReadUnsignedInt | src/main/java/com/github/jonatino/process/DataSource.java:53-55 | the 4 bytes zero-extended: the readInt value mod 2^32, in [0, 2^32) |
| DataSources.ReadLong | src/main/java/com/github/jonatino/process/DataSource.java:57-59 | reads exactly 8 bytes at offset 0 as a signed long |
| DataSources.ReadPointer | src/main/java/com/github/jonatino/process/DataSource.java:75-77 | the same 8 bytes and value as readLong |
| DataSources.UnsignedOfSigned | src/main/java/com/github/jonatino/process/DataSource.java:53-55 | `Integer.toUnsignedLong` of the signed value of 4 bytes is their unsigned value, which is the signed value mod 2^32 |
| DataSources.ReadAt | src/main/java/com/github/jonatino/process/DataSource.java:79-81 | `read(Pointer, size)` is `read(long, size)` at the pointer's address |
| DataSources.ReadInto | src/main/java/com/github/jonatino/process/DataSource.java:87-92 | fills the first `size` bytes of the target, sets its last-read address and source, and returns the same target; a failed read leaves the bytes from `size` on and the provenance as they were |
| DataSources.ReadIntoAt | src/main/java/com/github/jonatino/process/DataSource.java:94-96 | the Pointer overload behaves like the long one at the pointer's address, failure included: the bytes from `size` on and the provenance are then unchanged |
| DataSources.ReadFull | src/main/java/com/github/jonatino/process/DataSource.java:98-100 | reads exactly `target.size()` bytes into the target and records this source and the address; a failed read leaves the recorded source and address unchanged |
| DataSources.WriteAt | src/main/java/com/github/jonatino/process/DataSource.java:83-85 | `write(long, buffer)` is the Pointer overload at that address |
| DataSources.CanRead | src/main/java/com/github/jonatino/process/DataSource.java:134-136 | `canRead(long, size)` is the Pointer overload at that address |
| DataSources.WriteBoolean | src/main/java/com/github/jonatino/process/DataSource.java:106-108 | stores the single byte 1 or 0 at the address |
| DataSources.WriteByte | src/main/java/com/github/jonatino/process/DataSource.java:110-112 | stores exactly 1 byte, the low byte of the value |
| DataSources.WriteShort | src/main/java/com/github/jonatino/process/DataSource.java:114-116 | stores exactly 2 bytes, the low 16 bits of the value |
| DataSources.WriteInt | src/main/java/com/github/jonatino/process/DataSource.java:118-120 | stores exactly the 4 bytes of the value |
| DataSources.WriteLong | src/main/java/com/github/jonatino/process/DataSource.java:122-124 | stores exactly the 8 bytes of the value |
| DataSources.BooleanRoundTrip | src/main/java/com/github/jonatino/process/DataSource.java:37-39 | writeBoolean then readBoolean at the same address gives the value back |
| DataSources.ByteRoundTrip | src/main/java/com/github/jonatino/process/DataSource.java:41-43 | writeByte then readByte gives the low byte of the value, sign-extended |
| DataSources.ShortRoundTrip | src/main/java/com/github/jonatino/process/DataSource.java:45-47 | writeShort then readShort gives the low 16 bits of the value, sign-extended |
| DataSources.IntRoundTrip | src/main/java/com/github/jonatino/process/DataSource.java:49-51 | writeInt then readInt is exact |
| DataSources.LongRoundTrip | src/main/java/com/github/jonatino/process/DataSource.java:57-59 | writeLong then readLong (or readPointer) is exact |
| DataSources.UnsignedIntRoundTrip | src/main/java/com/github/jonatino/process/DataSource.java:53-55 | writeInt then readUnsignedInt gives the value mod 2^32 |
| NativeProcesses.FirstMatch | src/main/java/com/beaudoin/jmm/process/NativeProcess.java:26-31 | the index of the first entry whose name equals the argument case-sensitively, or none when no entry matches |
| NativeProcesses.FirstMatchExample | src/main/java/com/beaudoin/jmm/process/NativeProcess.java:28 | the first of two equal names wins, and a match differing only in case does not count |
| NativeProcesses.ByName | src/main/java/com/beaudoin/jmm/process/NativeProcess.java:21-45 | on Windows gives byId of the first matching snapshot entry, or IllegalStateException when none matches, and closes the snapshot handle exactly once either way; every other platform, Linux included, throws UnsupportedOperationException |
| NativeProcesses.ById | src/main/java/com/beaudoin/jmm/process/NativeProcess.java:47-58 | Windows opens the process with access 0x438, Linux gives LinuxProcess(id), Mac is unsupported, anything else is an IllegalStateException |
| NativeProcesses.Kernel32.CreateToolhelp32Snapshot | src/main/java/com/beaudoin/jmm/process/NativeProcess.java:24 | returns a handle never issued before and opens a snapshot for it with its cursor at the first entry, leaving the other snapshots as they were |
| NativeProcesses.Kernel32.Process32Next | src/main/java/com/beaudoin/jmm/process/NativeProcess.java:26 | yields the snapshot's entries in order, one per call, then false |
| NativeProcesses.Kernel32.CloseHandle | src/main/java/com/beaudoin/jmm/process/NativeProcess.java:33 | releases the handle and logs the call |
| NativeProcesses.Kernel32.OpenProcess | src/main/java/com/beaudoin/jmm/process/NativeProcess.java:49 | logs the call with its access mask, inherit flag and id; returns a new handle when the id is running and the null handle 0 otherwise |
| NativeProcesses.Read | src/main/java/com/beaudoin/jmm/process/NativeProcess.java:102-104 | `read(long, size)` is the Pointer overload with the same address and size |
| NativeProcesses.CanRead | src/main/java/com/beaudoin/jmm/process/NativeProcess.java:148-150 | `canRead(long, size)` is the Pointer overload with the same address and size; it is the same default as DataSource's, so it calls that one |
| NativeProcesses.ReadByte | src/main/java/com/beaudoin/jmm/process/NativeProcess.java:72-74 | requests 1 byte and decodes a Java byte at offset 0 |
| NativeProcesses.ReadShort | src/main/java/com/beaudoin/jmm/process/NativeProcess.java:76-78 | requests 2 bytes and decodes a short at offset 0 |
| NativeProcesses.ReadInt | src/main/java/com/beaudoin/jmm/process/NativeProcess.java:80-82 | requests 4 bytes and decodes an int at offset 0 |
| NativeProcesses.ReadLong | src/main/java/com/beaudoin/jmm/process/NativeProcess.java:84-86 | requests 8 bytes and decodes a long at offset 0 |
| NativeProcesses.WriteBoolean | src/main/java/com/beaudoin/jmm/process/NativeProcess.java:106-110 | writes a single byte, 1 or 0 |
| NativeProcesses.WriteByte | src/main/java/com/beaudoin/jmm/process/NativeProcess.java:112-116 | writes exactly 1 byte holding `(byte) value` |
| NativeProcesses.WriteShort | src/main/java/com/beaudoin/jmm/process/NativeProcess.java:118-122 | writes exactly 2 bytes holding `(short) value` |
| NativeProcesses.WriteInt | src/main/java/com/beaudoin/jmm/process/NativeProcess.java:124-128 | writes exactly the 4 bytes of the value |
| NativeProcesses.WriteLong | src/main/java/com/beaudoin/jmm/process/NativeProcess.java:130-134 | writes exactly the 8 bytes of the value |

## Left out

- Floating point: `putFloat`/`putDouble`, `getFloat`/`getDouble`, `readFloat`/`readDouble` and `writeFloat`/`writeDouble`.
- Strings: `readString` and `Strings.transform` (string encoding).
- `Cacheable` buffer, array and pointer caching. Every buffer here is a new one, so the aliasing between cached buffers is not modelled.
- Native memory: `Native.malloc` and `MemoryBuffer.free`. Their lifetime management is outside the model.
- Reading `/proc/<pid>/maps` from disk and the swallowed `IOException`. `InitModules` takes the file's lines as a parameter.
- The thread-local iovec scratch objects. They are per-call values here.
- The JNA native declarations `ptrace` and `waitpid`, and the `Native.register` block.
- `process_vm_readv` and `process_vm_writev` are oracles: which byte count the kernel reports is not determined. The model fixes only what a report means.
- Page protections are not modelled: every mapped byte is readable and writable.
- The platform test (`Platform.isWindows()` and the others) is a parameter.
- The source's `Character.digit` also accepts non-ASCII digits. `Long.parseLong` is modelled with ASCII hex digits only.
- The `Module` record's reference back to its process. `findModule` and the process base class are not part of this model.
- The Windows and Linux process classes are not part of this model. `NativeProcesses` runs its typed accessors over the exact-count read, write and canRead of a Linux process.
- `read(address, size, Pointer target)` and `read(long, int, long)` with a raw target are modelled only for a target that is a `MemoryBuffer`.
- Buffers.MemoryBuffer.FromPointer: the buffer does not alias the memory at the pointer; it is a new empty block that records the address.
- Buffers.MemoryBuffer.FromAddress: the buffer does not alias the `size` bytes at the address; its contents are left open and writes to it do not reach that memory. Negative sizes are excluded: Java stores any `int` here, and a negative `size()` is not modelled (the model's block has `size` bytes, so `size` is a `nat`).
- Buffers.MemoryBuffer.PutBoolean, PutByte, PutShort, PutInt, PutLong: the source writes past a short block unchecked; the model requires the width to fit in `size`. Every caller uses a block of exactly the width.
- Buffers.MemoryBuffer.GetBoolean, GetBooleanAt, GetByte, GetShort, GetInt, GetLong: the source reads past a short block unchecked; the model requires the width to fit in `size`, so a size-0 `FromPointer` block cannot be read.
- Buffers.MemoryBuffer.SetBytes, SetBytesArray: the source has no bounds check; the model requires `offset + data.length <= size`, and `SetBytesArray` inherits this bound through its `setBytes(0, data)` call.
- Buffers.MemoryBuffer.SetBytesFrom: the source reads and writes past either block unchecked; the model requires both ranges to fit, and an overlapping self-copy only at offset 0.
- Buffers.MemoryBuffer.SetBytesAt: the source can read past `data.size`; the model requires the copied count not to exceed `data.size`.
- Buffers.MemoryBuffer.Get: the source reads past the block when `dest` is longer; the model requires `dest.length <= size`.
- Buffers.MemoryBuffer.constructor: sizes above 2^31-1 and negative sizes are excluded (Java `int`; `Native.malloc` of a negative size is not modelled).
- UnixProcesses.UnixProcess.Read: sizes are non-negative; what the cache does with a negative size is not known.
- UnixProcesses.UnixProcess.ReadInto: the raw target is the buffer it points into, and `size` must fit in it.
- UnixProcesses.UnixProcess.Write: after a short count the bytes that did arrive stay written, and the model does not say which they are.
- Unix.Kernel.ProcessVmWritevPair: a raw iovec pair is recorded, but its effect on the target's memory is not modelled, because the local bytes at `iov_base` are not part of the model.
- NativeProcesses.ByName: exceptions from inside the JNA calls (the `finally` path) are not modelled; the snapshot is closed on the two exits that exist.
- NativeProcesses.Kernel32.Process32Next: the source calls it without `Process32First`; it is taken to yield the first entry on its first call.
