/**
 * Module enumeration on Linux: one line of /proc/<pid>/maps (the format of
 * the proc(5) manual page: "start-end perms offset dev inode path") becomes
 * a module entry, nothing, or an exception that ends the whole scan; the
 * lines are folded, in order, into a name -> module map.
 */
module Maps {
  import opened Wrappers
  import opened JavaLang

  /** A module: name, base address, size (end - start, unchecked) and permission string. */
  datatype Module = Module(name: string, base: int64, size: int, perms: string)

  /** What one line contributes to the scan. */
  datatype LineOutcome = Skip | Add(name: string, entry: Module) | Abort(error: Exc)

  // ---------------------------------------------------------------------
  // The path fields

  function Prepend(s: string, r: Result<string>): Result<string>
  {
    if r.Ok? then Ok(s + r.value) else r
  }

  /**
   * The path loop from field i on, as written. A field that is not blank
   * is appended. A blank field bumps the index to look at the next field
   * and appends it when it is not blank; the guard `++i > split.length`
   * can never hold, so a blank field in the last position makes the look
   * ahead index one past the end.
   */
  function PathFrom(split: seq<string>, i: nat): (r: Result<string>)
    ensures r.Err? ==> r.error == IndexOutOfBounds && i < |split| && Blank(split[|split| - 1])
    decreases Count(|split| - i)
  {
    if i >= |split| then Ok("")
    else if !Blank(split[i]) then Prepend(split[i], PathFrom(split, i + 1))
    else if i + 1 == |split| then Err(IndexOutOfBounds)
    else if !Blank(split[i + 1]) then Prepend(split[i + 1], PathFrom(split, i + 2))
    else PathFrom(split, i + 2)
  }

  /** Reference definition: the non-blank fields glued together without separators. */
  function ConcatNonBlank(fields: seq<string>): string
    decreases |fields|
  {
    if fields == [] then ""
    else (if Blank(fields[0]) then "" else fields[0]) + ConcatNonBlank(fields[1..])
  }

  /**
   * Whenever the loop completes, the path is the non-blank fields from i
   * on, concatenated; it completes whenever the last field is not blank,
   * which String.split guarantees unless that field is whitespace such as a tab.
   */
  lemma {:induction false} PathFromIsConcat(split: seq<string>, i: nat)
    requires i <= |split|
    ensures PathFrom(split, i).Ok? ==> PathFrom(split, i) == Ok(ConcatNonBlank(split[i..]))
    ensures |split| == i || !Blank(split[|split| - 1]) ==> PathFrom(split, i).Ok?
    decreases |split| - i
  {
    if i < |split| {
      assert split[i..] == [split[i]] + split[i + 1..];
      if !Blank(split[i]) || i + 1 == |split| {
        PathFromIsConcat(split, i + 1);
      } else {
        assert split[i + 1..] == [split[i + 1]] + split[i + 2..];
        assert ConcatNonBlank(split[i..]) == ConcatNonBlank(split[i + 1..]);
        var rest := ConcatNonBlank(split[i + 2..]);
        assert ConcatNonBlank(split[i + 1..]) == (if Blank(split[i + 1]) then "" else split[i + 1]) + rest;
        assert "" + rest == rest;
        PathFromIsConcat(split, i + 2);
      }
    }
  }

  /** The path a completed loop builds from a line's fields: the non-blank ones from the sixth on. */
  function PathOf(split: seq<string>): string
  {
    if |split| <= 5 then "" else ConcatNonBlank(split[5..])
  }

  lemma PathOfIsConcat(split: seq<string>)
    ensures PathFrom(split, 5).Ok? ==> PathFrom(split, 5) == Ok(PathOf(split))
    ensures |split| <= 5 || !Blank(split[|split| - 1]) ==> PathFrom(split, 5).Ok?
  {
    if |split| >= 5 {
      PathFromIsConcat(split, 5);
    }
  }

  /** Blank fields before the path add nothing to it. */
  lemma {:induction false} ConcatAfterBlanks(gap: nat, path: string)
    requires !Blank(path)
    ensures ConcatNonBlank(seq(gap, _ => "") + [path]) == path
    decreases gap
  {
    var fs := seq(gap, _ => "") + [path];
    if gap == 0 {
      assert fs == [path];
      assert fs[1..] == [];
      assert path + "" == path;
    } else {
      assert fs[0] == "" && Blank("");
      assert fs[1..] == seq(gap - 1, _ => "") + [path];
      ConcatAfterBlanks(gap - 1, path);
      assert "" + path == path;
    }
  }

  /** A last field that is blank but not empty, reached as a field of its own, aborts. */
  lemma TrailingBlankFieldAborts()
    ensures PathFrom(["1000-2000", "r-xp", "0", "00:00", "0", "a", "\t"], 5) == Err(IndexOutOfBounds)
    ensures PathFrom(["1000-2000", "r-xp", "0", "00:00", "0", "", "\t"], 5) == Ok("")
  {
    assert !Blank("a") by { assert "a"[0] == 'a'; }
    assert Blank("\t") && Blank("");
  }

  lemma PrependAssoc(a: string, b: string, r: Result<string>)
    ensures Prepend(a + b, r) == Prepend(a, Prepend(b, r))
  {
    if r.Ok? {
      assert (a + b) + r.value == a + (b + r.value);
    }
  }

  /** The path loop: `path` accumulates by string concatenation, with the in-loop index bump. */
  method BuildPath(split: seq<string>) returns (r: Result<string>)
    ensures r == PathFrom(split, 5)
  {
    var path := "";
    var i := 5;
    assert Prepend(path, PathFrom(split, i)) == PathFrom(split, 5) by {
      var p := PathFrom(split, 5);
      assert p.Ok? ==> "" + p.value == p.value;
    }
    while i < |split|
      invariant 5 <= i && (i <= |split| || i == 5)
      invariant Prepend(path, PathFrom(split, i)) == PathFrom(split, 5)
      decreases |split| - i
    {
      var s := split[i];
      if !Blank(s) {
        PrependAssoc(path, split[i], PathFrom(split, i + 1));
        path := path + split[i];
      } else {
        i := i + 1;  // `++i > split.length` is false here, so no break
        if i == |split| {
          return Err(IndexOutOfBounds);
        }
        if !Blank(split[i]) {
          PrependAssoc(path, split[i], PathFrom(split, i + 1));
          path := path + split[i];
        }
      }
      i := i + 1;
    }
    assert path + "" == path;
    r := Ok(path);
  }

  // ---------------------------------------------------------------------
  // One line

  /** The last component of a path: everything after the last '/'. */
  function BaseName(path: string): (name: string)
    ensures '/' !in name
    ensures |name| <= |path| && name == path[|path| - |name|..]
    ensures |name| < |path| ==> path[|path| - |name| - 1] == '/'
  {
    path[LastIndexOf(path, '/') + 1..]
  }

  /** The fields of a maps line: the line split on single spaces. */
  function Fields(line: string): seq<string>
  {
    Split(line, ' ')
  }

  /** The address range field split on '-'; empty when the line has no fields. */
  function Range(line: string): seq<string>
  {
    var f := Fields(line);
    if |f| == 0 then [] else Split(f[0], '-')
  }

  /** Start, end and offset are all there and all parse as signed hex. */
  predicate NumbersParse(line: string)
  {
    |Range(line)| >= 2 && |Fields(line)| >= 3 &&
    ParseLong16(Range(line)[0]).Some? && ParseLong16(Range(line)[1]).Some? &&
    ParseLong16(Fields(line)[2]).Some?
  }

  /** ... and pass the filters: offset >= 0, start > 0 and end > 0. */
  predicate NumbersPass(line: string)
  {
    NumbersParse(line) && ParseLong16(Fields(line)[2]).value >= 0 &&
    ParseLong16(Range(line)[0]).value > 0 && ParseLong16(Range(line)[1]).value > 0
  }

  /** How far the three numbers of a line get: stopped with an outcome, or parsed. */
  datatype Numbers = Stop(outcome: LineOutcome) | Parsed(start: int64, end: int64, offset: int64)

  /**
   * Start, end and offset, parsed in the order initModules parses them: a
   * NumberFormatException skips the line, and an index that is not there
   * aborts the scan. Start is parsed before the range's second part is
   * looked up, so a range field without '-' is skipped when it is not hex
   * and aborts the scan when it is.
   */
  function ReadNumbers(line: string): Numbers
  {
    var split := Fields(line);
    if |split| == 0 then Stop(Abort(IndexOutOfBounds))
    else
      var region := Range(line);
      if |region| == 0 then Stop(Abort(IndexOutOfBounds))
      else
        match ParseLong16(region[0])
        case None => Stop(Skip)
        case Some(start) =>
          if |region| < 2 then Stop(Abort(IndexOutOfBounds))
          else
            match ParseLong16(region[1])
            case None => Stop(Skip)
            case Some(end) =>
              if |split| < 3 then Stop(Abort(IndexOutOfBounds))
              else
                match ParseLong16(split[2])
                case None => Stop(Skip)
                case Some(offset) => Parsed(start, end, offset)
  }

  /**
   * The numbers come through exactly when all three are there and parse,
   * and then they are the parsed start, end and offset; otherwise the
   * line is skipped or the scan aborts on a missing index.
   */
  lemma ReadNumbersParsed(line: string)
    ensures ReadNumbers(line).Parsed? <==> NumbersParse(line)
    ensures ReadNumbers(line).Parsed? ==>
              NumbersParse(line) &&
              ParseLong16(Range(line)[0]) == Some(ReadNumbers(line).start) &&
              ParseLong16(Range(line)[1]) == Some(ReadNumbers(line).end) &&
              ParseLong16(Fields(line)[2]) == Some(ReadNumbers(line).offset)
    ensures ReadNumbers(line).Stop? ==>
              ReadNumbers(line).outcome == Skip || ReadNumbers(line).outcome == Abort(IndexOutOfBounds)
  {
  }

  /**
   * The rest of a line whose numbers passed the filters: the path loop,
   * then the execute flag; the entry is named after the path's last
   * component and sized end - start.
   */
  function ReadEntry(split: seq<string>, start: int64, end: int64): LineOutcome
    requires |split| >= 3
  {
    match PathFrom(split, 5)
    case Err(e) => Abort(e)
    case Ok(path) =>
      if |split[1]| < 3 then Abort(IndexOutOfBounds)
      else if split[1][2] != 'x' then Skip
      else
        var name := BaseName(path);
        Add(name, Module(name, start, end - start, split[1]))
  }

  /**
   * The entry aborts exactly when the path loop runs off the end or the
   * permissions are shorter than three; past those, it is added exactly
   * when the permissions are executable, under the path's last component.
   */
  lemma ReadEntryOutcome(split: seq<string>, start: int64, end: int64)
    requires |split| >= 3
    ensures ReadEntry(split, start, end).Abort? <==> PathFrom(split, 5).Err? || |split[1]| < 3
    ensures ReadEntry(split, start, end).Abort? ==> ReadEntry(split, start, end).error == IndexOutOfBounds
    ensures PathFrom(split, 5).Ok? && |split[1]| >= 3 ==> (ReadEntry(split, start, end).Add? <==> split[1][2] == 'x')
    ensures ReadEntry(split, start, end).Add? ==>
              ReadEntry(split, start, end) ==
              Add(BaseName(PathOf(split)), Module(BaseName(PathOf(split)), start, end - start, split[1]))
  {
    PathOfIsConcat(split);
  }

  /**
   * One line of the maps file as initModules reads it: the fields split on
   * ' ', the range split on '-', the three numbers, the sign filters, the
   * path, then the execute flag.
   */
  function ParseLine(line: string): LineOutcome
  {
    match ReadNumbers(line)
    case Stop(o) => o
    case Parsed(start, end, offset) =>
      if offset < 0 || start <= 0 || end <= 0 then Skip
      else ReadEntry(Fields(line), start, end)
  }

  /**
   * What an added entry holds: the numbers parsed and passed the filters,
   * the base is the parsed start, base + size the parsed end, the
   * permissions are the second field and executable, and the name is the
   * last component of the path.
   */
  lemma ParseLineAdds(line: string)
    ensures ParseLine(line).Add? ==> NumbersPass(line) && ParseLine(line).entry.name == ParseLine(line).name
    ensures ParseLine(line).Add? ==>
              NumbersParse(line) &&
              ParseLine(line).entry.base == ParseLong16(Range(line)[0]).value &&
              ParseLine(line).entry.base + ParseLine(line).entry.size == ParseLong16(Range(line)[1]).value
    ensures ParseLine(line).Add? ==>
              |Fields(line)| >= 3 && ParseLine(line).entry.perms == Fields(line)[1] &&
              |Fields(line)[1]| >= 3 && Fields(line)[1][2] == 'x'
    ensures ParseLine(line).Add? ==> ParseLine(line).name == BaseName(PathOf(Fields(line)))
  {
    ReadNumbersParsed(line);
    var n := ReadNumbers(line);
    if n.Parsed? && n.offset >= 0 && n.start > 0 && n.end > 0 {
      ReadEntryOutcome(Fields(line), n.start, n.end);
    }
  }

  /** A number that does not parse, or one that fails a filter, skips the line. */
  lemma ParseLineSkips(line: string)
    ensures |Range(line)| >= 1 && ParseLong16(Range(line)[0]).None? ==> ParseLine(line) == Skip
    ensures |Range(line)| >= 2 && ParseLong16(Range(line)[1]).None? ==> ParseLine(line) == Skip
    ensures |Range(line)| >= 2 && |Fields(line)| >= 3 && ParseLong16(Fields(line)[2]).None? ==> ParseLine(line) == Skip
    ensures NumbersParse(line) && !NumbersPass(line) ==> ParseLine(line) == Skip
  {
    ReadNumbersParsed(line);
    var n := ReadNumbers(line);
    if n.Parsed? && n.offset >= 0 && n.start > 0 && n.end > 0 {
      ReadEntryOutcome(Fields(line), n.start, n.end);
    }
  }

  /**
   * Only a missing field ends the scan: no fields or no range parts, a
   * range without its second part once the first has parsed, fewer than
   * three fields once the range has parsed, or, past the filters, a path
   * loop that runs off the end or a permission field shorter than three.
   */
  lemma ParseLineAborts(line: string)
    ensures ParseLine(line).Abort? ==> ParseLine(line).error == IndexOutOfBounds
    ensures |Range(line)| == 0 ==> ParseLine(line).Abort?
    ensures |Range(line)| == 1 && ParseLong16(Range(line)[0]).Some? ==> ParseLine(line).Abort?
    ensures (|Range(line)| >= 2 && ParseLong16(Range(line)[0]).Some? && ParseLong16(Range(line)[1]).Some? &&
             |Fields(line)| < 3) ==> ParseLine(line).Abort?
    ensures NumbersPass(line) ==>
            (ParseLine(line).Abort? <==> PathFrom(Fields(line), 5).Err? || |Fields(line)[1]| < 3)
  {
    ReadNumbersParsed(line);
    var n := ReadNumbers(line);
    if n.Parsed? && n.offset >= 0 && n.start > 0 && n.end > 0 {
      ReadEntryOutcome(Fields(line), n.start, n.end);
    }
  }

  /** Past the numbers and the path, the execute flag alone decides between adding and skipping. */
  lemma ParseLineExecutable(line: string)
    requires NumbersPass(line) && PathFrom(Fields(line), 5).Ok? && |Fields(line)[1]| >= 3
    ensures ParseLine(line).Add? <==> Fields(line)[1][2] == 'x'
    ensures !ParseLine(line).Add? ==> ParseLine(line) == Skip
  {
    ReadNumbersParsed(line);
    var n := ReadNumbers(line);
    if n.Parsed? && n.offset >= 0 && n.start > 0 && n.end > 0 {
      ReadEntryOutcome(Fields(line), n.start, n.end);
    }
  }

  /**
   * A range field without '-' that is not hex, such as "zz", or the empty
   * line: the start fails to parse first, so the line is skipped.
   */
  lemma RangeWithoutDashSkips()
    ensures ParseLine("zz") == Skip
    ensures ParseLine("") == Skip
  {
    assert Fields("zz") == ["zz"] && Range("zz") == ["zz"];
    assert DigitValue('z').None?;
    assert ReadNumbers("zz") == Stop(Skip);
    assert Fields("") == [""] && Range("") == [""];
    assert ReadNumbers("") == Stop(Skip);
  }

  /**
   * A range field without '-' that is hex, such as "ab": the start parses,
   * and the missing second part ends the scan.
   */
  lemma RangeWithoutDashAborts()
    ensures ParseLine("ab") == Abort(IndexOutOfBounds)
  {
    var ab := "ab";
    assert Fields(ab) == [ab] && Range(ab) == [ab];
    assert Magnitude(ab) == ab;
    assert ab[..1] == "a" && "a"[..0] == [];
    assert HexValue(ab) == Some(0xab);
    assert ParseLong16(ab).Some?;
    assert ReadNumbers(ab) == Stop(Abort(IndexOutOfBounds));
  }

  /** One line, with the path built by the loop. */
  method ScanLine(line: string) returns (r: LineOutcome)
    ensures r == ParseLine(line)
  {
    var split := Fields(line);
    if |split| == 0 {
      return Abort(IndexOutOfBounds);
    }
    var region := Split(split[0], '-');
    assert region == Range(line);
    if |region| == 0 {
      return Abort(IndexOutOfBounds);
    }
    var start := ParseLong16(region[0]);
    if start.None? {
      assert ReadNumbers(line) == Stop(Skip);
      return Skip;
    }
    if |region| < 2 {
      assert ReadNumbers(line) == Stop(Abort(IndexOutOfBounds));
      return Abort(IndexOutOfBounds);
    }
    var end := ParseLong16(region[1]);
    if end.None? {
      assert ReadNumbers(line) == Stop(Skip);
      return Skip;
    }
    if |split| < 3 {
      assert ReadNumbers(line) == Stop(Abort(IndexOutOfBounds));
      return Abort(IndexOutOfBounds);
    }
    var offset := ParseLong16(split[2]);
    if offset.None? {
      assert ReadNumbers(line) == Stop(Skip);
      return Skip;
    }
    assert ReadNumbers(line) == Parsed(start.value, end.value, offset.value);
    if offset.value < 0 || start.value <= 0 || end.value <= 0 {
      return Skip;
    }
    assert ParseLine(line) == ReadEntry(split, start.value, end.value);
    var path := BuildPath(split);
    if path.Err? {
      return Abort(path.error);
    }
    if |split[1]| < 3 {
      return Abort(IndexOutOfBounds);
    }
    if split[1][2] != 'x' {
      return Skip;
    }
    var name := BaseName(path.value);
    r := Add(name, Module(name, start.value, end.value - start.value, split[1]));
  }

  /**
   * The fields of a maps line: the range "lo-hi", the permissions, the
   * offset, the device, the inode, `gap` empty fields (the column padding
   * before the path, one more space each) and the path.
   */
  function MapsFields(lo: string, hi: string, perms: string, off: string, dev: string, inode: string,
                      gap: nat, path: string): (f: seq<string>)
    ensures |f| == 6 + gap
  {
    [lo + "-" + hi, perms, off, dev, inode] + seq(gap, _ => "") + [path]
  }

  /** Splitting a line built from space-free fields gives the fields back. */
  lemma FieldsOfJoin(f: seq<string>)
    requires |f| >= 2 && f[|f| - 1] != ""
    requires forall i | 0 <= i < |f| :: ' ' !in f[i]
    ensures Fields(Join(f, ' ')) == f
  {
    var text := Join(f, ' ');
    SplitAllJoin(f, ' ');
    assert text == f[0] + [' '] + Join(f[1..], ' ');
    assert text[|f[0]|] == ' ';
  }

  /** Splitting "lo-hi" on '-' gives the two halves when neither holds '-' and hi is not empty. */
  lemma RangeOfJoin(lo: string, hi: string)
    requires '-' !in lo && '-' !in hi && hi != ""
    ensures Split(lo + "-" + hi, '-') == [lo, hi]
  {
    var parts := [lo, hi];
    assert Join(parts, '-') == lo + "-" + hi by {
      assert Join(parts[1..], '-') == hi;
    }
    SplitAllJoin(parts, '-');
    assert (lo + "-" + hi)[|lo|] == '-';
  }

  /** Where MapsFields puts the range, the permissions, the offset and the path. */
  lemma {:induction false} MapsFieldsLayout(lo: string, hi: string, perms: string, off: string, dev: string,
                                            inode: string, gap: nat, path: string)
    requires !Blank(path)
    ensures MapsFields(lo, hi, perms, off, dev, inode, gap, path)[0] == lo + "-" + hi
    ensures MapsFields(lo, hi, perms, off, dev, inode, gap, path)[1] == perms
    ensures MapsFields(lo, hi, perms, off, dev, inode, gap, path)[2] == off
    ensures PathFrom(MapsFields(lo, hi, perms, off, dev, inode, gap, path), 5).Ok?
    ensures PathOf(MapsFields(lo, hi, perms, off, dev, inode, gap, path)) == path
  {
    var f := MapsFields(lo, hi, perms, off, dev, inode, gap, path);
    PathOfIsConcat(f);
    assert f[5..] == seq(gap, _ => "") + [path];
    ConcatAfterBlanks(gap, path);
  }

  /**
   * A line whose range field is "lo-hi", whose permissions and offset are
   * the next two fields and whose path fields join to `path` decodes by
   * those fields.
   */
  lemma {:induction false} ParseFields(line: string, lo: string, hi: string, perms: string, off: string,
                                       path: string, start: int64, end: int64, offset: int64)
    requires |Fields(line)| >= 3
    requires Fields(line)[0] == lo + "-" + hi && Fields(line)[1] == perms && Fields(line)[2] == off
    requires PathFrom(Fields(line), 5).Ok? && PathOf(Fields(line)) == path
    requires '-' !in lo && '-' !in hi
    requires ParseLong16(lo) == Some(start) && ParseLong16(hi) == Some(end) && ParseLong16(off) == Some(offset)
    requires start > 0 && end > 0 && offset >= 0
    requires |perms| >= 3
    ensures perms[2] == 'x' ==> ParseLine(line) == Add(BaseName(path), Module(BaseName(path), start, end - start, perms))
    ensures perms[2] != 'x' ==> ParseLine(line) == Skip
  {
    assert Range(line) == [lo, hi] by {
      assert hi != "" by { assert ParseLong16(hi).Some?; }
      RangeOfJoin(lo, hi);
    }
    ReadNumbersParsed(line);
    assert ReadNumbers(line) == Parsed(start, end, offset);
    ReadEntryOutcome(Fields(line), start, end);
  }

  /**
   * Any line laid out as the proc(5) manual page shows, whose start, end
   * and offset fields parse and pass the filters, and whose path is one
   * space-free field, is an executable module named after the path's last
   * component exactly when the third permission character is 'x', and is
   * skipped otherwise.
   */
  lemma {:induction false} LineOfFields(lo: string, hi: string, perms: string, off: string, dev: string,
                                        inode: string, gap: nat, path: string,
                                        start: int64, end: int64, offset: int64)
    requires ' ' !in lo && ' ' !in hi && ' ' !in perms && ' ' !in off
    requires ' ' !in dev && ' ' !in inode && ' ' !in path
    requires '-' !in lo && '-' !in hi
    requires ParseLong16(lo) == Some(start) && ParseLong16(hi) == Some(end) && ParseLong16(off) == Some(offset)
    requires start > 0 && end > 0 && offset >= 0
    requires |perms| >= 3 && !Blank(path)
    ensures perms[2] == 'x' ==>
      ParseLine(Join(MapsFields(lo, hi, perms, off, dev, inode, gap, path), ' '))
        == Add(BaseName(path), Module(BaseName(path), start, end - start, perms))
    ensures perms[2] != 'x' ==> ParseLine(Join(MapsFields(lo, hi, perms, off, dev, inode, gap, path), ' ')) == Skip
  {
    var f := MapsFields(lo, hi, perms, off, dev, inode, gap, path);
    forall i | 0 <= i < |f|
      ensures ' ' !in f[i]
    {
      if 5 <= i < |f| - 1 {
        assert f[i] == "";
      }
    }
    FieldsOfJoin(f);
    MapsFieldsLayout(lo, hi, perms, off, dev, inode, gap, path);
    ParseFields(Join(f, ' '), lo, hi, perms, off, path, start, end, offset);
  }

  /**
   * The kernel's own layout: start, end and offset as "%08lx". For the
   * line "7f0000000000-7f0000001000 r-xp 00000000 08:01 1234 /lib/libtest.so"
   * see TypicalLine.
   */
  lemma {:induction false} KernelLine(start: int64, end: int64, perms: string, offset: int64, dev: string,
                                      inode: string, gap: nat, path: string)
    requires start > 0 && end > 0 && offset >= 0
    requires ' ' !in perms && ' ' !in dev && ' ' !in inode && ' ' !in path
    requires |perms| >= 3 && !Blank(path)
    ensures perms[2] == 'x' ==>
      ParseLine(Join(MapsFields(PaddedHex(start, 8), PaddedHex(end, 8), perms, PaddedHex(offset, 8), dev, inode, gap, path), ' '))
        == Add(BaseName(path), Module(BaseName(path), start, end - start, perms))
    ensures perms[2] != 'x' ==>
      ParseLine(Join(MapsFields(PaddedHex(start, 8), PaddedHex(end, 8), perms, PaddedHex(offset, 8), dev, inode, gap, path), ' '))
        == Skip
  {
    PaddedHexDigits(start, 8);
    PaddedHexDigits(end, 8);
    PaddedHexDigits(offset, 8);
    PaddedHexParses(start, 8);
    PaddedHexParses(end, 8);
    PaddedHexParses(offset, 8);
    LineOfFields(PaddedHex(start, 8), PaddedHex(end, 8), perms, PaddedHex(offset, 8), dev, inode, gap, path,
                 start, end, offset);
  }

  /** The module the typical line adds is named "libtest.so". */
  lemma TypicalName()
    ensures BaseName("/lib/libtest.so") == "libtest.so"
  {
    var path := "/lib/libtest.so";
    assert path[4] == '/' && forall i | 5 <= i < |path| :: path[i] != '/';
    assert LastIndexOf(path, '/') == 4;
    assert path[5..] == "libtest.so";
  }

  /** A typical line: /lib/libtest.so mapped executable at 0x7f0000000000 for one page. */
  lemma TypicalLine()
    ensures ParseLine(Join(MapsFields(PaddedHex(0x7f0000000000, 8), PaddedHex(0x7f0000001000, 8), "r-xp",
                                      PaddedHex(0, 8), "08:01", "1234", 0, "/lib/libtest.so"), ' '))
         == Add("libtest.so", Module("libtest.so", 0x7f0000000000, 0x1000, "r-xp"))
  {
    var path := "/lib/libtest.so";
    var perms := "r-xp";
    var start: int64, end: int64, offset: int64 := 0x7f0000000000, 0x7f0000001000, 0;
    assert !Blank(path) by { assert path[0] == '/'; }
    assert ' ' !in path by { assert forall i | 0 <= i < |path| :: path[i] != ' '; }
    assert perms[2] == 'x';
    KernelLine(start, end, perms, offset, "08:01", "1234", 0, path);
    var line := Join(MapsFields(PaddedHex(start, 8), PaddedHex(end, 8), perms, PaddedHex(offset, 8), "08:01", "1234", 0, path), ' ');
    assert ParseLine(line) == Add(BaseName(path), Module(BaseName(path), start, end - start, perms));
    assert end - start == 0x1000;
    TypicalName();
  }

  /**
   * The line as proc(5) shows it, with an anonymous device and two spaces
   * before the path: one empty padding field.
   */
  lemma TypicalPaddedLine()
    ensures ParseLine(Join(MapsFields(PaddedHex(0x7f0000000000, 8), PaddedHex(0x7f0000001000, 8), "r-xp",
                                      PaddedHex(0, 8), "00:00", "0", 1, "/lib/libtest.so"), ' '))
         == Add("libtest.so", Module("libtest.so", 0x7f0000000000, 0x1000, "r-xp"))
  {
    var path := "/lib/libtest.so";
    var perms := "r-xp";
    var start: int64, end: int64, offset: int64 := 0x7f0000000000, 0x7f0000001000, 0;
    assert !Blank(path) by { assert path[0] == '/'; }
    assert ' ' !in path by { assert forall i | 0 <= i < |path| :: path[i] != ' '; }
    assert ' ' !in "00:00" && ' ' !in "0";
    assert perms[2] == 'x';
    KernelLine(start, end, perms, offset, "00:00", "0", 1, path);
    var line := Join(MapsFields(PaddedHex(start, 8), PaddedHex(end, 8), perms, PaddedHex(offset, 8), "00:00", "0", 1, path), ' ');
    assert ParseLine(line) == Add(BaseName(path), Module(BaseName(path), start, end - start, perms));
    assert end - start == 0x1000;
    TypicalName();
  }

  // ---------------------------------------------------------------------
  // All lines

  function Apply(modules: map<string, Module>, o: LineOutcome): (map<string, Module>, Outcome)
  {
    match o
    case Skip => (modules, Done)
    case Add(name, m) => (modules[name := m], Done)
    case Abort(e) => (modules, Failed(e))
  }

  /** The outcome of every line, in order. */
  function Outcomes(lines: seq<string>): (outs: seq<LineOutcome>)
    ensures |outs| == |lines|
  {
    seq(|lines|, i requires 0 <= i < |lines| => ParseLine(lines[i]))
  }

  /** The k-th line, scanned by ScanLine: its outcome in the sequence of all outcomes. */
  method ScanLineAt(lines: seq<string>, k: nat) returns (o: LineOutcome)
    requires k < |lines|
    ensures o == Outcomes(lines)[k]
  {
    o := ScanLine(lines[k]);
  }

  /**
   * The outcomes in order, each put into the map (a later entry replaces
   * an earlier one under the same name); the first abort ends the scan.
   */
  function Scan(modules: map<string, Module>, outs: seq<LineOutcome>): (r: (map<string, Module>, Outcome))
    ensures r.1 == Done <==> forall k | 0 <= k < |outs| :: !outs[k].Abort?
    ensures r.1.Failed? ==> Abort(r.1.error) in outs
    decreases |outs|
  {
    if outs == [] then (modules, Done)
    else
      var prev := Scan(modules, outs[..|outs| - 1]);
      if prev.1.Failed? then prev else Apply(prev.0, outs[|outs| - 1])
  }

  /** The names the outcomes add. */
  function AddedNames(outs: seq<LineOutcome>): set<string>
    decreases |outs|
  {
    if outs == [] then {}
    else
      var o := outs[|outs| - 1];
      AddedNames(outs[..|outs| - 1]) + (if o.Add? then {o.name} else {})
  }

  /** Scanning a + b is scanning a, then b from where a left off. */
  lemma {:induction false} ScanAppend(modules: map<string, Module>, a: seq<LineOutcome>, b: seq<LineOutcome>)
    ensures Scan(modules, a + b)
         == if Scan(modules, a).1.Failed? then Scan(modules, a) else Scan(Scan(modules, a).0, b)
    decreases |b|
  {
    if b == [] {
      assert a + b == a;
    } else {
      var b' := b[..|b| - 1];
      assert (a + b)[..|a + b| - 1] == a + b';
      ScanAppend(modules, a, b');
    }
  }

  /** A skipped line leaves no trace: the scan with it equals the scan without it. */
  lemma ScanSkip(modules: map<string, Module>, a: seq<LineOutcome>, b: seq<LineOutcome>)
    ensures Scan(modules, a + [Skip] + b) == Scan(modules, a + b)
  {
    ScanAppend(modules, a + [Skip], b);
    ScanAppend(modules, a, [Skip]);
    ScanAppend(modules, a, b);
    assert [Skip][..0] == [];
  }

  /** An aborting line ends the scan with its exception and the map as the earlier lines left it. */
  lemma ScanAbort(modules: map<string, Module>, a: seq<LineOutcome>, e: Exc, b: seq<LineOutcome>)
    requires Scan(modules, a).1 == Done
    ensures Scan(modules, a + [Abort(e)] + b) == (Scan(modules, a).0, Failed(e))
  {
    ScanAppend(modules, a + [Abort(e)], b);
    ScanAppend(modules, a, [Abort(e)]);
    assert [Abort(e)][..0] == [];
  }

  /** A completed scan holds the starting names plus the names the lines add. */
  lemma {:induction false} ScanKeys(modules: map<string, Module>, outs: seq<LineOutcome>)
    requires Scan(modules, outs).1 == Done
    ensures Scan(modules, outs).0.Keys == modules.Keys + AddedNames(outs)
    decreases |outs|
  {
    if outs != [] {
      ScanKeys(modules, outs[..|outs| - 1]);
    }
  }

  /** Last wins: a name keeps the entry of the last line that adds it. */
  lemma {:induction false} ScanLastWins(modules: map<string, Module>, outs: seq<LineOutcome>, j: nat)
    requires Scan(modules, outs).1 == Done
    requires j < |outs| && outs[j].Add?
    requires forall k | j < k < |outs| :: !(outs[k].Add? && outs[k].name == outs[j].name)
    ensures outs[j].name in Scan(modules, outs).0
    ensures Scan(modules, outs).0[outs[j].name] == outs[j].entry
    decreases |outs|
  {
    var init := outs[..|outs| - 1];
    var prev := Scan(modules, init);
    var last := outs[|outs| - 1];
    assert prev.1 == Done;
    assert Scan(modules, outs) == Apply(prev.0, last);
    if j < |outs| - 1 {
      assert init[j] == outs[j];
      assert forall k | j < k < |init| :: init[k] == outs[k];
      ScanLastWins(modules, init, j);
    }
  }
}
