/**
 * The parts of the Java platform the core relies on: fixed-width integer
 * ranges, Long.parseLong(s, 16), Long.toHexString, String.split on a
 * single-character separator, trim().isEmpty() and lastIndexOf.
 */
module JavaLang {
  import opened Wrappers

  const TWO_32: int := 0x1_0000_0000
  const TWO_63: int := 0x8000_0000_0000_0000
  const TWO_64: int := 0x1_0000_0000_0000_0000

  type int8 = x: int | -0x80 <= x < 0x80
  type int16 = x: int | -0x8000 <= x < 0x8000
  type int32 = x: int | -0x8000_0000 <= x < 0x8000_0000
  type int64 = x: int | -0x8000_0000_0000_0000 <= x < 0x8000_0000_0000_0000

  const INT_MAX: int := 0x7fff_ffff

  /** The number of iterations of `for (int i = 0; i < length; ++i)`. */
  function Count(length: int): nat
  {
    if length < 0 then 0 else length
  }

  /** Java `long` addition, which wraps around on overflow. */
  function AddLong(a: int64, b: int64): (r: int64)
    ensures -TWO_63 <= a + b < TWO_63 ==> r == a + b
  {
    (a + b + TWO_63) % TWO_64 - TWO_63
  }

  /** A Java `long` seen as a 64-bit unsigned pointer value (what JNA hands the OS). */
  function Unsigned64(n: int64): (u: nat)
    ensures u < TWO_64
    ensures n >= 0 ==> u == n
    ensures n < 0 ==> u == n + TWO_64
  {
    n % TWO_64
  }

  /** Integer.toUnsignedLong. */
  function ToUnsignedLong(n: int32): (u: int64)
    ensures 0 <= u < TWO_32
    ensures n >= 0 ==> u == n
    ensures n < 0 ==> u == n + TWO_32
  {
    n % TWO_32
  }

  // ---------------------------------------------------------------------
  // Hexadecimal text

  /** Character.forDigit(d, 16): lower-case digits. */
  function HexChar(d: nat): char
    requires d < 16
  {
    if d < 10 then ('0' as int + d) as char else ('a' as int + d - 10) as char
  }

  /** Character.digit(c, 16), restricted to ASCII digits and letters. */
  function DigitValue(c: char): (r: Option<nat>)
    ensures r.Some? ==> r.value < 16
  {
    if '0' <= c <= '9' then Some(c as int - '0' as int)
    else if 'a' <= c <= 'f' then Some(c as int - 'a' as int + 10)
    else if 'A' <= c <= 'F' then Some(c as int - 'A' as int + 10)
    else None
  }

  /** Digits of `u` in base 16 without leading zeros ("0" for zero). */
  function HexDigits(u: nat): (s: string)
    ensures |s| >= 1
    decreases u
  {
    if u < 16 then [HexChar(u)] else HexDigits(u / 16) + [HexChar(u % 16)]
  }

  /** Long.toHexString: the unsigned two's-complement value in lower-case hex. */
  function ToHexString(n: int64): string
  {
    HexDigits(Unsigned64(n))
  }

  /** Every character is a hexadecimal digit. */
  predicate AllHex(ds: string)
  {
    forall i | 0 <= i < |ds| :: DigitValue(ds[i]).Some?
  }

  /**
   * Value of a string of hexadecimal digits, read most significant first;
   * defined exactly when every character is a digit.
   */
  function HexValue(ds: string): (r: Option<nat>)
    ensures r.Some? <==> AllHex(ds)
    decreases |ds|
  {
    if ds == [] then Some(0)
    else
      match HexValue(ds[..|ds| - 1])
      case None => None
      case Some(v) =>
        match DigitValue(ds[|ds| - 1])
        case None => None
        case Some(d) => Some(16 * v + d)
  }

  /** The digits of a parseLong argument: the text after an optional leading sign. */
  function Magnitude(s: string): (ds: string)
    ensures |ds| <= |s| && ds == s[|s| - |ds|..]
  {
    if |s| > 0 && (s[0] == '-' || s[0] == '+') then s[1..] else s
  }

  /**
   * Long.parseLong(s, 16): an optional sign, then at least one hex digit,
   * and the signed value must fit a `long`; None stands for NumberFormatException.
   */
  function ParseLong16(s: string): (r: Option<int64>)
    ensures r.Some? ==> |Magnitude(s)| > 0 && AllHex(Magnitude(s))
    ensures r.Some? ==> HexValue(Magnitude(s)).Some? &&
                        HexValue(Magnitude(s)).value == (if s[0] == '-' then -(r.value as int) else r.value as int)
    ensures |Magnitude(s)| > 0 && AllHex(Magnitude(s)) &&
            (if s[0] == '-' then HexValue(Magnitude(s)).value <= TWO_63 else HexValue(Magnitude(s)).value < TWO_63)
            ==> r.Some?
  {
    if |s| == 0 then None
    else
      var neg := s[0] == '-';
      var digits := Magnitude(s);
      if |digits| == 0 then None
      else
        match HexValue(digits)
        case None => None
        case Some(v) =>
          var x: int := if neg then -(v as int) else v;
          if -TWO_63 <= x < TWO_63 then Some(x) else None
  }

  lemma {:induction false} HexDigitsAreHex(u: nat)
    ensures forall i | 0 <= i < |HexDigits(u)| :: DigitValue(HexDigits(u)[i]).Some?
    ensures forall i | 0 <= i < |HexDigits(u)| :: HexDigits(u)[i] in "0123456789abcdef"
    decreases u
  {
    if u >= 16 {
      HexDigitsAreHex(u / 16);
    }
  }

  /** Reading back the digits of Long.toHexString gives the unsigned value. */
  lemma {:induction false} HexValueOfHexDigits(u: nat)
    ensures HexValue(HexDigits(u)) == Some(u)
    decreases u
  {
    if u >= 16 {
      HexValueOfHexDigits(u / 16);
      var s := HexDigits(u);
      assert s[..|s| - 1] == HexDigits(u / 16);
    }
  }

  /**
   * Long.parseLong(Long.toHexString(n), 16) gives back n for every
   * non-negative n and fails for every negative one, whose unsigned
   * digits exceed 0x7fffffffffffffff.
   */
  lemma ParseLong16OfToHexString(n: int64)
    ensures n >= 0 ==> ParseLong16(ToHexString(n)) == Some(n)
    ensures n < 0 ==> ParseLong16(ToHexString(n)) == None
  {
    var s := ToHexString(n);
    HexValueOfHexDigits(Unsigned64(n));
    HexDigitsAreHex(Unsigned64(n));
    assert s[0] in "0123456789abcdef";
  }

  function Zeros(n: nat): (s: string)
    ensures |s| == n && forall i | 0 <= i < n :: s[i] == '0'
  {
    seq(n, _ => '0')
  }

  /** Leading zeros do not change the value of a digit string. */
  lemma {:induction false} HexValueLeadingZeros(z: nat, ds: string)
    ensures HexValue(Zeros(z) + ds) == HexValue(ds)
    decreases |ds|, z
  {
    if ds == [] {
      assert Zeros(z) + ds == Zeros(z);
      if z > 0 {
        assert Zeros(z)[..z - 1] == Zeros(z - 1);
        HexValueLeadingZeros(z - 1, []);
        assert Zeros(z - 1) + [] == Zeros(z - 1);
      }
    } else {
      var s := Zeros(z) + ds;
      assert s[..|s| - 1] == Zeros(z) + ds[..|ds| - 1];
      assert s[|s| - 1] == ds[|ds| - 1];
      HexValueLeadingZeros(z, ds[..|ds| - 1]);
    }
  }

  /** printf's "%0*lx": the unsigned hex digits of n, left-padded with '0' to at least `width`. */
  function PaddedHex(n: int64, width: nat): (s: string)
    ensures |s| >= width && |s| >= 1
  {
    var d := ToHexString(n);
    Zeros(if |d| >= width then 0 else width - |d|) + d
  }

  /** Padded hex text is all digits, so it holds no sign and no space. */
  lemma PaddedHexDigits(n: int64, width: nat)
    ensures AllHex(PaddedHex(n, width))
    ensures '-' !in PaddedHex(n, width) && ' ' !in PaddedHex(n, width)
  {
    var d := ToHexString(n);
    var z := if |d| >= width then 0 else width - |d|;
    var s := PaddedHex(n, width);
    assert s == Zeros(z) + d;
    HexDigitsAreHex(Unsigned64(n));
    forall i | 0 <= i < |s|
      ensures DigitValue(s[i]).Some?
    {
      if i >= z {
        assert s[i] == d[i - z];
      } else {
        assert s[i] == '0';
      }
    }
    assert DigitValue('-').None? && DigitValue(' ').None?;
  }

  /** Padded hex text parses back to n when n >= 0. */
  lemma PaddedHexParses(n: int64, width: nat)
    requires n >= 0
    ensures ParseLong16(PaddedHex(n, width)) == Some(n)
  {
    var d := ToHexString(n);
    var z := if |d| >= width then 0 else width - |d|;
    var s := PaddedHex(n, width);
    assert s == Zeros(z) + d;
    PaddedHexDigits(n, width);
    assert DigitValue(s[0]).Some?;
    assert Magnitude(s) == s;
    HexValueLeadingZeros(z, d);
    HexValueOfHexDigits(Unsigned64(n));
    assert HexValue(s) == Some(n);
  }

  // ---------------------------------------------------------------------
  // Strings

  /** Every piece between separators `c`, empty ones included. */
  function SplitAll(s: string, c: char): (parts: seq<string>)
    ensures |parts| >= 1
    decreases |s|
  {
    if |s| == 0 then [""]
    else
      var rest := SplitAll(s[1..], c);
      if s[0] == c then [""] + rest
      else [[s[0]] + rest[0]] + rest[1..]
  }

  /** The pieces joined back with the separator between them. */
  function Join(parts: seq<string>, c: char): string
    decreases |parts|
  {
    if |parts| == 0 then ""
    else if |parts| == 1 then parts[0]
    else parts[0] + [c] + Join(parts[1..], c)
  }

  /** Splitting loses nothing: the pieces joined with the separator are the input. */
  lemma {:induction false} JoinSplitAll(s: string, c: char)
    ensures Join(SplitAll(s, c), c) == s
    ensures forall i | 0 <= i < |SplitAll(s, c)| :: c !in SplitAll(s, c)[i]
    decreases |s|
  {
    if |s| > 0 {
      JoinSplitAll(s[1..], c);
      var rest := SplitAll(s[1..], c);
      if s[0] != c {
        if |rest| == 1 {
          assert s == [s[0]] + rest[0];
        } else {
          assert rest == [rest[0]] + rest[1..];
          assert Join(rest, c) == rest[0] + [c] + Join(rest[1..], c);
          assert s == [s[0]] + Join(rest, c);
        }
      } else {
        assert s == [c] + s[1..];
      }
    }
  }

  /** A piece free of the separator, then the separator, splits off as one part. */
  lemma {:induction false} SplitAllCons(a: string, c: char, b: string)
    requires c !in a
    ensures SplitAll(a + [c] + b, c) == [a] + SplitAll(b, c)
    decreases |a|
  {
    if a == [] {
      assert a + [c] + b == [c] + b;
      assert ([c] + b)[1..] == b;
    } else {
      SplitAllCons(a[1..], c, b);
      assert (a + [c] + b)[1..] == a[1..] + [c] + b;
      assert [a[0]] + a[1..] == a;
    }
  }

  /** A string free of the separator is one part. */
  lemma {:induction false} SplitAllNone(s: string, c: char)
    requires c !in s
    ensures SplitAll(s, c) == [s]
    decreases |s|
  {
    if s != [] {
      SplitAllNone(s[1..], c);
      assert [s[0]] + s[1..] == s;
    }
  }

  /** Splitting undoes joining parts that are free of the separator. */
  lemma {:induction false} SplitAllJoin(parts: seq<string>, c: char)
    requires |parts| >= 1
    requires forall i | 0 <= i < |parts| :: c !in parts[i]
    ensures SplitAll(Join(parts, c), c) == parts
    decreases |parts|
  {
    if |parts| == 1 {
      SplitAllNone(parts[0], c);
    } else {
      SplitAllJoin(parts[1..], c);
      SplitAllCons(parts[0], c, Join(parts[1..], c));
      assert parts == [parts[0]] + parts[1..];
    }
  }

  function DropTrailingEmpty(parts: seq<string>): (r: seq<string>)
    ensures |r| <= |parts| && r == parts[..|r|]
    ensures |r| > 0 ==> r[|r| - 1] != ""
    ensures forall i | |r| <= i < |parts| :: parts[i] == ""
    decreases |parts|
  {
    if |parts| == 0 then []
    else if parts[|parts| - 1] == "" then DropTrailingEmpty(parts[..|parts| - 1])
    else parts
  }

  /**
   * String.split with a one-character, non-metacharacter separator: the
   * input itself when the separator does not occur, and otherwise the
   * pieces with the trailing empty ones removed.
   */
  function Split(s: string, c: char): (parts: seq<string>)
  {
    if c !in s then [s] else DropTrailingEmpty(SplitAll(s, c))
  }

  /** `s.trim().isEmpty()`: trim strips every character up to U+0020. */
  predicate Blank(s: string)
  {
    forall i | 0 <= i < |s| :: s[i] <= ' '
  }

  /** String.lastIndexOf(c): the last position of `c`, or -1. */
  function LastIndexOf(s: string, c: char): (r: int)
    ensures -1 <= r < |s|
    ensures r >= 0 ==> s[r] == c
    ensures forall i | r < i < |s| :: s[i] != c
    decreases |s|
  {
    if |s| == 0 then -1
    else if s[|s| - 1] == c then |s| - 1
    else LastIndexOf(s[..|s| - 1], c)
  }
}
