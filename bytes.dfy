/**
 * Little-endian encoding of Java integers in raw bytes, as JNA's
 * Pointer.setShort/setInt/setLong and getShort/getInt/getLong do on a
 * little-endian host, and the narrowing casts `(byte)` and `(short)`.
 */
module Bytes {

  /** One byte of raw memory, as an unsigned value. */
  type uint8 = b: int | 0 <= b < 256

  function Pow256(n: nat): (r: nat)
    ensures r >= 1
  {
    if n == 0 then 1 else 256 * Pow256(n - 1)
  }

  /** Half the range of an n-byte value: the first negative two's-complement code. */
  function Half(n: nat): (h: int)
    requires n >= 1
    ensures h >= 128
  {
    128 * Pow256(n - 1)
  }

  lemma Pow256Values()
    ensures Pow256(1) == 0x100 && Half(1) == 0x80
    ensures Pow256(2) == 0x1_0000 && Half(2) == 0x8000
    ensures Pow256(4) == 0x1_0000_0000 && Half(4) == 0x8000_0000
    ensures Pow256(8) == 0x1_0000_0000_0000_0000 && Half(8) == 0x8000_0000_0000_0000
  {
  }

  /** Unsigned value of little-endian bytes (first byte least significant). */
  function Unsigned(bs: seq<uint8>): (r: nat)
    ensures r < Pow256(|bs|)
    decreases |bs|
  {
    if bs == [] then 0 else bs[0] + 256 * Unsigned(bs[1..])
  }

  /** Two's-complement value of little-endian bytes: a sign-extending load. */
  function Signed(bs: seq<uint8>): (r: int)
    requires |bs| >= 1
    ensures -Half(|bs|) <= r < Half(|bs|)
  {
    var u := Unsigned(bs);
    if u >= Half(|bs|) then u - Pow256(|bs|) else u
  }

  /** The low n bytes of v, least significant first (two's complement for negative v). */
  function LowBytes(v: int, n: nat): (r: seq<uint8>)
    ensures |r| == n
    decreases n
  {
    if n == 0 then [] else [v % 256] + LowBytes(v / 256, n - 1)
  }

  /** The Java narrowing cast to an n-byte signed type: keep the low 8n bits, sign-extend. */
  function Wrap(v: int, n: nat): int
    requires n >= 1
  {
    var u := v % Pow256(n);
    if u >= Half(n) then u - Pow256(n) else u
  }

  /** Euclidean division is unique. */
  lemma DivModUnique(v: int, d: int, q: int, r: int)
    requires d > 0 && v == d * q + r && 0 <= r < d
    ensures v / d == q && v % d == r
  {
    var q0, r0 := v / d, v % d;
    assert v == d * q0 + r0;
    assert d * (q0 + 1) == d * q0 + d && d * (q + 1) == d * q + d;
    MulMono(d, q0 + 1, q);
    MulMono(d, q + 1, q0);
  }

  lemma MulMono(d: nat, a: int, b: int)
    ensures a <= b ==> d * a <= d * b
  {
    assert d * b - d * a == d * (b - a);
  }

  /** Taking v modulo 256p is taking its low byte, then the rest modulo p. */
  lemma ModSplit(v: int, p: int)
    requires p >= 1
    ensures v % (256 * p) == v % 256 + 256 * ((v / 256) % p)
  {
    var q, r := v / 256, v % 256;
    var k, m := q / p, q % p;
    assert v == 256 * q + r;
    assert q == p * k + m;
    assert v == (256 * p) * k + (256 * m + r) by {
      assert 256 * q == 256 * (p * k) + 256 * m;
      assert 256 * (p * k) == (256 * p) * k;
    }
    assert 256 * m + r < 256 * p by { MulMono(256, m, p - 1); }
    DivModUnique(v, 256 * p, k, 256 * m + r);
  }

  /** Decoding the low n bytes of v gives v modulo 256^n. */
  lemma {:induction false} UnsignedLowBytes(v: int, n: nat)
    ensures Unsigned(LowBytes(v, n)) == v % Pow256(n)
    decreases n
  {
    if n == 0 {
      assert v % 1 == 0;
    } else {
      var q, p := v / 256, Pow256(n - 1);
      UnsignedLowBytes(q, n - 1);
      var bs := LowBytes(v, n);
      var low := bs[0];
      var high := Unsigned(bs[1..]);
      assert low == v % 256;
      assert high == q % p by { assert bs[1..] == LowBytes(q, n - 1); }
      assert Unsigned(bs) == low + 256 * high;
      ModSplit(v, p);
      assert Pow256(n) == 256 * p;
    }
  }

  /** A sign-extending load of the bytes a narrowing store wrote is the narrowing cast. */
  lemma SignedLowBytes(v: int, n: nat)
    requires n >= 1
    ensures Signed(LowBytes(v, n)) == Wrap(v, n)
  {
    UnsignedLowBytes(v, n);
  }

  /** A value already in the n-byte range survives the narrowing cast unchanged. */
  lemma WrapInRange(v: int, n: nat)
    requires n >= 1 && -Half(n) <= v < Half(n)
    ensures Wrap(v, n) == v
  {
    var p := Pow256(n);
    assert p == 2 * Half(n);
    if v >= 0 {
      DivModUnique(v, p, 0, v);
    } else {
      DivModUnique(v, p, -1, v + p);
    }
  }

  /** Encoding the unsigned value of some bytes gives the same bytes back. */
  lemma {:induction false} LowBytesUnsigned(bs: seq<uint8>)
    ensures LowBytes(Unsigned(bs), |bs|) == bs
    decreases |bs|
  {
    if bs != [] {
      var u := Unsigned(bs);
      var rest := Unsigned(bs[1..]);
      DivModUnique(u, 256, rest, bs[0]);
      LowBytesUnsigned(bs[1..]);
    }
  }

  /** Adding 256^n does not change the low n bytes. */
  lemma {:induction false} LowBytesShift(v: int, n: nat)
    ensures LowBytes(v + Pow256(n), n) == LowBytes(v, n)
    decreases n
  {
    if n > 0 {
      var p := Pow256(n - 1);
      assert Pow256(n) == 256 * p;
      DivModUnique(v + 256 * p, 256, v / 256 + p, v % 256);
      LowBytesShift(v / 256, n - 1);
    }
  }

  /** Encoding the signed value of some bytes gives the same bytes back. */
  lemma {:induction false} LowBytesSigned(bs: seq<uint8>)
    requires |bs| >= 1
    ensures LowBytes(Signed(bs), |bs|) == bs
  {
    LowBytesUnsigned(bs);
    var n, u := |bs|, Unsigned(bs);
    if u >= Half(n) {
      var v := u - Pow256(n);
      assert Signed(bs) == v;
      LowBytesShift(v, n);
      assert v + Pow256(n) == u;
    } else {
      assert Signed(bs) == u;
    }
  }

  /** (byte) v */
  function ToByte(v: int): (r: int)
    ensures -0x80 <= r < 0x80
  {
    Pow256Values();
    Wrap(v, 1)
  }

  /** (short) v */
  function ToShort(v: int): (r: int)
    ensures -0x8000 <= r < 0x8000
  {
    Pow256Values();
    Wrap(v, 2)
  }
}
