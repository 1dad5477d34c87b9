/**
 * A target process's address space as seen through the kernel: a partial
 * map from 64-bit unsigned address to byte. An address outside the map is
 * unmapped; every mapped byte is readable and writable.
 */
module Memory {
  import opened JavaLang
  import opened Bytes

  type AddressSpace = map<int, uint8>

  /** A native pointer, by its address (Pointer.nativeValue). */
  datatype Pointer = Pointer(peer: int64)

  /** Every byte of [start, start + n) is mapped and inside the 64-bit space. */
  predicate Readable(m: AddressSpace, start: nat, n: nat)
  {
    start + n <= TWO_64 && forall a | start <= a < start + n :: a in m
  }

  /** The n bytes at start. */
  function Slice(m: AddressSpace, start: nat, n: nat): (s: seq<uint8>)
    requires Readable(m, start, n)
    ensures |s| == n
    ensures forall i | 0 <= i < n :: s[i] == m[start + i]
  {
    seq(n, i requires 0 <= i < n => m[start + i])
  }

  /** m with the bytes of w written at start. */
  function Store(m: AddressSpace, start: nat, w: seq<uint8>): (r: AddressSpace)
    requires Readable(m, start, |w|)
    ensures r.Keys == m.Keys
    ensures forall a | a in r :: r[a] == if start <= a < start + |w| then w[a - start] else m[a]
  {
    map a | a in m :: if start <= a < start + |w| then w[a - start] else m[a]
  }

  /** Reading back what was just stored gives the stored bytes. */
  lemma SliceOfStore(m: AddressSpace, start: nat, w: seq<uint8>)
    requires Readable(m, start, |w|)
    ensures Readable(Store(m, start, w), start, |w|)
    ensures Slice(Store(m, start, w), start, |w|) == w
  {
  }

  /** A store leaves every byte outside its range as it was. */
  lemma SliceOfStoreElsewhere(m: AddressSpace, start: nat, w: seq<uint8>, other: nat, n: nat)
    requires Readable(m, start, |w|) && Readable(m, other, n)
    requires other + n <= start || start + |w| <= other
    ensures Readable(Store(m, start, w), other, n)
    ensures Slice(Store(m, start, w), other, n) == Slice(m, other, n)
  {
  }
}
