/** Byte strings, and the native layout of the integers that cross the wire. */
module ByteStrings {

  type Byte = b: int | 0 <= b < 256
  type Bytes = seq<Byte>

  function Zeros(n: nat): (z: Bytes)
    ensures |z| == n && forall i :: 0 <= i < n ==> z[i] == 0
  {
    seq(n, _ => 0)
  }

  /** `memcpy(dst + at, src, |src|)` */
  function Splice(dst: Bytes, at: nat, src: Bytes): (r: Bytes)
    requires at + |src| <= |dst|
    ensures |r| == |dst|
  {
    dst[..at] + src + dst[at + |src|..]
  }

  lemma SpliceWrote(dst: Bytes, at: nat, src: Bytes)
    requires at + |src| <= |dst|
    ensures Splice(dst, at, src)[at..at + |src|] == src
  {
  }

  /** Bytes copied behind the first `at` ones continue them. */
  lemma SpliceExtends(dst: Bytes, at: nat, src: Bytes)
    requires at + |src| <= |dst|
    ensures Splice(dst, at, src)[..at + |src|] == dst[..at] + src
    ensures Splice(dst, at, src)[..at] == dst[..at]
  {
  }

  /** A range that the copy does not touch is as it was. */
  lemma SpliceFrame(dst: Bytes, at: nat, src: Bytes, lo: nat, hi: nat)
    requires at + |src| <= |dst| && lo <= hi <= |dst|
    requires hi <= at || at + |src| <= lo
    ensures Splice(dst, at, src)[lo..hi] == dst[lo..hi]
  {
  }

  /** Two adjacent copies are one. */
  lemma SpliceJoin(dst: Bytes, at: nat, a: Bytes, b: Bytes)
    requires at + |a| + |b| <= |dst|
    ensures Splice(Splice(dst, at, a), at + |a|, b) == Splice(dst, at, a + b)
  {
  }

  method Memcpy(dst: array<Byte>, at: nat, src: Bytes)
    requires at + |src| <= dst.Length
    modifies dst
    ensures dst[..] == Splice(old(dst[..]), at, src)
  {
    for i := 0 to |src|
      invariant forall p :: 0 <= p < dst.Length ==>
                  dst[p] == if at <= p < at + i then src[p - at] else old(dst[p])
    {
      dst[at + i] := src[i];
    }
  }

  // ---- little-endian integers ----

  function Pow256(n: nat): nat
  {
    if n == 0 then 1 else 256 * Pow256(n - 1)
  }

  function Encode(v: nat, n: nat): (s: Bytes)
    ensures |s| == n
  {
    if n == 0 then [] else [v % 256] + Encode(v / 256, n - 1)
  }

  function Decode(s: Bytes): nat
  {
    if s == [] then 0 else s[0] + 256 * Decode(s[1..])
  }

  lemma {:induction false} EncodeRoundTrip(v: nat, n: nat)
    requires v < Pow256(n)
    ensures Decode(Encode(v, n)) == v
  {
    if n > 0 {
      EncodeRoundTrip(v / 256, n - 1);
      assert Encode(v, n)[1..] == Encode(v / 256, n - 1);
    }
  }
}
