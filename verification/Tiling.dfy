/** Consecutive chunks of a message, given by their lengths. */
module Tiling {
  import opened ByteStrings

  function Sum(s: seq<nat>): nat
  {
    if s == [] then 0 else Sum(s[..|s| - 1]) + s[|s| - 1]
  }

  /** Where chunk `i` begins: the prefix sum of the lengths before it. */
  function Offset(sizes: seq<nat>, i: nat): nat
    requires i <= |sizes|
  {
    Sum(sizes[..i])
  }

  /** Nonempty chunks that add up to `n` bytes. */
  predicate Tiles(sizes: seq<nat>, n: nat)
  {
    Sum(sizes) == n && forall i :: 0 <= i < |sizes| ==> sizes[i] > 0
  }

  /** The bytes of chunk `i`. */
  function Chunk(data: Bytes, sizes: seq<nat>, i: nat): Bytes
    requires i < |sizes|
  {
    var lo := Offset(sizes, i);
    if lo + sizes[i] <= |data| then data[lo..lo + sizes[i]] else []
  }

  lemma {:induction false} SumFront(x: nat, s: seq<nat>)
    ensures Sum([x] + s) == x + Sum(s)
  {
    if s != [] {
      SumFront(x, s[..|s| - 1]);
      assert ([x] + s)[..|s|] == [x] + s[..|s| - 1];
    } else {
      assert [x] + s == [x] && [x][..0] == [];
    }
  }

  lemma {:induction false} SumAtLeast(s: seq<nat>, m: nat)
    requires forall i :: 0 <= i < |s| ==> s[i] >= m
    ensures Sum(s) >= m * |s|
  {
    if s != [] {
      SumAtLeast(s[..|s| - 1], m);
      assert m * |s| == m * (|s| - 1) + m;
    }
  }

  lemma OffsetStep(sizes: seq<nat>, i: nat)
    requires i < |sizes|
    ensures Offset(sizes, i + 1) == Offset(sizes, i) + sizes[i]
  {
    assert sizes[..i + 1][..i] == sizes[..i];
  }

  /** Prefix sums grow. */
  lemma {:induction false} OffsetMono(sizes: seq<nat>, i: nat, j: nat)
    requires i <= j <= |sizes|
    ensures Offset(sizes, i) <= Offset(sizes, j)
    decreases j - i
  {
    if i < j {
      OffsetStep(sizes, j - 1);
      OffsetMono(sizes, i, j - 1);
    }
  }

  lemma OffsetBound(sizes: seq<nat>, i: nat)
    requires i <= |sizes|
    ensures Offset(sizes, i) <= Sum(sizes)
    ensures Offset(sizes, |sizes|) == Sum(sizes)
  {
    OffsetMono(sizes, i, |sizes|);
    assert sizes[..|sizes|] == sizes;
  }

  /** A chunk of a tiled message lies inside it, and two chunks do not overlap. */
  lemma ChunkInside(sizes: seq<nat>, n: nat, i: nat)
    requires Tiles(sizes, n) && i < |sizes|
    ensures Offset(sizes, i) + sizes[i] == Offset(sizes, i + 1) <= n
    ensures forall j :: i < j < |sizes| ==> Offset(sizes, i) + sizes[i] <= Offset(sizes, j)
    ensures forall j :: 0 <= j < i ==> Offset(sizes, j) + sizes[j] <= Offset(sizes, i)
  {
    OffsetStep(sizes, i);
    OffsetBound(sizes, i + 1);
    forall j | i < j < |sizes| ensures Offset(sizes, i) + sizes[i] <= Offset(sizes, j) {
      OffsetMono(sizes, i + 1, j);
    }
    forall j | 0 <= j < i ensures Offset(sizes, j) + sizes[j] <= Offset(sizes, i) {
      OffsetStep(sizes, j);
      OffsetMono(sizes, j + 1, i);
    }
  }
}
