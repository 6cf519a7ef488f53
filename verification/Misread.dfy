/** A message whose second chunk is scanned with a hash that is wrong throughout: the slot is carried over
    from the first chunk, while the window starts afresh (fingerprint.c:79, 106-110, 119). */
module Misread {
  import opened ByteStrings
  import opened Congruence
  import opened RollingHash
  import opened Chunker

  /** The first chunk ends one byte past the minimum, so the slot has moved on to 1; the second one's
      window is all zeros but for its last byte. */
  function Message(tail: Bytes): Bytes
  {
    Zeros(2045) + [167, 1, 0, 2] + Zeros(2046) + [1] + tail
  }

  lemma CongEqual(a: int, b: int, m: int)
    requires 0 <= a < m && 0 <= b < m && Cong(a, b, m)
    ensures a == b
  {
    var q := CongQuotient(a, b, m);
    assert q >= 1 ==> q * m >= m;
    assert q <= -1 ==> q * m <= 0 - m;
  }

  lemma Powers()
    ensures Pow2(13) == 8192 && Pow2(60) == 0x1000_0000_0000_0000
  {
    Pow2Of64();
    Pow2Split(60, 4);
    assert Pow2(4) == 16;
    Pow2Split(5, 8);
    assert Pow2(5) == 32;
    Pow2Split(4, 4);
  }

  // the hash of a ring that starts with zeros
  lemma {:induction false} ZeroFront(n: nat, s: Bytes)
    ensures Poly(SETTINGS.p, Zeros(n) + s) == Poly(SETTINGS.p, s)
    decreases |s|
  {
    if s == [] {
      PolyZeros(SETTINGS.p, n);
      assert Zeros(n) + s == seq(n, _ => 0);
    } else {
      var k := |s| - 1;
      ZeroFront(n, s[..k]);
      assert (Zeros(n) + s)[..n + k] == Zeros(n) + s[..k];
    }
  }

  lemma Ends()
    ensures Poly(SETTINGS.p, [167, 1]) == 175113362
    ensures Poly(SETTINGS.p, [167, 1, 2]) == 183620894466048
  {
    var p := SETTINGS.p;
    assert [167][..0] == [];
    PolyBack(p, [], 167);
    PolyBack(p, [167], 1);
    PolyBack(p, [167, 1], 2);
    assert [] + [167] == [167] && [167] + [1] == [167, 1] && [167, 1] + [2] == [167, 1, 2];
  }

  /** The first chunk: one byte past the minimum the hash is magic. */
  lemma FirstChunk(tail: Bytes)
    requires tail != []
    ensures var data := Message(tail); var st := First(SETTINGS, data); var next := Roll(SETTINGS, st, data[2048]);
            && !CutsAt(SETTINGS, st, |data|) && CutsAt(SETTINGS, next, |data|)
            && next.start == 0 && next.size == 2049 && next.slot == 1
  {
    var data := Message(tail);
    var st := First(SETTINGS, data);
    var next := Roll(SETTINGS, st, data[2048]);
    assert st.window == Zeros(62) + [167, 1];
    StartAgreement(SETTINGS, st);
    AgreementRolls(SETTINGS, st, 2);
    RingRolls(SETTINGS, st, 2);
    assert Ring(st) == st.window;
    assert Ring(next) == Zeros(61) + [167, 1, 2];
    ZeroFront(62, [167, 1]);
    ZeroFront(61, [167, 1, 2]);
    Ends();
    Powers();
    CongEqual(st.hash, 175113362, Pow2(60));
    CongEqual(next.hash, 183620894466048, Pow2(60));
  }

  /** So the chunker goes on from slot 1, and at every byte of the second chunk's scan the value disagrees
      with the window. */
  lemma SecondChunkMisread(tail: Bytes, bs: Bytes)
    requires tail != []
    ensures var data := Message(tail);
            && 2049 + SETTINGS.minChunk <= |data|
            && var second := Restart(SETTINGS, data, 2049, 1);
               && InChunk(SETTINGS, data, second)
               && ChunkSizes(SETTINGS, data) == [2049] + Cuts(SETTINGS, data, second)
               && !Agrees(SETTINGS, RollAll(SETTINGS, second, bs))
  {
    var data := Message(tail);
    var st := First(SETTINGS, data);
    var next := Roll(SETTINGS, st, data[2048]);
    FirstChunk(tail);
    RollStep(SETTINGS, data, st);
    CutStep(SETTINGS, data, next);
    assert StartWindow(SETTINGS, data, 2049) == seq(63, _ => 0) + [1];
    RollingWrong(2049, bs);
    hide Roll, Cuts;
  }
}
