/** What the cut loop means, without the loop: where a chunk ends, and on which bytes that depends
    (fingerprint.c:79-121). */
module CutRule {
  import opened ByteStrings
  import opened Congruence
  import opened RollingHash
  import opened Chunker

  /** The scan once the chunk has `s` bytes. */
  function ScanAt(P: Params, data: Bytes, st: Scan, s: nat): (r: Scan)
    requires InChunk(P, data, st) && st.size <= s && st.start + s <= |data|
    ensures ScanOK(P, r)
  {
    RollAll(P, st, data[st.start + st.size..st.start + s])
  }

  /** At `s` bytes the hash is magic, or the chunk is as long as it may be, or the message ends. */
  predicate MayEnd(P: Params, data: Bytes, st: Scan, s: nat)
    requires InChunk(P, data, st) && st.size <= s && st.start + s <= |data|
  {
    Magic(P, ScanAt(P, data, st, s).hash) || s >= P.maxChunk || st.start + s == |data|
  }

  lemma ScanLater(P: Params, data: Bytes, st: Scan, s: nat)
    requires InChunk(P, data, st) && st.size < s && st.start + s <= |data|
    requires InChunk(P, data, Roll(P, st, data[st.start + st.size]))
    ensures ScanAt(P, data, st, s) == ScanAt(P, data, Roll(P, st, data[st.start + st.size]), s)
  {
    var bs := data[st.start + st.size..st.start + s];
    assert bs[0] == data[st.start + st.size] && bs[1..] == data[st.start + st.size + 1..st.start + s];
    hide Roll, Legal;
    assert Roll(P, st, bs[0]).size == st.size + 1 && Roll(P, st, bs[0]).start == st.start by { RollMoves(P, st, bs[0]); }
  }

  lemma RollMoves(P: Params, st: Scan, b: Byte)
    requires ScanOK(P, st)
    ensures Roll(P, st, b).size == st.size + 1 && Roll(P, st, b).start == st.start
  {
  }

  /** A chunk ends at the first length, from the minimum on, at which it may; but a rest shorter than the
      minimum is absorbed.  The next chunk starts right behind it, with the slot as the scan left it. */
  lemma {:induction false} EndsAtFirst(P: Params, data: Bytes, st: Scan) returns (n: nat)
    requires InChunk(P, data, st)
    ensures st.size <= n && st.start + n <= |data| && MayEnd(P, data, st, n)
    ensures forall s :: st.size <= s < n ==> !MayEnd(P, data, st, s)
    ensures var remain := |data| - st.start;
            if remain - n < P.minChunk then Cuts(P, data, st) == [remain]
            else
              && ScanAt(P, data, st, n).slot < P.windowBytes
              && InChunk(P, data, Restart(P, data, st.start + n, ScanAt(P, data, st, n).slot))
              && Cuts(P, data, st) == [n] + Cuts(P, data, Restart(P, data, st.start + n, ScanAt(P, data, st, n).slot))
    decreases |data| - st.start, |data| - st.size
  {
    hide Roll, Cuts, Magic;
    assert ScanAt(P, data, st, st.size) == st;
    if CutsAt(P, st, |data| - st.start) {
      CutStep(P, data, st);
      n := st.size;
    } else {
      RollStep(P, data, st);
      var next := Roll(P, st, data[st.start + st.size]);
      n := EndsAtFirst(P, data, next);
      forall s | st.size <= s < n ensures !MayEnd(P, data, st, s) {
        if s > st.size {
          ScanLater(P, data, st, s);
          assert !MayEnd(P, data, next, s);
        }
      }
      ScanLater(P, data, st, n);
    }
  }

  /** The last bytes read of a first chunk of `s` bytes; the one before the minimum is passed over. */
  function LastRead(P: Params, data: Bytes, s: nat): (w: Bytes)
    requires Legal(P) && P.minChunk <= s <= |data|
    ensures |w| == P.windowBytes
  {
    (data[..P.minChunk - 1] + data[P.minChunk..s])[s - 1 - P.windowBytes..]
  }

  lemma {:induction false} Masked(P: Params, st: Scan, bs: Bytes)
    requires ScanOK(P, st) && st.hash < Pow2(P.mBits)
    ensures RollAll(P, st, bs).hash < Pow2(P.mBits)
    decreases |bs|
  {
    if bs != [] {
      Masked(P, Roll(P, st, bs[0]), bs[1..]);
    }
  }

  /** In the first chunk, the value looked at is the polynomial of the last bytes read, modulo 2^mBits: where it
      ends depends on nothing else. */
  lemma FirstChunkHash(P: Params, data: Bytes, s: nat)
    requires Legal(P) && P.p % 2 == 1 && P.minChunk <= s <= |data|
    ensures ScanAt(P, data, First(P, data), s).hash == Poly(P.p, LastRead(P, data, s)) % Pow2(P.mBits)
  {
    var st, bs := First(P, data), data[P.minChunk..s];
    FirstFacts(P, data);
    hide First, StartWindow, InitSum, Poly, Pow2, RollAll, Legal, Cong, LastRead;
    RollingExact(P, st, bs);
    ScanAgreement(P, st, bs);
    Masked(P, st, bs);
    LastReadIs(P, data, s);
    var last := RollAll(P, st, bs);
    assert st.window[0..] + st.window[..0] == st.window;
    var poly := Poly(P.p, LastRead(P, data, s));
    SameRemainder(last.hash, poly, Pow2(P.mBits));
    SmallRemainder(last.hash, Pow2(P.mBits));
  }

  lemma FirstFacts(P: Params, data: Bytes)
    requires Legal(P) && P.minChunk <= |data|
    ensures var st := First(P, data);
            && st.slot == 0 && st.start == 0 && st.size == P.minChunk && st.hash < Pow2(P.mBits)
            && st.window == StartWindow(P, data, 0) && st.hash == InitSum(P, st.window, 1) % Pow2(P.mBits)
            && P.mBits < 64 && InChunk(P, data, st)
  {
    hide StartWindow, InitSum;
  }

  lemma LastReadIs(P: Params, data: Bytes, s: nat)
    requires Legal(P) && P.minChunk <= s <= |data|
    ensures LastRead(P, data, s) == (StartWindow(P, data, 0) + data[P.minChunk..s])[s - P.minChunk..]
  {
    var head, w, rest := data[..P.minChunk - 1], StartWindow(P, data, 0), data[P.minChunk..s];
    var k := P.minChunk - 1 - P.windowBytes;
    assert head == head[..k] + w;
    assert head + rest == head[..k] + (w + rest);
    DropBoth(head[..k], w + rest, s - P.minChunk);
  }

  lemma DropBoth(x: Bytes, y: Bytes, n: nat)
    requires n <= |y|
    ensures (x + y)[|x| + n..] == y[n..]
  {
  }
}
