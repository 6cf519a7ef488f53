/** How many chunks a message of a given length can have, and which lengths keep within the arrays of a
    request (fingerprint.c:65-121, net_dedup.h:102-137). */
module ChunkCounts {
  import opened ByteStrings
  import opened Settings
  import opened Congruence
  import opened RollingHash
  import opened Tiling
  import opened Chunker

  lemma {:induction false} InitSumZeros(P: Params, n: nat, pw: nat)
    ensures InitSum(P, Zeros(n), pw) == 0
    decreases n
  {
    hide Pow2;
    if n > 0 {
      assert Zeros(n)[..n - 1] == Zeros(n - 1);
      var rest := pw * P.p % WORD_LIMIT;
      InitSumZeros(P, n - 1, rest);
      ZeroTerm(pw, Pow2(P.mBits));
    }
  }

  lemma ZeroTerm(pw: nat, m: nat)
    requires m > 0
    ensures (0 * pw) % WORD_LIMIT % m == 0
  {
    assert 0 * pw == 0;
    SmallRemainder(0, m);
  }

  lemma ZeroWindow(P: Params, n: nat, start: nat)
    requires Legal(P) && start + P.minChunk <= n
    ensures InitSum(P, StartWindow(P, Zeros(n), start), 1) == 0
  {
    assert StartWindow(P, Zeros(n), start) == Zeros(P.windowBytes);
    InitSumZeros(P, P.windowBytes, 1);
  }

  /** A message of zeros is cut at every minimum, where 0 is the magic value: the hash is 0 throughout. */
  lemma {:induction false} ZeroCuts(P: Params, n: nat, st: Scan)
    requires InChunk(P, Zeros(n), st) && P.magic == 0 && st.hash == 0 && st.size == P.minChunk
    ensures var k := |Cuts(P, Zeros(n), st)|; P.minChunk * k <= n - st.start < P.minChunk * k + P.minChunk
    decreases n - st.start
  {
    hide Cuts, CutsAt, CutSize, Restart, StartWindow, InitSum, SizeOK;
    var data := Zeros(n);
    ZeroCutSize(P, n, st);
    CutStep(P, data, st);
    if CutSize(P, st, n - st.start) != n - st.start {
      var next := Restart(P, data, st.start + P.minChunk, st.slot);
      ZeroRestart(P, n, st.start + P.minChunk, st.slot);
      ZeroCuts(P, n, next);
      TimesMore(P.minChunk, |Cuts(P, data, next)|);
    } else {
      TimesMore(P.minChunk, 0);
    }
  }

  lemma TimesMore(m: nat, k: nat)
    ensures m * (k + 1) == m * k + m && m * 0 == 0
  {
  }

  lemma ZeroCutSize(P: Params, n: nat, st: Scan)
    requires InChunk(P, Zeros(n), st) && P.magic == 0 && st.hash == 0 && st.size == P.minChunk
    ensures CutsAt(P, st, n - st.start)
    ensures P.minChunk <= n - st.start
    ensures CutSize(P, st, n - st.start) == if n - st.start < 2 * P.minChunk then n - st.start else P.minChunk
  {
    ZeroIsMagic(P);
  }

  lemma ZeroIsMagic(P: Params)
    requires P.magic == 0
    ensures Magic(P, 0)
  {
    SmallRemainder(0, Pow2(P.lowerBits));
  }

  lemma ZeroRestart(P: Params, n: nat, start: nat, slot: nat)
    requires Legal(P) && start + P.minChunk <= n && slot < P.windowBytes
    ensures var st := Restart(P, Zeros(n), start, slot); st.hash == 0 && st.size == P.minChunk && st.start == start
  {
    ZeroWindow(P, n, start);
    hide StartWindow, InitSum;
  }

  lemma ZeroFirst(P: Params, n: nat)
    requires Legal(P) && P.minChunk <= n
    ensures var st := First(P, Zeros(n)); st.hash == 0 && st.size == P.minChunk && InChunk(P, Zeros(n), st)
  {
    ZeroWindow(P, n, 0);
    hide StartWindow, InitSum;
  }

  /** So it has as many chunks as a message of its length can have. */
  lemma ZeroCount(P: Params, n: nat)
    requires Legal(P) && P.magic == 0 && P.minChunk < n
    ensures var k := |ChunkSizes(P, Zeros(n))|; P.minChunk * k <= n < P.minChunk * k + P.minChunk
  {
    ZeroFirst(P, n);
    ZeroCuts(P, n, First(P, Zeros(n)));
  }

  lemma CountAtMost(P: Params, data: Bytes, k: nat)
    requires Legal(P) && |data| < P.minChunk * k + P.minChunk && 1 <= k
    ensures |ChunkSizes(P, data)| <= k
  {
    if |data| > P.minChunk {
      ChunksTile(P, data);
      var sizes := ChunkSizes(P, data);
      hide ChunkSizes;
      SumAtLeast(sizes, P.minChunk);
      TimesOrder(P.minChunk, |sizes|, k);
    }
  }

  lemma TimesOrder(m: nat, x: nat, k: nat)
    requires m > 0 && m * x < m * k + m
    ensures x <= k
  {
    assert x >= k + 1 ==> m * x >= m * (k + 1) == m * k + m;
  }

  /** All messages of `n` bytes have at most `k` chunks exactly if `n` is less than `k + 1` minimum chunks;
      the message of zeros shows it. */
  lemma CountExact(P: Params, n: nat, k: nat)
    requires Legal(P) && P.magic == 0 && 1 <= k
    ensures (forall data: Bytes :: |data| == n ==> |ChunkSizes(P, data)| <= k) <==> n < P.minChunk * k + P.minChunk
  {
    hide ChunkSizes;
    if n < P.minChunk * k + P.minChunk {
      forall data: Bytes | |data| == n ensures |ChunkSizes(P, data)| <= k {
        CountAtMost(P, data, k);
      }
    } else {
      assert P.minChunk * k >= P.minChunk by { assert P.minChunk * k == P.minChunk * (k - 1) + P.minChunk; }
      ZeroCount(P, n);
      if |ChunkSizes(P, Zeros(n))| <= k {
        TimesMono(P.minChunk, |ChunkSizes(P, Zeros(n))|, k);
      }
      assert |Zeros(n)| == n;
    }
  }

  lemma TimesMono(m: nat, x: nat, k: nat)
    requires x <= k
    ensures m * x <= m * k
  {
    assert m * k == m * x + m * (k - x);
  }

  /** With the settings of the source: the lengths at which every message keeps within the arrays of a
      request are those below 4097 minimum chunks. */
  lemma FitsRequest(n: nat)
    ensures (forall data: Bytes :: |data| == n ==> |ChunkSizes(SETTINGS, data)| <= MAX_FINGERPRINTS)
            <==> n < (MAX_FINGERPRINTS + 1) * MIN_CHUNK
  {
    hide ChunkSizes;
    CountExact(SETTINGS, n, MAX_FINGERPRINTS);
  }
}
