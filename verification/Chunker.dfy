/** Content-defined chunking (fingerprint.c:48-127). */
module Chunker {
  import opened ByteStrings
  import opened Congruence
  import opened RollingHash
  import opened Tiling
  import opened Probing

  /** The bytes that start a chunk's window: they end one byte short of the minimum length. */
  function StartWindow(P: Params, data: Bytes, start: nat): (w: Bytes)
    requires Legal(P) && start + P.minChunk <= |data|
    ensures |w| == P.windowBytes
  {
    data[start + P.minChunk - 1 - P.windowBytes..start + P.minChunk - 1]
  }

  /** The scan of the first chunk: its value is masked once more. */
  function First(P: Params, data: Bytes): (st: Scan)
    requires Legal(P) && P.minChunk <= |data|
    ensures ScanOK(P, st)
  {
    var w := StartWindow(P, data, 0);
    Scan(0, P.minChunk, InitSum(P, w, 1) % Pow2(P.mBits), 0, w)
  }

  /** The scan of a later chunk: the slot is whatever the previous scan left. */
  function Restart(P: Params, data: Bytes, start: nat, slot: nat): (st: Scan)
    requires Legal(P) && start + P.minChunk <= |data| && slot < P.windowBytes
    ensures ScanOK(P, st)
  {
    var w := StartWindow(P, data, start);
    Scan(start, P.minChunk, InitSum(P, w, 1), slot, w)
  }

  predicate Magic(P: Params, hash: nat)
  {
    hash % Pow2(P.lowerBits) == P.magic
  }

  /** A chunk ends here. */
  predicate CutsAt(P: Params, st: Scan, remain: nat)
  {
    Magic(P, st.hash) || st.size >= P.maxChunk || st.size >= remain
  }

  /** Its length: a tail shorter than the minimum is absorbed. */
  function CutSize(P: Params, st: Scan, remain: nat): nat
  {
    if st.size >= remain || remain - st.size < P.minChunk then remain else st.size
  }

  /** Within a chunk, the scan has read at least the minimum and not more than the maximum. */
  predicate InChunk(P: Params, data: Bytes, st: Scan)
  {
    && Legal(P) && ScanOK(P, st)
    && P.minChunk <= st.size <= P.maxChunk && st.start + st.size <= |data|
  }

  /** The lengths of the chunks from a scan position on. */
  function Cuts(P: Params, data: Bytes, st: Scan): seq<nat>
    requires InChunk(P, data, st)
    decreases |data| - st.start, |data| - st.size
  {
    var remain := |data| - st.start;
    if CutsAt(P, st, remain) then
      var n := CutSize(P, st, remain);
      if n == remain then [n]
      else [n] + Cuts(P, data, Restart(P, data, st.start + n, st.slot))
    else
      Cuts(P, data, Roll(P, st, data[st.start + st.size]))
  }

  /** The chunk lengths of a message. */
  function ChunkSizes(P: Params, data: Bytes): seq<nat>
    requires Legal(P)
  {
    if |data| <= P.minChunk then [|data|] else Cuts(P, data, First(P, data))
  }

  // ---- the chunks tile the message ----

  predicate SizeOK(P: Params, n: nat)
  {
    P.minChunk <= n <= P.maxChunk + P.minChunk - 1
  }

  // the two ways a scan goes on
  lemma CutStep(P: Params, data: Bytes, st: Scan)
    requires InChunk(P, data, st) && CutsAt(P, st, |data| - st.start)
    ensures var n := CutSize(P, st, |data| - st.start);
            && SizeOK(P, n) && n >= st.size && st.start + n <= |data|
            && (n == |data| - st.start ==> Cuts(P, data, st) == [n])
            && (n != |data| - st.start ==>
                  var next := Restart(P, data, st.start + n, st.slot);
                  && n == st.size && st.start + n + P.minChunk <= |data|
                  && InChunk(P, data, next) && next.start == st.start + n
                  && Cuts(P, data, st) == [n] + Cuts(P, data, next))
  {
  }

  lemma RollStep(P: Params, data: Bytes, st: Scan)
    requires InChunk(P, data, st) && !CutsAt(P, st, |data| - st.start)
    ensures st.start + st.size < |data|
    ensures var next := Roll(P, st, data[st.start + st.size]);
            && InChunk(P, data, next) && next.start == st.start && next.size == st.size + 1
            && Cuts(P, data, st) == Cuts(P, data, next)
  {
  }

  lemma {:induction false} CutsTile(P: Params, data: Bytes, st: Scan)
    requires InChunk(P, data, st)
    ensures Sum(Cuts(P, data, st)) == |data| - st.start
    ensures forall i :: 0 <= i < |Cuts(P, data, st)| ==> SizeOK(P, Cuts(P, data, st)[i])
    ensures |Cuts(P, data, st)| > 0
    decreases |data| - st.start, |data| - st.size
  {
    hide Restart, Roll, CutsAt, Cuts, SizeOK, CutSize;
    if CutsAt(P, st, |data| - st.start) {
      CutStep(P, data, st);
      var n := CutSize(P, st, |data| - st.start);
      if n == |data| - st.start {
        SumFront(n, []);
        assert [n] + [] == [n];
      } else {
        var next := Restart(P, data, st.start + n, st.slot);
        CutsTile(P, data, next);
        SumFront(n, Cuts(P, data, next));
      }
    } else {
      RollStep(P, data, st);
      CutsTile(P, data, Roll(P, st, data[st.start + st.size]));
    }
  }

  /** The chunks of a message longer than the minimum add up to it, each has an admissible length, and
      there are at most `n / min` of them. */
  lemma ChunksTile(P: Params, data: Bytes)
    requires Legal(P) && |data| > P.minChunk
    ensures var sizes := ChunkSizes(P, data);
            && Tiles(sizes, |data|)
            && (forall i :: 0 <= i < |sizes| ==> SizeOK(P, sizes[i]))
            && 0 < |sizes| <= |data| / P.minChunk
  {
    CutsTile(P, data, First(P, data));
    SumAtLeast(ChunkSizes(P, data), P.minChunk);
    CountBound(|ChunkSizes(P, data)|, |data|, P.minChunk);
  }

  lemma CountBound(k: nat, n: nat, m: nat)
    requires m > 0 && m * k <= n
    ensures k <= n / m
  {
    var q := n / m;
    assert n == m * q + n % m;
    assert k >= q + 1 ==> m * k >= m * (q + 1) == m * q + m;
  }

  // ---- a chunk depends only on what comes before its end ----

  /** The two messages have the same first `l` bytes. */
  predicate SamePrefix(a: Bytes, b: Bytes, l: nat)
  {
    l <= |a| && l <= |b| && a[..l] == b[..l]
  }

  /** The first `j` chunks from the scan position end where both messages still agree and have at least
      a minimum chunk to go. */
  predicate WellInside(P: Params, a: Bytes, b: Bytes, st: Scan, j: nat, l: nat)
    requires InChunk(P, a, st)
  {
    && 0 < j <= |Cuts(P, a, st)|
    && var e := st.start + Sum(Cuts(P, a, st)[..j]);
       e <= l && e + P.minChunk <= |a| && e + P.minChunk <= |b|
  }

  lemma SameDecision(P: Params, a: Bytes, b: Bytes, st: Scan, j: nat, l: nat)
    requires InChunk(P, a, st) && SamePrefix(a, b, l) && WellInside(P, a, b, st, j, l)
    ensures InChunk(P, b, st)
    ensures CutsAt(P, st, |b| - st.start) == CutsAt(P, st, |a| - st.start)
    ensures CutsAt(P, st, |a| - st.start) ==>
              CutSize(P, st, |b| - st.start) == CutSize(P, st, |a| - st.start) == st.size < |a| - st.start
    ensures CutsAt(P, st, |a| - st.start) ==> st.size < |b| - st.start
    ensures !CutsAt(P, st, |a| - st.start) ==> st.start + st.size < l
  {
    FirstCutBound(P, a, st, j);
    if CutsAt(P, st, |a| - st.start) { CutStep(P, a, st); }
    hide Cuts, Magic;
  }

  lemma AfterCut(P: Params, a: Bytes, b: Bytes, st: Scan, j: nat, l: nat)
    requires InChunk(P, a, st) && SamePrefix(a, b, l) && WellInside(P, a, b, st, j, l) && j > 1
    requires CutsAt(P, st, |a| - st.start)
    ensures st.start + st.size + P.minChunk <= |a|
    ensures var next := Restart(P, a, st.start + st.size, st.slot);
            && InChunk(P, a, next) && WellInside(P, a, b, next, j - 1, l)
            && next.start + next.size <= l && next.size == P.minChunk
  {
    hide Restart, CutsAt, Cuts, CutSize, SizeOK, Magic, SamePrefix, Sum;
    SameDecision(P, a, b, st, j, l);
    CutStep(P, a, st);
    var next := Restart(P, a, st.start + st.size, st.slot);
    RestartSize(P, a, st.start + st.size, st.slot);
    var rest := Cuts(P, a, next);
    TakeCons(st.size, rest, j);
    SumFront(st.size, rest[..j - 1]);
    FirstCutBound(P, a, next, j - 1);
  }

  lemma RestartSize(P: Params, a: Bytes, start: nat, slot: nat)
    requires Legal(P) && start + P.minChunk <= |a| && slot < P.windowBytes
    ensures Restart(P, a, start, slot).size == P.minChunk
    ensures Restart(P, a, start, slot).start == start
  {
  }

  lemma AfterRoll(P: Params, a: Bytes, b: Bytes, st: Scan, j: nat, l: nat)
    requires InChunk(P, a, st) && SamePrefix(a, b, l) && WellInside(P, a, b, st, j, l)
    requires !CutsAt(P, st, |a| - st.start)
    ensures st.start + st.size < |a| && st.start + st.size < |b|
    ensures a[st.start + st.size] == b[st.start + st.size]
    ensures var next := Roll(P, st, a[st.start + st.size]);
            InChunk(P, a, next) && WellInside(P, a, b, next, j, l)
  {
    SameDecision(P, a, b, st, j, l);
    RollStep(P, a, st);
    hide Roll, InChunk, CutsAt, Cuts, Magic, Sum;
    assert a[st.start + st.size] == a[..l][st.start + st.size] == b[..l][st.start + st.size];
  }

  lemma TakeCons(x: nat, s: seq<nat>, j: nat)
    requires 0 < j <= |s| + 1
    ensures ([x] + s)[..j] == [x] + s[..j - 1]
  {
  }

  lemma {:induction false} CutsPrefix(P: Params, a: Bytes, b: Bytes, st: Scan, j: nat, l: nat)
    requires InChunk(P, a, st) && SamePrefix(a, b, l) && WellInside(P, a, b, st, j, l)
    ensures InChunk(P, b, st)
    ensures |Cuts(P, b, st)| >= j && Cuts(P, b, st)[..j] == Cuts(P, a, st)[..j]
    decreases |a| - st.start, |a| - st.size
  {
    hide Cuts, CutsAt, CutSize, Roll, Restart, Magic, Sum, SizeOK, SamePrefix;
    SameDecision(P, a, b, st, j, l);
    if CutsAt(P, st, |a| - st.start) {
      CutStep(P, a, st);
      CutStep(P, b, st);
      var next := Restart(P, a, st.start + st.size, st.slot);
      TakeCons(st.size, Cuts(P, a, next), j);
      if j > 1 {
        AfterCut(P, a, b, st, j, l);
        RestartSize(P, a, st.start + st.size, st.slot);
        RestartSame(P, a, b, l, st.start + st.size, st.slot);
        CutsPrefix(P, a, b, next, j - 1, l);
        TakeCons(st.size, Cuts(P, b, next), j);
      } else {
        TakeCons(st.size, Cuts(P, b, Restart(P, b, st.start + st.size, st.slot)), j);
      }
    } else {
      AfterRoll(P, a, b, st, j, l);
      RollStep(P, a, st);
      RollStep(P, b, st);
      CutsPrefix(P, a, b, Roll(P, st, a[st.start + st.size]), j, l);
    }
  }

  lemma RestartSame(P: Params, a: Bytes, b: Bytes, l: nat, start: nat, slot: nat)
    requires Legal(P) && SamePrefix(a, b, l) && start + P.minChunk <= l && slot < P.windowBytes
    ensures Restart(P, a, start, slot) == Restart(P, b, start, slot)
  {
    SameWindow(P, a, b, l, start);
  }

  // the first cut lies at or after the scan position, and is the whole rest only for the last chunk
  lemma {:induction false} FirstCutBound(P: Params, a: Bytes, st: Scan, j: nat)
    requires InChunk(P, a, st) && 0 < j <= |Cuts(P, a, st)|
    ensures Cuts(P, a, st)[0] >= st.size
    ensures Sum(Cuts(P, a, st)[..j]) >= Cuts(P, a, st)[0]
    ensures !CutsAt(P, st, |a| - st.start) ==> Cuts(P, a, st)[0] > st.size
    decreases |a| - st.start, |a| - st.size
  {
    var cuts := Cuts(P, a, st);
    if CutsAt(P, st, |a| - st.start) {
      CutStep(P, a, st);
    } else {
      RollStep(P, a, st);
      FirstCutBound(P, a, Roll(P, st, a[st.start + st.size]), j);
    }
    hide Cuts;
    assert cuts[..j] == [cuts[0]] + cuts[1..j];
    SumFront(cuts[0], cuts[1..j]);
  }

  lemma SameWindow(P: Params, a: Bytes, b: Bytes, l: nat, start: nat)
    requires Legal(P) && SamePrefix(a, b, l) && start + P.minChunk <= l
    ensures StartWindow(P, a, start) == StartWindow(P, b, start)
  {
    assert StartWindow(P, a, start) == a[..l][start + P.minChunk - 1 - P.windowBytes..start + P.minChunk - 1];
    assert StartWindow(P, b, start) == b[..l][start + P.minChunk - 1 - P.windowBytes..start + P.minChunk - 1];
  }

  /** If two messages share a prefix that reaches the end of the first one's `j`-th chunk, and both go on
      for at least a minimum chunk after it, then their first `j` chunks are the same. */
  lemma ChunksPrefix(P: Params, a: Bytes, b: Bytes, j: nat, l: nat)
    requires Legal(P) && SamePrefix(a, b, l)
    requires j <= |ChunkSizes(P, a)|
    requires var e := Sum(ChunkSizes(P, a)[..j]);
             e <= l && e + P.minChunk <= |a| && e + P.minChunk <= |b|
    ensures j <= |ChunkSizes(P, b)| && ChunkSizes(P, b)[..j] == ChunkSizes(P, a)[..j]
  {
    if j > 0 {
      FirstCutBound(P, a, First(P, a), j);
      SameWindow(P, a, b, l, 0);
      CutsPrefix(P, a, b, First(P, a), j, l);
    }
  }

  // ---- the loop of the source ----

  /** The fingerprint of each chunk. */
  function Keys(fp: Bytes -> Key, data: Bytes, sizes: seq<nat>): (ks: seq<Key>)
    ensures |ks| == |sizes|
  {
    seq<Key>(|sizes|, i requires 0 <= i < |sizes| => fp(Chunk(data, sizes, i)))
  }

  /** Room for the chunks of a message: `(n / min) + 1`. */
  function MaxChunks(P: Params, data: Bytes): (n: nat)
    requires Legal(P)
    ensures n >= 1
  {
    |data| / P.minChunk + 1
  }

  /** The first `num` chunks are recorded, and the scan `st` goes on with the rest, if there is one. */
  ghost predicate Recorded(P: Params, data: Bytes, fp: Bytes -> Key, keys: seq<Key>, sizes: seq<nat>,
                           num: nat, start: nat, st: Scan)
    requires Legal(P)
  {
    var all := ChunkSizes(P, data);
    && Tiles(all, |data|) && num <= |all| < MaxChunks(P, data)
    && |keys| == |sizes| == MaxChunks(P, data)
    && sizes[..num] == all[..num] && keys[..num] == Keys(fp, data, all[..num])
    && start == Offset(all, num)
    && if start < |data| then InChunk(P, data, st) && st.start == start && all[num..] == Cuts(P, data, st)
       else num == |all|
  }

  lemma RecordedFirst(P: Params, data: Bytes, fp: Bytes -> Key, keys: seq<Key>, sizes: seq<nat>)
    requires Legal(P) && |data| > P.minChunk && |keys| == |sizes| == MaxChunks(P, data)
    ensures Recorded(P, data, fp, keys, sizes, 0, 0, First(P, data))
  {
    ChunksTile(P, data);
    assert ChunkSizes(P, data)[0..] == ChunkSizes(P, data);
  }

  lemma RecordedRoll(P: Params, data: Bytes, fp: Bytes -> Key, keys: seq<Key>, sizes: seq<nat>, num: nat, start: nat, st: Scan)
    requires Legal(P) && start < |data| && Recorded(P, data, fp, keys, sizes, num, start, st)
    requires !CutsAt(P, st, |data| - start)
    ensures start + st.size < |data|
    ensures Recorded(P, data, fp, keys, sizes, num, start, Roll(P, st, data[start + st.size]))
  {
    RollStep(P, data, st);
    hide Roll, Cuts, CutsAt, ChunkSizes, Tiles, Keys;
  }

  lemma RecordedCut(P: Params, data: Bytes, fp: Bytes -> Key, keys: seq<Key>, sizes: seq<nat>, num: nat, start: nat, st: Scan)
    requires Legal(P) && start < |data| && Recorded(P, data, fp, keys, sizes, num, start, st)
    requires CutsAt(P, st, |data| - start)
    ensures var n := CutSize(P, st, |data| - start); var end := start + n;
            && end <= |data| && num < |keys|
            && (end < |data| ==> end + P.minChunk <= |data|)
            && Recorded(P, data, fp, keys[num := fp(data[start..end])], sizes[num := n], num + 1, end,
                        if end < |data| then Restart(P, data, end, st.slot) else st)
  {
    hide Restart, CutsAt, CutSize, Keys, ChunkSizes, Tiles, SizeOK;
    var all := ChunkSizes(P, data);
    CutStep(P, data, st);
    var n := CutSize(P, st, |data| - start);
    assert all[num..][0] == n;
    assert all[num..][1..] == all[num + 1..];
    KeysStep(fp, data, all, num);
    assert sizes[num := n][..num + 1] == sizes[..num] + [n] == all[..num + 1];
    assert keys[num := fp(data[start..start + n])][..num + 1] == keys[..num] + [fp(data[start..start + n])];
  }

  lemma RecordedDone(P: Params, data: Bytes, fp: Bytes -> Key, keys: seq<Key>, sizes: seq<nat>, num: nat, st: Scan)
    requires Legal(P) && Recorded(P, data, fp, keys, sizes, num, |data|, st)
    ensures num <= |sizes| && sizes[..num] == ChunkSizes(P, data)
    ensures keys[..num] == Keys(fp, data, ChunkSizes(P, data))
  {
    var all := ChunkSizes(P, data);
    assert all[..num] == all;
  }

  lemma RecordedFacts(P: Params, data: Bytes, fp: Bytes -> Key, keys: seq<Key>, sizes: seq<nat>, num: nat, start: nat, st: Scan)
    requires Legal(P) && Recorded(P, data, fp, keys, sizes, num, start, st)
    ensures start <= |data| && num <= |sizes|
    ensures start < |data| ==> ScanOK(P, st) && st.start == start && start + st.size <= |data| && st.size >= 1
  {
    OffsetBound(ChunkSizes(P, data), num);
  }

  /** Fingerprints one chunk and notes its length. */
  method RecordChunk(data: Bytes, start: nat, size: nat, fp: Bytes -> Key, num: nat,
                     fingerprints: array<Key>, contentSizes: array<nat>)
    requires start + size <= |data| && num < fingerprints.Length == contentSizes.Length
    modifies fingerprints, contentSizes
    ensures fingerprints[..] == old(fingerprints[..])[num := fp(data[start..start + size])]
    ensures contentSizes[..] == old(contentSizes[..])[num := size]
  {
    fingerprints[num] := fp(data[start..start + size]);
    contentSizes[num] := size;
  }

  /** Takes one more byte into the window and the hash. */
  method RollWindow(P: Params, ghost st: Scan, hash0: nat, slot0: nat, window: array<Byte>, table: seq<nat>, b: Byte)
    returns (hash: nat, slot: nat)
    requires ScanOK(P, st) && st.hash == hash0 && st.slot == slot0 && st.window == window[..]
    requires |table| == 256 && forall c :: 0 <= c < 256 ==> table[c] == Outgoing(P, c)
    modifies window
    ensures Roll(P, st, b) == st.(size := st.size + 1, hash := hash, slot := slot, window := window[..])
  {
    var diff := Difference(hash0, table[window[slot0]]);
    hash := ((diff * P.p + b) % WORD_LIMIT) % Pow2(P.mBits);
    window[slot0] := b;
    slot := (slot0 + 1) % P.windowBytes;
  }

  /** Cuts the message and fingerprints the chunks, into arrays with room for `n / min + 1` of them. */
  method DoFingerprinting(P: Params, data: Bytes, fp: Bytes -> Key, table: seq<nat>,
                          fingerprints: array<Key>, contentSizes: array<nat>) returns (num: nat)
    requires Legal(P) && |table| == 256 && forall b :: 0 <= b < 256 ==> table[b] == Outgoing(P, b)
    requires fingerprints.Length == contentSizes.Length == MaxChunks(P, data)
    modifies fingerprints, contentSizes
    ensures num <= contentSizes.Length
    ensures contentSizes[..num] == ChunkSizes(P, data)
    ensures fingerprints[..num] == Keys(fp, data, ChunkSizes(P, data))
  {
    if |data| <= P.minChunk {
      fingerprints[0] := fp(data);
      contentSizes[0] := |data|;
      WholeChunk(fp, data);
      return 1;
    }
    var window := new Byte[P.windowBytes](_ => 0);
    var start: nat, remain: nat, size: nat, slot: nat := 0, |data|, P.minChunk, 0;
    var hash: nat := InitRabin(P, StartWindow(P, data, 0), window);
    hash := hash % Pow2(P.mBits);
    num := 0;
    ghost var st := First(P, data);
    RecordedFirst(P, data, fp, fingerprints[..], contentSizes[..]);
    hide Recorded, InitSum, Outgoing, InChunk, ChunkSizes, Cuts, StartWindow, Keys, Roll, Magic, MaxChunks, Pow2;
    while remain > 0
      invariant remain == |data| - start && start <= |data|
      invariant Recorded(P, data, fp, fingerprints[..], contentSizes[..], num, start, st)
      invariant remain > 0 ==> st == Scan(start, size, hash, slot, window[..])
      invariant fresh(window)
      decreases remain, if remain > 0 then |data| - size else 0
    {
      RecordedFacts(P, data, fp, fingerprints[..], contentSizes[..], num, start, st);
      if Magic(P, hash) || size >= P.maxChunk || size >= remain {
        num, start, hash, st := EndChunk(P, data, fp, num, start, size, st, window, fingerprints, contentSizes);
        remain := |data| - start;
        size := P.minChunk;
      } else {
        RecordedRoll(P, data, fp, fingerprints[..], contentSizes[..], num, start, st);
        var b := data[start + size];
        hash, slot := RollWindow(P, st, hash, slot, window, table, b);
        st := Roll(P, st, b);
        size := size + 1;
      }
    }
    RecordedDone(P, data, fp, fingerprints[..], contentSizes[..], num, st);
  }

  /** Ends the chunk at the scan position, absorbing a short tail, and starts the next scan. */
  method EndChunk(P: Params, data: Bytes, fp: Bytes -> Key, num0: nat, start0: nat, size0: nat, ghost st0: Scan,
                  window: array<Byte>, fingerprints: array<Key>, contentSizes: array<nat>)
    returns (num: nat, start: nat, hash: nat, ghost st: Scan)
    requires Legal(P) && window.Length == P.windowBytes
    requires fingerprints.Length == contentSizes.Length
    requires st0.start == start0 < |data| && st0.size == size0
    requires Recorded(P, data, fp, fingerprints[..], contentSizes[..], num0, st0.start, st0)
    requires CutsAt(P, st0, |data| - st0.start)
    modifies window, fingerprints, contentSizes
    ensures start0 < start <= |data|
    ensures Recorded(P, data, fp, fingerprints[..], contentSizes[..], num, start, st)
    ensures start < |data| ==> st == Scan(start, P.minChunk, hash, st0.slot, window[..])
  {
    hide Recorded, InitSum, InChunk, StartWindow, MaxChunks, CutsAt;
    RecordedFacts(P, data, fp, fingerprints[..], contentSizes[..], num0, st0.start, st0);
    RecordedCut(P, data, fp, fingerprints[..], contentSizes[..], num0, st0.start, st0);
    var remain, size := |data| - start0, size0;
    if size >= remain || remain - size < P.minChunk {
      size := remain;
    }
    RecordChunk(data, start0, size, fp, num0, fingerprints, contentSizes);
    num := num0 + 1;
    start := start0 + size;
    hash := 0;
    st := st0;
    if start < |data| {
      hash := InitRabin(P, StartWindow(P, data, start), window);
      st := Restart(P, data, start, st0.slot);
    }
  }

  lemma WholeChunk(fp: Bytes -> Key, data: Bytes)
    ensures Keys(fp, data, [|data|]) == [fp(data)]
  {
    assert [|data|][..0] == [];
    assert Chunk(data, [|data|], 0) == data;
  }

  lemma KeysPrefix(fp: Bytes -> Key, data: Bytes, all: seq<nat>, n: nat)
    requires n <= |all|
    ensures forall i :: 0 <= i < n ==> Keys(fp, data, all[..n])[i] == fp(Chunk(data, all, i))
  {
    forall i | 0 <= i < n ensures Chunk(data, all[..n], i) == Chunk(data, all, i) {
      assert all[..n][..i] == all[..i];
    }
  }

  lemma KeysStep(fp: Bytes -> Key, data: Bytes, all: seq<nat>, n: nat)
    requires Tiles(all, |data|) && n < |all|
    ensures Offset(all, n + 1) == Offset(all, n) + all[n] <= |data|
    ensures Keys(fp, data, all[..n + 1])
            == Keys(fp, data, all[..n]) + [fp(data[Offset(all, n)..Offset(all, n) + all[n]])]
  {
    hide Tiles, Keys;
    ChunkInside(all, |data|, n);
    KeysPrefix(fp, data, all, n);
    KeysPrefix(fp, data, all, n + 1);
  }
}
