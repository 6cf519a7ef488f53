/** Where the chunks of a message end, as arithmetic on its bytes: no scan, no ring and no rolling
    (fingerprint.c:30-40, 79-121). */
module CutValues {
  import opened ByteStrings
  import opened Congruence
  import opened RollingHash
  import opened Tiling
  import opened Chunker
  import opened CutRule

  /** The bytes of a window read from place `k` on, around its end. */
  function Turned(w: Bytes, k: nat): (t: Bytes)
    requires k <= |w|
    ensures |t| == |w|
  {
    w[k..] + w[..k]
  }

  /** The bytes the window of a chunk is filled with: they end one short of the minimum length. */
  function FirstBytes(P: Params, data: Bytes, start: nat): (w: Bytes)
    requires Legal(P) && start + P.minChunk <= |data|
    ensures |w| == P.windowBytes
  {
    data[start + P.minChunk - 1 - P.windowBytes..start + P.minChunk - 1]
  }

  /** The last bytes read when the chunk has `s` bytes, if the window is read from place `k`. */
  function LastBytes(P: Params, data: Bytes, start: nat, k: nat, s: nat): (w: Bytes)
    requires Legal(P) && P.minChunk <= s && start + s <= |data| && k < P.windowBytes
    ensures |w| == P.windowBytes
  {
    (Turned(FirstBytes(P, data, start), k) + data[start + P.minChunk..start + s])[s - P.minChunk..]
  }

  /** The value looked at when the chunk has `s` bytes: the polynomial of the last bytes read, and the error made
      at the start by reading the window from place `k`, multiplied by the base at each byte. */
  function Value(P: Params, data: Bytes, start: nat, k: nat, s: nat): nat
    requires Legal(P) && P.minChunk <= s && start + s <= |data| && k < P.windowBytes
  {
    var w := FirstBytes(P, data, start);
    (Poly(P.p, LastBytes(P, data, start, k, s)) + PowP(P.p, s - P.minChunk) * (Poly(P.p, w) - Poly(P.p, Turned(w, k))))
    % Pow2(P.mBits)
  }

  /** The low bits of the value are the magic ones, or the chunk is as long as it may be, or the message ends. */
  predicate Ends(P: Params, data: Bytes, start: nat, k: nat, s: nat)
    requires Legal(P) && P.minChunk <= s && start + s <= |data| && k < P.windowBytes
  {
    Value(P, data, start, k, s) % Pow2(P.lowerBits) == P.magic || s >= P.maxChunk || start + s == |data|
  }

  /** A chunk from `start` of `size` bytes: `e` is the first length at which it may end, and a rest shorter than
      the minimum is absorbed. */
  predicate IsChunk(P: Params, data: Bytes, start: nat, k: nat, e: nat, size: nat)
    requires Legal(P)
  {
    && P.minChunk <= e && start + e <= |data| && k < P.windowBytes
    && Ends(P, data, start, k, e)
    && (forall s :: P.minChunk <= s < e ==> !Ends(P, data, start, k, s))
    && size == if |data| - start - e < P.minChunk then |data| - start else e
  }

  /** With slot 0 the error is nothing: the value is the polynomial of the last bytes read of the chunk. */
  lemma ValueAtSlotZero(P: Params, data: Bytes, start: nat, s: nat)
    requires Legal(P) && P.minChunk <= s && start + s <= |data|
    ensures Value(P, data, start, 0, s)
            == Poly(P.p, (FirstBytes(P, data, start) + data[start + P.minChunk..start + s])[s - P.minChunk..])
               % Pow2(P.mBits)
  {
    var w := FirstBytes(P, data, start);
    assert Turned(w, 0) == w;
    TimesZero(PowP(P.p, s - P.minChunk));
  }

  lemma TimesZero(x: int)
    ensures x * 0 == 0
  {
  }

  // ---- what the scan computes ----

  lemma DropMore(r: Bytes, bs: Bytes)
    requires r != [] && bs != []
    ensures ((r[1..] + [bs[0]]) + bs[1..])[|bs| - 1..] == (r + bs)[|bs|..]
  {
    assert (r[1..] + [bs[0]]) + bs[1..] == (r + bs)[1..];
  }

  lemma {:induction false} RingAfter(P: Params, st: Scan, bs: Bytes)
    requires ScanOK(P, st)
    ensures Ring(RollAll(P, st, bs)) == (Ring(st) + bs)[|bs|..]
    decreases |bs|
  {
    hide Roll, Ring;
    if bs == [] {
      assert Ring(st) + bs == Ring(st);
    } else {
      RingRolls(P, st, bs[0]);
      RollSlot(P, st, bs[0]);
      RingAfter(P, Roll(P, st, bs[0]), bs[1..]);
      DropMore(Ring(st), bs);
    }
  }

  lemma {:induction false} SlotAfter(P: Params, st: Scan, bs: Bytes)
    requires ScanOK(P, st)
    ensures RollAll(P, st, bs).slot == (st.slot + |bs|) % P.windowBytes
    decreases |bs|
  {
    hide Roll;
    if bs == [] {
      SmallRemainder(st.slot, P.windowBytes);
    } else {
      RollSlot(P, st, bs[0]);
      SlotAfter(P, Roll(P, st, bs[0]), bs[1..]);
      PlusWrapped(st.slot + 1, |bs| - 1, P.windowBytes);
    }
  }

  lemma RollSlot(P: Params, st: Scan, b: Byte)
    requires ScanOK(P, st)
    ensures Roll(P, st, b).slot == (st.slot + 1) % P.windowBytes && |Ring(st)| == P.windowBytes
  {
  }

  /** The error of a scan is multiplied by the base at each byte. */
  lemma {:induction false} DefectAfter(P: Params, st: Scan, bs: Bytes)
    requires ScanOK(P, st) && P.mBits < 64
    ensures Cong(Defect(P, RollAll(P, st, bs)), PowP(P.p, |bs|) * Defect(P, st), Pow2(P.mBits))
    decreases |bs|
  {
    hide Roll, Defect, Cong;
    var m, d := Pow2(P.mBits), Defect(P, st);
    if bs == [] {
      CongSelf(d, m);
    } else {
      var next := Roll(P, st, bs[0]);
      var pw := PowP(P.p, |bs| - 1);
      DefectRolls(P, st, bs[0]);
      DefectAfter(P, next, bs[1..]);
      CongScale(Defect(P, next), P.p * d, pw, m);
      Regroup(pw, P.p, d);
      CongTrans(Defect(P, RollAll(P, next, bs[1..])), pw * Defect(P, next), pw * (P.p * d), m);
    }
  }

  lemma Regroup(x: int, p: int, d: int)
    ensures x * (p * d) == (p * x) * d
  {
    assert x * (p * d) == (x * p) * d;
  }

  /** A scan that begins a chunk: its window holds the chunk's first bytes and its hash stands for them. */
  predicate Begins(P: Params, data: Bytes, st: Scan)
  {
    && InChunk(P, data, st) && st.size == P.minChunk
    && st.window == FirstBytes(P, data, st.start)
    && Cong(st.hash, Poly(P.p, st.window), Pow2(P.mBits))
  }

  /** The starting hash of any chunk, whatever slot it starts with, is congruent to the polynomial of the bytes
      the window is filled with. */
  lemma ScansBegin(P: Params, data: Bytes, start: nat, k: nat)
    requires Legal(P) && start + P.minChunk <= |data| && k < P.windowBytes
    ensures Begins(P, data, Restart(P, data, start, k))
    ensures start == 0 ==> Begins(P, data, First(P, data))
  {
    var w, m := FirstBytes(P, data, start), Pow2(P.mBits);
    var sum := InitSum(P, w, 1);
    CongSelf(1, m);
    InitSumCong(P, w, 1, 1);
    CongWrap(sum, m, m, 1);
    hide InitSum, Poly, Pow2, Cong;
    CongTrans(sum % m, sum, Poly(P.p, w), m);
  }

  lemma ScanValue(P: Params, data: Bytes, st: Scan, s: nat)
    requires Begins(P, data, st) && P.minChunk <= s && st.start + s <= |data|
    ensures Cong(ScanAt(P, data, st, s).hash, Value(P, data, st.start, st.slot, s), Pow2(P.mBits))
    ensures ScanAt(P, data, st, s).slot == (st.slot + (s - P.minChunk)) % P.windowBytes
  {
    hide Roll, RollAll, Poly, PowP, Pow2, Cong;
    var m, bs, w := Pow2(P.mBits), data[st.start + P.minChunk..st.start + s], st.window;
    var pw, last := PowP(P.p, |bs|), ScanAt(P, data, st, s);
    var ring, first := Poly(P.p, Ring(last)), Poly(P.p, w) - Poly(P.p, Turned(w, st.slot));
    RingAfter(P, st, bs);
    SlotAfter(P, st, bs);
    DefectAfter(P, st, bs);
    CongSelf(Poly(P.p, Ring(st)), m);
    CongAdd(st.hash, Poly(P.p, w), Poly(P.p, Ring(st)), Poly(P.p, Ring(st)), m);
    CongScale(Defect(P, st), first, pw, m);
    CongTrans(Defect(P, last), pw * Defect(P, st), pw * first, m);
    CongSelf(ring, m);
    CongAdd(Defect(P, last), pw * first, ring, ring, m);
    var exact := ring + pw * first;
    CongWrap(exact, m, m, 1);
    CongSym(exact % m, exact, m);
    CongTrans(last.hash, exact, exact % m, m);
  }

  lemma CongLow(a: int, b: int, n: nat, low: nat)
    requires low <= n && Cong(a, b, Pow2(n))
    ensures a % Pow2(low) == b % Pow2(low)
  {
    hide Pow2, Cong;
    Pow2Split(n - low, low);
    var q := CongQuotient(a, b, Pow2(n));
    var m, d := Pow2(low), Pow2(n - low);
    Regroup(q, d, m);
    assert m * d == d * m;
    assert q * d == d * q;
    CongFrom(a, b, q * d, m);
    SameRemainder(a, b, m);
  }

  /** The loop cuts just where the value says. */
  lemma MayEndIs(P: Params, data: Bytes, st: Scan, s: nat)
    requires Begins(P, data, st) && P.lowerBits <= P.mBits && P.minChunk <= s && st.start + s <= |data|
    ensures MayEnd(P, data, st, s) <==> Ends(P, data, st.start, st.slot, s)
  {
    hide Value, Cong, Pow2, ScanAt;
    ScanValue(P, data, st, s);
    CongLow(ScanAt(P, data, st, s).hash, Value(P, data, st.start, st.slot, s), P.mBits, P.lowerBits);
  }

  // ---- all chunks ----

  lemma OffsetFront(n: nat, rest: seq<nat>, i: nat)
    requires 1 <= i <= |rest| + 1
    ensures Offset([n] + rest, i) == n + Offset(rest, i - 1)
  {
    assert ([n] + rest)[..i] == [n] + rest[..i - 1];
    SumFront(n, rest[..i - 1]);
  }

  // the scan of the chunk after one of `n` bytes
  function After(P: Params, data: Bytes, st: Scan, n: nat): Scan
    requires InChunk(P, data, st) && P.minChunk <= n && st.start + n + P.minChunk <= |data|
  {
    Restart(P, data, st.start + n, (st.slot + (n - P.minChunk)) % P.windowBytes)
  }

  lemma FirstCut(P: Params, data: Bytes, st: Scan) returns (e: nat)
    requires Begins(P, data, st) && P.lowerBits <= P.mBits
    ensures |Cuts(P, data, st)| > 0 && IsChunk(P, data, st.start, st.slot, e, Cuts(P, data, st)[0])
    ensures |Cuts(P, data, st)| > 1 ==>
              && st.start + e + P.minChunk <= |data| && Begins(P, data, After(P, data, st, e))
              && Cuts(P, data, st) == [e] + Cuts(P, data, After(P, data, st, e))
  {
    hide Cuts, Ends, MayEnd, Restart, RollAll, Cong, Poly;
    e := EndsAtFirst(P, data, st);
    forall s | st.size <= s <= e ensures MayEnd(P, data, st, s) <==> Ends(P, data, st.start, st.slot, s) {
      MayEndIs(P, data, st, s);
    }
    if |data| - st.start - e >= P.minChunk {
      ScanValue(P, data, st, e);
      ScansBegin(P, data, st.start + e, (st.slot + (e - P.minChunk)) % P.windowBytes);
    }
  }

  lemma {:induction false} CutsAre(P: Params, data: Bytes, st: Scan, i: nat) returns (e: nat)
    requires Begins(P, data, st) && P.lowerBits <= P.mBits && i < |Cuts(P, data, st)|
    ensures var sizes := Cuts(P, data, st); var at := Offset(sizes, i);
            && at >= P.minChunk * i
            && IsChunk(P, data, st.start + at, (st.slot + (at - P.minChunk * i)) % P.windowBytes, e, sizes[i])
    decreases i
  {
    hide Cuts, Begins, InChunk, Offset, IsChunk, Restart;
    BeginsInside(P, data, st);
    var n := FirstCut(P, data, st);
    var sizes := Cuts(P, data, st);
    SlotFits(P, data, st, n, sizes[0]);
    if i == 0 {
      OffsetZero(sizes);
      e := n;
    } else {
      var next := After(P, data, st, n);
      AfterIs(P, data, st, n);
      BeginsInside(P, data, next);
      e := CutsAre(P, data, next, i - 1);
      var rest := Cuts(P, data, next);
      OffsetFront(n, rest, i);
      var at := Offset(rest, i - 1);
      TimesLess(P.minChunk, i);
      PlusWrapped(st.slot + (n - P.minChunk), at - P.minChunk * (i - 1), P.windowBytes);
    }
  }

  lemma BeginsInside(P: Params, data: Bytes, st: Scan)
    requires Begins(P, data, st)
    ensures InChunk(P, data, st) && Legal(P)
  {
  }

  lemma SlotFits(P: Params, data: Bytes, st: Scan, e: nat, size: nat)
    requires Begins(P, data, st) && IsChunk(P, data, st.start, st.slot, e, size)
    ensures Legal(P) && st.slot % P.windowBytes == st.slot && P.minChunk <= e
  {
    SmallRemainder(st.slot, P.windowBytes);
  }

  lemma AfterIs(P: Params, data: Bytes, st: Scan, n: nat)
    requires InChunk(P, data, st) && P.minChunk <= n && st.start + n + P.minChunk <= |data|
    ensures After(P, data, st, n).start == st.start + n
    ensures After(P, data, st, n).slot == (st.slot + (n - P.minChunk)) % P.windowBytes
  {
  }

  lemma OffsetZero(sizes: seq<nat>)
    ensures Offset(sizes, 0) == 0
  {
  }

  lemma TimesLess(m: int, i: int)
    ensures m * i == m * (i - 1) + m && m * 0 == 0
  {
  }

  ghost predicate ChunkAt(P: Params, data: Bytes, start: nat, k: nat, size: nat)
    requires Legal(P)
  {
    exists e :: IsChunk(P, data, start, k, e, size)
  }

  /** Chunk `i` begins where the ones before it end; its window is read from the place that the bytes rolled so
      far lead to; and it ends at the first length at which the value of its own bytes says so. */
  ghost predicate ChunkRule(P: Params, data: Bytes, sizes: seq<nat>, i: nat)
    requires Legal(P) && i < |sizes|
  {
    ChunkAt(P, data, Offset(sizes, i), (Offset(sizes, i) - P.minChunk * i) % P.windowBytes, sizes[i])
  }

  /** The lengths add up to the message, and each chunk is one of the rule. */
  ghost predicate FollowsRule(P: Params, data: Bytes, sizes: seq<nat>)
    requires Legal(P)
  {
    Sum(sizes) == |data| && forall i :: 0 <= i < |sizes| ==> ChunkRule(P, data, sizes, i)
  }

  lemma ChunksFollow(P: Params, data: Bytes)
    requires Legal(P) && P.lowerBits <= P.mBits && |data| > P.minChunk
    ensures FollowsRule(P, data, ChunkSizes(P, data))
  {
    hide Cuts, Restart, Cong, Poly, InitSum, IsChunk, Offset, Sum, Begins, InChunk;
    ScansBegin(P, data, 0, 0);
    ChunksTile(P, data);
    FirstInside(P, data);
    forall i | 0 <= i < |ChunkSizes(P, data)| ensures ChunkRule(P, data, ChunkSizes(P, data), i) {
      var e := CutsAre(P, data, First(P, data), i);
    }
  }

  lemma FirstInside(P: Params, data: Bytes)
    requires Legal(P) && |data| > P.minChunk
    ensures InChunk(P, data, First(P, data)) && First(P, data).start == 0 && First(P, data).slot == 0
    ensures Tiles(ChunkSizes(P, data), |data|) ==> Sum(ChunkSizes(P, data)) == |data|
  {
    hide Cuts, Sum;
  }

  lemma SameChunk(P: Params, data: Bytes, start: nat, k: nat, e: nat, size: nat, e': nat, size': nat)
    requires Legal(P) && IsChunk(P, data, start, k, e, size) && IsChunk(P, data, start, k, e', size')
    ensures size == size' > 0
  {
    hide Ends;
  }

  lemma {:induction false} SameStart(P: Params, data: Bytes, a: seq<nat>, b: seq<nat>, i: nat)
    requires Legal(P) && FollowsRule(P, data, a) && FollowsRule(P, data, b) && i <= |a| && i <= |b|
    ensures a[..i] == b[..i]
  {
    hide IsChunk;
    if i > 0 {
      SameStart(P, data, a, b, i - 1);
      var start := Offset(a, i - 1);
      var k := (start - P.minChunk * (i - 1)) % P.windowBytes;
      assert ChunkRule(P, data, a, i - 1) && ChunkRule(P, data, b, i - 1);
      var e :| IsChunk(P, data, start, k, e, a[i - 1]);
      var e' :| IsChunk(P, data, start, k, e', b[i - 1]);
      SameChunk(P, data, start, k, e, a[i - 1], e', b[i - 1]);
    }
  }

  lemma StartsInside(P: Params, data: Bytes, sizes: seq<nat>, i: nat)
    requires Legal(P) && FollowsRule(P, data, sizes) && i < |sizes|
    ensures Offset(sizes, i) < |data|
  {
    hide Ends, Offset;
    assert ChunkRule(P, data, sizes, i);
  }

  lemma NoMore(P: Params, data: Bytes, a: seq<nat>, b: seq<nat>)
    requires Legal(P) && FollowsRule(P, data, a) && FollowsRule(P, data, b) && |a| <= |b|
    ensures a == b
  {
    SameStart(P, data, a, b, |a|);
    assert a[..|a|] == a;
    if |a| < |b| { StartsInside(P, data, b, |a|); }
  }

  /** The chunker computes the lengths of the rule, and the rule leaves no choice. */
  lemma ChunksAreTheRule(P: Params, data: Bytes, sizes: seq<nat>)
    requires Legal(P) && P.lowerBits <= P.mBits && |data| > P.minChunk
    ensures FollowsRule(P, data, sizes) <==> sizes == ChunkSizes(P, data)
  {
    hide FollowsRule, ChunkSizes;
    ChunksFollow(P, data);
    var all := ChunkSizes(P, data);
    if FollowsRule(P, data, sizes) {
      if |sizes| <= |all| { NoMore(P, data, sizes, all); } else { NoMore(P, data, all, sizes); }
    }
  }
}
