/** Every action of the receiver keeps the invariant. */
module ReceiverSteps {
  import opened ByteStrings
  import opened Probing
  import opened CacheSpec
  import opened Tiling
  import opened Wire
  import opened Protocol
  import opened Streams
  import opened Invariants
  import opened SenderSteps

  /** What the action takes off the forward stream, and what it puts on the reply stream. */
  ghost predicate Takes(c: Config, m: Msg, a: seq<nat>, x: RecvSide, x': RecvSide, seen: Bytes, replied: Bytes)
    requires HasKeys(m)
  {
    && x.fwd == seen + x'.fwd && x'.back == x.back + replied
    && SeenF(m, a, x'.r) == SeenF(m, a, x.r) + seen
    && SentB(m, a, x'.r) == SentB(m, a, x.r) + replied
    && ReceiverOK(m, a, x'.r, x'.buf)
    && CacheOK(c, x'.cache)
  }

  /** The side is in order, and the next `k` bytes for it are the ones the message calls for. */
  ghost predicate Ready(c: Config, m: Msg, a: seq<nat>, x: RecvSide, k: nat)
    requires HasKeys(m)
  {
    && MsgOK(c, m) && CollisionFree(c) && CacheOK(c, x.cache) && Increasing(a, |m.sizes|)
    && ReceiverOK(m, a, x.r, x.buf)
    && RecvCan(x, k)
    && (k <= |x.fwd| && |SeenF(m, a, x.r)| + k <= |Forward(m, a)| ==>
          SeenF(m, a, x.r) + x.fwd[..k] == Forward(m, a)[..|SeenF(m, a, x.r)| + k])
  }

  // ---- writing into the buffer ----

  lemma PlacedKept(c: Config, m: Msg, buf: Bytes, j: nat, at: nat, b: Bytes)
    requires MsgOK(c, m) && IsFp(m) && j < |m.sizes| && Placed(m, buf, j)
    requires at + |b| <= |buf|
    requires at + |b| <= Offset(m.sizes, j) || Offset(m.sizes, j) + m.sizes[j] <= at
    ensures Placed(m, Splice(buf, at, b), j)
  {
    SpliceFrame(buf, at, b, Offset(m.sizes, j), Offset(m.sizes, j) + m.sizes[j]);
  }

  /** Bytes of chunk `i` written at its place leave the other chunks and the tail alone. */
  lemma OthersKept(c: Config, m: Msg, buf: Bytes, i: nat, off: nat, b: Bytes)
    requires MsgOK(c, m) && IsFp(m) && i < |m.sizes| && off + |b| <= m.sizes[i]
    requires |buf| == |m.init|
    ensures var at := Offset(m.sizes, i) + off;
            && at + |b| <= |m.data| <= |buf|
            && Splice(buf, at, b)[|m.data|..] == buf[|m.data|..]
            && forall j :: 0 <= j < |m.sizes| && j != i && Placed(m, buf, j) ==> Placed(m, Splice(buf, at, b), j)
  {
    var at := Offset(m.sizes, i) + off;
    ChunkInside(m.sizes, |m.data|, i);
    SpliceFrame(buf, at, b, |m.data|, |buf|);
    forall j | 0 <= j < |m.sizes| && j != i && Placed(m, buf, j) ensures Placed(m, Splice(buf, at, b), j) {
      PlacedKept(c, m, buf, j, at, b);
    }
  }

  /** When every chunk is in place, so is the message. */
  lemma {:induction false} AllPlaced(c: Config, m: Msg, buf: Bytes, i: nat)
    requires MsgOK(c, m) && IsFp(m) && |buf| == |m.init| && i <= |m.sizes|
    requires forall j :: 0 <= j < i ==> Placed(m, buf, j)
    ensures Offset(m.sizes, i) <= |m.data| && buf[..Offset(m.sizes, i)] == m.data[..Offset(m.sizes, i)]
  {
    OffsetBound(m.sizes, i);
    if i > 0 {
      AllPlaced(c, m, buf, i - 1);
      OffsetStep(m.sizes, i - 1);
      PieceSize(c, m, i - 1);
      var lo, hi := Offset(m.sizes, i - 1), Offset(m.sizes, i);
      assert Placed(m, buf, i - 1);
      assert buf[..hi] == buf[..lo] + buf[lo..hi];
      assert m.data[..hi] == m.data[..lo] + m.data[lo..hi];
    }
  }

  lemma Complete(c: Config, m: Msg, a: seq<nat>, p: Plan, buf: Bytes)
    requires MsgOK(c, m) && IsFp(m) && |buf| == |m.init|
    requires Asked(m, a, p, buf, |a|)
    ensures buf[..|m.data|] == m.data
  {
    forall j | 0 <= j < |m.sizes| ensures Placed(m, buf, j) {
      if j in a { var t :| 0 <= t < |a| && a[t] == j; }
    }
    AllPlaced(c, m, buf, |m.sizes|);
    OffsetBound(m.sizes, |m.sizes|);
    assert m.data[..|m.data|] == m.data;
  }

  // ---- the stages ----

  lemma HeaderStage(c: Config, m: Msg, a: seq<nat>, x: RecvSide, k: nat)
    requires HasKeys(m) && Ready(c, m, a, x, k) && x.r.RHeader?
    ensures Takes(c, m, a, x, RecvStep(x, k), x.fwd[..k], [])
  {
    HeaderBytes(c, m, a, x, k);
    HeaderRoundTrip(IsFp(m), |m.data|);
    TakeMore(Header(m), m.data, 0, 0);
    hide CacheOK, CollisionFree, EncodeHeader, EncodeFingerprints, Forward, MsgOK, IsFp, Preamble, HeaderIsFingerprint,
         HeaderSize;
  }

  lemma HeaderBytes(c: Config, m: Msg, a: seq<nat>, x: RecvSide, k: nat)
    requires HasKeys(m) && Ready(c, m, a, x, k) && x.r.RHeader?
    ensures k == HEADER_BYTES <= |x.fwd| && x.fwd[..k] == Header(m) && |m.data| < U64_LIMIT
    ensures Header(m) + [] == Header(m)
  {
    hide CacheOK, CollisionFree, EncodeHeader, Header, Tiles, Increasing, Forward;
    HeaderFirst(m, a);
    assert [] + x.fwd[..k] == x.fwd[..k];
  }

  lemma HeaderFirst(m: Msg, a: seq<nat>)
    requires HasKeys(m)
    ensures |Forward(m, a)| >= HEADER_BYTES && Forward(m, a)[..HEADER_BYTES] == Header(m)
  {
    hide Header, EncodeFingerprints, Content;
  }

  lemma PlainStage(c: Config, m: Msg, a: seq<nat>, x: RecvSide, k: nat)
    requires HasKeys(m) && Ready(c, m, a, x, k) && x.r.RPlain?
    ensures Takes(c, m, a, x, RecvStep(x, k), x.fwd[..k], [])
  {
    hide CacheOK, CollisionFree, Header, Preamble, Splice;
    var off, got := x.r.off, x.fwd[..k];
    var pre := Header(m) + m.data[..off];
    assert Forward(m, a) == pre + m.data[off..];
    BytesAfter(Forward(m, a), pre, got, m.data[off..]);
    assert got == m.data[off..][..k] == m.data[off..off + k];
    TakeMore(Header(m), m.data, off, k);
    PlainWrite(m, x.buf, off, got);
  }

  lemma PlainWrite(m: Msg, buf: Bytes, off: nat, got: Bytes)
    requires off + |got| <= |m.data| <= |buf| && buf[..off] == m.data[..off] && got == m.data[off..off + |got|]
    ensures var buf' := Splice(buf, off, got);
            buf'[..off + |got|] == m.data[..off + |got|] && buf'[|m.data|..] == buf[|m.data|..]
    ensures off + |got| == |m.data| ==> m.data[..off + |got|] == m.data
  {
  }

  lemma CountStage(c: Config, m: Msg, a: seq<nat>, x: RecvSide, k: nat)
    requires HasKeys(m) && Ready(c, m, a, x, k) && x.r.RCount?
    ensures Takes(c, m, a, x, RecvStep(x, k), x.fwd[..k], [])
  {
    hide CacheOK, CollisionFree, Header, EncodeFingerprints, Tiles, Content;
    var pre, count := Header(m), Encode(|m.sizes|, 8);
    assert Forward(m, a) == pre + (count + EncodeFingerprints(Fps(m)) + Content(m, a, |a|));
    BytesAfter(Forward(m, a), pre, x.fwd[..k], count + EncodeFingerprints(Fps(m)) + Content(m, a, |a|));
    assert x.fwd[..k] == count;
    EightBytes(|m.sizes|);
    FpsExist(c, m);
    assert pre + count + [] == pre + count;
  }

  lemma FpsAre(c: Config, m: Msg)
    requires MsgOK(c, m) && IsFp(m)
    ensures DecodeFingerprints(EncodeFingerprints(Fps(m))) == Fps(m)
  {
    forall i | 0 <= i < |m.sizes| ensures Fps(m)[i].size < U64_LIMIT {
      ChunkInside(m.sizes, |m.data|, i);
    }
    FingerprintsRoundTrip(Fps(m));
  }

  lemma FpsBytes(c: Config, m: Msg, a: seq<nat>, x: RecvSide, k: nat)
    requires HasKeys(m) && Ready(c, m, a, x, k) && x.r.RFps?
    ensures x.r.got + x.fwd[..k] == EncodeFingerprints(Fps(m))[..|x.r.got| + k]
  {
    hide CacheOK, CollisionFree, Header, EncodeFingerprints, Content, MsgOK, Fps, Increasing;
    var b, got := EncodeFingerprints(Fps(m)), x.r.got + x.fwd[..k];
    var pre := Header(m) + Encode(|m.sizes|, 8);
    assert Forward(m, a) == pre + (b + Content(m, a, |a|));
    assert pre + x.r.got + x.fwd[..k] == pre + got;
    BytesAfter(Forward(m, a), pre, got, b + Content(m, a, |a|));
  }

  lemma FpsStage(c: Config, m: Msg, a: seq<nat>, x: RecvSide, k: nat)
    requires HasKeys(m) && Ready(c, m, a, x, k) && x.r.RFps?
    ensures Takes(c, m, a, x, RecvStep(x, k), x.fwd[..k], [])
  {
    hide SeenF, SentB, ReceiverOK, Ready, RecvCan, RecvStep, MsgOK, Header, Encode, EncodeFingerprints, DecodeFingerprints, Fps,
         CacheOK, Preamble;
    FpsFacts(c, m, a, x, k);
    FpsAre(c, m);
    FpsBytes(c, m, a, x, k);
    FpsStepIs(x, k);
    var RFps(size, n, got) := x.r;
    var b, got' := EncodeFingerprints(Fps(m)), got + x.fwd[..k];
    if |got'| == |b| { assert got' == b; }
    FpsSeen(m, a, size, n, got);
    FpsSeen(m, a, size, n, got');
    FpsState(m, a, size, n, got, got', x.buf);
    var pre := Header(m) + Encode(|m.sizes|, 8);
    assert pre + got' == pre + got + x.fwd[..k];
  }

  lemma FpsFacts(c: Config, m: Msg, a: seq<nat>, x: RecvSide, k: nat)
    requires HasKeys(m) && Ready(c, m, a, x, k) && x.r.RFps?
    ensures MsgOK(c, m) && IsFp(m) && CacheOK(c, x.cache) && RecvCan(x, k) && ReceiverOK(m, a, x.r, x.buf)
    ensures x.r.n == |m.sizes| && |x.r.got| + k <= FINGERPRINT_BYTES * |m.sizes| && k <= |x.fwd|
  {
    hide MsgOK, CollisionFree, CacheOK, Increasing, SeenF, Forward;
  }

  lemma FpsSeen(m: Msg, a: seq<nat>, size: nat, n: nat, got: Bytes)
    requires HasKeys(m)
    ensures SeenF(m, a, RFps(size, n, got)) == Header(m) + Encode(|m.sizes|, 8) + got
    ensures SentB(m, a, RFps(size, n, got)) == []
    ensures forall p, i, pos :: SeenF(m, a, RPopulate(p, i, pos)) == Preamble(m) && SentB(m, a, RPopulate(p, i, pos)) == []
    ensures Preamble(m) == Header(m) + Encode(|m.sizes|, 8) + EncodeFingerprints(Fps(m))
  {
    hide Header, Encode, EncodeFingerprints, Fps;
  }

  // more of the fingerprints is there, or all of them
  lemma FpsState(m: Msg, a: seq<nat>, size: nat, n: nat, got: Bytes, got': Bytes, buf: Bytes)
    requires HasKeys(m) && ReceiverOK(m, a, RFps(size, n, got), buf)
    ensures |got'| < FINGERPRINT_BYTES * n ==> ReceiverOK(m, a, RFps(size, n, got'), buf)
    ensures ReceiverOK(m, a, RPopulate(Plan(size, Fps(m), [], []), 0, 0), buf)
  {
    hide Placed, Fps;
    assert Offset(m.sizes, 0) == 0;
  }

  lemma FpsStepIs(x: RecvSide, k: nat)
    requires RecvCan(x, k) && x.r.RFps?
    ensures var RFps(size, n, got) := x.r; var got' := got + x.fwd[..k]; var x' := RecvStep(x, k);
            && x'.r == (if |got'| < FINGERPRINT_BYTES * n then RFps(size, n, got')
                        else RPopulate(Plan(size, DecodeFingerprints(got'), [], []), 0, 0))
            && x'.buf == x.buf && x'.fwd == x.fwd[k..] && x'.back == x.back && x'.cache == x.cache && x'.skip == x.skip
  {
    hide DecodeFingerprints;
  }

  // a lookup moves no bytes
  lemma Populated(c: Config, m: Msg, a: seq<nat>, x: RecvSide, x': RecvSide)
    requires HasKeys(m) && IsFp(m) && CacheOK(c, x.cache) && |x.buf| == |m.init| >= |m.data|
    requires x.r.RPopulate? && x'.r.RPopulate? && x'.fwd == x.fwd && x'.back == x.back && x'.cache == x.cache
    requires |x'.buf| == |x.buf| && x'.buf[|m.data|..] == m.init[|m.data|..]
    requires x'.r.i <= |m.sizes| && x'.r.pos == Offset(m.sizes, x'.r.i) && Sorted(m, x'.r.plan, x'.buf, x'.r.i)
    ensures Takes(c, m, a, x, x', [], [])
  {
    hide CacheOK, Sorted, Offset, Preamble, IsFp;
  }

  /** A chunk found in the cache is the chunk meant, for want of collisions. */
  lemma HitStage(c: Config, m: Msg, a: seq<nat>, x: RecvSide, k: nat)
    requires HasKeys(m) && Ready(c, m, a, x, k) && x.r.RPopulate? && x.r.i < |m.sizes|
    requires m.keys[x.r.i] in x.cache.index
    ensures Takes(c, m, a, x, RecvStep(x, k), [], [])
  {
    hide *;
    PopulateReady(c, m, a, x, k);
    CachedPiece(c, m, a, x, k);
    var RPopulate(p, i, pos) := x.r;
    var piece := x.cache.index[m.keys[i]];
    PieceSize(c, m, i);
    OffsetStep(m.sizes, i);
    OthersKept(c, m, x.buf, i, 0, piece);
    HitStepIs(x, k);
    PieceWritten(m, x.buf, i, piece);
    HitPlaced(m, p, x.buf, Splice(x.buf, pos, piece), i);
    Populated(c, m, a, x, RecvStep(x, k));
  }

  lemma PopulateReady(c: Config, m: Msg, a: seq<nat>, x: RecvSide, k: nat)
    requires HasKeys(m) && Ready(c, m, a, x, k) && x.r.RPopulate? && x.r.i < |m.sizes|
    ensures MsgOK(c, m) && RecvCan(x, k) && CacheOK(c, x.cache) && IsFp(m)
    ensures |x.buf| == |m.init| >= |m.data| && x.buf[|m.data|..] == m.init[|m.data|..]
    ensures |m.keys| == |m.sizes| && x.r.pos == Offset(m.sizes, x.r.i) && Sorted(m, x.r.plan, x.buf, x.r.i)
    ensures x.r.plan.fps == Fps(m) && x.r.plan.fps[x.r.i] == Fingerprint(m.sizes[x.r.i], m.keys[x.r.i])
  {
    hide Placed, Increasing, CacheOK, CollisionFree, Offset, SeenF, Forward, MsgOK, RecvCan;
  }

  lemma CachedPiece(c: Config, m: Msg, a: seq<nat>, x: RecvSide, k: nat)
    requires HasKeys(m) && Ready(c, m, a, x, k) && x.r.RPopulate? && x.r.i < |m.sizes|
    requires m.keys[x.r.i] in x.cache.index
    ensures x.cache.index[m.keys[x.r.i]] == Piece(m, x.r.i)
    ensures MsgOK(c, m) && RecvCan(x, k) && x.r.plan.fps == Fps(m) && x.r.plan.fps[x.r.i].key == m.keys[x.r.i]
  {
    hide Piece, Forward, SeenF, Increasing, Placed;
  }

  lemma PieceWritten(m: Msg, buf: Bytes, i: nat, piece: Bytes)
    requires i < |m.sizes| && piece == Piece(m, i) && |piece| == m.sizes[i] && Offset(m.sizes, i) + m.sizes[i] <= |buf|
    ensures Placed(m, Splice(buf, Offset(m.sizes, i), piece), i)
  {
    SpliceWrote(buf, Offset(m.sizes, i), piece);
  }

  lemma HitStepIs(x: RecvSide, k: nat)
    requires RecvCan(x, k) && x.r.RPopulate? && x.r.i < |x.r.plan.fps|
    requires x.r.plan.fps[x.r.i].key in x.cache.index
    ensures var RPopulate(p, i, pos) := x.r; var f := p.fps[i]; var x' := RecvStep(x, k);
            && x'.r == RPopulate(p, i + 1, pos + f.size) && x'.buf == Splice(x.buf, pos, x.cache.index[f.key])
            && x'.fwd == x.fwd && x'.back == x.back && x'.cache == x.cache && x'.skip == x.skip
  {
    hide Splice;
  }

  // one more chunk is dealt with by writing it in its place
  lemma HitPlaced(m: Msg, p: Plan, buf: Bytes, buf': Bytes, i: nat)
    requires HasKeys(m) && i < |m.sizes| && Sorted(m, p, buf, i) && Placed(m, buf', i)
    requires forall j :: 0 <= j < |m.sizes| && j != i && Placed(m, buf, j) ==> Placed(m, buf', j)
    ensures Sorted(m, p, buf', i + 1)
  {
    hide Placed;
  }

  lemma MissStage(c: Config, m: Msg, a: seq<nat>, x: RecvSide, k: nat)
    requires HasKeys(m) && Ready(c, m, a, x, k) && x.r.RPopulate? && x.r.i < |m.sizes|
    requires m.keys[x.r.i] !in x.cache.index
    ensures Takes(c, m, a, x, RecvStep(x, k), [], [])
  {
    hide *;
    PopulateReady(c, m, a, x, k);
    OffsetStep(m.sizes, x.r.i);
    MissStepIs(x, k);
    MissNoted(m, x.r.plan, x.buf, x.r.i);
    Populated(c, m, a, x, RecvStep(x, k));
  }

  lemma MissStepIs(x: RecvSide, k: nat)
    requires RecvCan(x, k) && x.r.RPopulate? && x.r.i < |x.r.plan.fps|
    requires x.r.plan.fps[x.r.i].key !in x.cache.index
    ensures var RPopulate(p, i, pos) := x.r;
            RecvStep(x, k)
            == x.(r := RPopulate(p.(miss := p.miss + [i], slots := p.slots + [pos]), i + 1, pos + p.fps[i].size))
  {
  }

  // one more chunk is dealt with by noting it as missing
  lemma MissNoted(m: Msg, p: Plan, buf: Bytes, i: nat)
    requires HasKeys(m) && i < |m.sizes| && Sorted(m, p, buf, i)
    ensures Sorted(m, p.(miss := p.miss + [i], slots := p.slots + [Offset(m.sizes, i)]), buf, i + 1)
  {
    hide Placed, Offset, Fps;
    var miss' := p.miss + [i];
    assert forall j :: j in miss' <==> j in p.miss || j == i;
  }

  /** With all fingerprints looked up, the request for the missing ones is fixed. */
  lemma LookedUpStage(c: Config, m: Msg, a: seq<nat>, x: RecvSide, k: nat)
    requires HasKeys(m) && Ready(c, m, a, x, k) && x.r.RPopulate? && x.r.i == |m.sizes|
    ensures x.r.plan.fps == Fps(m) && Increasing(x.r.plan.miss, |m.sizes|)
    ensures Takes(c, m, x.r.plan.miss, x, RecvStep(x, k), [], [])
  {
    hide CacheOK, CollisionFree, Placed, MsgOK, Preamble;
  }

  lemma ReplyCountStage(c: Config, m: Msg, a: seq<nat>, x: RecvSide, k: nat) returns (replied: Bytes)
    requires HasKeys(m) && Ready(c, m, a, x, k) && x.r.RMissCount?
    ensures Takes(c, m, a, x, RecvStep(x, k), [], replied)
  {
    hide SeenF, SentB, ReceiverOK, Ready, RecvCan, RecvStep, MsgOK, Preamble, Encode, CacheOK, Asked;
    CountFacts(c, m, a, x, k);
    var RMissCount(p, off) := x.r;
    var b := Encode(|a|, 8);
    replied := b[off..off + k];
    assert b[..off] + replied == b[..off + k];
    assert b[..|b|] == b;
    CountStepIs(x, k);
    CountSent(m, a, p, off);
    CountSent(m, a, p, off + k);
    if a == [] { NoneAsked(m, p.size); }
    CountState(c, m, a, p, off, off + k, x.buf);
    assert SeenF(m, a, x.r) + [] == SeenF(m, a, x.r);
  }

  lemma CountFacts(c: Config, m: Msg, a: seq<nat>, x: RecvSide, k: nat)
    requires HasKeys(m) && Ready(c, m, a, x, k) && x.r.RMissCount?
    ensures MsgOK(c, m) && IsFp(m) && CacheOK(c, x.cache) && RecvCan(x, k) && ReceiverOK(m, a, x.r, x.buf)
    ensures x.r.plan.miss == a && x.r.off + k <= COUNT_BYTES
  {
    hide MsgOK, CollisionFree, CacheOK, Increasing, SeenF, Forward, Sorted, Placed;
  }

  lemma CountStepIs(x: RecvSide, k: nat)
    requires RecvCan(x, k) && x.r.RMissCount?
    ensures var RMissCount(p, off) := x.r; var b := Encode(|p.miss|, 8); var x' := RecvStep(x, k);
            && x'.r == (if off + k < |b| then RMissCount(p, off + k) else if p.miss == [] then RDone(p.size) else RMissInds(p, 0))
            && x'.back == x.back + b[off..off + k]
            && x'.buf == x.buf && x'.fwd == x.fwd && x'.cache == x.cache && x'.skip == x.skip
  {
    hide Encode;
  }

  lemma CountSent(m: Msg, a: seq<nat>, p: Plan, off: nat)
    requires HasKeys(m) && IsFp(m) && p.miss == a
    ensures SentB(m, a, RMissCount(p, off)) == Take(Encode(|a|, 8), off)
    ensures SentB(m, a, RMissInds(p, 0)) == Encode(|a|, 8)
    ensures SeenF(m, a, RMissCount(p, off)) == SeenF(m, a, RMissInds(p, 0)) == Preamble(m)
  {
    hide Encode, EncodeIndices, Preamble;
  }

  lemma NoneAsked(m: Msg, size: nat)
    requires HasKeys(m) && IsFp(m)
    ensures SentB(m, [], RDone(size)) == Encode(0, 8) && SeenF(m, [], RDone(size)) == Preamble(m)
  {
    NothingMissing(m);
    hide Encode, Preamble, Backward, Forward;
  }

  // the count is sent in part, or the indices are next, or nothing is missing
  lemma CountState(c: Config, m: Msg, a: seq<nat>, p: Plan, off: nat, off': nat, buf: Bytes)
    requires MsgOK(c, m) && ReceiverOK(m, a, RMissCount(p, off), buf)
    ensures off' < COUNT_BYTES ==> ReceiverOK(m, a, RMissCount(p, off'), buf)
    ensures a != [] ==> ReceiverOK(m, a, RMissInds(p, 0), buf)
    ensures a == [] ==> ReceiverOK(m, a, RDone(p.size), buf)
  {
    if a == [] { Complete(c, m, a, p, buf); }
    hide Placed, MsgOK;
  }

  lemma ReplyIndicesStage(c: Config, m: Msg, a: seq<nat>, x: RecvSide, k: nat) returns (replied: Bytes)
    requires HasKeys(m) && Ready(c, m, a, x, k) && x.r.RMissInds?
    ensures Takes(c, m, a, x, RecvStep(x, k), [], replied)
  {
    hide SeenF, SentB, ReceiverOK, Ready, RecvCan, RecvStep, MsgOK, Asked, Preamble, EncodeIndices, Encode, CacheOK,
         Increasing;
    RequestFacts(c, m, a, x, k);
    var RMissInds(p, off) := x.r;
    var b := EncodeIndices(a);
    replied := b[off..off + k];
    TakeMore(Encode(|a|, 8), b, off, k);
    RequestStepIs(x, k);
    RequestReady(c, m, a, p, x.buf);
    RequestSent(m, a, p, off);
    if off + k < |b| {
      RequestSent(m, a, p, off + k);
      RequestState(m, a, p, off, off + k, x.buf);
    }
    assert SeenF(m, a, x.r) + [] == SeenF(m, a, x.r);
  }

  lemma RequestFacts(c: Config, m: Msg, a: seq<nat>, x: RecvSide, k: nat)
    requires HasKeys(m) && Ready(c, m, a, x, k) && x.r.RMissInds?
    ensures MsgOK(c, m) && IsFp(m) && CacheOK(c, x.cache) && Increasing(a, |m.sizes|) && RecvCan(x, k)
    ensures x.r.plan.miss == a != [] && Asked(m, a, x.r.plan, x.buf, 0) && x.r.off + k <= INDEX_BYTES * |a|
    ensures |x.buf| == |m.init| && x.buf[|m.data|..] == m.init[|m.data|..]
    ensures ReceiverOK(m, a, x.r, x.buf)
  {
    hide MsgOK, CollisionFree, CacheOK, Increasing, Sorted, Placed, SeenF, Forward;
  }

  lemma RequestSent(m: Msg, a: seq<nat>, p: Plan, off: nat)
    requires HasKeys(m) && IsFp(m) && p.miss == a
    ensures SentB(m, a, RMissInds(p, off)) == Encode(|a|, 8) + Take(EncodeIndices(a), off)
    ensures SentB(m, a, RContent(p, 0, 0)) == Encode(|a|, 8) + EncodeIndices(a)
    ensures SeenF(m, a, RMissInds(p, off)) == Preamble(m)
  {
    hide Encode, EncodeIndices, Preamble;
  }

  lemma RequestState(m: Msg, a: seq<nat>, p: Plan, off: nat, off': nat, buf: Bytes)
    requires HasKeys(m) && ReceiverOK(m, a, RMissInds(p, off), buf) && off' < INDEX_BYTES * |a|
    ensures ReceiverOK(m, a, RMissInds(p, off'), buf)
  {
    hide Asked;
  }

  lemma RequestStepIs(x: RecvSide, k: nat)
    requires RecvCan(x, k) && x.r.RMissInds?
    ensures var RMissInds(p, off) := x.r; var b := EncodeIndices(p.miss); var x' := RecvStep(x, k);
            && x'.r == (if off + k < |b| then RMissInds(p, off + k) else RContent(p, 0, 0))
            && x'.back == x.back + b[off..off + k]
            && x'.buf == x.buf && x'.fwd == x.fwd && x'.cache == x.cache && x'.skip == x.skip
  {
    hide EncodeIndices;
  }

  // with the request sent, the first missing chunk is next
  lemma RequestReady(c: Config, m: Msg, a: seq<nat>, p: Plan, buf: Bytes)
    requires MsgOK(c, m) && IsFp(m) && |buf| == |m.init| && Asked(m, a, p, buf, 0) && a != []
    requires buf[|m.data|..] == m.init[|m.data|..] && Increasing(a, |m.sizes|)
    ensures ReceiverOK(m, a, RContent(p, 0, 0), buf)
    ensures SeenF(m, a, RContent(p, 0, 0)) == Preamble(m)
  {
    NextSlot(c, m, a, p, buf, 0);
    ContentState(c, m, a, p, buf, 0, 0);
    PieceSize(c, m, a[0]);
    hide ReceiverOK, MsgOK, Asked, Piece, Preamble;
    assert Preamble(m) + [] + [] == Preamble(m);
  }

  // the middle of a stream part, cut out
  lemma Middle(whole: Bytes, pre: Bytes, piece: Bytes, rest: Bytes, off: nat, got: Bytes)
    requires whole == pre + (piece + rest) && off + |got| <= |piece|
    requires pre + piece[..off] + got == whole[..|pre| + off + |got|]
    ensures got == piece[off..off + |got|]
  {
    assert pre + piece[..off] + got == pre + (piece[..off] + got);
    BytesAfter(whole, pre, piece[..off] + got, piece + rest);
    assert (piece[..off] + got)[off..] == got;
  }

  lemma ReadyContent(c: Config, m: Msg, a: seq<nat>, x: RecvSide, k: nat)
    requires HasKeys(m) && Ready(c, m, a, x, k) && x.r.RContent?
    ensures var RContent(p, ind, off) := x.r;
            && IsFp(m) && MsgOK(c, m) && CacheOK(c, x.cache) && ReceiverOK(m, a, x.r, x.buf)
            && ind < |a| && a[ind] < |m.sizes| && Asked(m, a, p, x.buf, ind)
            && p.slots[ind] + off <= |x.buf| == |m.init|
            && x.buf[|m.data|..] == m.init[|m.data|..]
            && off + k <= |Piece(m, a[ind])| == m.sizes[a[ind]] && k <= |x.fwd|
            && x.buf[p.slots[ind]..p.slots[ind] + off] == Piece(m, a[ind])[..off]
            && SeenF(m, a, x.r) == Preamble(m) + Content(m, a, ind) + Piece(m, a[ind])[..off]
            && |SeenF(m, a, x.r)| + k <= |Forward(m, a)|
            && SeenF(m, a, x.r) + x.fwd[..k] == Forward(m, a)[..|SeenF(m, a, x.r)| + k]
  {
    var RContent(p, ind, off) := x.r;
    PieceSize(c, m, a[ind]);
    var rest := ContentSplit(m, a, ind);
    AskedFacts(c, m, a, p, x.buf, ind);
    hide CollisionFree, Increasing, Piece, Tiles, Preamble, Content, Sorted, Placed, CacheOK, Forward, MissSize;
  }

  /** The bytes of a missing chunk land where the chunk belongs. */
  lemma ContentBytes(c: Config, m: Msg, a: seq<nat>, x: RecvSide, k: nat)
    requires HasKeys(m) && Ready(c, m, a, x, k) && x.r.RContent?
    ensures var RContent(p, ind, off) := x.r;
            && ind < |a| && a[ind] < |m.sizes| && k <= |x.fwd|
            && off + k <= m.sizes[a[ind]] == |Piece(m, a[ind])|
            && x.fwd[..k] == Piece(m, a[ind])[off..off + k]
  {
    hide *;
    ReadyContent(c, m, a, x, k);
    var RContent(p, ind, off) := x.r;
    var rest := ContentSplit(m, a, ind);
    Middle(Forward(m, a), Preamble(m) + Content(m, a, ind), Piece(m, a[ind]), rest, off, x.fwd[..k]);
  }

  // the forward stream around one of the missing chunks
  lemma ContentSplit(m: Msg, a: seq<nat>, ind: nat) returns (rest: Bytes)
    requires HasKeys(m) && IsFp(m) && ind < |a| && a[ind] < |m.sizes|
    ensures Forward(m, a) == Preamble(m) + Content(m, a, ind) + (Piece(m, a[ind]) + rest)
  {
    hide Preamble, Piece;
    ContentPrefix(m, a, ind + 1, |a|);
    var all, upto := Content(m, a, |a|), Content(m, a, ind + 1);
    rest := all[|upto|..];
    assert all == upto + rest;
    assert upto == Content(m, a, ind) + Piece(m, a[ind]);
  }

  lemma ContentWrite(c: Config, m: Msg, a: seq<nat>, p: Plan, buf: Bytes, ind: nat, off: nat, b: Bytes)
    requires MsgOK(c, m) && IsFp(m) && |buf| == |m.init| && Asked(m, a, p, buf, ind) && ind < |a|
    requires off + |b| <= m.sizes[a[ind]] && p.slots[ind] + off <= |buf| && off <= |Piece(m, a[ind])|
    requires buf[p.slots[ind]..p.slots[ind] + off] == Piece(m, a[ind])[..off]
    requires off + |b| <= |Piece(m, a[ind])| && b == Piece(m, a[ind])[off..off + |b|]
    ensures p.slots[ind] + off + |b| <= |buf|
    ensures var buf' := Splice(buf, p.slots[ind] + off, b);
            && buf'[|m.data|..] == buf[|m.data|..]
            && buf'[p.slots[ind]..p.slots[ind] + off + |b|] == Piece(m, a[ind])[..off + |b|]
            && Asked(m, a, p, buf', if off + |b| == m.sizes[a[ind]] then ind + 1 else ind)
  {
    hide MsgOK, Splice, Piece, Placed, Asked, Offset;
    AskedFacts(c, m, a, p, buf, ind);
    var piece, at := Piece(m, a[ind]), p.slots[ind];
    OthersKept(c, m, buf, a[ind], off, b);
    SpliceGrows(buf, at, off, b);
    assert piece[..off] + b == piece[..off + |b|];
    var buf' := Splice(buf, at + off, b);
    if off + |b| == m.sizes[a[ind]] {
      PlacedWhole(m, buf', a[ind]);
    }
    AskedKept(m, a, p, buf, buf', ind);
  }

  lemma PlacedWhole(m: Msg, buf: Bytes, i: nat)
    requires i < |m.sizes| && m.sizes[i] == |Piece(m, i)| && Offset(m.sizes, i) + m.sizes[i] <= |buf|
    requires buf[Offset(m.sizes, i)..Offset(m.sizes, i) + m.sizes[i]] == Piece(m, i)[..m.sizes[i]]
    ensures Placed(m, buf, i)
  {
    hide Piece;
  }

  // writing to the missing chunk that is next disturbs nothing, and may complete it
  lemma AskedKept(m: Msg, a: seq<nat>, p: Plan, buf: Bytes, buf': Bytes, ind: nat)
    requires HasKeys(m) && Asked(m, a, p, buf, ind) && ind < |a| && a[ind] < |m.sizes|
    requires forall j :: 0 <= j < |m.sizes| && j != a[ind] && Placed(m, buf, j) ==> Placed(m, buf', j)
    ensures Asked(m, a, p, buf', ind)
    ensures Placed(m, buf', a[ind]) ==> Asked(m, a, p, buf', ind + 1)
  {
    hide Placed;
  }

  lemma SpliceGrows(buf: Bytes, at: nat, off: nat, b: Bytes)
    requires at + off + |b| <= |buf|
    ensures Splice(buf, at + off, b)[at..at + off + |b|] == buf[at..at + off] + b
  {
  }

  /** Where a receiver stands after `off` bytes of the missing chunk number `ind`. */
  function Advanced(p: Plan, ind: nat, off: nat): Receiver
  {
    if off < MissSize(p, ind) then RContent(p, ind, off)
    else if ind + 1 < |p.miss| then RContent(p, ind + 1, 0) else RInsert(p, 0)
  }

  /** The state after `k` more bytes of a missing chunk. */
  lemma ContentStepIs(x: RecvSide, k: nat)
    requires RecvCan(x, k) && x.r.RContent?
    ensures var RContent(p, ind, off) := x.r; var x' := RecvStep(x, k);
            && x'.r == Advanced(p, ind, off + k)
            && x'.buf == Splice(x.buf, p.slots[ind] + off, x.fwd[..k])
            && x'.fwd == x.fwd[k..] && x'.back == x.back && x'.cache == x.cache && x'.skip == x.skip
  {
    hide MissSize, Splice;
  }

  lemma AskedFacts(c: Config, m: Msg, a: seq<nat>, p: Plan, buf: Bytes, ind: nat)
    requires MsgOK(c, m) && IsFp(m) && Asked(m, a, p, buf, ind) && |buf| == |m.init|
    ensures HasKeys(m) && p.miss == a && |p.slots| == |a| && p.size == |m.data| && ind <= |a|
    ensures forall i :: 0 <= i < |a| ==>
              && a[i] < |m.sizes| && MissSize(p, i) == m.sizes[a[i]] == |Piece(m, a[i])| > 0
              && p.slots[i] == Offset(m.sizes, a[i]) && p.slots[i] + m.sizes[a[i]] <= |m.data| <= |buf|
  {
    forall i | 0 <= i < |a|
      ensures Offset(m.sizes, a[i]) + m.sizes[a[i]] <= |m.data| && |Piece(m, a[i])| == m.sizes[a[i]] > 0
    {
      PieceSize(c, m, a[i]);
    }
  }

  // the local state in the middle of a missing chunk, or after the last one
  lemma ContentState(c: Config, m: Msg, a: seq<nat>, p: Plan, buf: Bytes, ind: nat, off: nat)
    requires MsgOK(c, m) && IsFp(m) && |buf| == |m.init| && Asked(m, a, p, buf, ind)
    requires buf[|m.data|..] == m.init[|m.data|..]
    requires ind < |a| ==>
               && off < MissSize(p, ind) && p.slots[ind] + off <= |buf| && a[ind] < |m.sizes| && off <= |Piece(m, a[ind])|
               && buf[p.slots[ind]..p.slots[ind] + off] == Piece(m, a[ind])[..off]
    ensures ReceiverOK(m, a, if ind < |a| then RContent(p, ind, off) else RInsert(p, 0), buf)
  {
    hide Asked, Piece, Tiles, MissSize;
    AskedFacts(c, m, a, p, buf, ind);
  }

  // and what it has taken in
  lemma ContentSeen(m: Msg, a: seq<nat>, p: Plan, ind: nat, off: nat)
    requires HasKeys(m) && IsFp(m) && p.miss == a && ind < |a| && a[ind] < |m.sizes| && off <= |Piece(m, a[ind])|
    requires MissSize(p, ind) == |Piece(m, a[ind])|
    ensures SeenF(m, a, Advanced(p, ind, off)) == Preamble(m) + Content(m, a, ind) + Piece(m, a[ind])[..off]
    ensures SentB(m, a, Advanced(p, ind, off)) == Backward(m, a)
  {
    hide Preamble, Piece, MissSize, Backward;
    var piece := Piece(m, a[ind]);
    assert piece[..|piece|] == piece;
    assert Preamble(m) + Content(m, a, ind + 1) == Preamble(m) + Content(m, a, ind) + piece;
    if ind + 1 < |a| { assert PartOf(m, a, ind + 1, 0) == []; }
  }

  lemma ContentStage(c: Config, m: Msg, a: seq<nat>, x: RecvSide, k: nat)
    requires HasKeys(m) && Ready(c, m, a, x, k) && x.r.RContent?
    ensures Takes(c, m, a, x, RecvStep(x, k), x.fwd[..k], [])
  {
    hide RecvCan, Ready, RecvStep, CacheOK, MsgOK, Asked, ReceiverOK, SeenF, SentB, Preamble, Content, Piece, Splice, MissSize,
         Advanced;
    ReadyContent(c, m, a, x, k);
    ReadyCan(c, m, a, x, k);
    ContentStepIs(x, k);
    ContentLands(c, m, a, x, k);
    ContentTaken(c, m, a, x, k);
  }

  // what the receiver has taken in by then
  lemma ContentTaken(c: Config, m: Msg, a: seq<nat>, x: RecvSide, k: nat)
    requires HasKeys(m) && Ready(c, m, a, x, k) && x.r.RContent? && k <= |x.fwd|
    ensures SeenF(m, a, Advanced(x.r.plan, x.r.ind, x.r.off + k)) == SeenF(m, a, x.r) + x.fwd[..k]
    ensures SentB(m, a, Advanced(x.r.plan, x.r.ind, x.r.off + k)) == SentB(m, a, x.r)
  {
    hide RecvCan, Ready, RecvStep, CacheOK, MsgOK, Asked, ReceiverOK, SeenF, SentB, Preamble, Content, Piece, Splice, MissSize,
         Advanced;
    ReadyContent(c, m, a, x, k);
    ContentBytes(c, m, a, x, k);
    var RContent(p, ind, off) := x.r;
    AskedFacts(c, m, a, p, x.buf, ind);
    ContentHere(c, m, a, p, x.buf, ind, off);
    ContentSeen(m, a, p, ind, off);
    ContentSeen(m, a, p, ind, off + k);
    TakeMore(Preamble(m) + Content(m, a, ind), Piece(m, a[ind]), off, k);
  }

  // and where it stands
  lemma ContentLands(c: Config, m: Msg, a: seq<nat>, x: RecvSide, k: nat)
    requires HasKeys(m) && Ready(c, m, a, x, k) && x.r.RContent? && k <= |x.fwd|
    requires x.r.ind < |x.r.plan.slots| && x.r.plan.slots[x.r.ind] + x.r.off + k <= |x.buf|
    ensures ReceiverOK(m, a, Advanced(x.r.plan, x.r.ind, x.r.off + k),
                       Splice(x.buf, x.r.plan.slots[x.r.ind] + x.r.off, x.fwd[..k]))
  {
    hide RecvCan, Ready, CacheOK, MsgOK, Asked, ReceiverOK, SeenF, Preamble, Content, Piece, Splice, MissSize, Advanced;
    ReadyContent(c, m, a, x, k);
    ContentBytes(c, m, a, x, k);
    var RContent(p, ind, off) := x.r;
    AskedFacts(c, m, a, p, x.buf, ind);
    ContentWrite(c, m, a, p, x.buf, ind, off, x.fwd[..k]);
    ContentNext(c, m, a, p, Splice(x.buf, p.slots[ind] + off, x.fwd[..k]), ind, off + k);
  }

  lemma ContentHere(c: Config, m: Msg, a: seq<nat>, p: Plan, buf: Bytes, ind: nat, off: nat)
    requires HasKeys(m) && ReceiverOK(m, a, RContent(p, ind, off), buf) && MissSize(p, ind) == m.sizes[a[ind]]
    ensures Advanced(p, ind, off) == RContent(p, ind, off)
  {
    hide Asked, MissSize;
  }

  lemma ContentNext(c: Config, m: Msg, a: seq<nat>, p: Plan, buf: Bytes, ind: nat, off: nat)
    requires MsgOK(c, m) && IsFp(m) && |buf| == |m.init| && buf[|m.data|..] == m.init[|m.data|..]
    requires ind < |a| && a[ind] < |m.sizes| && off <= |Piece(m, a[ind])| == m.sizes[a[ind]] == MissSize(p, ind)
    requires Asked(m, a, p, buf, if off == m.sizes[a[ind]] then ind + 1 else ind)
    requires ind < |p.slots| && p.slots[ind] + off <= |buf|
    requires buf[p.slots[ind]..p.slots[ind] + off] == Piece(m, a[ind])[..off]
    ensures ReceiverOK(m, a, Advanced(p, ind, off), buf)
  {
    hide MsgOK, Asked, ReceiverOK, Piece, MissSize;
    if off < MissSize(p, ind) {
      ContentState(c, m, a, p, buf, ind, off);
    } else {
      AskedFacts(c, m, a, p, buf, ind + 1);
      NextSlot(c, m, a, p, buf, ind + 1);
      ContentState(c, m, a, p, buf, ind + 1, 0);
    }
  }

  lemma NextSlot(c: Config, m: Msg, a: seq<nat>, p: Plan, buf: Bytes, ind: nat)
    requires MsgOK(c, m) && IsFp(m) && Asked(m, a, p, buf, ind) && |buf| == |m.init|
    ensures ind <= |a|
    ensures ind < |a| ==>
              && a[ind] < |m.sizes| && p.slots[ind] <= |buf| && 0 < MissSize(p, ind)
              && buf[p.slots[ind]..p.slots[ind]] == Piece(m, a[ind])[..0]
  {
    AskedFacts(c, m, a, p, buf, ind);
  }

  lemma ReadyCan(c: Config, m: Msg, a: seq<nat>, x: RecvSide, k: nat)
    requires HasKeys(m) && Ready(c, m, a, x, k)
    ensures RecvCan(x, k)
  {
  }

  /** The chunk to be inserted is the one its fingerprint names. */
  lemma InsertContent(c: Config, m: Msg, a: seq<nat>, x: RecvSide, k: nat)
    requires HasKeys(m) && Ready(c, m, a, x, k) && x.r.RInsert? && x.r.i < |a|
    ensures var RInsert(p, i) := x.r;
            && x.buf[p.slots[i]..p.slots[i] + MissSize(p, i)] == Piece(m, a[i])
            && p.fps[p.miss[i]].key == m.keys[a[i]]
  {
    var RInsert(p, i) := x.r;
    assert Placed(m, x.buf, a[i]);
    AskedFacts(c, m, a, p, x.buf, |a|);
    hide MsgOK, CollisionFree, CacheOK, Piece, Forward;
  }

  /** Inserting an inbound chunk files it under its own fingerprint. */
  lemma InsertStage(c: Config, m: Msg, a: seq<nat>, x: RecvSide, k: nat)
    requires HasKeys(m) && Ready(c, m, a, x, k) && x.r.RInsert?
    ensures Takes(c, m, a, x, RecvStep(x, k), [], [])
  {
    var RInsert(p, i) := x.r;
    Complete(c, m, a, p, x.buf);
    InsertCache(c, m, a, x, k);
    InsertState(c, m, a, x, k);
    InsertStepIs(x, k);
    hide RecvStep, CollisionFree, Preamble, Piece, CacheOK, Forward, Backward, Asked, MsgOK, Store, Fits, ReceiverOK, MissSize;
  }

  lemma InsertCache(c: Config, m: Msg, a: seq<nat>, x: RecvSide, k: nat)
    requires HasKeys(m) && Ready(c, m, a, x, k) && x.r.RInsert?
    ensures CacheOK(c, RecvStep(x, k).cache)
  {
    hide *;
    InsertReady(c, m, a, x, k);
    var RInsert(p, i) := x.r;
    InsertCacheIs(x, k);
    if i < |p.miss| {
      InsertContent(c, m, a, x, k);
      ChunkFiled(c, m, a[i]);
      StoreOK(c, x.cache, m.keys[a[i]], Piece(m, a[i]));
    }
  }

  lemma InsertReady(c: Config, m: Msg, a: seq<nat>, x: RecvSide, k: nat)
    requires HasKeys(m) && Ready(c, m, a, x, k) && x.r.RInsert?
    ensures MsgOK(c, m) && IsFp(m) && CacheOK(c, x.cache) && RecvCan(x, k) && |m.keys| == |m.sizes|
    ensures x.r.plan.miss == a && x.r.i <= |a| && forall i :: 0 <= i < |a| ==> a[i] < |m.sizes|
  {
    hide CollisionFree, Placed, CacheOK, SeenF, Forward, MsgOK, RecvCan;
  }

  lemma ChunkFiled(c: Config, m: Msg, i: nat)
    requires MsgOK(c, m) && IsFp(m) && i < |m.sizes|
    ensures Piece(m, i) in c.contents && c.fp(Piece(m, i)) == m.keys[i]
  {
    hide Piece;
  }

  // an insert changes the cache by the chunk at its slot, or not at all
  lemma InsertCacheIs(x: RecvSide, k: nat)
    requires RecvCan(x, k) && x.r.RInsert?
    ensures var RInsert(p, i) := x.r; var cache' := RecvStep(x, k).cache;
            cache' == x.cache
            || (i < |p.miss| == |p.slots| && p.miss[i] < |p.fps| && p.slots[i] + MissSize(p, i) <= |x.buf|
                && cache' == Store(x.cache, p.fps[p.miss[i]].key, x.buf[p.slots[i]..p.slots[i] + MissSize(p, i)]))
  {
    hide MissSize, Fits, Store;
  }

  lemma InsertStepIs(x: RecvSide, k: nat)
    requires RecvCan(x, k) && x.r.RInsert?
    ensures var RInsert(p, i) := x.r; var x' := RecvStep(x, k);
            && (x'.r == RDone(p.size) || (x'.r == RInsert(p, i + 1) && i < |p.miss|))
            && x'.buf == x.buf && x'.fwd == x.fwd && x'.back == x.back
  {
    hide MissSize, Fits, Store;
  }

  lemma InsertState(c: Config, m: Msg, a: seq<nat>, x: RecvSide, k: nat)
    requires HasKeys(m) && Ready(c, m, a, x, k) && x.r.RInsert?
    ensures ReceiverOK(m, a, RecvStep(x, k).r, RecvStep(x, k).buf)
  {
    Complete(c, m, a, x.r.plan, x.buf);
    AskedFacts(c, m, a, x.r.plan, x.buf, |a|);
    InsertStepIs(x, k);
    hide CollisionFree, Preamble, Piece, Tiles, CacheOK, Forward, Asked, MsgOK, MissSize, RecvStep;
  }

  lemma StoreOK(c: Config, cache: Cache, k: Key, x: Bytes)
    requires CacheOK(c, cache)
    ensures x in c.contents && c.fp(x) == k ==> CacheOK(c, Store(cache, k, x))
  {
  }
}
