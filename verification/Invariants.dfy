/** What holds in every reachable state of a connection. */
module Invariants {
  import opened ByteStrings
  import opened Settings
  import opened Probing
  import opened CacheSpec
  import opened Tiling
  import opened Wire
  import opened Protocol
  import opened Streams

  // ---- the setting ----

  /** The message fits the posted buffer; a fingerprinted one is tiled by its chunks, whose fingerprints
      are the ones sent and whose contents are among those compared, and the arrays of a request have
      room for them. */
  ghost predicate MsgOK(c: Config, m: Msg)
  {
    && |m.data| <= |m.init| && |m.data| < U64_LIMIT
    && HasKeys(m)
    && (IsFp(m) ==>
          && Tiles(m.sizes, |m.data|) && |m.sizes| <= MAX_FINGERPRINTS
          && forall i :: 0 <= i < |m.sizes| ==> Piece(m, i) in c.contents && m.keys[i] == c.fp(Piece(m, i)))
  }

  /** The stated assumption on the digest: no two of the contents compared collide, none is all zero. */
  ghost predicate CollisionFree(c: Config)
  {
    && (forall x, y :: x in c.contents && y in c.contents && c.fp(x) == c.fp(y) ==> x == y)
    && (forall x :: x in c.contents ==> c.fp(x) != 0)
  }

  ghost predicate ConfigOK(c: Config)
  {
    CollisionFree(c) && forall i :: 0 <= i < |c.msgs| ==> MsgOK(c, c.msgs[i])
  }

  // ---- one side ----

  /** Chunk indices in increasing order, below `n`. */
  predicate Increasing(a: seq<nat>, n: nat)
  {
    && (forall i :: 0 <= i < |a| ==> a[i] < n)
    && (forall i, j :: 0 <= i < j < |a| ==> a[i] < a[j])
  }

  predicate SenderOK(m: Msg, a: seq<nat>, s: Sender)
    requires HasKeys(m)
  {
    match s
    case SHeader => true
    case SPlain(off) => !IsFp(m) && off <= |m.data|
    case SCompute => IsFp(m)
    case SInsert(i) => IsFp(m) && i <= |m.sizes|
    case SCount => IsFp(m)
    case SFps(off) => IsFp(m) && off < FINGERPRINT_BYTES * |m.sizes|
    case SMissCount(got) => IsFp(m) && |got| < COUNT_BYTES
    case SMissInds(n, got) => IsFp(m) && n == |a| > 0 && |got| < INDEX_BYTES * n
    case SContent(miss, ind, off) => IsFp(m) && miss == a && ind < |a| && a[ind] < |m.sizes| && off < m.sizes[a[ind]]
    case SDone => true
  }

  /** The chunk stands at its place in the buffer. */
  predicate Placed(m: Msg, buf: Bytes, i: nat)
    requires i < |m.sizes|
  {
    var lo := Offset(m.sizes, i);
    lo + m.sizes[i] <= |buf| && buf[lo..lo + m.sizes[i]] == Piece(m, i)
  }

  /** The first `i` fingerprints are dealt with: a chunk is in place or noted as missing with its offset. */
  ghost predicate Sorted(m: Msg, p: Plan, buf: Bytes, i: nat)
    requires HasKeys(m) && i <= |m.sizes|
  {
    && p.size == |m.data| && p.fps == Fps(m)
    && Increasing(p.miss, i) && |p.slots| == |p.miss|
    && (forall j :: 0 <= j < |p.miss| ==> p.slots[j] == Offset(m.sizes, p.miss[j]))
    && (forall j :: 0 <= j < i && j !in p.miss ==> Placed(m, buf, j))
  }

  /** All fingerprints are dealt with, and the first `ind` of the missing chunks have come in. */
  ghost predicate Asked(m: Msg, a: seq<nat>, p: Plan, buf: Bytes, ind: nat)
    requires HasKeys(m)
  {
    && p.miss == a && ind <= |a|
    && Sorted(m, p, buf, |m.sizes|)
    && (forall j :: 0 <= j < ind ==> Placed(m, buf, a[j]))
  }

  ghost predicate ReceiverOK(m: Msg, a: seq<nat>, r: Receiver, buf: Bytes)
    requires HasKeys(m)
  {
    && |buf| == |m.init| >= |m.data|
    && buf[|m.data|..] == m.init[|m.data|..]
    && match r
       case RHeader => buf == m.init
       case RPlain(size, off) => !IsFp(m) && size == |m.data| && off <= size && buf[..off] == m.data[..off]
       case RCount(size) => IsFp(m) && size == |m.data|
       case RFps(size, n, got) =>
         IsFp(m) && size == |m.data| && n == |m.sizes| && |got| < FINGERPRINT_BYTES * n
       case RPopulate(p, i, pos) =>
         IsFp(m) && i <= |m.sizes| && pos == Offset(m.sizes, i) && Sorted(m, p, buf, i)
       case RMissCount(p, off) => IsFp(m) && off < COUNT_BYTES && Asked(m, a, p, buf, 0)
       case RMissInds(p, off) => IsFp(m) && off < INDEX_BYTES * |a| && Asked(m, a, p, buf, 0)
       case RContent(p, ind, off) =>
         && IsFp(m) && Asked(m, a, p, buf, ind) && ind < |a|
         && off < m.sizes[a[ind]] && p.slots[ind] + off <= |buf| && off <= |Piece(m, a[ind])|
         && buf[p.slots[ind]..p.slots[ind] + off] == Piece(m, a[ind])[..off]
       case RInsert(p, i) => IsFp(m) && Asked(m, a, p, buf, |a|) && i <= |a|
       case RDone(size) => size == |m.data| && buf[..|m.data|] == m.data
  }

  // ---- the connection ----

  ghost predicate Shape(c: Config, st: State)
  {
    && ConfigOK(c) && AllKeys(c)
    && st.si <= |c.msgs| && st.rj <= |c.msgs| == |st.asked|
    && (st.si == |c.msgs| ==> st.s == SHeader) && (st.rj == |c.msgs| ==> st.r == RHeader)
  }

  function SentTotal(c: Config, st: State): Bytes
    requires AllKeys(c) && st.si <= |c.msgs| == |st.asked|
  {
    CatF(c, st.asked, st.si) + (if st.si < |c.msgs| then SentF(c.msgs[st.si], st.asked[st.si], st.s) else [])
  }

  function SeenTotal(c: Config, st: State): Bytes
    requires AllKeys(c) && st.rj <= |c.msgs| == |st.asked|
  {
    CatF(c, st.asked, st.rj) + (if st.rj < |c.msgs| then SeenF(c.msgs[st.rj], st.asked[st.rj], st.r) else [])
  }

  function RepliedTotal(c: Config, st: State): Bytes
    requires st.rj <= |c.msgs| == |st.asked|
  {
    CatB(c, st.asked, st.rj) + (if st.rj < |c.msgs| then SentB(c.msgs[st.rj], st.asked[st.rj], st.r) else [])
  }

  function HeardTotal(c: Config, st: State): Bytes
    requires st.si <= |c.msgs| == |st.asked|
  {
    CatB(c, st.asked, st.si) + (if st.si < |c.msgs| then SeenB(c.msgs[st.si], st.asked[st.si], st.s) else [])
  }

  /** What is in flight is what one side has sent and the other has not taken in. */
  ghost predicate StreamsOK(c: Config, st: State)
    requires Shape(c, st)
  {
    && SentTotal(c, st) == SeenTotal(c, st) + st.fwd
    && RepliedTotal(c, st) == HeardTotal(c, st) + st.back
  }

  /** The message, and after it whatever the buffer held before. */
  function Delivered(m: Msg): Bytes
  {
    m.data + (if |m.data| <= |m.init| then m.init[|m.data|..] else [])
  }

  ghost predicate SidesOK(c: Config, st: State)
    requires Shape(c, st)
  {
    && (forall k :: 0 <= k < |c.msgs| ==> Increasing(st.asked[k], |c.msgs[k].sizes|))
    && (st.si < |c.msgs| ==> SenderOK(c.msgs[st.si], st.asked[st.si], st.s))
    && (st.rj < |c.msgs| ==> ReceiverOK(c.msgs[st.rj], st.asked[st.rj], st.r, st.buf))
    && |st.done| == st.rj
    && (forall k :: 0 <= k < st.rj ==> st.done[k] == Delivered(c.msgs[k]))
  }

  ghost predicate Inv(c: Config, st: State)
  {
    && Shape(c, st)
    && SidesOK(c, st)
    && StreamsOK(c, st)
    && CacheOK(c, st.sc) && CacheOK(c, st.rc)
  }

  // ---- a side is never past its part of a stream ----

  lemma SentWithin(m: Msg, a: seq<nat>, s: Sender)
    requires HasKeys(m) && SenderOK(m, a, s)
    ensures SentF(m, a, s) <= Forward(m, a)
  {
    if s.SContent? { ContentPart(m, a, s.ind, s.off); }
  }

  lemma RepliedWithin(m: Msg, a: seq<nat>, r: Receiver, buf: Bytes)
    requires HasKeys(m) && ReceiverOK(m, a, r, buf)
    ensures SentB(m, a, r) <= Backward(m, a)
  {
  }

  /** The totals are prefixes of the streams of all messages. */
  lemma TotalsWithin(c: Config, st: State)
    requires Shape(c, st) && SidesOK(c, st)
    ensures SentTotal(c, st) <= CatF(c, st.asked, |c.msgs|)
    ensures RepliedTotal(c, st) <= CatB(c, st.asked, |c.msgs|)
  {
    hide SentF, SentB, SenderOK, ReceiverOK, Forward, Backward, ConfigOK;
    if st.si < |c.msgs| {
      SentWithin(c.msgs[st.si], st.asked[st.si], st.s);
      CatFGrows(c, st.asked, st.si + 1, |c.msgs|);
    }
    if st.rj < |c.msgs| {
      RepliedWithin(c.msgs[st.rj], st.asked[st.rj], st.r, st.buf);
      CatBGrows(c, st.asked, st.rj + 1, |c.msgs|);
    }
  }

  /** The next `k` bytes for the receiver are the next ones of its message. */
  lemma NextForward(c: Config, st: State, k: nat)
    requires Inv(c, st) && st.rj < |c.msgs| && k <= |st.fwd|
    requires |SeenF(c.msgs[st.rj], st.asked[st.rj], st.r)| + k <= |Forward(c.msgs[st.rj], st.asked[st.rj])|
    ensures var m, a := c.msgs[st.rj], st.asked[st.rj]; var x := SeenF(m, a, st.r);
            x + st.fwd[..k] == Forward(m, a)[..|x| + k]
  {
    hide SeenF, SentF, SentB, SeenB, Forward, Backward, SenderOK, ReceiverOK, ConfigOK, CacheOK;
    var m, a := c.msgs[st.rj], st.asked[st.rj];
    TotalsWithin(c, st);
    CatFGrows(c, st.asked, st.rj + 1, |c.msgs|);
    NextBytes(CatF(c, st.asked, st.rj), SeenF(m, a, st.r), st.fwd, k, Forward(m, a), CatF(c, st.asked, |c.msgs|));
  }

  /** The next `k` bytes for the sender are the next ones of the reply to its message. */
  lemma NextBackward(c: Config, st: State, k: nat)
    requires Inv(c, st) && st.si < |c.msgs| && k <= |st.back|
    requires |SeenB(c.msgs[st.si], st.asked[st.si], st.s)| + k <= |Backward(c.msgs[st.si], st.asked[st.si])|
    ensures var m, a := c.msgs[st.si], st.asked[st.si]; var x := SeenB(m, a, st.s);
            x + st.back[..k] == Backward(m, a)[..|x| + k]
  {
    hide SeenF, SentF, SentB, SeenB, Forward, Backward, SenderOK, ReceiverOK, ConfigOK, CacheOK;
    var m, a := c.msgs[st.si], st.asked[st.si];
    TotalsWithin(c, st);
    CatBGrows(c, st.asked, st.si + 1, |c.msgs|);
    NextBytes(CatB(c, st.asked, st.si), SeenB(m, a, st.s), st.back, k, Backward(m, a), CatB(c, st.asked, |c.msgs|));
  }
}
