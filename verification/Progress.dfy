/** The joint protocol never deadlocks, and every run makes only so many moves before it is complete. */
module Progress {
  import opened ByteStrings
  import opened Probing
  import opened CacheSpec
  import opened Tiling
  import opened Wire
  import opened Protocol
  import opened Streams
  import opened Invariants
  import SenderSteps
  import ReceiverSteps
  import opened Transparency

  predicate IsMove(a: Action)
  {
    a.SendAct? || a.RecvAct? || a.NextSend? || a.NextRecv?
  }

  predicate Finished(c: Config, st: State)
  {
    st.si == |c.msgs| == st.rj
  }

  // ---- no deadlock ----

  predicate WaitsForReply(s: Sender)
  {
    s.SMissCount? || s.SMissInds?
  }

  predicate WaitsForBytes(r: Receiver)
  {
    r.RHeader? || (r.RPlain? && r.off < r.size) || r.RCount? || r.RFps? || r.RContent?
  }

  /** The sender is not through, and if it waits for the reply, some of it is there. */
  predicate SenderMayMove(x: SendSide)
  {
    !x.s.SDone? && (WaitsForReply(x.s) ==> x.back != [])
  }

  /** The receiver is not through, and if it waits for bytes, some are there; a header is there whole. */
  predicate ReceiverMayMove(x: RecvSide)
  {
    && !x.r.RDone? && (WaitsForBytes(x.r) ==> x.fwd != [])
    && (x.r.RHeader? ==> |x.fwd| >= HEADER_BYTES) && (x.r.RCount? ==> |x.fwd| >= COUNT_BYTES)
  }

  /** A sender that is not waiting for the reply can act: the socket takes at least a byte. */
  lemma SenderMoves(c: Config, m: Msg, a: seq<nat>, x: SendSide) returns (k: nat)
    requires MsgOK(c, m) && Increasing(a, |m.sizes|) && SenderOK(m, a, x.s)
    requires !x.s.SDone? && (WaitsForReply(x.s) ==> x.back != [])
    ensures SendCan(m, x, k)
  {
    hide Tiles;
    k := 0;
    match x.s
    case SHeader => k := HEADER_BYTES;
    case SPlain(off) => k := |m.data| - off;
    case SCount => k := COUNT_BYTES;
    case SFps(off) => k := FINGERPRINT_BYTES * |m.sizes| - off;
    case SMissCount(_) => k := 1;
    case SMissInds(_, _) => k := 1;
    case SContent(_, ind, _) => k := 1; SenderSteps.PieceSize(c, m, a[ind]);
    case _ =>
  }

  /** A receiver that is not waiting for bytes can act, and so can one whose header is there. */
  lemma ReceiverMoves(c: Config, m: Msg, a: seq<nat>, x: RecvSide) returns (k: nat)
    requires MsgOK(c, m) && CollisionFree(c) && CacheOK(c, x.cache)
    requires Increasing(a, |m.sizes|) && ReceiverOK(m, a, x.r, x.buf)
    requires !x.r.RDone? && (WaitsForBytes(x.r) ==> x.fwd != [])
    requires x.r.RHeader? ==> |x.fwd| >= HEADER_BYTES
    requires x.r.RCount? ==> |x.fwd| >= COUNT_BYTES
    ensures RecvCan(x, k)
  {
    k := 0;
    match x.r
    case RHeader => k := HEADER_BYTES;
    case RPlain(size, off) => k := if off < size then 1 else 0;
    case RCount(_) => k := COUNT_BYTES;
    case RFps(_, _, _) => k := 1;
    case RPopulate(p, i, _) =>
      if i < |m.sizes| { SenderSteps.PieceSize(c, m, i); }
      assert i < |m.sizes| && m.keys[i] in x.cache.index ==> x.cache.index[m.keys[i]] == Piece(m, i);
    case RMissCount(_, _) => k := 1;
    case RMissInds(_, _) => k := 1;
    case RContent(p, ind, _) => k := 1; ReceiverSteps.AskedFacts(c, m, a, p, x.buf, ind);
    case RInsert(p, _) => ReceiverSteps.AskedFacts(c, m, a, p, x.buf, |a|);
    case RDone(_) =>
  }

  /** In a reachable state that is exactly when they can. */
  lemma MayMoveExact(c: Config, st: State)
    requires Inv(c, st)
    ensures st.si < |c.msgs| ==> (SenderMayMove(SideS(st)) <==> exists k: nat :: Enabled(c, st, SendAct(k)))
    ensures st.rj < |c.msgs| ==> (ReceiverMayMove(SideR(st)) <==> exists k: nat :: Enabled(c, st, RecvAct(k)))
  {
    hide ReceiverOK, SenderOK, CacheOK, StreamsOK, MsgOK, CollisionFree, Increasing, MissSize, Piece;
    if st.si < |c.msgs| && SenderMayMove(SideS(st)) {
      var k := SenderMoves(c, c.msgs[st.si], st.asked[st.si], SideS(st));
      assert Enabled(c, st, SendAct(k));
    }
    if st.rj < |c.msgs| && ReceiverMayMove(SideR(st)) {
      var k := ReceiverMoves(c, c.msgs[st.rj], st.asked[st.rj], SideR(st));
      assert Enabled(c, st, RecvAct(k));
    }
  }

  /** A receiver waiting for bytes has not had all of its message. */
  lemma SeenStrict(c: Config, m: Msg, a: seq<nat>, r: Receiver, buf: Bytes)
    requires MsgOK(c, m) && ReceiverOK(m, a, r, buf) && WaitsForBytes(r)
    ensures |SeenF(m, a, r)| < |Forward(m, a)|
    ensures IsFp(m) && !r.RContent? ==> |SeenF(m, a, r)| < |Preamble(m)|
  {
    if r.RContent? { ContentLonger(c, m, a, r, buf); }
    if r.RCount? || r.RHeader? { ForwardLong(c, m, a); }
    hide Content, EncodeFingerprints, Sorted, Placed;
  }

  lemma ForwardLong(c: Config, m: Msg, a: seq<nat>)
    requires MsgOK(c, m)
    ensures |Forward(m, a)| >= HEADER_BYTES
    ensures IsFp(m) ==> |Forward(m, a)| >= |Preamble(m)| > HEADER_BYTES + COUNT_BYTES
  {
    if IsFp(m) { SenderSteps.FpsExist(c, m); }
  }

  lemma ContentLonger(c: Config, m: Msg, a: seq<nat>, r: Receiver, buf: Bytes)
    requires MsgOK(c, m) && ReceiverOK(m, a, r, buf) && r.RContent?
    ensures |SeenF(m, a, r)| < |Forward(m, a)|
  {
    var RContent(p, ind, off) := r;
    ReceiverSteps.AskedFacts(c, m, a, p, buf, ind);
    var rest := ReceiverSteps.ContentSplit(m, a, ind);
    hide Preamble, Piece, Asked, Forward, Content;
  }

  /** A sender waiting for the reply has sent all up to the fingerprints and has not heard all. */
  lemma HeardStrict(m: Msg, a: seq<nat>, s: Sender)
    requires HasKeys(m) && SenderOK(m, a, s) && WaitsForReply(s)
    ensures IsFp(m) && SentF(m, a, s) == Preamble(m) && |SeenB(m, a, s)| < |Backward(m, a)|
  {
  }

  // what the sender has sent is empty, or reaches past the header, or past the count
  lemma SentWhole(c: Config, m: Msg, a: seq<nat>, s: Sender)
    requires MsgOK(c, m) && SenderOK(m, a, s)
    ensures SentF(m, a, s) == [] || |SentF(m, a, s)| >= HEADER_BYTES
    ensures IsFp(m) ==> |SentF(m, a, s)| <= HEADER_BYTES || |SentF(m, a, s)| >= HEADER_BYTES + COUNT_BYTES
  {
    hide Content, EncodeFingerprints, Piece;
  }

  /** The headers of the forward stream are never seen in part. */
  lemma HeadersWhole(c: Config, st: State)
    requires Inv(c, st) && st.rj < |c.msgs| && st.fwd != []
    ensures st.r.RHeader? ==> |st.fwd| >= HEADER_BYTES
    ensures st.r.RCount? ==> |st.fwd| >= COUNT_BYTES
  {
    hide SentF, Forward, Backward, SenderOK, CacheOK, Delivered, Increasing, Sorted, Placed, Preamble, MsgOK, CollisionFree;
    var m, a := c.msgs[st.rj], st.asked[st.rj];
    ForwardLong(c, m, a);
    if st.si == st.rj {
      SentWhole(c, m, a, st.s);
    } else if st.rj < st.si {
      CatFGrows(c, st.asked, st.rj + 1, st.si);
    } else {
      SentWithin(c.msgs[st.si], st.asked[st.si], st.s);
      CatFGrows(c, st.asked, st.si + 1, st.rj);
    }
  }

  /** When each side waits for the other or is through, something is in flight for one that waits. */
  lemma SomethingInFlight(c: Config, st: State)
    requires Inv(c, st) && !Finished(c, st)
    requires st.si < |c.msgs| ==> WaitsForReply(st.s)
    requires st.rj < |c.msgs| ==> WaitsForBytes(st.r)
    ensures (st.si < |c.msgs| && st.back != []) || (st.rj < |c.msgs| && st.fwd != [])
  {
    hide Forward, Backward, SenderOK, ReceiverOK, CacheOK, Delivered, Increasing, MsgOK, CollisionFree, SentF, SeenF,
         SentB, SeenB, Preamble;
    if st.rj < |c.msgs| {
      SeenStrict(c, c.msgs[st.rj], st.asked[st.rj], st.r, st.buf);
    }
    if st.si < |c.msgs| {
      HeardStrict(c.msgs[st.si], st.asked[st.si], st.s);
      if st.si < st.rj { CatBGrows(c, st.asked, st.si + 1, st.rj); }
    }
    if st.rj < st.si { CatFGrows(c, st.asked, st.rj + 1, st.si); }
    if st.rj == st.si {
      AllReplied(c.msgs[st.rj], st.asked[st.rj], st.r);
    }
  }

  lemma AllReplied(m: Msg, a: seq<nat>, r: Receiver)
    ensures r.RContent? ==> SentB(m, a, r) == Backward(m, a)
  {
  }

  /** The protocol never deadlocks: unless all messages are through on both sides, one side can move. */
  lemma NoDeadlock(c: Config, st: State) returns (a: Action)
    requires Inv(c, st) && !Finished(c, st)
    ensures IsMove(a) && Enabled(c, st, a)
  {
    hide ReceiverOK, SenderOK, CacheOK, SendCan, RecvCan, StreamsOK, MsgOK, CollisionFree, Increasing;
    if st.si < |c.msgs| && st.s.SDone? {
      a := NextSend;
    } else if st.rj < |c.msgs| && st.r.RDone? {
      a := NextRecv;
    } else {
      if (st.si < |c.msgs| ==> WaitsForReply(st.s)) && (st.rj < |c.msgs| ==> WaitsForBytes(st.r)) {
        SomethingInFlight(c, st);
      }
      if st.si < |c.msgs| && (WaitsForReply(st.s) ==> st.back != []) {
        var k := SenderMoves(c, c.msgs[st.si], st.asked[st.si], SideS(st));
        a := SendAct(k);
      } else {
        if st.fwd != [] { HeadersWhole(c, st); }
        var k := ReceiverMoves(c, c.msgs[st.rj], st.asked[st.rj], SideR(st));
        a := RecvAct(k);
      }
    }
  }

  // ---- nor with bounded streams ----

  /** What the sender's next action needs of the forward stream at least. */
  function Need(m: Msg, s: Sender): nat
  {
    match s
    case SHeader => HEADER_BYTES
    case SPlain(off) => if off < |m.data| then 1 else 0
    case SCount => COUNT_BYTES
    case SFps(_) => 1
    case SContent(_, _, _) => 1
    case _ => 0
  }

  predicate Replies(r: Receiver)
  {
    r.RMissCount? || r.RMissInds?
  }

  lemma SenderMovesLittle(c: Config, m: Msg, a: seq<nat>, x: SendSide) returns (k: nat)
    requires MsgOK(c, m) && Increasing(a, |m.sizes|) && SenderOK(m, a, x.s) && SenderMayMove(x)
    ensures SendCan(m, x, k)
    ensures |SendStep(m, x, k).fwd| <= |x.fwd| + Need(m, x.s) && |SendStep(m, x, k).back| <= |x.back|
  {
    k := if WaitsForReply(x.s) then 1 else Need(m, x.s);
    if x.s.SContent? { SenderSteps.PieceSize(c, m, a[x.s.ind]); }
    hide Tiles, DecodeIndices, Fits, Store;
  }

  lemma ReceiverMovesLittle(c: Config, m: Msg, a: seq<nat>, x: RecvSide) returns (k: nat)
    requires MsgOK(c, m) && CollisionFree(c) && CacheOK(c, x.cache)
    requires Increasing(a, |m.sizes|) && ReceiverOK(m, a, x.r, x.buf) && ReceiverMayMove(x)
    ensures RecvCan(x, k)
    ensures |RecvStep(x, k).fwd| <= |x.fwd| && |RecvStep(x, k).back| <= |x.back| + if Replies(x.r) then 1 else 0
  {
    k := ReceiverMoves(c, m, a, x);
    MovesLittle(x, k);
    hide MsgOK, CollisionFree, CacheOK, Increasing, ReceiverOK, RecvCan, RecvStep;
    if Replies(x.r) {
      k := 1;
      ReplyCan(c, m, a, x);
      MovesLittle(x, 1);
    }
  }

  lemma ReplyCan(c: Config, m: Msg, a: seq<nat>, x: RecvSide)
    requires MsgOK(c, m) && ReceiverOK(m, a, x.r, x.buf) && Replies(x.r)
    ensures RecvCan(x, 1)
  {
    hide Tiles, Sorted, Placed;
  }

  lemma MovesLittle(x: RecvSide, k: nat)
    requires RecvCan(x, k)
    ensures |RecvStep(x, k).fwd| <= |x.fwd| && |RecvStep(x, k).back| <= |x.back| + if Replies(x.r) then k else 0
  {
    hide DecodeFingerprints, Fits, Store, Splice, MissSize, Encode, Decode, HeaderSize, HeaderIsFingerprint;
  }

  /** The totals of the streams, by their lengths, and the sides. */
  lemma Lengths(c: Config, st: State)
    requires Inv(c, st)
    ensures Shape(c, st) && AllKeys(c)
    ensures |SentTotal(c, st)| == |SeenTotal(c, st)| + |st.fwd| && |RepliedTotal(c, st)| == |HeardTotal(c, st)| + |st.back|
    ensures st.si < |c.msgs| ==> MsgOK(c, c.msgs[st.si]) && SenderOK(c.msgs[st.si], st.asked[st.si], st.s)
    ensures st.rj < |c.msgs| ==> MsgOK(c, c.msgs[st.rj]) && ReceiverOK(c.msgs[st.rj], st.asked[st.rj], st.r, st.buf)
  {
    hide SentTotal, SeenTotal, RepliedTotal, HeardTotal, MsgOK, SenderOK, ReceiverOK, CacheOK, CollisionFree, Delivered,
         Increasing;
  }

  /** A reply in flight is one the sender waits for. */
  lemma ReplyReaches(c: Config, st: State)
    requires Inv(c, st) && st.rj < |c.msgs| && Replies(st.r) && st.back != []
    ensures st.si < |c.msgs| && WaitsForReply(st.s)
  {
    hide Inv, MsgOK, SenderOK, ReceiverOK, SentF, SeenF, SentB, SeenB, Forward, Backward, Preamble, Header, WaitsForReply,
         Replies, ConfigOK;
    Lengths(c, st);
    var m, a := c.msgs[st.rj], st.asked[st.rj];
    RepliedWithin(m, a, st.r, st.buf);
    RepliesSeen(m, a, st.r, st.buf);
    if st.rj < st.si {
      CatBGrows(c, st.asked, st.rj + 1, st.si);
    } else if st.si < st.rj {
      SentWithin(c.msgs[st.si], st.asked[st.si], st.s);
      CatFGrows(c, st.asked, st.si + 1, st.rj);
    } else {
      PastFingerprints(c, m, a, st.s);
    }
  }

  lemma RepliesSeen(m: Msg, a: seq<nat>, r: Receiver, buf: Bytes)
    requires HasKeys(m) && ReceiverOK(m, a, r, buf) && Replies(r)
    ensures IsFp(m) && SeenF(m, a, r) == Preamble(m) && |Preamble(m)| > 0
  {
    hide Sorted, EncodeFingerprints;
  }

  // a sender that has sent all the fingerprints waits for the reply or has heard all of it
  lemma PastFingerprints(c: Config, m: Msg, a: seq<nat>, s: Sender)
    requires MsgOK(c, m) && IsFp(m) && SenderOK(m, a, s) && |SentF(m, a, s)| >= |Preamble(m)|
    ensures WaitsForReply(s) || SeenB(m, a, s) == Backward(m, a)
  {
    SenderSteps.FpsExist(c, m);
    hide EncodeFingerprints, Content, Tiles;
  }

  /** Nothing is in flight to a receiver that has had all messages. */
  lemma NothingLeftOver(c: Config, st: State)
    requires Inv(c, st) && st.rj == |c.msgs|
    ensures st.fwd == []
  {
    hide SentF, SeenF, SentB, SeenB, Forward, Backward, SenderOK, ReceiverOK, CacheOK, Delivered, Increasing, MsgOK,
         CollisionFree;
    TotalsWithin(c, st);
  }

  /** The protocol does not deadlock either when each stream holds no more than `room` bytes, for any room
      that a header fits in: one side can make a move that keeps within it. */
  lemma NoDeadlockBounded(c: Config, st: State, room: nat) returns (a: Action)
    requires Inv(c, st) && !Finished(c, st)
    requires HEADER_BYTES <= room && |st.fwd| <= room && |st.back| <= room
    ensures IsMove(a) && Enabled(c, st, a)
    ensures |Next(c, st, a).fwd| <= room && |Next(c, st, a).back| <= room
  {
    hide ReceiverOK, SenderOK, CacheOK, SendCan, RecvCan, SendStep, RecvStep, StreamsOK, MsgOK, CollisionFree, Increasing;
    if st.si < |c.msgs| && st.s.SDone? {
      a := NextSend;
    } else if st.rj < |c.msgs| && st.r.RDone? {
      a := NextRecv;
    } else if st.si < |c.msgs| && SenderMayMove(SideS(st)) && |st.fwd| + Need(c.msgs[st.si], st.s) <= room {
      var k := SenderMovesLittle(c, c.msgs[st.si], st.asked[st.si], SideS(st));
      a := SendAct(k);
    } else {
      ReceiverGoesOn(c, st, room);
      var k := ReceiverMovesLittle(c, c.msgs[st.rj], st.asked[st.rj], SideR(st));
      a := RecvAct(k);
    }
  }

  // a sender that is stuck leaves the receiver something to do, and room for it
  lemma ReceiverGoesOn(c: Config, st: State, room: nat)
    requires Inv(c, st) && !Finished(c, st)
    requires HEADER_BYTES <= room && |st.fwd| <= room && |st.back| <= room
    requires st.si < |c.msgs| ==>
               !st.s.SDone? && (SenderMayMove(SideS(st)) ==> |st.fwd| + Need(c.msgs[st.si], st.s) > room)
    requires st.rj < |c.msgs| ==> !st.r.RDone?
    ensures st.rj < |c.msgs| && ReceiverMayMove(SideR(st)) && (Replies(st.r) ==> |st.back| < room)
  {
    hide ReceiverOK, SenderOK, CacheOK, StreamsOK, MsgOK, CollisionFree, Increasing, Inv;
    if st.fwd != [] {
      InvShape(c, st);
      if st.rj == |c.msgs| { NothingLeftOver(c, st); } else { HeadersWhole(c, st); }
    } else if (st.si < |c.msgs| ==> WaitsForReply(st.s)) && (st.rj < |c.msgs| ==> WaitsForBytes(st.r)) {
      SomethingInFlight(c, st);
    }
    InvShape(c, st);
    if st.rj < |c.msgs| && Replies(st.r) && st.back != [] { ReplyReaches(c, st); }
  }

  /** In the middle of a message that both sides are at, one of the two can go on. */
  lemma SameMessageMoves(c: Config, st: State)
    requires Inv(c, st) && st.si == st.rj < |c.msgs|
    ensures SenderMayMove(SideS(st)) || ReceiverMayMove(SideR(st)) || (st.s.SDone? && st.r.RDone?)
  {
    hide ReceiverOK, SenderOK, CacheOK, StreamsOK, MsgOK, CollisionFree, Increasing;
    if !SenderMayMove(SideS(st)) && !ReceiverMayMove(SideR(st)) && !(st.s.SDone? && st.r.RDone?) {
      if WaitsForBytes(st.r) && st.fwd != [] { HeadersWhole(c, st); }
      if st.s.SDone? {
        SentAllOf(c, st);
      } else if st.r.RDone? {
        RepliedAllOf(c, st);
      } else {
        SomethingInFlight(c, st);
      }
    }
  }

  // with the message sent, what the receiver waits for is in flight
  lemma SentAllOf(c: Config, st: State)
    requires Inv(c, st) && st.si == st.rj < |c.msgs| && st.s.SDone? && WaitsForBytes(st.r)
    ensures st.fwd != []
  {
    hide Inv, MsgOK, SenderOK, ReceiverOK, SeenF, SentB, SeenB, Forward, Backward, WaitsForBytes, ConfigOK;
    Lengths(c, st);
    SeenStrict(c, c.msgs[st.rj], st.asked[st.rj], st.r, st.buf);
  }

  // with the reply sent, what the sender waits for is in flight
  lemma RepliedAllOf(c: Config, st: State)
    requires Inv(c, st) && st.si == st.rj < |c.msgs| && st.r.RDone? && WaitsForReply(st.s)
    ensures st.back != []
  {
    hide Inv, MsgOK, SenderOK, ReceiverOK, SeenF, SentF, SeenB, Forward, Backward, WaitsForReply, ConfigOK;
    Lengths(c, st);
    HeardStrict(c.msgs[st.si], st.asked[st.si], st.s);
  }

  // ---- every run is bounded ----

  /** More than any stage can make progress, in steps or bytes. */
  function Span(m: Msg): nat
  {
    |m.data| + FINGERPRINT_BYTES * |m.sizes| + 24
  }

  function SendRank(s: Sender): nat
  {
    match s
    case SHeader => 0
    case SPlain(_) => 1
    case SCompute => 2
    case SInsert(_) => 3
    case SCount => 4
    case SFps(_) => 5
    case SMissCount(_) => 6
    case SMissInds(_, _) => 7
    case SContent(_, _, _) => 8
    case SDone => 9
  }

  function SendProgress(m: Msg, s: Sender): nat
  {
    match s
    case SPlain(off) => off
    case SInsert(i) => i
    case SFps(off) => off
    case SMissCount(got) => |got|
    case SMissInds(_, got) => |got|
    case SContent(miss, ind, off) => (if ind <= |miss| then |Content(m, miss, ind)| else 0) + off
    case _ => 0
  }

  function RecvRank(r: Receiver): nat
  {
    match r
    case RHeader => 0
    case RPlain(_, _) => 1
    case RCount(_) => 2
    case RFps(_, _, _) => 3
    case RPopulate(_, _, _) => 4
    case RMissCount(_, _) => 5
    case RMissInds(_, _) => 6
    case RContent(_, _, _) => 7
    case RInsert(_, _) => 8
    case RDone(_) => 9
  }

  function RecvProgress(m: Msg, r: Receiver): nat
  {
    match r
    case RPlain(_, off) => off
    case RFps(_, _, got) => |got|
    case RPopulate(_, i, _) => i
    case RMissCount(_, off) => off
    case RMissInds(_, off) => off
    case RContent(p, ind, off) => (if ind <= |p.miss| then |Content(m, p.miss, ind)| else 0) + off
    case RInsert(_, i) => i
    case _ => 0
  }

  /** The chunks asked for are no longer than the message. */
  lemma {:induction false} ContentBound(c: Config, m: Msg, a: seq<nat>, j: nat)
    requires MsgOK(c, m) && IsFp(m) && Increasing(a, |m.sizes|) && j <= |a|
    ensures |Content(m, a, j)| <= |m.data|
    ensures j > 0 ==> |Content(m, a, j)| <= Offset(m.sizes, a[j - 1]) + m.sizes[a[j - 1]]
    ensures j < |a| ==> |Content(m, a, j)| <= Offset(m.sizes, a[j])
  {
    hide Piece;
    if j > 0 {
      ContentBound(c, m, a, j - 1);
      SenderSteps.PieceSize(c, m, a[j - 1]);
      ChunkInside(m.sizes, |m.data|, a[j - 1]);
    }
  }

  lemma SendProgressBound(c: Config, m: Msg, a: seq<nat>, s: Sender)
    requires MsgOK(c, m) && Increasing(a, |m.sizes|) && SenderOK(m, a, s)
    ensures SendProgress(m, s) < Span(m)
  {
    SenderSteps.IncreasingShort(a, |m.sizes|);
    if s.SContent? {
      ContentBound(c, m, a, s.ind);
      SenderSteps.PieceSize(c, m, a[s.ind]);
    }
    hide Content, Tiles;
  }

  lemma RecvProgressBound(c: Config, m: Msg, a: seq<nat>, r: Receiver, buf: Bytes)
    requires MsgOK(c, m) && Increasing(a, |m.sizes|) && ReceiverOK(m, a, r, buf)
    ensures RecvProgress(m, r) < Span(m)
  {
    SenderSteps.IncreasingShort(a, |m.sizes|);
    if r.RContent? {
      ContentBound(c, m, a, r.ind);
      SenderSteps.PieceSize(c, m, a[r.ind]);
    }
    hide Content, Tiles, Sorted, Placed;
  }

  lemma SendContentAdvances(c: Config, m: Msg, a: seq<nat>, x: SendSide, k: nat)
    requires MsgOK(c, m) && SenderOK(m, a, x.s) && SendCan(m, x, k) && x.s.SContent?
    ensures var s' := SendStep(m, x, k).s;
            || SendRank(x.s) < SendRank(s')
            || (SendRank(x.s) == SendRank(s') && SendProgress(m, x.s) < SendProgress(m, s'))
  {
    SenderSteps.PieceSize(c, m, a[x.s.ind]);
    SenderSteps.ContentStepIs(m, x, k);
    hide SendStep, MsgOK, Piece;
  }

  /** An action of the sender takes it to a later stage, or further in its stage. */
  lemma SendAdvances(c: Config, m: Msg, a: seq<nat>, x: SendSide, k: nat)
    requires MsgOK(c, m) && Increasing(a, |m.sizes|) && SenderOK(m, a, x.s) && SendCan(m, x, k)
    ensures var s' := SendStep(m, x, k).s;
            || SendRank(x.s) < SendRank(s')
            || (SendRank(x.s) == SendRank(s') && SendProgress(m, x.s) < SendProgress(m, s'))
  {
    hide MsgOK, Increasing, Piece, Fits, Store, EncodeFingerprints, EncodeHeader, Encode, Decode, DecodeIndices;
    if x.s.SContent? { SendContentAdvances(c, m, a, x, k); }
  }

  lemma RecvContentAdvances(c: Config, m: Msg, a: seq<nat>, x: RecvSide, k: nat)
    requires MsgOK(c, m) && ReceiverOK(m, a, x.r, x.buf) && RecvCan(x, k) && x.r.RContent?
    ensures var r' := RecvStep(x, k).r;
            || RecvRank(x.r) < RecvRank(r')
            || (RecvRank(x.r) == RecvRank(r') && RecvProgress(m, x.r) < RecvProgress(m, r'))
  {
    var RContent(p, ind, off) := x.r;
    ReceiverSteps.AskedFacts(c, m, a, p, x.buf, ind);
    ReceiverSteps.ContentStepIs(x, k);
    hide RecvStep, MsgOK, Piece, Sorted, MissSize, Splice, Placed;
  }

  lemma RecvInsertAdvances(x: RecvSide, k: nat)
    requires RecvCan(x, k) && x.r.RInsert?
    ensures var r' := RecvStep(x, k).r; r'.RDone? || (r'.RInsert? && r'.i == x.r.i + 1)
  {
    ReceiverSteps.InsertStepIs(x, k);
  }

  lemma RecvAdvances(c: Config, m: Msg, a: seq<nat>, x: RecvSide, k: nat)
    requires MsgOK(c, m) && ReceiverOK(m, a, x.r, x.buf) && RecvCan(x, k)
    ensures var r' := RecvStep(x, k).r;
            || RecvRank(x.r) < RecvRank(r')
            || (RecvRank(x.r) == RecvRank(r') && RecvProgress(m, x.r) < RecvProgress(m, r'))
  {
    if x.r.RContent? {
      RecvContentAdvances(c, m, a, x, k);
    } else if x.r.RInsert? {
      RecvInsertAdvances(x, k);
    } else {
      RecvOtherAdvances(x, k, m);
    }
    hide RecvStep, MsgOK, ReceiverOK, RecvCan;
  }

  lemma RecvOtherAdvances(x: RecvSide, k: nat, m: Msg)
    requires RecvCan(x, k) && !x.r.RContent? && !x.r.RInsert?
    ensures var r' := RecvStep(x, k).r;
            || RecvRank(x.r) < RecvRank(r')
            || (RecvRank(x.r) == RecvRank(r') && RecvProgress(m, x.r) < RecvProgress(m, r'))
  {
    hide Splice, DecodeFingerprints, HeaderSize, HeaderIsFingerprint, Decode, Encode, EncodeIndices, Content;
  }

  /** What messages `i` and later still cost one side. */
  function Rest(c: Config, i: nat): nat
    requires i <= |c.msgs|
    decreases |c.msgs| - i
  {
    if i == |c.msgs| then 0 else 10 * Span(c.msgs[i]) + Rest(c, i + 1)
  }

  function SendLeft(c: Config, st: State): int
    requires st.si <= |c.msgs|
  {
    Rest(c, st.si)
    - if st.si < |c.msgs| then SendRank(st.s) * Span(c.msgs[st.si]) + SendProgress(c.msgs[st.si], st.s) else 0
  }

  function RecvLeft(c: Config, st: State): int
    requires st.rj <= |c.msgs|
  {
    Rest(c, st.rj)
    - if st.rj < |c.msgs| then RecvRank(st.r) * Span(c.msgs[st.rj]) + RecvProgress(c.msgs[st.rj], st.r) else 0
  }

  /** How many moves a connection has left at most. */
  function MovesLeft(c: Config, st: State): int
    requires st.si <= |c.msgs| && st.rj <= |c.msgs|
  {
    SendLeft(c, st) + RecvLeft(c, st)
  }

  lemma RankStep(r: nat, r': nat, p: nat, p': nat, span: nat)
    requires p < span && p' < span
    requires r < r' || (r == r' && p < p')
    ensures r * span + p < r' * span + p'
  {
    if r < r' {
      assert r' * span >= (r + 1) * span == r * span + span;
    }
  }

  lemma LeftNotNegative(c: Config, st: State)
    requires Inv(c, st)
    ensures MovesLeft(c, st) >= 0
  {
    hide StreamsOK, SenderOK, ReceiverOK, Increasing, MsgOK, CollisionFree, CacheOK, SendProgress, RecvProgress, Span, Delivered;
    if st.si < |c.msgs| {
      SendProgressBound(c, c.msgs[st.si], st.asked[st.si], st.s);
      RankBound(SendRank(st.s), Span(c.msgs[st.si]));
    }
    if st.rj < |c.msgs| {
      RecvProgressBound(c, c.msgs[st.rj], st.asked[st.rj], st.r, st.buf);
      RankBound(RecvRank(st.r), Span(c.msgs[st.rj]));
    }
  }

  lemma RankBound(r: nat, span: nat)
    requires r <= 9
    ensures r * span + span <= 10 * span
  {
  }

  lemma SendCounts(c: Config, st: State, k: nat)
    requires Inv(c, st) && Enabled(c, st, SendAct(k)) && Inv(c, Next(c, st, SendAct(k)))
    ensures MovesLeft(c, Next(c, st, SendAct(k))) < MovesLeft(c, st)
  {
    hide StreamsOK, SenderOK, ReceiverOK, Increasing, MsgOK, CollisionFree, CacheOK, SendProgress, RecvProgress, Span,
         Delivered, SendStep, SendCan, SendRank, RecvRank;
    var st' := Next(c, st, SendAct(k));
    var m, a := c.msgs[st.si], st.asked[st.si];
    SendProgressBound(c, m, a, st.s);
    SendProgressBound(c, m, a, st'.s);
    SendAdvances(c, m, a, SideS(st), k);
    RankStep(SendRank(st.s), SendRank(st'.s), SendProgress(m, st.s), SendProgress(m, st'.s), Span(m));
  }

  lemma RecvCounts(c: Config, st: State, k: nat)
    requires Inv(c, st) && Enabled(c, st, RecvAct(k)) && Inv(c, Next(c, st, RecvAct(k)))
    ensures MovesLeft(c, Next(c, st, RecvAct(k))) < MovesLeft(c, st)
  {
    hide StreamsOK, SenderOK, ReceiverOK, Increasing, MsgOK, CollisionFree, CacheOK, SendProgress, RecvProgress, Span,
         Delivered, RecvStep, RecvCan, SendRank, RecvRank;
    var st' := Next(c, st, RecvAct(k));
    var m := c.msgs[st.rj];
    RecvProgressBound(c, m, st.asked[st.rj], st.r, st.buf);
    RecvProgressBound(c, m, st'.asked[st.rj], st'.r, st'.buf);
    RecvAdvances(c, m, st.asked[st.rj], SideR(st), k);
    RankStep(RecvRank(st.r), RecvRank(st'.r), RecvProgress(m, st.r), RecvProgress(m, st'.r), Span(m));
  }

  /** Every move uses up some of what is left, and nothing else does. */
  lemma MoveCounts(c: Config, st: State, a: Action)
    requires Inv(c, st) && Enabled(c, st, a)
    ensures Inv(c, Next(c, st, a))
    ensures IsMove(a) ==> MovesLeft(c, Next(c, st, a)) < MovesLeft(c, st)
    ensures !IsMove(a) ==> MovesLeft(c, Next(c, st, a)) == MovesLeft(c, st)
  {
    hide StreamsOK, SidesOK, MsgOK, CollisionFree, CacheOK, SendProgress, RecvProgress, Span, SendStep, RecvStep,
         SendCan, RecvCan, SendRank, RecvRank;
    StepKeeps(c, st, a);
    match a
    case SendAct(k) => SendCounts(c, st, k);
    case RecvAct(k) => RecvCounts(c, st, k);
    case NextSend => StartsOver(c.msgs[st.si]);
    case NextRecv => StartsOver(c.msgs[st.rj]);
    case _ =>
  }

  lemma StartsOver(m: Msg)
    ensures Span(m) > 0
    ensures SendRank(SDone) == RecvRank(RDone(|m.data|)) == 9 && SendRank(SHeader) == RecvRank(RHeader) == 0
    ensures forall m' :: SendProgress(m', SDone) == SendProgress(m', SHeader) == 0 == RecvProgress(m', RHeader)
    ensures forall m', n :: RecvProgress(m', RDone(n)) == 0 && RecvRank(RDone(n)) == 9
  {
  }

  function CountMoves(acts: seq<Action>): nat
  {
    if acts == [] then 0 else CountMoves(acts[..|acts| - 1]) + if IsMove(acts[|acts| - 1]) then 1 else 0
  }

  lemma {:induction false} RunIsBounded(c: Config, states: seq<State>, acts: seq<Action>)
    requires IsRun(c, states, acts) && Inv(c, states[0])
    ensures Inv(c, states[|acts|])
    ensures CountMoves(acts) + MovesLeft(c, states[|acts|]) <= MovesLeft(c, states[0])
    decreases |acts|
  {
    hide Inv, Enabled, Next, MovesLeft, IsMove;
    if acts != [] {
      var n := |acts| - 1;
      RunIsBounded(c, states[..n + 1], acts[..n]);
      assert states[..n + 1][n] == states[n];
      assert states[n + 1] == Next(c, states[n], acts[n]);
      InvShape(c, states[n]);
      MoveCounts(c, states[n], acts[n]);
      InvShape(c, states[n + 1]);
    } else {
      InvShape(c, states[0]);
    }
  }

  /** From the start of a connection, a run makes at most twice the cost of its messages in moves; and
      where no move is left, all messages are through, each receive holding what was sent. */
  lemma Completes(c: Config, states: seq<State>, acts: seq<Action>, last: State)
    requires ConfigOK(c) && Reaches(c, states, acts, last)
    ensures CountMoves(acts) <= 2 * Rest(c, 0)
    ensures (forall a :: IsMove(a) ==> !Enabled(c, last, a)) ==>
              && Finished(c, last)
              && |last.done| == |c.msgs| && forall k :: 0 <= k < |c.msgs| ==> last.done[k] == Delivered(c.msgs[k])
  {
    var s0 := states[0];
    hide Enabled, Next, CacheOK, ConfigOK, IsRun, Inv, Rest, Delivered, IsMove;
    StartOK(c, s0.sc, s0.sskip, s0.rc, s0.rskip);
    RunIsBounded(c, states, acts);
    InvShape(c, s0);
    InvShape(c, last);
    LeftNotNegative(c, last);
    StartLeft(c, s0);
    DedupIsTransparent(c, states, acts, last);
    if !Finished(c, last) {
      var a := NoDeadlock(c, last);
    }
  }

  lemma StartLeft(c: Config, st: State)
    requires st == Start(c, st.sc, st.sskip, st.rc, st.rskip)
    ensures MovesLeft(c, st) == 2 * Rest(c, 0)
  {
  }
}
