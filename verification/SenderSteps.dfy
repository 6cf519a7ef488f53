/** Every action of the sender keeps the invariant. */
module SenderSteps {
  import opened ByteStrings
  import opened Probing
  import opened CacheSpec
  import opened Tiling
  import opened Wire
  import opened Protocol
  import opened Streams
  import opened Invariants

  /** What the action puts on the forward stream, and what it takes off the reply stream. */
  ghost predicate Moves(c: Config, m: Msg, a: seq<nat>, x: SendSide, x': SendSide, sent: Bytes, heard: Bytes)
    requires HasKeys(m)
  {
    && x'.fwd == x.fwd + sent && x.back == heard + x'.back
    && SentF(m, a, x'.s) == SentF(m, a, x.s) + sent
    && SeenB(m, a, x'.s) == SeenB(m, a, x.s) + heard
    && SenderOK(m, a, x'.s)
    && CacheOK(c, x'.cache)
  }

  lemma TakeMore(pre: Bytes, b: Bytes, off: nat, k: nat)
    requires off + k <= |b|
    ensures pre + Take(b, off) + b[off..off + k] == pre + Take(b, off + k)
    ensures Take(b, |b|) == b && Take(b, 0) == []
  {
    assert b[..off] + b[off..off + k] == b[..off + k];
  }

  lemma HeaderStage(c: Config, m: Msg, a: seq<nat>, x: SendSide, k: nat)
    requires MsgOK(c, m) && SenderOK(m, a, x.s) && CacheOK(c, x.cache) && SendCan(m, x, k) && x.s.SHeader?
    ensures Moves(c, m, a, x, SendStep(m, x, k), Header(m), [])
  {
    hide CacheOK, MsgOK, Forward, Preamble;
    TakeMore(Header(m), m.data, 0, 0);
    assert Header(m) + [] == Header(m) == [] + Header(m);
  }

  lemma PlainStage(c: Config, m: Msg, a: seq<nat>, x: SendSide, k: nat) returns (sent: Bytes)
    requires MsgOK(c, m) && SenderOK(m, a, x.s) && CacheOK(c, x.cache) && SendCan(m, x, k) && x.s.SPlain?
    ensures Moves(c, m, a, x, SendStep(m, x, k), sent, [])
  {
    hide CacheOK, MsgOK, Preamble, Header;
    sent := m.data[x.s.off..x.s.off + k];
    TakeMore(Header(m), m.data, x.s.off, k);
  }

  lemma ComputeStage(c: Config, m: Msg, a: seq<nat>, x: SendSide, k: nat)
    requires MsgOK(c, m) && SenderOK(m, a, x.s) && CacheOK(c, x.cache) && SendCan(m, x, k) && x.s.SCompute?
    ensures Moves(c, m, a, x, SendStep(m, x, k), [], [])
  {
    hide CacheOK, MsgOK;
  }

  lemma FpsStage(c: Config, m: Msg, a: seq<nat>, x: SendSide, k: nat) returns (sent: Bytes)
    requires MsgOK(c, m) && SenderOK(m, a, x.s) && CacheOK(c, x.cache) && SendCan(m, x, k) && (x.s.SCount? || x.s.SFps?)
    ensures Moves(c, m, a, x, SendStep(m, x, k), sent, [])
  {
    hide MsgOK, CacheOK, SenderOK, SentF, SeenB, SendStep, SendCan, Header, Encode, EncodeFingerprints, Fps;
    FpsFacts(c, m, a, x, k);
    FpsStepIs(m, x, k);
    var b, pre := EncodeFingerprints(Fps(m)), Header(m) + Encode(|m.sizes|, 8);
    if x.s.SCount? {
      sent := Encode(|m.sizes|, 8);
      FpsSent(m, a, 0);
      TakeMore(pre, b, 0, 0);
    } else {
      sent := b[x.s.off..x.s.off + k];
      FpsSent(m, a, x.s.off);
      FpsSent(m, a, x.s.off + k);
      TakeMore(pre, b, x.s.off, k);
    }
  }

  // where the sender stands once `off` bytes of the fingerprints are sent
  function FpsAt(m: Msg, off: nat): Sender
  {
    if off < FINGERPRINT_BYTES * |m.sizes| then SFps(off) else SMissCount([])
  }

  lemma FpsFacts(c: Config, m: Msg, a: seq<nat>, x: SendSide, k: nat)
    requires MsgOK(c, m) && SenderOK(m, a, x.s) && SendCan(m, x, k) && (x.s.SCount? || x.s.SFps?)
    ensures HasKeys(m) && IsFp(m) && |m.sizes| > 0 && SentF(m, a, SCount) == Header(m) && SeenB(m, a, x.s) == []
    ensures x.s.SFps? ==> x.s == FpsAt(m, x.s.off) && x.s.off + k <= FINGERPRINT_BYTES * |m.sizes|
    ensures forall off: nat :: SenderOK(m, a, FpsAt(m, off)) && SeenB(m, a, FpsAt(m, off)) == []
  {
    hide Header;
    FpsExist(c, m);
  }

  lemma FpsStepIs(m: Msg, x: SendSide, k: nat)
    requires HasKeys(m) && SendCan(m, x, k) && (x.s.SCount? || x.s.SFps?) && |m.sizes| > 0
    ensures x.s.SCount? ==> SendStep(m, x, k) == x.(s := FpsAt(m, 0), fwd := x.fwd + Encode(|m.sizes|, 8))
    ensures x.s.SFps? ==>
              SendStep(m, x, k) == x.(s := FpsAt(m, x.s.off + k),
                                      fwd := x.fwd + EncodeFingerprints(Fps(m))[x.s.off..x.s.off + k])
  {
    hide Encode, Fps;
  }

  lemma FpsSent(m: Msg, a: seq<nat>, off: nat)
    requires HasKeys(m) && off <= FINGERPRINT_BYTES * |m.sizes|
    ensures SentF(m, a, FpsAt(m, off)) == Header(m) + Encode(|m.sizes|, 8) + Take(EncodeFingerprints(Fps(m)), off)
  {
    hide Header, Encode, Fps;
  }

  lemma FpsExist(c: Config, m: Msg)
    requires MsgOK(c, m) && IsFp(m)
    ensures |m.sizes| > 0
  {
  }

  /** Inserting an outbound chunk files it under its own fingerprint. */
  lemma InsertStage(c: Config, m: Msg, a: seq<nat>, x: SendSide, k: nat)
    requires MsgOK(c, m) && SenderOK(m, a, x.s) && CacheOK(c, x.cache) && SendCan(m, x, k) && x.s.SInsert?
    ensures Moves(c, m, a, x, SendStep(m, x, k), [], [])
  {
    hide Piece;
  }

  /** The count of missing chunks arrives as sent. */
  lemma CountStage(c: Config, m: Msg, a: seq<nat>, x: SendSide, k: nat)
    requires MsgOK(c, m) && SenderOK(m, a, x.s) && CacheOK(c, x.cache) && SendCan(m, x, k) && x.s.SMissCount?
    requires SeenB(m, a, x.s) + x.back[..k] == Backward(m, a)[..|SeenB(m, a, x.s)| + k]
    requires Increasing(a, |m.sizes|)
    ensures Moves(c, m, a, x, SendStep(m, x, k), [], x.back[..k])
    ensures SendStep(m, x, k).s.SDone? ==> a == []
  {
    hide CacheOK, EncodeFingerprints, Tiles;
    var got := x.s.got + x.back[..k];
    if |got| == COUNT_BYTES {
      assert got == Encode(|a|, 8);
      IncreasingShort(a, |m.sizes|);
      EightBytes(|a|);
      if a == [] { NothingMissing(m); }
    }
  }

  lemma NothingMissing(m: Msg)
    requires HasKeys(m) && IsFp(m)
    ensures Forward(m, []) == Preamble(m) && Backward(m, []) == Encode(0, 8)
  {
    assert Preamble(m) + [] == Preamble(m);
    assert Encode(0, 8) + [] == Encode(0, 8);
  }

  lemma {:induction false} IncreasingShort(a: seq<nat>, n: nat)
    requires Increasing(a, n)
    ensures |a| <= n
  {
    if a != [] {
      var l := |a| - 1;
      IncreasingShort(a[..l], a[l]);
    }
  }

  /** And so do their indices. */
  lemma IndicesStage(c: Config, m: Msg, a: seq<nat>, x: SendSide, k: nat)
    requires MsgOK(c, m) && SenderOK(m, a, x.s) && CacheOK(c, x.cache) && SendCan(m, x, k) && x.s.SMissInds?
    requires SeenB(m, a, x.s) + x.back[..k] == Backward(m, a)[..|SeenB(m, a, x.s)| + k]
    requires Increasing(a, |m.sizes|)
    ensures Moves(c, m, a, x, SendStep(m, x, k), [], x.back[..k])
  {
    hide SentF, SeenB, SenderOK, SendCan, SendStep, MsgOK, CacheOK, Preamble, Encode, EncodeIndices, DecodeIndices, Increasing,
         Backward, Content;
    MsgKeys(c, m);
    IndicesFacts(m, a, x, k);
    ContentBegins(m, a);
    IndicesAre(c, m, a);
    var SMissInds(n, got) := x.s;
    var got' := got + x.back[..k];
    IndicesHeard(m, a, got);
    IndicesHeard(m, a, got');
    ReplyHeard(m, a);
    IndicesSent(m, a, got);
    IndicesSent(m, a, got');
    IndicesBytes(Encode(|a|, 8), EncodeIndices(a), got, x.back[..k]);
    if |got'| == INDEX_BYTES * |a| { assert got' == EncodeIndices(a); }
    MissIndsStepIs(m, x, k);
    IndicesState(m, a, got');
    assert Encode(|a|, 8) + got' == Encode(|a|, 8) + got + x.back[..k];
    assert x.fwd + [] == x.fwd && Preamble(m) + [] == Preamble(m);
  }

  lemma IndicesFacts(m: Msg, a: seq<nat>, x: SendSide, k: nat)
    requires HasKeys(m) && SenderOK(m, a, x.s) && SendCan(m, x, k) && x.s.SMissInds?
    ensures IsFp(m) && x.s.n == |a| > 0 && 0 < k <= |x.back| && |x.s.got| + k <= INDEX_BYTES * |a|
  {
  }

  lemma MsgKeys(c: Config, m: Msg)
    requires MsgOK(c, m)
    ensures HasKeys(m)
  {
  }

  lemma IndicesHeard(m: Msg, a: seq<nat>, got: Bytes)
    ensures SeenB(m, a, SMissInds(|a|, got)) == Encode(|a|, 8) + got
  {
    hide Encode;
  }

  lemma ReplyHeard(m: Msg, a: seq<nat>)
    requires HasKeys(m) && IsFp(m)
    ensures SeenB(m, a, SContent(a, 0, 0)) == Backward(m, a)
    ensures Backward(m, a) == Encode(|a|, 8) + EncodeIndices(a)
  {
    hide Encode, EncodeIndices;
  }

  lemma IndicesSent(m: Msg, a: seq<nat>, got: Bytes)
    requires HasKeys(m)
    ensures SentF(m, a, SMissInds(|a|, got)) == Preamble(m)
  {
    hide Preamble;
  }

  // before the first byte of the reply
  lemma ContentBegins(m: Msg, a: seq<nat>)
    requires HasKeys(m)
    ensures SentF(m, a, SContent(a, 0, 0)) == Preamble(m)
  {
    hide Preamble, Piece;
    assert PartOf(m, a, 0, 0) == [];
    assert Preamble(m) + [] + [] == Preamble(m);
  }

  // more of the indices is there, or all of them
  lemma IndicesState(m: Msg, a: seq<nat>, got: Bytes)
    requires HasKeys(m) && IsFp(m) && a != []
    ensures |got| < INDEX_BYTES * |a| ==> SenderOK(m, a, SMissInds(|a|, got))
    ensures a[0] < |m.sizes| && m.sizes[a[0]] > 0 ==> SenderOK(m, a, SContent(a, 0, 0))
  {
  }

  lemma MissIndsStepIs(m: Msg, x: SendSide, k: nat)
    requires HasKeys(m) && x.s.SMissInds? && 0 < k <= |x.back| && |x.s.got| + k <= INDEX_BYTES * x.s.n
    ensures SendCan(m, x, k)
    ensures var SMissInds(n, got) := x.s; var got' := got + x.back[..k];
            SendStep(m, x, k) == x.(s := if |got'| < INDEX_BYTES * n then SMissInds(n, got')
                                         else SContent(DecodeIndices(got'), 0, 0),
                                    back := x.back[k..])
  {
    hide DecodeIndices;
  }

  lemma IndicesBytes(e: Bytes, b: Bytes, got: Bytes, more: Bytes)
    requires |got| + |more| <= |b|
    requires e + got + more == (e + b)[..|e| + |got| + |more|]
    ensures got + more == b[..|got| + |more|]
  {
    assert e + got + more == e + (got + more);
    BytesAfter(e + b, e, got + more, b);
  }

  lemma IndicesAre(c: Config, m: Msg, a: seq<nat>)
    requires MsgOK(c, m) && IsFp(m) && Increasing(a, |m.sizes|)
    ensures DecodeIndices(EncodeIndices(a)) == a
    ensures forall i :: 0 <= i < |a| ==> a[i] < |m.sizes| && m.sizes[a[i]] > 0
    ensures Content(m, a, 0) == []
  {
    IndicesRoundTrip(a);
  }

  /** The reply content: the missing chunks in index order, whatever the split. */
  lemma ContentStage(c: Config, m: Msg, a: seq<nat>, x: SendSide, k: nat) returns (sent: Bytes)
    requires MsgOK(c, m) && SenderOK(m, a, x.s) && CacheOK(c, x.cache) && SendCan(m, x, k) && x.s.SContent?
    requires Increasing(a, |m.sizes|)
    ensures Moves(c, m, a, x, SendStep(m, x, k), sent, [])
  {
    hide CacheOK, Preamble, MsgOK, Piece, SentF, Content, Increasing, Backward, SendStep, SendCan;
    ContentReady(c, m, a, x, k);
    var SContent(miss, ind, off) := x.s;
    var piece := Piece(m, a[ind]);
    sent := piece[off..off + k];
    ContentSent(m, a, ind, off);
    ContentSent(m, a, ind, off + k);
    TakeMore(Preamble(m) + Content(m, a, ind), piece, off, k);
    ContentStepIs(m, x, k);
  }

  lemma ContentReady(c: Config, m: Msg, a: seq<nat>, x: SendSide, k: nat)
    requires MsgOK(c, m) && SenderOK(m, a, x.s) && SendCan(m, x, k) && x.s.SContent? && Increasing(a, |m.sizes|)
    ensures var SContent(miss, ind, off) := x.s;
            && HasKeys(m) && IsFp(m) && miss == a && ind < |a| && a[ind] < |m.sizes|
            && off + k <= |Piece(m, a[ind])| == m.sizes[a[ind]]
            && (ind + 1 < |a| ==> a[ind + 1] < |m.sizes| && m.sizes[a[ind + 1]] > 0)
  {
    hide Piece;
    PieceSize(c, m, a[x.s.ind]);
    if x.s.ind + 1 < |a| { PieceSize(c, m, a[x.s.ind + 1]); }
  }

  lemma ContentStepIs(m: Msg, x: SendSide, k: nat)
    requires SendCan(m, x, k) && x.s.SContent?
    ensures var SContent(miss, ind, off) := x.s; var x' := SendStep(m, x, k);
            && x'.s == (if off + k < m.sizes[miss[ind]] then SContent(miss, ind, off + k)
                        else if ind + 1 < |miss| then SContent(miss, ind + 1, 0) else SDone)
            && x'.fwd == x.fwd + Piece(m, miss[ind])[off..off + k]
            && x'.back == x.back && x'.cache == x.cache && x'.skip == x.skip
  {
    hide Piece;
  }

  // what is sent in the middle of a missing chunk, and at its end
  lemma ContentSent(m: Msg, a: seq<nat>, ind: nat, off: nat)
    requires HasKeys(m) && IsFp(m) && ind < |a| && a[ind] < |m.sizes| && off <= |Piece(m, a[ind])|
    ensures SentF(m, a, SContent(a, ind, off)) == Preamble(m) + Content(m, a, ind) + Take(Piece(m, a[ind]), off)
    ensures off == |Piece(m, a[ind])| ==>
              SentF(m, a, SContent(a, ind, off)) == SentF(m, a, if ind + 1 < |a| then SContent(a, ind + 1, 0) else SDone)
  {
    hide Preamble, Piece;
    var piece := Piece(m, a[ind]);
    assert piece[..|piece|] == piece;
    assert Preamble(m) + Content(m, a, ind + 1) == Preamble(m) + Content(m, a, ind) + piece;
    if ind + 1 < |a| { assert PartOf(m, a, ind + 1, 0) == []; }
  }

  lemma PieceSize(c: Config, m: Msg, i: nat)
    requires MsgOK(c, m) && IsFp(m) && i < |m.sizes|
    ensures |Piece(m, i)| == m.sizes[i] > 0
    ensures Offset(m.sizes, i) + m.sizes[i] <= |m.data|
    ensures Piece(m, i) == m.data[Offset(m.sizes, i)..Offset(m.sizes, i) + m.sizes[i]]
  {
    ChunkInside(m.sizes, |m.data|, i);
  }

  // ---- from one side to the connection ----

  lemma SenderGlue(c: Config, st: State, x': SendSide, sent: Bytes, heard: Bytes)
    requires Inv(c, st) && st.si < |c.msgs|
    requires Moves(c, c.msgs[st.si], st.asked[st.si], SideS(st), x', sent, heard)
    ensures Inv(c, WithS(st, x'))
  {
    hide ConfigOK, CacheOK, SenderOK, ReceiverOK, SentF, SeenF, SentB, SeenB, CatF, CatB, Increasing, Delivered;
    var m, a := c.msgs[st.si], st.asked[st.si];
    var st' := WithS(st, x');
    assert SentTotal(c, st') == SentTotal(c, st) + sent;
    assert HeardTotal(c, st') == HeardTotal(c, st) + heard;
    assert st.back == heard + st'.back;
  }

  /** The bytes taken off the reply stream are the next ones of the reply. */
  predicate HearsNext(m: Msg, a: seq<nat>, x: SendSide, k: nat)
  {
    x.s.SMissCount? || x.s.SMissInds? ==>
      && k <= |x.back| && |SeenB(m, a, x.s)| + k <= |Backward(m, a)|
      && SeenB(m, a, x.s) + x.back[..k] == Backward(m, a)[..|SeenB(m, a, x.s)| + k]
  }

  /** One action of the sender, whichever stage it is in. */
  lemma MovesStep(c: Config, m: Msg, a: seq<nat>, x: SendSide, k: nat) returns (sent: Bytes, heard: Bytes)
    requires MsgOK(c, m) && Increasing(a, |m.sizes|) && SenderOK(m, a, x.s) && CacheOK(c, x.cache)
    requires SendCan(m, x, k) && HearsNext(m, a, x, k)
    ensures Moves(c, m, a, x, SendStep(m, x, k), sent, heard)
    ensures heard == if x.s.SMissCount? || x.s.SMissInds? then x.back[..k] else []
  {
    hide MsgOK, SenderOK, SentF, SeenB, Increasing, SendStep, Moves, CacheOK, Backward;
    sent, heard := [], [];
    if x.s.SInsert? {
      InsertStage(c, m, a, x, k);
    } else if x.s.SMissCount? {
      heard := x.back[..k];
      CountStage(c, m, a, x, k);
    } else if x.s.SMissInds? {
      heard := x.back[..k];
      IndicesStage(c, m, a, x, k);
    } else if x.s.SContent? {
      sent := ContentStage(c, m, a, x, k);
    } else if x.s.SHeader? {
      sent := Header(m);
      HeaderStage(c, m, a, x, k);
    } else if x.s.SPlain? {
      sent := PlainStage(c, m, a, x, k);
    } else if x.s.SCompute? {
      ComputeStage(c, m, a, x, k);
    } else {
      sent := FpsStage(c, m, a, x, k);
    }
  }

  lemma SendKeeps(c: Config, st: State, k: nat)
    requires Inv(c, st) && Enabled(c, st, SendAct(k))
    ensures Inv(c, Next(c, st, SendAct(k)))
  {
    hide SenderOK, ReceiverOK, SentF, SeenF, SentB, SeenB, CatF, CatB, Increasing, Delivered, SendStep, StreamsOK, Moves,
         Backward;
    var m, a, x := c.msgs[st.si], st.asked[st.si], SideS(st);
    if x.s.SMissCount? || x.s.SMissInds? {
      HeardRoom(c, st, k);
      NextBackward(c, st, k);
    }
    var sent, heard := MovesStep(c, m, a, x, k);
    SenderGlue(c, st, SendStep(m, x, k), sent, heard);
  }

  // a side asks for no more than its part of the stream still holds
  lemma HeardRoom(c: Config, st: State, k: nat)
    requires Inv(c, st) && Enabled(c, st, SendAct(k)) && (st.s.SMissCount? || st.s.SMissInds?)
    ensures var m, a := c.msgs[st.si], st.asked[st.si];
            k <= |st.back| && |SeenB(m, a, st.s)| + k <= |Backward(m, a)|
  {
    hide StreamsOK, ReceiverOK;
  }
}
