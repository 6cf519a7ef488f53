/** A receive request and its stage functions (net_dedup.c:1393-1951): the imperative form of the
    receiver, each call of which is some actions of the machine in Protocol. */
module RecvRequests {
  import opened ByteStrings
  import opened Settings
  import opened Probing
  import opened CacheSpec
  import opened Tiling
  import opened Wire
  import opened Protocol
  import opened Streams
  import opened Invariants
  import SenderSteps
  import opened ReceiverSteps
  import opened Transparency
  import opened Progress
  import PageCaches
  import opened Sockets

  datatype Stage =
    | RECV_HEADER | RECV_REG_DATA | RECV_FINGERPRINT_HEADER | RECV_PACKAGED_FINGERPRINTS
    | POPULATE_FROM_NET_CACHE | SEND_MISSING_FINGERPRINT_HEADER | SEND_MISSING_FINGERPRINTS
    | RECV_MISSING_CONTENT | INSERT_INBOUND_FINGERPRINTS | RECV_COMPLETE

  // the order of the enumeration
  function Rank(s: Stage): nat
  {
    match s
    case RECV_HEADER => 0
    case RECV_REG_DATA => 1
    case RECV_FINGERPRINT_HEADER => 2
    case RECV_PACKAGED_FINGERPRINTS => 3
    case POPULATE_FROM_NET_CACHE => 4
    case SEND_MISSING_FINGERPRINT_HEADER => 5
    case SEND_MISSING_FINGERPRINTS => 6
    case RECV_MISSING_CONTENT => 7
    case INSERT_INBOUND_FINGERPRINTS => 8
    case RECV_COMPLETE => 9
  }

  /** The actions `ks`, one after the other, lead from `x` to `y`. */
  ghost predicate RecvPath(x: RecvSide, ks: seq<nat>, y: RecvSide)
    decreases |ks|
  {
    if ks == [] then x == y
    else RecvCan(x, ks[0]) && RecvPath(RecvStep(x, ks[0]), ks[1..], y)
  }

  lemma {:induction false} PathJoin(x: RecvSide, ks: seq<nat>, y: RecvSide, ls: seq<nat>, z: RecvSide)
    requires RecvPath(x, ks, y) && RecvPath(y, ls, z)
    ensures RecvPath(x, ks + ls, z)
    decreases |ks|
  {
    hide RecvCan, RecvStep;
    if ks == [] {
      assert ks + ls == ls;
    } else {
      PathJoin(RecvStep(x, ks[0]), ks[1..], y, ls, z);
      assert (ks + ls)[1..] == ks[1..] + ls;
    }
  }

  lemma NoPath(x: RecvSide)
    ensures RecvPath(x, [], x)
  {
  }

  lemma PathOne(x: RecvSide, k: nat)
    requires RecvCan(x, k)
    ensures RecvPath(x, [k], RecvStep(x, k))
  {
    hide RecvCan, RecvStep;
    assert [k][1..] == [];
    NoPath(RecvStep(x, k));
  }

  lemma PathMore(x: RecvSide, ks: seq<nat>, y: RecvSide, k: nat)
    requires RecvPath(x, ks, y) && RecvCan(y, k)
    ensures RecvPath(x, ks + [k], RecvStep(y, k))
  {
    PathOne(y, k);
    PathJoin(x, ks, y, [k], RecvStep(y, k));
  }

  /** What is there to read continues the message: before the request is fixed, at most up to its
      fingerprints. */
  ghost predicate Continues(m: Msg, a: seq<nat>, x: RecvSide)
    requires HasKeys(m)
  {
    var seen := SeenF(m, a, x.r);
    if IsFp(m) && !HasAsked(x.r) then seen + x.fwd <= Preamble(m)
    else forall k :: 0 <= k <= |x.fwd| && |seen| + k <= |Forward(m, a)| ==> seen + x.fwd[..k] == Forward(m, a)[..|seen| + k]
  }

  /** What a receive relies on, and keeps. */
  ghost predicate RecvContext(c: Config, m: Msg, a: seq<nat>, x: RecvSide)
  {
    && MsgOK(c, m) && CollisionFree(c) && Increasing(a, |m.sizes|)
    && ReceiverOK(m, a, x.r, x.buf) && CacheOK(c, x.cache)
    && Continues(m, a, x)
  }

  // the chunks asked for once the action is done
  function AskedAfter(m: Msg, a: seq<nat>, x: RecvSide): seq<nat>
  {
    if x.r.RPopulate? && x.r.i == |m.sizes| then x.r.plan.miss else a
  }

  lemma ContextReady(c: Config, m: Msg, a: seq<nat>, x: RecvSide, k: nat)
    requires HasKeys(m) && RecvContext(c, m, a, x) && RecvCan(x, k)
    ensures Ready(c, m, a, x, k)
  {
    hide MsgOK, CollisionFree, Increasing, ReceiverOK, CacheOK, SeenF, RecvCan, Preamble, Content;
    if IsFp(m) && !HasAsked(x.r) && k <= |x.fwd| {
      var seen := SeenF(m, a, x.r);
      assert seen + x.fwd[..k] == (seen + x.fwd)[..|seen| + k];
      assert Preamble(m) <= Forward(m, a);
    }
  }

  lemma ContinuesKept(c: Config, m: Msg, a: seq<nat>, x: RecvSide, x': RecvSide, seen: Bytes, replied: Bytes)
    requires HasKeys(m) && Continues(m, a, x) && Takes(c, m, a, x, x', seen, replied)
    requires HasAsked(x'.r) == HasAsked(x.r) || !IsFp(m)
    ensures Continues(m, a, x')
  {
    hide ReceiverOK, CacheOK, SeenF, SentB, Forward, Preamble;
    assert SeenF(m, a, x'.r) + x'.fwd == SeenF(m, a, x.r) + x.fwd;
    forall k | 0 <= k <= |x'.fwd| ensures SeenF(m, a, x'.r) + x'.fwd[..k] == SeenF(m, a, x.r) + x.fwd[..|seen| + k] {
      assert x.fwd[..|seen| + k] == seen + x'.fwd[..k];
    }
  }

  lemma ContextStep(c: Config, m: Msg, a: seq<nat>, x: RecvSide, k: nat)
    requires HasKeys(m) && RecvContext(c, m, a, x) && RecvCan(x, k)
    ensures RecvContext(c, m, AskedAfter(m, a, x), RecvStep(x, k))
  {
    hide MsgOK, CollisionFree, Increasing, ReceiverOK, CacheOK, SeenF, SentB, RecvCan, RecvStep, Preamble, Ready, Forward,
         Continues;
    ContextReady(c, m, a, x, k);
    PopulateRange(c, m, a, x, k);
    if x.r.RPopulate? && x.r.i == |m.sizes| {
      LookedUpStage(c, m, a, x, k);
      JustAsked(c, m, a, x, k);
    } else {
      var seen, replied := TakesStep(c, m, a, x, k);
      AskedSame(c, m, a, x, k);
      ContinuesKept(c, m, a, x, RecvStep(x, k), seen, replied);
    }
  }

  // nothing but the end of the lookups fixes the request
  lemma AskedSame(c: Config, m: Msg, a: seq<nat>, x: RecvSide, k: nat)
    requires HasKeys(m) && Ready(c, m, a, x, k) && RecvCan(x, k)
    requires x.r.RPopulate? ==> x.r.i < |m.sizes|
    ensures HasAsked(RecvStep(x, k).r) == HasAsked(x.r) || !IsFp(m)
  {
    hide CollisionFree, MsgOK, CacheOK, Increasing, Invariants.Placed, SeenF, Forward, Splice, Store, Fits, MissSize;
  }

  // when it is fixed, nothing past the fingerprints has come in
  lemma JustAsked(c: Config, m: Msg, a: seq<nat>, x: RecvSide, k: nat)
    requires HasKeys(m) && RecvContext(c, m, a, x) && RecvCan(x, k) && x.r.RPopulate? && x.r.i == |x.r.plan.fps|
    ensures Continues(m, x.r.plan.miss, RecvStep(x, k))
  {
    hide CollisionFree, MsgOK, CacheOK, Increasing, Sorted, Preamble, Content, Placed;
    assert x.fwd == [];
    var a' := x.r.plan.miss;
    assert Forward(m, a')[..|Preamble(m)|] == Preamble(m);
  }

  lemma {:induction false} ContextKept(c: Config, m: Msg, a: seq<nat>, x: RecvSide, ks: seq<nat>, y: RecvSide)
    returns (a': seq<nat>)
    requires HasKeys(m) && RecvContext(c, m, a, x) && RecvPath(x, ks, y)
    ensures RecvContext(c, m, a', y)
    decreases |ks|
  {
    hide RecvContext, RecvCan, RecvStep;
    if ks == [] {
      a' := a;
    } else {
      ContextStep(c, m, a, x, ks[0]);
      a' := ContextKept(c, m, AskedAfter(m, a, x), RecvStep(x, ks[0]), ks[1..], y);
    }
  }

  // ---- what the stage functions demand of the state ----

  lemma StageFacts(c: Config, m: Msg, a: seq<nat>, x: RecvSide)
    requires RecvContext(c, m, a, x)
    ensures x.r.RPlain? ==> x.r.off <= x.r.size <= |x.buf|
    ensures x.r.RFps? ==> |x.r.got| < FINGERPRINT_BYTES * x.r.n
    ensures x.r.RMissCount? ==> x.r.off < COUNT_BYTES
    ensures x.r.RMissInds? ==> x.r.off < INDEX_BYTES * |x.r.plan.miss|
  {
    hide Tiles, Continues;
  }

  /** The count of fingerprints that comes in is one the arrays have room for. */
  lemma FpsBound(c: Config, m: Msg, a: seq<nat>, x: RecvSide, ks: seq<nat>, y: RecvSide)
    requires HasKeys(m) && RecvContext(c, m, a, x) && RecvPath(x, ks, y) && y.r.RFps?
    ensures y.r.n <= MAX_FINGERPRINTS
  {
    var a' := ContextKept(c, m, a, x, ks, y);
    hide RecvPath, Increasing, Tiles, Continues;
  }

  /** At a lookup: the key is not zero, and what the cache holds under it fits the buffer. */
  lemma LookupFacts(c: Config, m: Msg, a: seq<nat>, x: RecvSide)
    requires RecvContext(c, m, a, x) && x.r.RPopulate?
    ensures var RPopulate(p, i, pos) := x.r;
            && i <= |p.fps| <= MAX_FINGERPRINTS && RecvCan(x, 0)
            && |p.miss| == |p.slots| <= i
            && (i < |p.fps| ==> p.fps[i].key != 0)
  {
    hide Tiles, Continues, Invariants.Placed, Increasing;
    var RPopulate(p, i, pos) := x.r;
    SenderSteps.IncreasingShort(p.miss, i);
    if i < |m.sizes| {
      SenderSteps.PieceSize(c, m, i);
      assert p.fps[i].key == m.keys[i];
      assert m.keys[i] in x.cache.index ==> x.cache.index[m.keys[i]] == Piece(m, i);
    }
  }

  /** In the content loop: the places and sizes of the chunks asked for. */
  lemma ContentFacts(c: Config, m: Msg, a: seq<nat>, x: RecvSide)
    requires RecvContext(c, m, a, x) && x.r.RContent?
    ensures var RContent(p, ind, off) := x.r;
            && ind < |p.miss| == |p.slots| && off < MissSize(p, ind)
            && (forall i :: 0 <= i < |p.miss| ==>
                  p.miss[i] < |p.fps| && 0 < MissSize(p, i) && p.slots[i] + MissSize(p, i) <= |x.buf|)
  {
    AskedFacts(c, m, a, x.r.plan, x.buf, x.r.ind);
    hide Tiles, Continues, Invariants.Placed, Increasing, CacheOK, CollisionFree, MsgOK;
  }

  /** At an insert: the chunk lies in the buffer, is not empty, and its key is not zero. */
  lemma InsertFacts(c: Config, m: Msg, a: seq<nat>, x: RecvSide)
    requires RecvContext(c, m, a, x) && x.r.RInsert?
    ensures var RInsert(p, i) := x.r;
            && i <= |p.miss| == |p.slots| && RecvCan(x, 0)
            && (i < |p.miss| ==>
                  && p.miss[i] < |p.fps| && p.fps[p.miss[i]].key != 0
                  && 0 < MissSize(p, i) && p.slots[i] + MissSize(p, i) <= |x.buf|)
  {
    var RInsert(p, i) := x.r;
    AskedFacts(c, m, a, p, x.buf, |a|);
    hide Tiles, Continues, Invariants.Placed, Increasing, CacheOK;
    if i < |a| { assert p.fps[p.miss[i]].key == m.keys[a[i]]; }
  }

  class RecvRequest {
    const appBuffer: array<Byte>
    const sock: Socket
    const cache: PageCaches.PageCache
    const flags: Flags
    const fpMem: array<Byte>            // the memory of packaged_fingerprints
    const missInds: array<nat>          // missing_fingerprint_inds
    const missSlots: array<nat>         // missing_fingerprint_slots, as offsets from app_buffer
    ghost const m: Msg

    var stage: Stage
    var size: nat                       // header.content_size
    var appOffset: nat
    var numFingerprints: nat
    var fpOffset: nat
    var numMissing: nat
    var missHeaderOffset: nat
    var missIndsOffset: nat
    var curInd: nat
    var curOffset: nat

    /** The arrays have their fixed lengths and are apart from each other. */
    ghost predicate Setup()
    {
      && fpMem.Length == FINGERPRINT_BYTES * MAX_FINGERPRINTS
      && missInds.Length == missSlots.Length == MAX_FINGERPRINTS
      && missInds != missSlots && missInds != cache.freePages && missSlots != cache.freePages
      && appBuffer != cache.mem && fpMem != cache.mem && fpMem != appBuffer
      && sock.out != sock.inn
    }

    /** What the stages before a field's own leave at zero. */
    predicate Untouched()
      reads this
    {
      var r := Rank(stage);
      && (r == 0 ==> appOffset == 0)
      && (r <= 3 ==> numMissing == 0)
      && (r <= 2 ==> fpOffset == 0)
      && (r <= 4 ==> missHeaderOffset == 0)
      && (r <= 5 ==> missIndsOffset == 0)
      && (r <= 6 ==> curInd == 0 && curOffset == 0)
    }

    ghost predicate Valid()
      reads this, cache, cache.mem, cache.freePages, cache.table, cache.table.words, cache.table.items
    {
      && Setup() && cache.Valid() && Untouched()
      && (3 <= Rank(stage) <= 8 ==> numFingerprints <= MAX_FINGERPRINTS)
      && numMissing <= MAX_FINGERPRINTS
    }

    // the part of the fingerprints received so far
    ghost function Got(): Bytes
      reads this`fpOffset, fpMem
    {
      Take(fpMem[..], fpOffset)
    }

    ghost function Fps(): seq<Fingerprint>
      reads this`numFingerprints, fpMem
    {
      DecodeFingerprints(Take(fpMem[..], FINGERPRINT_BYTES * numFingerprints))
    }

    ghost function Known(): Plan
      reads this`size, this`numFingerprints, this`numMissing, fpMem, missInds, missSlots
    {
      Plan(size, Fps(),
           if numMissing <= missInds.Length then missInds[..numMissing] else [],
           if numMissing <= missSlots.Length then missSlots[..numMissing] else [])
    }

    /** The state of the machine that the fields stand for. */
    ghost function View(): Receiver
      reads this, fpMem, missInds, missSlots
    {
      match stage
      case RECV_HEADER => RHeader
      case RECV_REG_DATA => RPlain(size, appOffset)
      case RECV_FINGERPRINT_HEADER => RCount(size)
      case RECV_PACKAGED_FINGERPRINTS => RFps(size, numFingerprints, Got())
      case POPULATE_FROM_NET_CACHE => RPopulate(Plan(size, Fps(), [], []), 0, 0)
      case SEND_MISSING_FINGERPRINT_HEADER => RMissCount(Known(), missHeaderOffset)
      case SEND_MISSING_FINGERPRINTS => RMissInds(Known(), missIndsOffset)
      case RECV_MISSING_CONTENT => RContent(Known(), curInd, curOffset)
      case INSERT_INBOUND_FINGERPRINTS => RInsert(Known(), 0)
      case RECV_COMPLETE => RDone(size)
    }

    ghost function As(r: Receiver): RecvSide
      requires cache.Valid()
      reads appBuffer, sock.out, sock.inn, flags
      reads cache, cache.mem, cache.freePages, cache.table, cache.table.words, cache.table.items
    {
      RecvSide(r, appBuffer[..], sock.inn.bytes, sock.out.bytes, cache.View(), flags.skipInsert)
    }

    ghost function Side(): RecvSide
      requires cache.Valid()
      reads this, fpMem, missInds, missSlots, appBuffer, sock.out, sock.inn, flags
      reads cache, cache.mem, cache.freePages, cache.table, cache.table.words, cache.table.items
    {
      As(View())
    }

    /** Why a call goes no further: the last call on the socket moved less than it was asked to, or the lock
        of the cache was taken. */
    ghost predicate Waiting(before: nat, lockFree: bool)
      reads this`stage, sock`log, flags
    {
      sock.CutShort(before) || (stage == INSERT_INBOUND_FINGERPRINTS && !lockFree && !flags.skipInsert)
    }

    /** irecv: a cleared request at its first stage. */
    constructor (appBuffer: array<Byte>, sock: Socket, cache: PageCaches.PageCache, flags: Flags, ghost m: Msg)
      requires cache.Valid() && appBuffer != cache.mem && sock.out != sock.inn
      ensures Valid() && View() == RHeader && fresh(fpMem) && fresh(missInds) && fresh(missSlots)
      ensures this.appBuffer == appBuffer && this.sock == sock && this.cache == cache && this.flags == flags && this.m == m
    {
      hide PageCaches.PageCache.Valid;
      this.appBuffer, this.sock, this.cache, this.flags, this.m := appBuffer, sock, cache, flags, m;
      fpMem := new Byte[FINGERPRINT_BYTES * MAX_FINGERPRINTS](_ => 0);
      missInds := new nat[MAX_FINGERPRINTS](_ => 0);
      missSlots := new nat[MAX_FINGERPRINTS](_ => 0);
      stage, size, appOffset, numFingerprints, fpOffset := RECV_HEADER, 0, 0, 0, 0;
      numMissing, missHeaderOffset, missIndsOffset, curInd, curOffset := 0, 0, 0, 0, 0;
    }

    method RecvHeader() returns (go: bool, isFingerprint: bool, ghost ks: seq<nat>)
      requires Valid() && stage == RECV_HEADER
      modifies this`size, sock.inn, sock`log
      ensures Valid()
      ensures RecvPath(old(Side()), ks, As(if !go then RHeader else if isFingerprint then RCount(size) else RPlain(size, 0)))
      ensures go ==> |old(sock.inn.bytes)| >= HEADER_BYTES && isFingerprint == (old(sock.inn.bytes)[0] != 0)
      ensures go ==> size == Word(old(sock.inn.bytes), 8)
      ensures |old(sock.log)| <= |sock.log| && (!go ==> sock.CutShort(|old(sock.log)|))
      ensures sock.willing && |old(sock.inn.bytes)| >= HEADER_BYTES ==> ks != []
    {
      hide PageCaches.PageCache.Valid, PageCaches.PageCache.View, HeaderSize, HeaderIsFingerprint, Word;
      if |sock.inn.bytes| >= HEADER_BYTES { HeaderMeans(sock.inn.bytes); }
      var n, b := sock.RecvWhole(HEADER_BYTES);
      if n == -1 {
        assert sock.inn.bytes == old(sock.inn.bytes);
        return false, false, [];
      }
      PathOne(old(Side()), HEADER_BYTES);
      size := HeaderSize(b);
      return true, HeaderIsFingerprint(b), [HEADER_BYTES];
    }

    method RecvRegData() returns (go: bool, ghost ks: seq<nat>)
      requires Valid() && stage == RECV_REG_DATA && appOffset <= size <= appBuffer.Length
      modifies this`appOffset, sock.inn, sock`log, appBuffer
      ensures Valid()
      ensures RecvPath(old(Side()), ks, As(if go then RDone(size) else RPlain(size, appOffset)))
      ensures |old(sock.log)| <= |sock.log| && (!go ==> sock.CutShort(|old(sock.log)|))
      ensures sock.willing && (old(sock.inn.bytes) != [] || old(appOffset) == size) ==> ks != []
    {
      hide PageCaches.PageCache.Valid, PageCaches.PageCache.View, Splice;
      var remain := size - appOffset;
      if remain == 0 {
        PathOne(Side(), 0);
        SpliceNothing(appBuffer[..], appOffset);
        assert sock.inn.bytes[0..] == sock.inn.bytes;
        return true, [0];
      }
      var n, b := sock.Recv(remain);
      if n <= 0 {
        assert sock.inn.bytes == old(sock.inn.bytes);
        return false, [];
      }
      PathOne(old(Side()), n);
      Memcpy(appBuffer, appOffset, b);
      appOffset := appOffset + n;
      return appOffset == size, [n];
    }

    method RecvFingerprintHeader() returns (go: bool, ghost ks: seq<nat>)
      requires Valid() && stage == RECV_FINGERPRINT_HEADER
      modifies this`numFingerprints, sock.inn, sock`log
      ensures Valid()
      ensures RecvPath(old(Side()), ks, As(if go then RFps(size, numFingerprints, []) else RCount(size)))
      ensures |old(sock.log)| <= |sock.log| && (!go ==> sock.CutShort(|old(sock.log)|))
      ensures sock.willing && |old(sock.inn.bytes)| >= COUNT_BYTES ==> ks != []
    {
      hide PageCaches.PageCache.Valid, PageCaches.PageCache.View, Decode;
      var n, b := sock.RecvWhole(COUNT_BYTES);
      if n == -1 {
        assert sock.inn.bytes == old(sock.inn.bytes);
        return false, [];
      }
      PathOne(old(Side()), COUNT_BYTES);
      numFingerprints := Decode(b);
      return true, [COUNT_BYTES];
    }

    method RecvPackagedFingerprints() returns (go: bool, ghost ks: seq<nat>)
      requires Valid() && stage == RECV_PACKAGED_FINGERPRINTS && fpOffset < FINGERPRINT_BYTES * numFingerprints
      modifies this`fpOffset, fpMem, sock.inn, sock`log
      ensures Valid()
      ensures RecvPath(old(Side()), ks,
                       As(if go then RPopulate(Plan(size, Fps(), [], []), 0, 0) else RFps(size, numFingerprints, Got())))
      ensures |old(sock.log)| <= |sock.log| && (!go ==> sock.CutShort(|old(sock.log)|))
      ensures sock.willing && old(sock.inn.bytes) != [] ==> ks != []
    {
      hide PageCaches.PageCache.Valid, PageCaches.PageCache.View, DecodeFingerprints, Splice, RecvCan, RecvStep, RecvPath;
      ghost var x := Side();
      NoPath(x);
      var remain := FINGERPRINT_BYTES * numFingerprints - fpOffset;
      var n, b := sock.Recv(remain);
      if n <= 0 {
        assert sock.inn.bytes == old(sock.inn.bytes);
        return false, [];
      }
      FpsCan(x, n);
      FpsStepIs(x, n);
      PathOne(x, n);
      SpliceExtends(fpMem[..], fpOffset, b);
      Memcpy(fpMem, fpOffset, b);
      if n < remain {
        fpOffset := fpOffset + n;
        return false, [n];
      }
      return true, [n];
    }

    method SendMissingFingerprintHeader() returns (go: bool, ghost ks: seq<nat>)
      requires Valid() && stage == SEND_MISSING_FINGERPRINT_HEADER && missHeaderOffset < COUNT_BYTES
      modifies this`missHeaderOffset, sock.out, sock`log
      ensures Valid()
      ensures RecvPath(old(Side()), ks,
                       As(if !go then RMissCount(Known(), missHeaderOffset)
                          else if numMissing == 0 then RDone(size) else RMissInds(Known(), 0)))
      ensures |old(sock.log)| <= |sock.log| && (!go ==> sock.CutShort(|old(sock.log)|))
      ensures sock.willing ==> ks != []
    {
      hide PageCaches.PageCache.Valid, PageCaches.PageCache.View, Encode;
      var header := Encode(numMissing, 8);
      var off := missHeaderOffset;
      var n := sock.Send(header[off..]);
      if n <= 0 {
        return false, [];
      }
      assert header[off..][..n] == header[off..off + n];
      PathOne(old(Side()), n);
      if n < COUNT_BYTES - off {
        missHeaderOffset := off + n;
        return false, [n];
      }
      return true, [n];
    }

    method SendMissingFingerprints() returns (go: bool, ghost ks: seq<nat>)
      requires Valid() && stage == SEND_MISSING_FINGERPRINTS && missIndsOffset < INDEX_BYTES * numMissing
      modifies this`missIndsOffset, sock.out, sock`log
      ensures Valid()
      ensures RecvPath(old(Side()), ks, As(if go then RContent(Known(), 0, 0) else RMissInds(Known(), missIndsOffset)))
      ensures |old(sock.log)| <= |sock.log| && (!go ==> sock.CutShort(|old(sock.log)|))
      ensures sock.willing ==> ks != []
    {
      hide PageCaches.PageCache.Valid, PageCaches.PageCache.View, EncodeIndices;
      var b := EncodeIndices(missInds[..numMissing]);
      var off := missIndsOffset;
      var n := sock.Send(b[off..]);
      if n <= 0 {
        return false, [];
      }
      assert b[off..][..n] == b[off..off + n];
      PathOne(old(Side()), n);
      if n < |b| - off {
        missIndsOffset := off + n;
        return false, [n];
      }
      return true, [n];
    }

    // packaged_fingerprints[i], read from its memory
    method FingerprintOf(i: nat) returns (f: Fingerprint)
      requires Setup() && i < numFingerprints <= MAX_FINGERPRINTS
      ensures i < |Fps()| && f == Fps()[i]
    {
      hide DecodeFingerprints, DecodeFingerprint;
      var lo := FINGERPRINT_BYTES * i;
      FingerprintAt(Take(fpMem[..], FINGERPRINT_BYTES * numFingerprints), numFingerprints, i);
      TakeSlice(fpMem[..], FINGERPRINT_BYTES * numFingerprints, lo, lo + FINGERPRINT_BYTES);
      assert fpMem[lo..lo + FINGERPRINT_BYTES] == fpMem[..][lo..lo + FINGERPRINT_BYTES];
      f := DecodeFingerprint(fpMem[lo..lo + FINGERPRINT_BYTES]);
    }

    lemma FpsCount()
      requires Setup() && numFingerprints <= MAX_FINGERPRINTS
      ensures |Fps()| == numFingerprints
    {
      hide DecodeFingerprints;
      FingerprintCount(Take(fpMem[..], FINGERPRINT_BYTES * numFingerprints), numFingerprints);
    }

    lemma KnownFacts()
      requires Setup() && numFingerprints <= MAX_FINGERPRINTS && numMissing <= MAX_FINGERPRINTS
      ensures |Fps()| == numFingerprints && Known().fps == Fps() && Known().size == size
      ensures |Known().miss| == |Known().slots| == numMissing
      ensures missInds.Length == missSlots.Length == MAX_FINGERPRINTS && appBuffer != cache.mem && fpMem != appBuffer
      ensures missInds != cache.freePages && missSlots != cache.freePages && sock.out != sock.inn
      ensures forall i :: 0 <= i < numMissing ==> Known().miss[i] == missInds[i] && Known().slots[i] == missSlots[i]
    {
      FpsCount();
      hide DecodeFingerprints;
    }

    /** Looks one fingerprint up: its chunk is copied from the cache, or noted as missing. */
    method LookupOne(ghost c: Config, ghost a: seq<nat>, i: nat, pos: nat) returns (next: nat)
      requires Valid() && 3 <= Rank(stage) <= 4 && i < numFingerprints && RecvContext(c, m, a, As(RPopulate(Known(), i, pos)))
      modifies this`numMissing, missInds, missSlots, appBuffer
      ensures Setup() && cache.Valid() && numMissing <= i + 1
      ensures RecvCan(old(As(RPopulate(Known(), i, pos))), 0)
      ensures RecvStep(old(As(RPopulate(Known(), i, pos))), 0) == As(RPopulate(Known(), i + 1, next))
    {
      hide PageCaches.PageCache.Valid, RecvContext, Splice, PageCaches.Gather, PageCaches.Contents, PageCaches.PageCache.View,
           RecvStep, RecvCan, DecodeFingerprints, Take, RecvRequest.Known, RecvRequest.Setup;
      ghost var x := As(RPopulate(Known(), i, pos));
      LookupFacts(c, m, a, x);
      KnownFacts();
      var f := FingerprintOf(i);
      next := pos + f.size;
      var found, entry := cache.Lookup(f.key, Entry(0, []));
      if found {
        HitStepIs(x, 0);
        HitRoom(x, 0);
        cache.CopyContent(appBuffer, pos, entry);
      } else {
        MissStepIs(x, 0);
        NoteMissing(i, pos);
      }
    }

    /** Notes a fingerprint as missing, and where its content goes. */
    method NoteMissing(i: nat, pos: nat)
      requires Setup() && numMissing < MAX_FINGERPRINTS
      modifies this`numMissing, missInds, missSlots
      ensures numMissing == old(numMissing) + 1
      ensures Known() == old(Known()).(miss := old(Known()).miss + [i], slots := old(Known()).slots + [pos])
    {
      hide DecodeFingerprints;
      missInds[numMissing] := i;
      missSlots[numMissing] := pos;
      numMissing := numMissing + 1;
      assert missInds[..numMissing] == old(missInds[..numMissing]) + [i];
      assert missSlots[..numMissing] == old(missSlots[..numMissing]) + [pos];
    }

    // the same, as one more action of the machine
    method LookupNext(ghost c: Config, ghost a: seq<nat>, i: nat, pos: nat, ghost x0: RecvSide, ghost ks: seq<nat>)
      returns (next: nat, ghost ks': seq<nat>)
      requires Valid() && stage == POPULATE_FROM_NET_CACHE && i < numFingerprints && HasKeys(m)
      requires RecvContext(c, m, a, As(RPopulate(Known(), i, pos)))
      requires RecvPath(x0, ks, As(RPopulate(Known(), i, pos)))
      modifies this`numMissing, missInds, missSlots, appBuffer
      ensures Valid()
      ensures RecvContext(c, m, a, As(RPopulate(Known(), i + 1, next)))
      ensures RecvPath(x0, ks', As(RPopulate(Known(), i + 1, next)))
    {
      hide PageCaches.PageCache.Valid, PageCaches.PageCache.View, RecvContext, RecvStep, RecvCan, RecvPath, DecodeFingerprints,
           Take, RecvRequest.Setup, RecvRequest.Known;
      ghost var x := As(RPopulate(Known(), i, pos));
      KnownFacts();
      LookupCount(c, m, a, x);
      next := LookupOne(c, a, i, pos);
      ContextStep(c, m, a, x, 0);
      PathMore(x0, ks, x, 0);
      ks' := ks + [0];
    }

    method PopulateFromNetCache(ghost c: Config, ghost a: seq<nat>) returns (ghost ks: seq<nat>)
      requires Valid() && stage == POPULATE_FROM_NET_CACHE && HasKeys(m) && RecvContext(c, m, a, Side())
      modifies this`numMissing, missInds, missSlots, appBuffer
      ensures Valid() && ks != []
      ensures RecvPath(old(Side()), ks, As(RMissCount(Known(), 0)))
    {
      hide PageCaches.PageCache.Valid, PageCaches.PageCache.View, RecvContext, RecvStep, RecvCan, RecvPath, DecodeFingerprints,
           Take, RecvRequest.Setup;
      ghost var x0 := Side();
      numMissing := 0;
      ks := [];
      var pos := 0;
      NoPath(x0);
      assert Known() == Plan(size, Fps(), [], []);
      hide RecvRequest.Known;
      for i := 0 to numFingerprints
        invariant Valid()
        invariant RecvContext(c, m, a, As(RPopulate(Known(), i, pos)))
        invariant RecvPath(x0, ks, As(RPopulate(Known(), i, pos)))
      {
        pos, ks := LookupNext(c, a, i, pos, x0, ks);
      }
      ghost var x := As(RPopulate(Known(), numFingerprints, pos));
      KnownFacts();
      LookupFacts(c, m, a, x);
      AllLookedUp(x);
      PathMore(x0, ks, x, 0);
      ks := ks + [0];
    }

    // what the content loop needs to know of the request
    ghost predicate Filling()
      reads this, appBuffer, fpMem, missInds, missSlots
    {
      && stage == RECV_MISSING_CONTENT && curInd <= numMissing
      && SlotsOK(Known(), appBuffer.Length)
      && (curInd < numMissing ==> curOffset < MissSize(Known(), curInd))
      && (curInd == numMissing ==> curOffset == 0)
    }

    ghost function Position(): Receiver
      reads this, fpMem, missInds, missSlots
    {
      if curInd < numMissing then RContent(Known(), curInd, curOffset) else RInsert(Known(), 0)
    }

    ghost function Filled(): RecvSide
      requires cache.Valid()
      reads this, fpMem, missInds, missSlots, appBuffer, sock.out, sock.inn, flags
      reads cache, cache.mem, cache.freePages, cache.table, cache.table.words, cache.table.items
    {
      As(Position())
    }

    /** `recv()` to a place in the application's buffer. */
    method RecvInto(at: nat, max: nat) returns (n: int)
      requires sock.out != sock.inn && at + max <= appBuffer.Length
      modifies sock.inn, sock`log, appBuffer
      ensures -1 <= n <= max && n <= |old(sock.inn.bytes)|
      ensures n > 0 ==> appBuffer[..] == Splice(old(appBuffer[..]), at, old(sock.inn.bytes)[..n])
      ensures n > 0 ==> sock.inn.bytes == old(sock.inn.bytes)[n..]
      ensures n <= 0 ==> appBuffer[..] == old(appBuffer[..]) && sock.inn.bytes == old(sock.inn.bytes)
      ensures |sock.log| == |old(sock.log)| + 1 && (n < max && max > 0 ==> sock.CutShort(|old(sock.log)|))
      ensures sock.willing && max > 0 && old(sock.inn.bytes) != [] ==> n > 0
    {
      hide Splice;
      var b;
      n, b := sock.Recv(max);
      if n > 0 {
        Memcpy(appBuffer, at, b);
      } else {
        assert sock.inn.bytes == old(sock.inn.bytes);
      }
    }

    /** Notes that `n` more bytes of the chunk are in. */
    method Advance(n: nat, remain: nat) returns (full: bool)
      requires Valid() && Filling() && curInd < numMissing
      requires 0 < n <= remain == MissSize(Known(), curInd) - curOffset
      modifies this`curInd, this`curOffset
      ensures Valid() && Filling()
      ensures full == (n == remain) && curInd == old(curInd) + if full then 1 else 0
      ensures Position() == Advanced(old(Known()), old(curInd), old(curOffset) + n)
    {
      hide PageCaches.PageCache.Valid, DecodeFingerprints, RecvRequest.Known, RecvRequest.Setup, SlotsOK, MissSize, Take;
      KnownFacts();
      SlotAt(Known(), appBuffer.Length, curInd);
      if n < remain {
        curOffset := curOffset + n;
        return false;
      }
      curInd, curOffset := curInd + 1, 0;
      return true;
    }

    /** Takes in as much as there is of the chunk being received. */
    method RecvPiece() returns (full: bool, ghost ks: seq<nat>)
      requires Valid() && Filling() && curInd < numMissing
      modifies this`curInd, this`curOffset, sock.inn, sock`log, appBuffer
      ensures Valid() && Filling()
      ensures curInd == old(curInd) + if full then 1 else 0
      ensures RecvPath(old(Filled()), ks, Filled())
      ensures |old(sock.log)| <= |sock.log| && (!full ==> sock.CutShort(|old(sock.log)|))
      ensures sock.willing && old(sock.inn.bytes) != [] ==> ks != []
    {
      hide PageCaches.PageCache.Valid, PageCaches.PageCache.View, Splice, RecvStep, RecvPath, RecvCan, DecodeFingerprints,
           RecvRequest.Known, RecvRequest.Setup, SlotsOK, MissSize, Take;
      ghost var x, plan := Filled(), Known();
      KnownFacts();
      SlotAt(plan, appBuffer.Length, curInd);
      var slot := missSlots[curInd];
      var f := FingerprintOf(missInds[curInd]);
      var remain := f.size - curOffset;
      hide RecvRequest.Untouched, Advanced;
      var n := RecvInto(slot + curOffset, remain);
      if n <= 0 {
        NoPath(x);
        return false, [];
      }
      ContentCan(x, n);
      ContentStepIs(x, n);
      PathOne(x, n);
      full := Advance(n, remain);
      return full, [n];
    }

    /** Fills in the missing chunks, one after the other, as far as bytes are there. */
    method RecvMissingContent(ghost c: Config, ghost a: seq<nat>) returns (go: bool, ghost ks: seq<nat>)
      requires Valid() && stage == RECV_MISSING_CONTENT && RecvContext(c, m, a, Side())
      modifies this`curInd, this`curOffset, sock.inn, sock`log, appBuffer
      ensures Valid()
      ensures RecvPath(old(Side()), ks, As(if go then RInsert(Known(), 0) else RContent(Known(), curInd, curOffset)))
      ensures |old(sock.log)| <= |sock.log| && (!go ==> sock.CutShort(|old(sock.log)|))
      ensures sock.willing && old(sock.inn.bytes) != [] ==> ks != []
    {
      hide PageCaches.PageCache.Valid, PageCaches.PageCache.View, RecvContext, RecvStep, RecvCan, RecvPath, MissSize,
           DecodeFingerprints, RecvRequest.Known, RecvRequest.Setup, Take;
      KnownFacts();
      ks := [];
      ContentFacts(c, m, a, Side());
      FpsCount();
      NoPath(Side());
      while curInd < numMissing
        invariant Valid() && Filling()
        invariant RecvPath(old(Side()), ks, Filled())
        invariant |old(sock.log)| <= |sock.log|
        invariant sock.willing && old(sock.inn.bytes) != [] && ks == [] ==>
                    curInd == old(curInd) && sock.inn.bytes == old(sock.inn.bytes)
      {
        ghost var y := Filled();
        var full;
        ghost var more;
        full, more := RecvPiece();
        PathJoin(old(Side()), ks, y, more, Filled());
        ks := ks + more;
        if !full {
          return false, ks;
        }
      }
      return true, ks;
    }

    /** Inserts one chunk that came in, or notes that the cache is full. */
    method InsertMissing(ghost c: Config, ghost a: seq<nat>, i: nat) returns (ok: bool)
      requires Valid() && stage == INSERT_INBOUND_FINGERPRINTS && HasKeys(m) && !flags.skipInsert && i < numMissing
      requires RecvContext(c, m, a, As(RInsert(Known(), i)))
      modifies flags, cache, cache.mem, cache.table, cache.table.words, cache.table.items
      ensures Valid() && flags.skipInsert == !ok
      ensures RecvCan(old(As(RInsert(Known(), i))), 0)
      ensures RecvStep(old(As(RInsert(Known(), i))), 0) == As(if ok then RInsert(Known(), i + 1) else RDone(size))
    {
      hide PageCaches.PageCache.Valid, PageCaches.PageCache.View, RecvContext, RecvStep, RecvCan, Fits, Store,
           PageCaches.Ownership, DecodeFingerprints;
      ghost var x := As(RInsert(Known(), i));
      InsertFacts(c, m, a, x);
      InsertCases(x);
      FpsCount();
      var slot, ind := missSlots[i], missInds[i];
      assert slot == Known().slots[i] && ind == Known().miss[i];
      var f := FingerprintOf(ind);
      var content := appBuffer[slot..slot + f.size];
      var entry;
      ok, entry := cache.Insert(f.key, content);
      if !ok {
        flags.skipInsert := true;
        StoreRefused(x.cache, f.key, content);
      }
    }

    /** Inserts the chunks that came in into the cache, under its lock, until it is full. */
    method InsertInbound(ghost c: Config, ghost a: seq<nat>, lockFree: bool) returns (go: bool, ghost ks: seq<nat>)
      requires Valid() && stage == INSERT_INBOUND_FINGERPRINTS && HasKeys(m) && RecvContext(c, m, a, Side())
      modifies flags, cache, cache.mem, cache.table, cache.table.words, cache.table.items
      ensures Valid()
      ensures RecvPath(old(Side()), ks, As(if go then RDone(size) else RInsert(Known(), 0)))
      ensures go <==> old(flags.skipInsert) || lockFree
      ensures !go ==> !flags.skipInsert
      ensures go ==> ks != []
    {
      hide PageCaches.PageCache.Valid, PageCaches.PageCache.View, RecvContext, RecvStep, RecvCan, RecvPath, DecodeFingerprints,
           RecvRequest.Known, RecvRequest.Setup, Take, Fits, Store, MissSize;
      KnownFacts();
      ks := [];
      NoPath(Side());
      InsertFacts(c, m, a, Side());
      InsertCases(Side());
      if flags.skipInsert {
        PathOne(Side(), 0);
        return true, [0];
      }
      if !lockFree {
        return false, ks;
      }
      for i := 0 to numMissing
        invariant Valid() && !flags.skipInsert
        invariant RecvContext(c, m, a, As(RInsert(Known(), i)))
        invariant RecvPath(old(Side()), ks, As(RInsert(Known(), i)))
      {
        ghost var x := As(RInsert(Known(), i));
        var ok := InsertMissing(c, a, i);
        ContextStep(c, m, a, x, 0);
        PathMore(old(Side()), ks, x, 0);
        ks := ks + [0];
        if !ok {
          return true, ks;
        }
      }
      ghost var x := As(RInsert(Known(), numMissing));
      KnownFacts();
      InsertFacts(c, m, a, x);
      InsertCases(x);
      PathMore(old(Side()), ks, x, 0);
      return true, ks + [0];
    }

    /** Progresses the receive as far as it goes: 1 when complete, 0 when it has to wait.  What it does is
        a run of the machine's actions; and when the socket is willing and the lock free, it does
        something if anything can be done. */
    method ProcessRecv(ghost c: Config, ghost a: seq<nat>, lockFree: bool)
      returns (ret: int, ghost ks: seq<nat>, ghost a': seq<nat>)
      requires Valid() && HasKeys(m) && RecvContext(c, m, a, Side())
      modifies this, fpMem, missInds, missSlots, appBuffer, sock.out, sock.inn, sock`log, flags
      modifies cache, cache.mem, cache.table, cache.table.words, cache.table.items
      ensures Valid() && RecvContext(c, m, a', Side())
      ensures RecvPath(old(Side()), ks, Side())
      ensures ret == if stage == RECV_COMPLETE then 1 else 0
      ensures ret == 0 ==> Waiting(|old(sock.log)|, lockFree)
      ensures sock.willing && lockFree && ReceiverMayMove(old(Side())) ==> ks != []
    {
      hide PageCaches.PageCache.Valid, PageCaches.PageCache.View, RecvContext, RecvPath, ReceiverMayMove, DecodeFingerprints;
      ks, a' := [], a;
      NoPath(Side());
      var go := true;
      while go
        invariant Valid() && RecvPath(old(Side()), ks, Side()) && RecvContext(c, m, a', Side())
        invariant |old(sock.log)| <= |sock.log|
        invariant !go ==> Waiting(|old(sock.log)|, lockFree) && stage != RECV_COMPLETE
        invariant sock.willing && lockFree && ReceiverMayMove(old(Side())) && ks == [] ==> go && Side() == old(Side())
        decreases 9 - Rank(stage), go
      {
        if stage == RECV_COMPLETE {
          DoneIsDone(Side());
          return 1, ks, a';
        }
        ghost var x := Side();
        ghost var more;
        go, more := ProcessStage(c, a', lockFree);
        PathJoin(old(Side()), ks, x, more, Side());
        a' := ContextKept(c, m, a', x, more, Side());
        ks := ks + more;
      }
      return 0, ks, a';
    }

    /** One turn of the stage switch. */
    method ProcessStage(ghost c: Config, ghost a: seq<nat>, lockFree: bool) returns (go: bool, ghost ks: seq<nat>)
      requires Valid() && HasKeys(m) && RecvContext(c, m, a, Side()) && stage != RECV_COMPLETE
      modifies this, fpMem, missInds, missSlots, appBuffer, sock.out, sock.inn, sock`log, flags
      modifies cache, cache.mem, cache.table, cache.table.words, cache.table.items
      ensures Valid()
      ensures RecvPath(old(Side()), ks, Side())
      ensures if go then Rank(stage) > Rank(old(stage)) else stage == old(stage)
      ensures |old(sock.log)| <= |sock.log| && (!go ==> Waiting(|old(sock.log)|, lockFree))
      ensures sock.willing && lockFree && ReceiverMayMove(old(Side())) ==> ks != []
    {
      hide PageCaches.PageCache.Valid, PageCaches.PageCache.View, RecvContext, RecvPath, RecvStep, RecvCan, DecodeFingerprints;
      if Rank(stage) <= 1 {
        go, ks := PlainStage(c, a, lockFree);
      } else if Rank(stage) <= 3 {
        go, ks := AnnouncedStage(c, a, lockFree);
      } else if Rank(stage) == 4 {
        go, ks := PopulateStage(c, a, lockFree);
      } else if Rank(stage) <= 6 {
        go, ks := MissingStage(c, a, lockFree);
      } else {
        go, ks := FillStage(c, a, lockFree);
      }
    }

    /** The header, and the data of a small message. */
    method PlainStage(ghost c: Config, ghost a: seq<nat>, ghost lockFree: bool) returns (go: bool, ghost ks: seq<nat>)
      requires Valid() && HasKeys(m) && RecvContext(c, m, a, Side()) && Rank(stage) <= 1
      modifies this, fpMem, missInds, missSlots, appBuffer, sock.out, sock.inn, sock`log, flags
      modifies cache, cache.mem, cache.table, cache.table.words, cache.table.items
      ensures Valid()
      ensures RecvPath(old(Side()), ks, Side())
      ensures if go then Rank(stage) > Rank(old(stage)) else stage == old(stage)
      ensures |old(sock.log)| <= |sock.log| && (!go ==> Waiting(|old(sock.log)|, lockFree))
      ensures sock.willing && lockFree && ReceiverMayMove(old(Side())) ==> ks != []
    {
      hide PageCaches.PageCache.Valid, PageCaches.PageCache.View, RecvContext, RecvPath, RecvStep, RecvCan, DecodeFingerprints;
      StageFacts(c, m, a, Side());
      match stage {
        case RECV_HEADER =>
          var isFingerprint;
          go, isFingerprint, ks := RecvHeader();
          if go { stage := if isFingerprint then RECV_FINGERPRINT_HEADER else RECV_REG_DATA; }
        case RECV_REG_DATA =>
          go, ks := RecvRegData();
          if go { stage := RECV_COMPLETE; }
      }
    }

    /** The stages that take in the fingerprints announced. */
    method AnnouncedStage(ghost c: Config, ghost a: seq<nat>, ghost lockFree: bool) returns (go: bool, ghost ks: seq<nat>)
      requires Valid() && HasKeys(m) && RecvContext(c, m, a, Side()) && 2 <= Rank(stage) <= 3
      modifies this, fpMem, missInds, missSlots, appBuffer, sock.out, sock.inn, sock`log, flags
      modifies cache, cache.mem, cache.table, cache.table.words, cache.table.items
      ensures Valid()
      ensures RecvPath(old(Side()), ks, Side())
      ensures if go then Rank(stage) > Rank(old(stage)) else stage == old(stage)
      ensures |old(sock.log)| <= |sock.log| && (!go ==> Waiting(|old(sock.log)|, lockFree))
      ensures sock.willing && lockFree && ReceiverMayMove(old(Side())) ==> ks != []
    {
      hide PageCaches.PageCache.Valid, PageCaches.PageCache.View, RecvContext, RecvPath, RecvStep, RecvCan, DecodeFingerprints;
      StageFacts(c, m, a, Side());
      match stage {
        case RECV_FINGERPRINT_HEADER =>
          go, ks := RecvFingerprintHeader();
          if go { FpsBound(c, m, a, old(Side()), ks, As(RFps(size, numFingerprints, []))); }
          if go { stage := RECV_PACKAGED_FINGERPRINTS; }
        case RECV_PACKAGED_FINGERPRINTS =>
          go, ks := RecvPackagedFingerprints();
          if go { stage := POPULATE_FROM_NET_CACHE; }
      }
    }

    /** The stage that looks the fingerprints up. */
    method PopulateStage(ghost c: Config, ghost a: seq<nat>, ghost lockFree: bool) returns (go: bool, ghost ks: seq<nat>)
      requires Valid() && HasKeys(m) && RecvContext(c, m, a, Side()) && stage == POPULATE_FROM_NET_CACHE
      modifies this, fpMem, missInds, missSlots, appBuffer, sock.out, sock.inn, sock`log, flags
      modifies cache, cache.mem, cache.table, cache.table.words, cache.table.items
      ensures Valid()
      ensures RecvPath(old(Side()), ks, Side())
      ensures if go then Rank(stage) > Rank(old(stage)) else stage == old(stage)
      ensures |old(sock.log)| <= |sock.log| && (!go ==> Waiting(|old(sock.log)|, lockFree))
      ensures sock.willing && lockFree && ReceiverMayMove(old(Side())) ==> ks != []
    {
      hide PageCaches.PageCache.Valid, PageCaches.PageCache.View, RecvContext, RecvPath, RecvStep, RecvCan, DecodeFingerprints;
      ks := PopulateFromNetCache(c, a);
      go := true;
      stage := SEND_MISSING_FINGERPRINT_HEADER;
    }

    /** The stages that ask for what is missing. */
    method MissingStage(ghost c: Config, ghost a: seq<nat>, ghost lockFree: bool) returns (go: bool, ghost ks: seq<nat>)
      requires Valid() && HasKeys(m) && RecvContext(c, m, a, Side()) && 5 <= Rank(stage) <= 6
      modifies this, fpMem, missInds, missSlots, appBuffer, sock.out, sock.inn, sock`log, flags
      modifies cache, cache.mem, cache.table, cache.table.words, cache.table.items
      ensures Valid()
      ensures RecvPath(old(Side()), ks, Side())
      ensures if go then Rank(stage) > Rank(old(stage)) else stage == old(stage)
      ensures |old(sock.log)| <= |sock.log| && (!go ==> Waiting(|old(sock.log)|, lockFree))
      ensures sock.willing && lockFree && ReceiverMayMove(old(Side())) ==> ks != []
    {
      hide PageCaches.PageCache.Valid, PageCaches.PageCache.View, RecvContext, RecvPath, RecvStep, RecvCan, DecodeFingerprints;
      StageFacts(c, m, a, Side());
      match stage {
        case SEND_MISSING_FINGERPRINT_HEADER =>
          go, ks := SendMissingFingerprintHeader();
          if go { stage := if numMissing == 0 then RECV_COMPLETE else SEND_MISSING_FINGERPRINTS; }
        case SEND_MISSING_FINGERPRINTS =>
          go, ks := SendMissingFingerprints();
          if go { stage := RECV_MISSING_CONTENT; }
      }
    }

    /** The stages that take in what was missing and insert it. */
    method FillStage(ghost c: Config, ghost a: seq<nat>, lockFree: bool) returns (go: bool, ghost ks: seq<nat>)
      requires Valid() && HasKeys(m) && RecvContext(c, m, a, Side()) && 7 <= Rank(stage) <= 8
      modifies this, fpMem, missInds, missSlots, appBuffer, sock.out, sock.inn, sock`log, flags
      modifies cache, cache.mem, cache.table, cache.table.words, cache.table.items
      ensures Valid()
      ensures RecvPath(old(Side()), ks, Side())
      ensures if go then Rank(stage) > Rank(old(stage)) else stage == old(stage)
      ensures |old(sock.log)| <= |sock.log| && (!go ==> Waiting(|old(sock.log)|, lockFree))
      ensures sock.willing && lockFree && ReceiverMayMove(old(Side())) ==> ks != []
    {
      hide PageCaches.PageCache.Valid, PageCaches.PageCache.View, RecvContext, RecvPath, RecvStep, RecvCan, DecodeFingerprints;
      match stage {
        case RECV_MISSING_CONTENT =>
          go, ks := RecvMissingContent(c, a);
          if go { stage := INSERT_INBOUND_FINGERPRINTS; }
        case INSERT_INBOUND_FINGERPRINTS =>
          go, ks := InsertInbound(c, a, lockFree);
          if go { stage := RECV_COMPLETE; }
      }
    }
  }

  /** The places and sizes of the missing chunks, in a buffer of `n` bytes. */
  predicate SlotsOK(p: Plan, n: nat)
  {
    && |p.slots| == |p.miss|
    && forall i :: 0 <= i < |p.miss| ==> p.miss[i] < |p.fps| && 0 < MissSize(p, i) && p.slots[i] + MissSize(p, i) <= n
  }

  lemma SlotAt(p: Plan, n: nat, i: nat)
    requires SlotsOK(p, n) && i < |p.miss|
    ensures p.miss[i] < |p.fps| && MissSize(p, i) == p.fps[p.miss[i]].size > 0 && p.slots[i] + MissSize(p, i) <= n
    ensures i + 1 < |p.miss| ==> MissSize(p, i + 1) > 0
    ensures |p.slots| == |p.miss|
  {
  }

  lemma DoneIsDone(x: RecvSide)
    requires x.r.RDone?
    ensures !ReceiverMayMove(x)
  {
  }

  lemma FpsCan(x: RecvSide, k: nat)
    requires x.r.RFps? && 0 < k <= |x.fwd| && |x.r.got| + k <= FINGERPRINT_BYTES * x.r.n
    ensures RecvCan(x, k)
  {
  }

  lemma ContentCan(x: RecvSide, k: nat)
    requires x.r.RContent? && 0 < k <= |x.fwd| && x.r.ind < |x.r.plan.miss| == |x.r.plan.slots|
    requires x.r.off + k <= MissSize(x.r.plan, x.r.ind)
    requires x.r.plan.slots[x.r.ind] + MissSize(x.r.plan, x.r.ind) <= |x.buf|
    ensures RecvCan(x, k)
  {
    hide MissSize;
  }

  lemma SpliceNothing(dst: Bytes, at: nat)
    requires at <= |dst|
    ensures Splice(dst, at, []) == dst
  {
  }

  lemma HitRoom(x: RecvSide, k: nat)
    requires RecvCan(x, k) && x.r.RPopulate? && x.r.i < |x.r.plan.fps| && x.r.plan.fps[x.r.i].key in x.cache.index
    ensures x.r.pos + |x.cache.index[x.r.plan.fps[x.r.i].key]| <= |x.buf|
  {
  }

  lemma AllLookedUp(x: RecvSide)
    requires RecvCan(x, 0) && x.r.RPopulate? && x.r.i == |x.r.plan.fps|
    ensures RecvStep(x, 0) == x.(r := RMissCount(x.r.plan, 0))
  {
  }

  // before the last lookup the request is not fixed
  lemma LookupCount(c: Config, m: Msg, a: seq<nat>, x: RecvSide)
    requires HasKeys(m) && RecvContext(c, m, a, x) && x.r.RPopulate? && x.r.i < |x.r.plan.fps|
    ensures AskedAfter(m, a, x) == a
  {
    hide Continues, Invariants.Placed, Tiles, Increasing;
  }

  lemma StoreRefused(cache: Cache, k: Key, x: Bytes)
    ensures !Fits(cache, |x|) ==> Store(cache, k, x) == cache
  {
  }

  lemma InsertCases(x: RecvSide)
    requires RecvCan(x, 0) && x.r.RInsert?
    ensures var RInsert(p, i) := x.r;
            && i <= |p.miss| == |p.slots|
            && ((i == 0 && x.skip) || i == |p.miss| ==> RecvStep(x, 0) == x.(r := RDone(p.size)))
            && (!(i == 0 && x.skip) && i < |p.miss| ==>
                  && p.miss[i] < |p.fps| && p.slots[i] + MissSize(p, i) <= |x.buf|
                  && var content := x.buf[p.slots[i]..p.slots[i] + MissSize(p, i)];
                     var cache' := Store(x.cache, p.fps[p.miss[i]].key, content);
                     RecvStep(x, 0) == if Fits(x.cache, |content|) then x.(r := RInsert(p, i + 1), cache := cache')
                                       else x.(r := RDone(p.size), skip := true, cache := cache'))
  {
    hide Fits, MissSize;
  }
}
