/** A send request and its stage functions (net_dedup.c:714-1271): the imperative form of the sender, each
    call of which is some actions of the machine in Protocol. */
module SendRequests {
  import opened ByteStrings
  import opened Settings
  import opened Probing
  import opened CacheSpec
  import opened Tiling
  import opened Wire
  import opened RollingHash
  import opened Chunker
  import opened Protocol
  import opened Streams
  import opened Invariants
  import opened SenderSteps
  import opened PageCaches
  import opened Progress
  import opened Sockets

  datatype Stage =
    | SEND_HEADER | SEND_REG_DATA | COMPUTE_FINGERPRINTS | INSERT_OUTBOUND_FINGERPRINTS
    | SEND_FINGERPRINT_HEADER | SEND_PACKAGED_FINGERPRINTS | RECV_MISSING_FINGERPRINT_HEADER
    | RECV_MISSING_FINGERPRINTS | SEND_MISSING_CONTENT | SEND_COMPLETE

  // the order of the enumeration
  function Rank(s: Stage): nat
  {
    match s
    case SEND_HEADER => 0
    case SEND_REG_DATA => 1
    case COMPUTE_FINGERPRINTS => 2
    case INSERT_OUTBOUND_FINGERPRINTS => 3
    case SEND_FINGERPRINT_HEADER => 4
    case SEND_PACKAGED_FINGERPRINTS => 5
    case RECV_MISSING_FINGERPRINT_HEADER => 6
    case RECV_MISSING_FINGERPRINTS => 7
    case SEND_MISSING_CONTENT => 8
    case SEND_COMPLETE => 9
  }

  /** The actions `ks`, one after the other, lead from `x` to `y`. */
  ghost predicate SendPath(m: Msg, x: SendSide, ks: seq<nat>, y: SendSide)
    decreases |ks|
  {
    if ks == [] then x == y
    else SendCan(m, x, ks[0]) && SendPath(m, SendStep(m, x, ks[0]), ks[1..], y)
  }

  lemma {:induction false} PathJoin(m: Msg, x: SendSide, ks: seq<nat>, y: SendSide, ls: seq<nat>, z: SendSide)
    requires SendPath(m, x, ks, y) && SendPath(m, y, ls, z)
    ensures SendPath(m, x, ks + ls, z)
    decreases |ks|
  {
    hide SendCan, SendStep;
    if ks == [] {
      assert ks + ls == ls;
    } else {
      PathJoin(m, SendStep(m, x, ks[0]), ks[1..], y, ls, z);
      assert (ks + ls)[1..] == ks[1..] + ls;
    }
  }

  lemma PathMore(m: Msg, x: SendSide, ks: seq<nat>, y: SendSide, k: nat)
    requires SendPath(m, x, ks, y) && SendCan(m, y, k)
    ensures SendPath(m, x, ks + [k], SendStep(m, y, k))
  {
    PathOne(m, y, k);
    PathJoin(m, x, ks, y, [k], SendStep(m, y, k));
  }

  lemma PathOne(m: Msg, x: SendSide, k: nat)
    requires SendCan(m, x, k)
    ensures SendPath(m, x, [k], SendStep(m, x, k))
  {
    hide SendCan, SendStep;
    assert [k][1..] == [];
    assert SendPath(m, SendStep(m, x, k), [], SendStep(m, x, k));
  }

  /** What a send relies on, and keeps: its own state is in order, and what is there to read is part of
      the reply to its message. */
  ghost predicate SendContext(c: Config, m: Msg, a: seq<nat>, x: SendSide)
  {
    && MsgOK(c, m) && CollisionFree(c) && Increasing(a, |m.sizes|)
    && SenderOK(m, a, x.s) && CacheOK(c, x.cache)
    && SeenB(m, a, x.s) + x.back <= Backward(m, a)
  }

  lemma ContextStep(c: Config, m: Msg, a: seq<nat>, x: SendSide, k: nat)
    requires SendContext(c, m, a, x) && SendCan(m, x, k)
    ensures SendContext(c, m, a, SendStep(m, x, k))
  {
    HearsPrefix(c, m, a, x, k);
    hide MsgOK, CollisionFree, Increasing, SenderOK, CacheOK, Backward, SeenB, SentF, SendStep, SendCan, HearsNext, IsFp,
         HasKeys;
    var sent, heard := MovesStep(c, m, a, x, k);
    var x' := SendStep(m, x, k);
    Regroup(SeenB(m, a, x.s), heard, x'.back);
  }

  lemma Regroup(a: Bytes, b: Bytes, c: Bytes)
    ensures a + b + c == a + (b + c)
  {
  }

  lemma HearsPrefix(c: Config, m: Msg, a: seq<nat>, x: SendSide, k: nat)
    requires SendContext(c, m, a, x) && SendCan(m, x, k)
    ensures HearsNext(m, a, x, k)
  {
    hide MsgOK, CollisionFree, Increasing, SenderOK, CacheOK, Backward, SeenB;
    if x.s.SMissCount? || x.s.SMissInds? {
      assert SeenB(m, a, x.s) + x.back[..k] == (SeenB(m, a, x.s) + x.back)[..|SeenB(m, a, x.s)| + k];
    }
  }

  lemma {:induction false} ContextKept(c: Config, m: Msg, a: seq<nat>, x: SendSide, ks: seq<nat>, y: SendSide)
    requires SendContext(c, m, a, x) && SendPath(m, x, ks, y)
    ensures SendContext(c, m, a, y)
    decreases |ks|
  {
    hide SendContext, SendCan, SendStep;
    if ks != [] {
      ContextStep(c, m, a, x, ks[0]);
      ContextKept(c, m, a, SendStep(m, x, ks[0]), ks[1..], y);
    }
  }

  /** dedup_fingerprinting: cuts and fingerprints into scratch arrays, then packages. */
  method DedupFingerprinting(data: Bytes, fp: Bytes -> Key, table: seq<nat>, packaged: array<Fingerprint>)
    returns (num: nat)
    requires |table| == 256 && forall b :: 0 <= b < 256 ==> table[b] == Outgoing(SETTINGS, b)
    requires packaged.Length == MAX_FINGERPRINTS && |ChunkSizes(SETTINGS, data)| <= MAX_FINGERPRINTS
    modifies packaged
    ensures num == |ChunkSizes(SETTINGS, data)|
    ensures forall i :: 0 <= i < num ==>
              packaged[i] == Fingerprint(ChunkSizes(SETTINGS, data)[i], Keys(fp, data, ChunkSizes(SETTINGS, data))[i])
  {
    hide ChunkSizes, Outgoing, Keys;
    var raw := new Key[MaxChunks(SETTINGS, data)](_ => 0);
    var sizes := new nat[MaxChunks(SETTINGS, data)](_ => 0);
    num := DoFingerprinting(SETTINGS, data, fp, table, raw, sizes);
    ghost var all := sizes[..num];
    ghost var keys := raw[..num];
    for i := 0 to num
      invariant sizes[..num] == all && raw[..num] == keys
      invariant forall j :: 0 <= j < i ==> packaged[j] == Fingerprint(all[j], keys[j])
    {
      packaged[i] := Fingerprint(sizes[i], raw[i]);
    }
  }

  /** Where each chunk of the message begins. */
  method PrefixOffsets(packaged: array<Fingerprint>, num: nat, offsets: array<nat>, ghost sizes: seq<nat>)
    requires num == |sizes| <= packaged.Length && num <= offsets.Length
    requires forall i :: 0 <= i < num ==> packaged[i].size == sizes[i]
    modifies offsets
    ensures forall i :: 0 <= i < num ==> offsets[i] == Offset(sizes, i)
  {
    hide Offset;
    var cur := 0;
    OffsetStart(sizes);
    for i := 0 to num
      invariant cur == Offset(sizes, i)
      invariant forall j :: 0 <= j < i ==> offsets[j] == Offset(sizes, j)
    {
      OffsetStep(sizes, i);
      offsets[i] := cur;
      cur := cur + packaged[i].size;
    }
  }

  lemma OffsetStart(sizes: seq<nat>)
    ensures Offset(sizes, 0) == 0
  {
  }

  class SendRequest {
    const data: Bytes
    const fp: Bytes -> Key
    const rabinTable: seq<nat>
    const sock: Socket
    const cache: PageCache
    const flags: Flags
    const packaged: array<Fingerprint>      // packaged_fingerprints
    const offsets: array<nat>               // fingerprint_offsets
    const missMem: array<Byte>              // the memory of missing_fingerprint_inds
    ghost const m: Msg

    var stage: Stage
    var offset: nat
    var numFingerprints: nat
    var sendFingerprintOffset: nat
    var missHeader: Bytes                   // the part received so far
    var numMissing: nat
    var recvMissOffset: nat
    var replyInd: nat
    var replyOffset: nat

    /** The message is the one the chunker makes of the data, and the arrays have their fixed lengths. */
    ghost predicate Setup()
    {
      && |rabinTable| == 256 && (forall b :: 0 <= b < 256 ==> rabinTable[b] == Outgoing(SETTINGS, b))
      && m.data == data && HasKeys(m)
      && (IsFp(m) ==> m.sizes == ChunkSizes(SETTINGS, data) && m.keys == Keys(fp, data, m.sizes))
      && packaged.Length == offsets.Length == MAX_FINGERPRINTS && missMem.Length == INDEX_BYTES * MAX_FINGERPRINTS
      && sock.out != sock.inn && missMem != cache.mem && offsets != cache.freePages
    }

    /** The request holds the fingerprints of the message and their offsets. */
    ghost predicate Computed()
      reads this`numFingerprints, packaged, offsets
    {
      && HasKeys(m) && numFingerprints == |m.sizes| <= packaged.Length && numFingerprints <= offsets.Length
      && packaged[..numFingerprints] == Fps(m)
      && forall i :: 0 <= i < |m.sizes| ==> offsets[i] == Offset(m.sizes, i)
    }

    /** What the stages before a field's own leave at zero. */
    predicate Untouched()
      reads this
    {
      var r := Rank(stage);
      && (r == 0 ==> offset == 0)
      && (3 <= r <= 4 ==> sendFingerprintOffset == 0)
      && (3 <= r <= 5 ==> missHeader == [])
      && (3 <= r <= 6 ==> recvMissOffset == 0)
      && (3 <= r <= 7 ==> replyInd == 0 && replyOffset == 0)
    }

    ghost predicate Valid()
      reads this, packaged, offsets
      reads cache, cache.mem, cache.freePages, cache.table, cache.table.words, cache.table.items
    {
      && Setup() && cache.Valid()
      && (3 <= Rank(stage) <= 8 ==> Computed())
      && (7 <= Rank(stage) <= 8 ==> numMissing <= MAX_FINGERPRINTS)
      && Untouched()
    }

    // the part of the indices received so far
    ghost function Got(): Bytes
      reads this`recvMissOffset, missMem
    {
      Take(missMem[..], recvMissOffset)
    }

    ghost function Inds(): seq<nat>
      reads this`numMissing, missMem
    {
      DecodeIndices(Take(missMem[..], INDEX_BYTES * numMissing))
    }

    /** The state of the machine that the fields stand for. */
    ghost function View(): Sender
      reads this, missMem
    {
      match stage
      case SEND_HEADER => SHeader
      case SEND_REG_DATA => SPlain(offset)
      case COMPUTE_FINGERPRINTS => SCompute
      case INSERT_OUTBOUND_FINGERPRINTS => SInsert(0)
      case SEND_FINGERPRINT_HEADER => SCount
      case SEND_PACKAGED_FINGERPRINTS => SFps(sendFingerprintOffset)
      case RECV_MISSING_FINGERPRINT_HEADER => SMissCount(missHeader)
      case RECV_MISSING_FINGERPRINTS => SMissInds(numMissing, Got())
      case SEND_MISSING_CONTENT => SContent(Inds(), replyInd, replyOffset)
      case SEND_COMPLETE => SDone
    }

    ghost function As(s: Sender): SendSide
      requires cache.Valid()
      reads sock.out, sock.inn, flags, cache, cache.mem, cache.freePages, cache.table, cache.table.words, cache.table.items
    {
      SendSide(s, sock.out.bytes, sock.inn.bytes, cache.View(), flags.skipInsert)
    }

    ghost function Side(): SendSide
      requires cache.Valid()
      reads this, missMem, sock.out, sock.inn, flags
      reads cache, cache.mem, cache.freePages, cache.table, cache.table.words, cache.table.items
    {
      As(View())
    }

    /** Why a call goes no further: the last call on the socket moved less than it was asked to, or the lock
        of the cache was taken. */
    ghost predicate Waiting(before: nat, lockFree: bool)
      reads this`stage, sock`log, flags
    {
      sock.CutShort(before) || (stage == INSERT_OUTBOUND_FINGERPRINTS && !lockFree && !flags.skipInsert)
    }

    /** isend: a cleared request at its first stage. */
    constructor (data: Bytes, fp: Bytes -> Key, rabinTable: seq<nat>, sock: Socket, cache: PageCache, flags: Flags, ghost m: Msg)
      requires cache.Valid() && m.data == data && HasKeys(m) && sock.out != sock.inn
      requires IsFp(m) ==> m.sizes == ChunkSizes(SETTINGS, data) && m.keys == Keys(fp, data, m.sizes)
      requires |rabinTable| == 256 && forall b :: 0 <= b < 256 ==> rabinTable[b] == Outgoing(SETTINGS, b)
      ensures Valid() && View() == SHeader && fresh(packaged) && fresh(offsets) && fresh(missMem)
      ensures this.sock == sock && this.cache == cache && this.flags == flags && this.m == m
    {
      hide ChunkSizes, Keys, Outgoing, PageCache.Valid;
      this.rabinTable := rabinTable;
      this.data, this.fp, this.sock, this.cache, this.flags, this.m := data, fp, sock, cache, flags, m;
      packaged := new Fingerprint[MAX_FINGERPRINTS](_ => Fingerprint(0, 0));
      offsets := new nat[MAX_FINGERPRINTS](_ => 0);
      missMem := new Byte[INDEX_BYTES * MAX_FINGERPRINTS](_ => 0);
      stage, offset, numFingerprints, sendFingerprintOffset := SEND_HEADER, 0, 0, 0;
      missHeader, numMissing, recvMissOffset, replyInd, replyOffset := [], 0, 0, 0, 0;
    }

    method SendHeader() returns (go: bool, ghost ks: seq<nat>)
      requires Valid() && stage == SEND_HEADER
      modifies sock.out, sock`log
      ensures Valid()
      ensures SendPath(m, old(Side()), ks, As(if !go then SHeader else if |data| > THRESHOLD then SCompute else SPlain(0)))
      ensures go ==> |sock.out.bytes| == |old(sock.out.bytes)| + HEADER_BYTES
      ensures go ==> sock.out.bytes[|old(sock.out.bytes)|] == if |data| > THRESHOLD then 1 else 0
      ensures go && |data| < U64_LIMIT ==> Word(sock.out.bytes, |old(sock.out.bytes)| + 8) == |data|
      ensures |old(sock.log)| <= |sock.log| && (!go ==> sock.CutShort(|old(sock.log)|))
      ensures sock.willing ==> ks != []
    {
      hide PageCache.Valid, PageCache.View, ChunkSizes, Keys, Outgoing, EncodeHeader, Word;
      var header := EncodeHeader(|data| > THRESHOLD, |data|);
      HeaderBehind(sock.out.bytes, |data| > THRESHOLD, |data|);
      var n := sock.SendWhole(header);
      if n == -1 {
        return false, [];
      }
      PathOne(m, old(Side()), HEADER_BYTES);
      return true, [HEADER_BYTES];
    }

    method SendRegData() returns (go: bool, ghost ks: seq<nat>)
      requires Valid() && stage == SEND_REG_DATA && offset <= |data|
      modifies this`offset, sock.out, sock`log
      ensures Valid()
      ensures SendPath(m, old(Side()), ks, As(if go then SDone else SPlain(offset)))
      ensures |old(sock.log)| <= |sock.log| && (!go ==> sock.CutShort(|old(sock.log)|))
      ensures sock.willing ==> ks != []
    {
      hide PageCache.Valid, PageCache.View, ChunkSizes, Keys, Outgoing;
      var remain := |data| - offset;
      if remain == 0 {
        PathOne(m, old(Side()), 0);
        return true, [0];
      }
      var n := sock.Send(data[offset..]);
      if n <= 0 {
        return false, [];
      }
      assert data[offset..][..n] == data[offset..offset + n];
      PathOne(m, old(Side()), n);
      offset := offset + n;
      return offset == |data|, [n];
    }

    method ComputeFingerprints() returns (go: bool, ghost ks: seq<nat>)
      requires Valid() && stage == COMPUTE_FINGERPRINTS && IsFp(m) && |m.sizes| <= MAX_FINGERPRINTS
      modifies this`numFingerprints, this`sendFingerprintOffset, this`missHeader, this`numMissing,
               this`recvMissOffset, this`replyInd, this`replyOffset, packaged, offsets
      ensures Valid() && Computed() && go && ks != []
      ensures sendFingerprintOffset == 0 && missHeader == [] && recvMissOffset == 0 && replyInd == 0 && replyOffset == 0
      ensures SendPath(m, old(Side()), ks, As(SInsert(0)))
    {
      hide PageCache.Valid, PageCache.View, ChunkSizes, Keys, Outgoing, Fps, Offset, SendStep, SendCan, SendPath;
      ghost var x := Side();
      ComputeStepIs(m, x);
      PathOne(m, x, 0);
      numFingerprints := DedupFingerprinting(data, fp, rabinTable, packaged);
      FpsFrom(m, fp, packaged[..numFingerprints]);
      assert As(SInsert(0)) == x.(s := SInsert(0));
      InitExchange();
      return true, [0];
    }

    /** Sets up what the later stages use. */
    method InitExchange()
      requires Setup() && cache.Valid() && stage == COMPUTE_FINGERPRINTS
      requires numFingerprints == |m.sizes| <= MAX_FINGERPRINTS && packaged[..numFingerprints] == Fps(m)
      requires forall i :: 0 <= i < |m.sizes| ==> packaged[i].size == m.sizes[i]
      modifies this`sendFingerprintOffset, this`missHeader, this`numMissing, this`recvMissOffset,
               this`replyInd, this`replyOffset, offsets
      ensures Valid() && Computed()
      ensures sendFingerprintOffset == 0 && missHeader == [] && recvMissOffset == 0 && replyInd == 0 && replyOffset == 0
    {
      hide PageCache.Valid, ChunkSizes, Keys, Outgoing, Fps, Offset;
      PrefixOffsets(packaged, numFingerprints, offsets, m.sizes);
      sendFingerprintOffset, missHeader, numMissing, recvMissOffset, replyInd, replyOffset := 0, [], 0, 0, 0, 0;
    }

    /** Inserts one chunk, or notes that the cache is full. */
    method InsertChunk(ghost c: Config, i: nat, from: nat) returns (ok: bool)
      requires Valid() && stage == INSERT_OUTBOUND_FINGERPRINTS && MsgOK(c, m) && IsFp(m) && !flags.skipInsert
      requires i < numFingerprints && from == Offset(m.sizes, i) && m.keys[i] != 0
      modifies flags, cache, cache.mem, cache.table, cache.table.words, cache.table.items
      ensures Valid() && flags.skipInsert == !ok
      ensures SendCan(m, old(As(SInsert(i))), 0)
      ensures SendStep(m, old(As(SInsert(i))), 0) == As(if ok then SInsert(i + 1) else SCount)
    {
      hide PageCache.Valid, PageCache.View, ChunkSizes, Keys, Outgoing, Fits, Store, Ownership, SendStep, SendCan,
           Piece, Offset, MsgOK;
      PieceSize(c, m, i);
      InsertStepIs(m, As(SInsert(i)));
      var f := packaged[i];
      assert f == packaged[..numFingerprints][i];
      var entry;
      ok, entry := cache.Insert(f.key, data[from..from + f.size]);
      if !ok {
        flags.skipInsert := true;
      }
    }

    /** Inserts the chunks into the cache, under its lock, until it is full. */
    method InsertOutbound(ghost c: Config, ghost a: seq<nat>, lockFree: bool) returns (go: bool, ghost ks: seq<nat>)
      requires Valid() && stage == INSERT_OUTBOUND_FINGERPRINTS && SendContext(c, m, a, Side())
      modifies flags, cache, cache.mem, cache.table, cache.table.words, cache.table.items
      ensures Valid()
      ensures SendPath(m, old(Side()), ks, As(if go then SCount else SInsert(0)))
      ensures go <==> old(flags.skipInsert) || lockFree
      ensures !go ==> !flags.skipInsert
      ensures go ==> ks != []
    {
      hide PageCache.Valid, PageCache.View, ChunkSizes, Keys, Outgoing, SendStep, SendCan, SendPath, Piece, Offset, MsgOK;
      InsertFacts(c, m, a, Side());
      hide SendContext;
      ks := [];
      NoPath(m, Side());
      InsertStepIs(m, Side());
      if flags.skipInsert {
        PathOne(m, Side(), 0);
        return true, [0];
      }
      if !lockFree {
        return false, ks;
      }
      var cur := 0;
      for i := 0 to numFingerprints
        invariant Valid() && !flags.skipInsert
        invariant cur == Offset(m.sizes, i)
        invariant SendPath(m, old(Side()), ks, As(SInsert(i)))
      {
        OffsetStep(m.sizes, i);
        assert packaged[i] == packaged[..numFingerprints][i];
        ghost var x := As(SInsert(i));
        var ok := InsertChunk(c, i, cur);
        PathMore(m, old(Side()), ks, x, 0);
        ks := ks + [0];
        if !ok {
          return true, ks;
        }
        cur := cur + packaged[i].size;
      }
      InsertStepIs(m, As(SInsert(|m.sizes|)));
      PathMore(m, old(Side()), ks, As(SInsert(|m.sizes|)), 0);
      return true, ks + [0];
    }

    method SendFingerprintHeader() returns (go: bool, ghost ks: seq<nat>)
      requires Valid() && stage == SEND_FINGERPRINT_HEADER
      modifies sock.out, sock`log
      ensures Valid()
      ensures SendPath(m, old(Side()), ks, As(if go then SFps(0) else SCount))
      ensures |old(sock.log)| <= |sock.log| && (!go ==> sock.CutShort(|old(sock.log)|))
      ensures sock.willing ==> ks != []
    {
      hide PageCache.Valid, PageCache.View, ChunkSizes, Keys, Outgoing;
      var n := sock.SendWhole(Encode(numFingerprints, 8));
      if n == -1 {
        return false, [];
      }
      PathOne(m, old(Side()), COUNT_BYTES);
      return true, [COUNT_BYTES];
    }

    method SendPackagedFingerprints() returns (go: bool, ghost ks: seq<nat>)
      requires Valid() && stage == SEND_PACKAGED_FINGERPRINTS
      requires sendFingerprintOffset < FINGERPRINT_BYTES * numFingerprints
      modifies this`sendFingerprintOffset, sock.out, sock`log
      ensures Valid()
      ensures SendPath(m, old(Side()), ks, As(if go then SMissCount([]) else SFps(sendFingerprintOffset)))
      ensures |old(sock.log)| <= |sock.log| && (!go ==> sock.CutShort(|old(sock.log)|))
      ensures sock.willing ==> ks != []
    {
      hide PageCache.Valid, PageCache.View, ChunkSizes, Keys, Outgoing, EncodeFingerprints;
      var bytes := EncodeFingerprints(packaged[..numFingerprints]);
      var off := sendFingerprintOffset;
      var remain := |bytes| - off;
      var n := sock.Send(bytes[off..]);
      if n <= 0 {
        return false, [];
      }
      assert bytes[off..][..n] == bytes[off..off + n];
      PathOne(m, old(Side()), n);
      if n < remain {
        sendFingerprintOffset := off + n;
        return false, [n];
      }
      return true, [n];
    }

    method RecvMissingFingerprintHeader() returns (go: bool, ghost ks: seq<nat>)
      requires Valid() && stage == RECV_MISSING_FINGERPRINT_HEADER && |missHeader| < COUNT_BYTES
      modifies this`missHeader, this`numMissing, sock.inn, sock`log
      ensures Valid()
      ensures SendPath(m, old(Side()), ks,
                       As(if !go then SMissCount(missHeader) else if numMissing == 0 then SDone else SMissInds(numMissing, [])))
      ensures |old(sock.log)| <= |sock.log| && (!go ==> sock.CutShort(|old(sock.log)|))
      ensures sock.willing && old(sock.inn.bytes) != [] ==> ks != []
    {
      hide PageCache.Valid, PageCache.View, ChunkSizes, Keys, Outgoing, Decode, Fps;
      var remain := COUNT_BYTES - |missHeader|;
      var n, b := sock.Recv(remain);
      if n <= 0 {
        assert sock.inn.bytes == old(sock.inn.bytes);
        return false, [];
      }
      PathOne(m, old(Side()), n);
      missHeader := missHeader + b;
      if n < remain {
        return false, [n];
      }
      numMissing := Decode(missHeader);
      return true, [n];
    }

    method RecvMissingFingerprints() returns (go: bool, ghost ks: seq<nat>)
      requires Valid() && stage == RECV_MISSING_FINGERPRINTS && recvMissOffset < INDEX_BYTES * numMissing
      modifies this`recvMissOffset, missMem, sock.inn, sock`log
      ensures Valid()
      ensures SendPath(m, old(Side()), ks, As(if go then SContent(Inds(), 0, 0) else SMissInds(numMissing, Got())))
      ensures |old(sock.log)| <= |sock.log| && (!go ==> sock.CutShort(|old(sock.log)|))
      ensures sock.willing && old(sock.inn.bytes) != [] ==> ks != []
    {
      hide PageCache.Valid, PageCache.View, ChunkSizes, Keys, Outgoing, DecodeIndices, Fps, Splice, SendCan, SendStep, SendPath;
      ghost var x := Side();
      NoPath(m, x);
      var remain := INDEX_BYTES * numMissing - recvMissOffset;
      var n, b := sock.Recv(remain);
      if n <= 0 {
        assert sock.inn.bytes == old(sock.inn.bytes);
        return false, [];
      }
      MissIndsStepIs(m, x, n);
      PathOne(m, x, n);
      SpliceExtends(missMem[..], recvMissOffset, b);
      Memcpy(missMem, recvMissOffset, b);
      if n < remain {
        recvMissOffset := recvMissOffset + n;
        return false, [n];
      }
      return true, [n];
    }

    // what the content loop needs to know of the request
    ghost predicate Replying(a: seq<nat>)
      reads this, missMem
    {
      && stage == SEND_MISSING_CONTENT && HasKeys(m) && Inds() == a && replyInd <= |a| == numMissing <= MAX_FINGERPRINTS
      && (forall i :: 0 <= i < |a| ==> a[i] < |m.sizes| && m.sizes[a[i]] > 0)
      && (replyInd < |a| ==> replyOffset < m.sizes[a[replyInd]])
    }

    ghost function Position(): Sender
      reads this, missMem
    {
      if replyInd < numMissing then SContent(Inds(), replyInd, replyOffset) else SDone
    }

    ghost function Replied(): SendSide
      requires cache.Valid()
      reads this, missMem, sock.out, sock.inn, flags
      reads cache, cache.mem, cache.freePages, cache.table, cache.table.words, cache.table.items
    {
      As(Position())
    }

    lemma ComputedAt(r: nat)
      requires Computed() && r < |m.sizes|
      ensures r < packaged.Length && packaged[r].size == m.sizes[r]
      ensures r < offsets.Length && offsets[r] == Offset(m.sizes, r)
    {
      hide Offset;
      assert packaged[r] == packaged[..numFingerprints][r];
    }

    lemma SetupFacts()
      requires Setup()
      ensures m.data == data && missMem.Length == INDEX_BYTES * MAX_FINGERPRINTS && sock.out != sock.inn
    {
    }

    // reply_ind, read from the memory of the indices
    method IndexOf(i: nat) returns (r: nat)
      requires missMem.Length == INDEX_BYTES * MAX_FINGERPRINTS && i < numMissing <= MAX_FINGERPRINTS
      ensures i < |Inds()| && r == Inds()[i]
    {
      hide DecodeIndices, Decode;
      var lo := INDEX_BYTES * i;
      IndexAt(Take(missMem[..], INDEX_BYTES * numMissing), numMissing, i);
      TakeSlice(missMem[..], INDEX_BYTES * numMissing, lo, lo + INDEX_BYTES);
      assert missMem[lo..lo + INDEX_BYTES] == missMem[..][lo..lo + INDEX_BYTES];
      r := Decode(missMem[lo..lo + INDEX_BYTES]);
    }

    /** `send()` of a part of the data. */
    method SendFrom(from: nat, max: nat) returns (n: int)
      requires from + max <= |data|
      modifies sock.out, sock`log
      ensures -1 <= n <= max
      ensures n > 0 ==> sock.out.bytes == old(sock.out.bytes) + data[from..from + n]
      ensures n <= 0 ==> sock.out.bytes == old(sock.out.bytes)
      ensures |sock.log| == |old(sock.log)| + 1 && (n < max && max > 0 ==> sock.CutShort(|old(sock.log)|))
      ensures sock.willing && max > 0 ==> n > 0
    {
      n := sock.Send(data[from..from + max]);
      if n > 0 {
        assert data[from..from + max][..n] == data[from..from + n];
      }
    }

    /** Notes that `n` more bytes of the chunk are sent. */
    method Advance(ghost a: seq<nat>, n: nat, remain: nat) returns (full: bool)
      requires Valid() && Replying(a) && replyInd < numMissing
      requires 0 < n <= remain == m.sizes[a[replyInd]] - replyOffset
      modifies this`replyInd, this`replyOffset
      ensures Valid() && Replying(a)
      ensures full == (n == remain) && replyInd == old(replyInd) + if full then 1 else 0
      ensures Position() == Advanced(m, a, old(replyInd), old(replyOffset) + n)
    {
      hide PageCache.Valid, DecodeIndices, SendRequest.Setup, SendRequest.Computed;
      if n < remain {
        replyOffset := replyOffset + n;
        return false;
      }
      replyInd, replyOffset := replyInd + 1, 0;
      return true;
    }

    /** Sends as much as the socket takes of the chunk being sent. */
    method SendPiece(ghost c: Config, ghost a: seq<nat>) returns (full: bool, ghost ks: seq<nat>)
      requires Valid() && Replying(a) && MsgOK(c, m) && IsFp(m) && replyInd < numMissing
      modifies this`replyInd, this`replyOffset, sock.out, sock`log
      ensures Valid() && Replying(a)
      ensures replyInd == old(replyInd) + if full then 1 else 0
      ensures SendPath(m, old(Replied()), ks, Replied())
      ensures |old(sock.log)| <= |sock.log| && (!full ==> sock.CutShort(|old(sock.log)|))
      ensures sock.willing ==> ks != []
    {
      hide Piece, SendStep, SendCan, Offset, MsgOK, SendPath, Advanced, SendRequest.Valid, SendRequest.Replying, PageCache.View,
           PageCache.Valid, SendRequest.Inds;
      PieceFacts(a);
      ghost var y := Replied();
      var r := IndexOf(replyInd);
      PieceSize(c, m, r);
      var from := offsets[r] + replyOffset;
      var remain := packaged[r].size - replyOffset;
      var n := SendFrom(from, remain);
      if n <= 0 {
        NoPath(m, y);
        return false, [];
      }
      ContentMoves(c, m, a, y, n);
      full := Advance(a, n, remain);
      return full, [n];
    }

    lemma PieceFacts(a: seq<nat>)
      requires Valid() && Replying(a) && replyInd < numMissing
      ensures Inds() == a && replyInd < |a| && m.data == data && sock.out != sock.inn && HasKeys(m) && cache.Valid()
      ensures missMem.Length == INDEX_BYTES * MAX_FINGERPRINTS && numMissing <= MAX_FINGERPRINTS
      ensures var r := a[replyInd];
              && r < |m.sizes| && replyOffset < m.sizes[r] && r < packaged.Length && packaged[r].size == m.sizes[r]
              && r < offsets.Length && offsets[r] == Offset(m.sizes, r)
    {
      hide PageCache.Valid, ChunkSizes, Keys, Outgoing, Offset, DecodeIndices;
      ComputedAt(a[replyInd]);
    }

    /** Sends the chunks asked for, one after the other, as far as the socket takes them. */
    method SendMissingContent(ghost c: Config, ghost a: seq<nat>) returns (go: bool, ghost ks: seq<nat>)
      requires Valid() && stage == SEND_MISSING_CONTENT && SendContext(c, m, a, Side())
      modifies this`replyInd, this`replyOffset, sock.out, sock`log
      ensures Valid()
      ensures SendPath(m, old(Side()), ks, As(if go then SDone else SContent(Inds(), replyInd, replyOffset)))
      ensures |old(sock.log)| <= |sock.log| && (!go ==> sock.CutShort(|old(sock.log)|))
      ensures sock.willing ==> ks != []
    {
      hide PageCache.Valid, PageCache.View, ChunkSizes, Keys, Outgoing, Fps, Piece, SendStep, SendCan, MsgOK, Offset, SendPath,
           DecodeIndices;
      ks := [];
      ContentFacts(c, m, a, Side());
      IndexCount(Take(missMem[..], INDEX_BYTES * numMissing), numMissing);
      hide SendContext;
      NoPath(m, Side());
      while replyInd < numMissing
        invariant Valid() && Replying(a)
        invariant SendPath(m, old(Side()), ks, Replied())
        invariant |old(sock.log)| <= |sock.log|
        invariant sock.willing && replyInd > old(replyInd) ==> ks != []
        invariant replyInd >= old(replyInd)
      {
        ghost var y := Replied();
        ghost var before := |sock.log|;
        var full;
        ghost var more;
        full, more := SendPiece(c, a);
        PathJoin(m, old(Side()), ks, y, more, Replied());
        ks := ks + more;
        if !full {
          return false, ks;
        }
      }
      return true, ks;
    }

    /** Progresses the send as far as it goes: 1 when complete, 0 when it has to wait.  What it does is a
        run of the machine's actions; and when the socket is willing and the lock free, it does something
        if anything can be done. */
    method ProcessSend(ghost c: Config, ghost a: seq<nat>, lockFree: bool) returns (ret: int, ghost ks: seq<nat>)
      requires Valid() && SendContext(c, m, a, Side())
      modifies this, packaged, offsets, missMem, sock.out, sock.inn, sock`log, flags
      modifies cache, cache.mem, cache.table, cache.table.words, cache.table.items
      ensures Valid() && SendContext(c, m, a, Side())
      ensures SendPath(m, old(Side()), ks, Side())
      ensures ret == if stage == SEND_COMPLETE then 1 else 0
      ensures ret == 0 ==> Waiting(|old(sock.log)|, lockFree)
      ensures sock.willing && lockFree && SenderMayMove(old(Side())) ==> ks != []
    {
      hide PageCache.Valid, PageCache.View, ChunkSizes, Keys, Outgoing, Fps, Piece, SendStep, SendCan, MsgOK, Offset,
           SendContext, SendPath, SenderMayMove, DecodeIndices;
      ks := [];
      NoPath(m, Side());
      var go := true;
      while go
        invariant Valid() && SendPath(m, old(Side()), ks, Side()) && SendContext(c, m, a, Side())
        invariant |old(sock.log)| <= |sock.log|
        invariant !go ==> Waiting(|old(sock.log)|, lockFree) && stage != SEND_COMPLETE
        invariant sock.willing && lockFree && SenderMayMove(old(Side())) && ks == [] ==> go && Side() == old(Side())
        decreases 9 - Rank(stage), go
      {
        if stage == SEND_COMPLETE {
          DoneIsDone(Side());
          return 1, ks;
        }
        ghost var x := Side();
        ghost var more;
        go, more := ProcessStage(c, a, lockFree);
        PathJoin(m, old(Side()), ks, x, more, Side());
        ContextKept(c, m, a, x, more, Side());
        ks := ks + more;
      }
      return 0, ks;
    }

    /** One turn of the stage switch. */
    method ProcessStage(ghost c: Config, ghost a: seq<nat>, lockFree: bool) returns (go: bool, ghost ks: seq<nat>)
      requires Valid() && SendContext(c, m, a, Side()) && stage != SEND_COMPLETE
      modifies this, packaged, offsets, missMem, sock.out, sock.inn, sock`log, flags
      modifies cache, cache.mem, cache.table, cache.table.words, cache.table.items
      ensures Valid()
      ensures SendPath(m, old(Side()), ks, Side())
      ensures if go then Rank(stage) > Rank(old(stage)) else stage == old(stage)
      ensures |old(sock.log)| <= |sock.log| && (!go ==> Waiting(|old(sock.log)|, lockFree))
      ensures sock.willing && lockFree && SenderMayMove(old(Side())) ==> ks != []
    {
      hide PageCache.Valid, PageCache.View, ChunkSizes, Keys, Outgoing, Fps, Piece, SendStep, SendCan, Offset, SendPath,
           DecodeIndices, SendRequest.Setup, SendRequest.Computed;
      hide SendContext;
      if Rank(stage) <= 1 {
        go, ks := PlainStage(c, a, lockFree);
      } else if Rank(stage) <= 3 {
        go, ks := LocalStage(c, a, lockFree);
      } else if Rank(stage) <= 5 {
        go, ks := AnnounceStage(c, a, lockFree);
      } else if Rank(stage) == 6 {
        go, ks := CountStage(c, a, lockFree);
      } else if Rank(stage) == 7 {
        go, ks := IndicesStage(c, a, lockFree);
      } else {
        go, ks := ReplyStage(c, a, lockFree);
      }
    }

    /** The header, and the data of a small message. */
    method PlainStage(ghost c: Config, ghost a: seq<nat>, ghost lockFree: bool) returns (go: bool, ghost ks: seq<nat>)
      requires Valid() && SendContext(c, m, a, Side()) && Rank(stage) <= 1
      modifies this, packaged, offsets, missMem, sock.out, sock.inn, sock`log, flags
      modifies cache, cache.mem, cache.table, cache.table.words, cache.table.items
      ensures Valid()
      ensures SendPath(m, old(Side()), ks, Side())
      ensures if go then Rank(stage) > Rank(old(stage)) else stage == old(stage)
      ensures |old(sock.log)| <= |sock.log| && (!go ==> Waiting(|old(sock.log)|, lockFree))
      ensures sock.willing && lockFree && SenderMayMove(old(Side())) ==> ks != []
    {
      hide PageCache.Valid, PageCache.View, ChunkSizes, Keys, Outgoing, Fps, Piece, SendStep, SendCan, Offset, SendPath,
           DecodeIndices;
      StageFacts(c, m, a, Side());
      hide SendContext, MsgOK;
      match stage {
        case SEND_HEADER =>
          go, ks := SendHeader();
          if go { stage := if |data| > THRESHOLD then COMPUTE_FINGERPRINTS else SEND_REG_DATA; }
        case SEND_REG_DATA =>
          go, ks := SendRegData();
          if go { stage := SEND_COMPLETE; }
      }
    }

    /** The stages that need no socket. */
    method LocalStage(ghost c: Config, ghost a: seq<nat>, lockFree: bool) returns (go: bool, ghost ks: seq<nat>)
      requires Valid() && SendContext(c, m, a, Side()) && 2 <= Rank(stage) <= 3
      modifies this, packaged, offsets, missMem, sock.out, sock.inn, sock`log, flags
      modifies cache, cache.mem, cache.table, cache.table.words, cache.table.items
      ensures Valid()
      ensures SendPath(m, old(Side()), ks, Side())
      ensures if go then Rank(stage) > Rank(old(stage)) else stage == old(stage)
      ensures |old(sock.log)| <= |sock.log| && (!go ==> Waiting(|old(sock.log)|, lockFree))
      ensures sock.willing && lockFree && SenderMayMove(old(Side())) ==> ks != []
    {
      hide PageCache.Valid, PageCache.View, ChunkSizes, Keys, Outgoing, Fps, Piece, SendStep, SendCan, Offset, SendPath,
           DecodeIndices, SendRequest.Setup, SendRequest.Computed;
      StageFacts(c, m, a, Side());
      hide SendContext, MsgOK;
      match stage {
        case COMPUTE_FINGERPRINTS =>
          go, ks := ComputeFingerprints();
          if go { stage := INSERT_OUTBOUND_FINGERPRINTS; }
        case INSERT_OUTBOUND_FINGERPRINTS =>
          go, ks := InsertOutbound(c, a, lockFree);
          if go { stage := SEND_FINGERPRINT_HEADER; }
      }
    }

    /** The stages that announce the fingerprints. */
    method AnnounceStage(ghost c: Config, ghost a: seq<nat>, ghost lockFree: bool) returns (go: bool, ghost ks: seq<nat>)
      requires Valid() && SendContext(c, m, a, Side()) && 4 <= Rank(stage) <= 5
      modifies this, packaged, offsets, missMem, sock.out, sock.inn, sock`log, flags
      modifies cache, cache.mem, cache.table, cache.table.words, cache.table.items
      ensures Valid()
      ensures SendPath(m, old(Side()), ks, Side())
      ensures if go then Rank(stage) > Rank(old(stage)) else stage == old(stage)
      ensures |old(sock.log)| <= |sock.log| && (!go ==> Waiting(|old(sock.log)|, lockFree))
      ensures sock.willing && lockFree && SenderMayMove(old(Side())) ==> ks != []
    {
      hide PageCache.Valid, PageCache.View, ChunkSizes, Keys, Outgoing, Fps, Piece, SendStep, SendCan, Offset, SendPath,
           DecodeIndices;
      StageFacts(c, m, a, Side());
      hide SendContext, MsgOK;
      match stage {
        case SEND_FINGERPRINT_HEADER =>
          go, ks := SendFingerprintHeader();
          if go { stage := SEND_PACKAGED_FINGERPRINTS; }
        case SEND_PACKAGED_FINGERPRINTS =>
          go, ks := SendPackagedFingerprints();
          if go { stage := RECV_MISSING_FINGERPRINT_HEADER; }
      }
    }

    /** The stage that hears how much is missing. */
    method CountStage(ghost c: Config, ghost a: seq<nat>, ghost lockFree: bool) returns (go: bool, ghost ks: seq<nat>)
      requires Valid() && SendContext(c, m, a, Side()) && stage == RECV_MISSING_FINGERPRINT_HEADER
      modifies this, packaged, offsets, missMem, sock.out, sock.inn, sock`log, flags
      modifies cache, cache.mem, cache.table, cache.table.words, cache.table.items
      ensures Valid()
      ensures SendPath(m, old(Side()), ks, Side())
      ensures if go then Rank(stage) > Rank(old(stage)) else stage == old(stage)
      ensures |old(sock.log)| <= |sock.log| && (!go ==> Waiting(|old(sock.log)|, lockFree))
      ensures sock.willing && lockFree && SenderMayMove(old(Side())) ==> ks != []
    {
      hide PageCache.Valid, PageCache.View, ChunkSizes, Keys, Outgoing, Fps, Piece, SendStep, SendCan, Offset, SendPath,
           DecodeIndices, SendRequest.Setup, SendRequest.Computed, SendContext, MsgOK;
      SetupFacts();
      StageFacts(c, m, a, Side());
      go, ks := RecvMissingFingerprintHeader();
      if go && numMissing != 0 { MissingBound(c, m, a, old(Side()), ks, As(SMissInds(numMissing, []))); }
      if go { stage := if numMissing == 0 then SEND_COMPLETE else RECV_MISSING_FINGERPRINTS; }
    }

    /** The stage that hears what is missing. */
    method IndicesStage(ghost c: Config, ghost a: seq<nat>, ghost lockFree: bool) returns (go: bool, ghost ks: seq<nat>)
      requires Valid() && SendContext(c, m, a, Side()) && stage == RECV_MISSING_FINGERPRINTS
      modifies this, packaged, offsets, missMem, sock.out, sock.inn, sock`log, flags
      modifies cache, cache.mem, cache.table, cache.table.words, cache.table.items
      ensures Valid()
      ensures SendPath(m, old(Side()), ks, Side())
      ensures if go then Rank(stage) > Rank(old(stage)) else stage == old(stage)
      ensures |old(sock.log)| <= |sock.log| && (!go ==> Waiting(|old(sock.log)|, lockFree))
      ensures sock.willing && lockFree && SenderMayMove(old(Side())) ==> ks != []
    {
      hide PageCache.Valid, PageCache.View, ChunkSizes, Keys, Outgoing, Fps, Piece, SendStep, SendCan, Offset, SendPath,
           DecodeIndices, SendRequest.Setup, SendRequest.Computed, SendContext, MsgOK;
      SetupFacts();
      StageFacts(c, m, a, Side());
      go, ks := RecvMissingFingerprints();
      if go { stage := SEND_MISSING_CONTENT; }
    }

    /** The stage that replies with it. */
    method ReplyStage(ghost c: Config, ghost a: seq<nat>, ghost lockFree: bool) returns (go: bool, ghost ks: seq<nat>)
      requires Valid() && SendContext(c, m, a, Side()) && stage == SEND_MISSING_CONTENT
      modifies this, packaged, offsets, missMem, sock.out, sock.inn, sock`log, flags
      modifies cache, cache.mem, cache.table, cache.table.words, cache.table.items
      ensures Valid()
      ensures SendPath(m, old(Side()), ks, Side())
      ensures if go then Rank(stage) > Rank(old(stage)) else stage == old(stage)
      ensures |old(sock.log)| <= |sock.log| && (!go ==> Waiting(|old(sock.log)|, lockFree))
      ensures sock.willing && lockFree && SenderMayMove(old(Side())) ==> ks != []
    {
      hide PageCache.Valid, PageCache.View, ChunkSizes, Keys, Outgoing, Fps, Piece, SendStep, SendCan, Offset, SendPath,
           DecodeIndices, SendRequest.Setup, SendRequest.Computed;
      hide SendContext, MsgOK;
      go, ks := SendMissingContent(c, a);
      if go { stage := SEND_COMPLETE; }
    }
  }

  lemma FpsFrom(m: Msg, fp: Bytes -> Key, fs: seq<Fingerprint>)
    requires HasKeys(m) && m.sizes == ChunkSizes(SETTINGS, m.data) && m.keys == Keys(fp, m.data, m.sizes)
    requires |fs| == |m.sizes|
    requires forall i :: 0 <= i < |fs| ==> fs[i] == Fingerprint(m.sizes[i], m.keys[i])
    ensures fs == Fps(m)
    ensures forall i :: 0 <= i < |fs| ==> fs[i].size == m.sizes[i]
  {
    hide ChunkSizes, Keys;
  }

  lemma NoPath(m: Msg, x: SendSide)
    ensures SendPath(m, x, [], x)
  {
  }

  lemma ComputeStepIs(m: Msg, x: SendSide)
    requires HasKeys(m) && x.s.SCompute?
    ensures SendCan(m, x, 0) && SendStep(m, x, 0) == x.(s := SInsert(0))
  {
  }

  lemma InsertStepIs(m: Msg, x: SendSide)
    requires HasKeys(m) && x.s.SInsert? && x.s.i <= |m.sizes|
    ensures SendCan(m, x, 0)
    ensures (x.s.i == 0 && x.skip) || x.s.i == |m.sizes| ==> SendStep(m, x, 0) == x.(s := SCount)
    ensures !(x.s.i == 0 && x.skip) && x.s.i < |m.sizes| ==>
              var cache' := Store(x.cache, m.keys[x.s.i], Piece(m, x.s.i));
              SendStep(m, x, 0) == if Fits(x.cache, |Piece(m, x.s.i)|) then x.(s := SInsert(x.s.i + 1), cache := cache')
                                   else x.(s := SCount, skip := true, cache := cache')
  {
    hide Piece, Fits;
  }

  lemma DoneIsDone(x: SendSide)
    requires x.s.SDone?
    ensures !SenderMayMove(x)
  {
  }

  /** The count of missing chunks that comes in is one the arrays have room for. */
  lemma MissingBound(c: Config, m: Msg, a: seq<nat>, x: SendSide, ks: seq<nat>, y: SendSide)
    requires SendContext(c, m, a, x) && SendPath(m, x, ks, y) && y.s.SMissInds?
    ensures y.s.n <= MAX_FINGERPRINTS
  {
    ContextKept(c, m, a, x, ks, y);
    IncreasingShort(a, |m.sizes|);
    hide SendPath, Increasing, Tiles;
  }

  lemma InsertFacts(c: Config, m: Msg, a: seq<nat>, x: SendSide)
    requires SendContext(c, m, a, x) && x.s.SInsert?
    ensures MsgOK(c, m) && IsFp(m) && Offset(m.sizes, 0) == 0
    ensures forall i :: 0 <= i < |m.sizes| ==> m.keys[i] != 0
  {
  }

  lemma ContentFacts(c: Config, m: Msg, a: seq<nat>, x: SendSide)
    requires SendContext(c, m, a, x) && x.s.SContent?
    ensures MsgOK(c, m) && IsFp(m) && x.s.miss == a && x.s.ind < |a|
    ensures forall i :: 0 <= i < |a| ==> a[i] < |m.sizes| && m.sizes[a[i]] > 0
    ensures forall i :: 0 <= i < |m.sizes| ==>
              && Offset(m.sizes, i) + m.sizes[i] <= |m.data| && |Piece(m, i)| == m.sizes[i]
              && Piece(m, i) == m.data[Offset(m.sizes, i)..Offset(m.sizes, i) + m.sizes[i]]
    ensures x.s.off < m.sizes[a[x.s.ind]]
  {
    forall i | 0 <= i < |m.sizes|
      ensures Offset(m.sizes, i) + m.sizes[i] <= |m.data| && |Piece(m, i)| == m.sizes[i] > 0
      ensures Piece(m, i) == m.data[Offset(m.sizes, i)..Offset(m.sizes, i) + m.sizes[i]]
    {
      PieceSize(c, m, i);
    }
  }

  // one call of the content loop
  // where a reply goes on once `off` bytes of chunk number `ind` are sent
  function Advanced(m: Msg, a: seq<nat>, ind: nat, off: nat): Sender
    requires ind < |a| && a[ind] < |m.sizes|
  {
    if off < m.sizes[a[ind]] then SContent(a, ind, off)
    else if ind + 1 < |a| then SContent(a, ind + 1, 0) else SDone
  }

  lemma ContentStep(c: Config, m: Msg, a: seq<nat>, y: SendSide, n: nat)
    requires MsgOK(c, m) && IsFp(m) && y.s.SContent? && y.s.miss == a && y.s.ind < |a| && a[y.s.ind] < |m.sizes|
    requires 0 < n && y.s.off + n <= m.sizes[a[y.s.ind]]
    ensures SendCan(m, y, n)
    ensures var from := Offset(m.sizes, a[y.s.ind]) + y.s.off;
            && from + n <= |m.data|
            && SendStep(m, y, n) == y.(s := Advanced(m, a, y.s.ind, y.s.off + n), fwd := y.fwd + m.data[from..from + n])
  {
    PieceSize(c, m, a[y.s.ind]);
    var from := Offset(m.sizes, a[y.s.ind]);
    SliceOfSlice(m.data, from, m.sizes[a[y.s.ind]], y.s.off, n);
    ContentStepIs(m, y, n);
    hide MsgOK, SendStep;
  }

  lemma ContentMoves(c: Config, m: Msg, a: seq<nat>, y: SendSide, n: nat)
    requires MsgOK(c, m) && IsFp(m) && y.s.SContent? && y.s.miss == a && y.s.ind < |a| && a[y.s.ind] < |m.sizes|
    requires 0 < n && y.s.off + n <= m.sizes[a[y.s.ind]]
    ensures var from := Offset(m.sizes, a[y.s.ind]) + y.s.off;
            && from + n <= |m.data|
            && SendPath(m, y, [n], y.(s := Advanced(m, a, y.s.ind, y.s.off + n), fwd := y.fwd + m.data[from..from + n]))
  {
    hide SendStep, SendCan, Advanced, SendPath, MsgOK;
    ContentStep(c, m, a, y, n);
    PathOne(m, y, n);
  }

  lemma SliceOfSlice(d: Bytes, from: nat, size: nat, off: nat, n: nat)
    requires from + size <= |d| && off + n <= size
    ensures d[from..from + size][off..off + n] == d[from + off..from + off + n]
  {
    var part, whole := d[from..from + size][off..off + n], d[from + off..from + off + n];
    assert |part| == |whole|;
    forall i | 0 <= i < n ensures part[i] == whole[i] {
      assert part[i] == d[from..from + size][off + i];
    }
  }

  // what the stage functions demand of the state
  lemma StageFacts(c: Config, m: Msg, a: seq<nat>, x: SendSide)
    requires SendContext(c, m, a, x)
    ensures x.s.SPlain? ==> x.s.off <= |m.data|
    ensures x.s.SCompute? || x.s.SInsert? ==> IsFp(m) && |m.sizes| <= MAX_FINGERPRINTS
    ensures x.s.SFps? ==> x.s.off < FINGERPRINT_BYTES * |m.sizes|
    ensures x.s.SMissCount? ==> |x.s.got| < COUNT_BYTES
    ensures x.s.SMissInds? ==> |x.s.got| < INDEX_BYTES * x.s.n
  {
  }
}
