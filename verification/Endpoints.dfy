/** A connection with the request objects of both sides over the same two pipes: what the two loops
    process_send and process_recv do when they are called again and again. */
module Endpoints {
  import opened ByteStrings
  import opened Settings
  import opened Probing
  import opened CacheSpec
  import opened RollingHash
  import opened Chunker
  import opened Protocol
  import opened Streams
  import opened Invariants
  import opened Transparency
  import opened Progress
  import opened Refinement
  import opened Sockets
  import DedupTransfer
  import PageCaches
  import S = SendRequests
  import R = RecvRequests

  /** The caches of the two sides share nothing. */
  predicate CachesApart(a: PageCaches.PageCache, b: PageCaches.PageCache)
  {
    && a != b && a.mem != b.mem && a.freePages != b.freePages
    && a.table != b.table && a.table.words != b.table.words && a.table.items != b.table.items
  }

  /** The sides share nothing but the pipes between them. */
  predicate Joined(s: S.SendRequest, r: R.RecvRequest)
  {
    && s.sock.out == r.sock.inn && s.sock.inn == r.sock.out
    && s.sock != r.sock && s.flags != r.flags && CachesApart(s.cache, r.cache)
    && s.missMem != r.fpMem && s.missMem != r.appBuffer && s.missMem != r.cache.mem
    && s.cache.mem != r.fpMem && s.cache.mem != r.appBuffer
    && s.offsets != r.missInds && s.offsets != r.missSlots && s.offsets != r.cache.freePages
    && s.cache.freePages != r.missInds && s.cache.freePages != r.missSlots
  }

  /** The send is in stage `q`, its cache and flag are as given, and its socket is willing. */
  ghost predicate SendHeld(s: S.SendRequest, q: Sender, cache: Cache, skip: bool)
    reads s, s.packaged, s.offsets, s.missMem, s.sock, s.flags
    reads s.cache, s.cache.mem, s.cache.freePages, s.cache.table, s.cache.table.words, s.cache.table.items
  {
    s.Valid() && s.sock.willing && s.View() == q && s.cache.View() == cache && s.flags.skipInsert == skip
  }

  ghost predicate RecvHeld(r: R.RecvRequest, q: Receiver, buf: Bytes, cache: Cache, skip: bool)
    reads r, r.fpMem, r.missInds, r.missSlots, r.appBuffer, r.sock, r.flags
    reads r.cache, r.cache.mem, r.cache.freePages, r.cache.table, r.cache.table.words, r.cache.table.items
  {
    && r.Valid() && r.sock.willing && r.View() == q && r.appBuffer[..] == buf
    && r.cache.View() == cache && r.flags.skipInsert == skip
  }

  /** The send is where the state of the joint machine says. */
  ghost predicate SendAt(c: Config, st: State, s: S.SendRequest)
    reads s, s.packaged, s.offsets, s.missMem, s.sock, s.sock.out, s.sock.inn, s.flags
    reads s.cache, s.cache.mem, s.cache.freePages, s.cache.table, s.cache.table.words, s.cache.table.items
  {
    && st.si < |c.msgs| && s.m == c.msgs[st.si] && SendHeld(s, st.s, st.sc, st.sskip)
    && s.sock.out.bytes == st.fwd && s.sock.inn.bytes == st.back
  }

  ghost predicate RecvAt(c: Config, st: State, r: R.RecvRequest)
    reads r, r.fpMem, r.missInds, r.missSlots, r.appBuffer, r.sock, r.sock.out, r.sock.inn, r.flags
    reads r.cache, r.cache.mem, r.cache.freePages, r.cache.table, r.cache.table.words, r.cache.table.items
  {
    && st.rj < |c.msgs| && r.m == c.msgs[st.rj] && RecvHeld(r, st.r, st.buf, st.rc, st.rskip)
    && r.sock.inn.bytes == st.fwd && r.sock.out.bytes == st.back
  }

  /** One call of process_send, the lock being free. */
  method SendCall(ghost c: Config, ghost st: State, s: S.SendRequest)
    returns (ret: int, ghost st': State, ghost ks: seq<nat>)
    requires Inv(c, st) && SendAt(c, st, s)
    modifies s, s.packaged, s.offsets, s.missMem, s.sock.out, s.sock.inn, s.sock`log, s.flags
    modifies s.cache, s.cache.mem, s.cache.table, s.cache.table.words, s.cache.table.items
    ensures Inv(c, st') && SendAt(c, st', s) && st' == WithS(st, SideS(st'))
    ensures ret == if s.stage.SEND_COMPLETE? then 1 else 0
    ensures st.rj <= |c.msgs| && MovesLeft(c, st') + |ks| <= MovesLeft(c, st) && (ks == [] ==> st' == st)
    ensures SenderMayMove(SideS(st)) ==> ks != []
  {
    hide Inv, S.SendContext, S.SendPath, S.SendRequest.View, S.SendRequest.Setup, S.SendRequest.Computed,
         S.SendRequest.Untouched, PageCaches.PageCache.Valid, PageCaches.PageCache.View, MovesLeft, SenderMayMove, S.Rank,
         SendLeft, RecvLeft;
    InvShape(c, st);
    hide Shape;
    SendContextHolds(c, st);
    ret, ks := s.ProcessSend(c, st.asked[st.si], true);
    st' := SendResult(c, st, ks, s.Side());
  }

  lemma SendResult(c: Config, st: State, ks: seq<nat>, y: SendSide) returns (st': State)
    requires Inv(c, st) && st.si < |c.msgs| && S.SendPath(c.msgs[st.si], SideS(st), ks, y)
    ensures Inv(c, st') && st' == WithS(st, y) && SideS(st') == y
    ensures st.rj <= |c.msgs| && MovesLeft(c, st') + |ks| <= MovesLeft(c, st) && (ks == [] ==> st' == st)
  {
    hide Inv, S.SendPath, MovesLeft;
    var states, acts := SendPathRuns(c, st, ks, y);
    st' := WithS(st, y);
    if ks == [] { EmptySend(c.msgs[st.si], SideS(st), y); }
  }

  /** One call of process_recv, the lock being free. */
  method RecvCall(ghost c: Config, ghost st: State, r: R.RecvRequest)
    returns (ret: int, ghost st': State, ghost ks: seq<nat>)
    requires Inv(c, st) && RecvAt(c, st, r)
    modifies r, r.fpMem, r.missInds, r.missSlots, r.appBuffer, r.sock.out, r.sock.inn, r.sock`log, r.flags
    modifies r.cache, r.cache.mem, r.cache.table, r.cache.table.words, r.cache.table.items
    ensures Inv(c, st') && RecvAt(c, st', r) && st' == WithR(st, SideR(st')).(asked := st'.asked)
    ensures ret == if r.stage.RECV_COMPLETE? then 1 else 0
    ensures st.si <= |c.msgs| && MovesLeft(c, st') + |ks| <= MovesLeft(c, st) && (ks == [] ==> SideR(st') == SideR(st))
    ensures ReceiverMayMove(SideR(st)) ==> ks != []
  {
    hide Inv, R.RecvContext, R.RecvPath, R.RecvRequest.View, R.RecvRequest.Setup, R.RecvRequest.Untouched,
         PageCaches.PageCache.Valid, PageCaches.PageCache.View, MovesLeft, ReceiverMayMove, R.Rank, SendLeft, RecvLeft,
         ConfigOK;
    InvShape(c, st);
    RecvContextHolds(c, st);
    ghost var a;
    ret, ks, a := r.ProcessRecv(c, st.asked[st.rj], true);
    st' := RecvResult(c, st, ks, r.Side());
  }

  lemma RecvResult(c: Config, st: State, ks: seq<nat>, y: RecvSide) returns (st': State)
    requires Inv(c, st) && st.rj < |c.msgs| && R.RecvPath(SideR(st), ks, y)
    ensures Inv(c, st') && SideR(st') == y && st' == WithR(st, y).(asked := st'.asked)
    ensures st.si <= |c.msgs| && MovesLeft(c, st') + |ks| <= MovesLeft(c, st) && (ks == [] ==> y == SideR(st))
  {
    hide Inv, R.RecvPath, MovesLeft;
    var states, acts := RecvPathRuns(c, st, ks, y);
    st' := states[|acts|];
    if ks == [] { EmptyRecv(SideR(st), y); }
  }

  lemma SendParts(c: Config, st: State, s: S.SendRequest)
    requires SendAt(c, st, s)
    ensures st.si < |c.msgs| && s.m == c.msgs[st.si] && SendHeld(s, st.s, st.sc, st.sskip)
  {
    hide SendHeld;
  }

  lemma SendPipes(c: Config, st: State, s: S.SendRequest)
    requires SendAt(c, st, s)
    ensures s.sock.out.bytes == st.fwd && s.sock.inn.bytes == st.back
  {
    hide SendHeld;
  }

  lemma SendPuts(c: Config, st: State, s: S.SendRequest)
    requires st.si < |c.msgs| && s.m == c.msgs[st.si] && SendHeld(s, st.s, st.sc, st.sskip)
    requires s.sock.out.bytes == st.fwd && s.sock.inn.bytes == st.back
    ensures SendAt(c, st, s)
  {
    hide SendHeld;
  }

  lemma RecvParts(c: Config, st: State, r: R.RecvRequest)
    requires RecvAt(c, st, r)
    ensures st.rj < |c.msgs| && r.m == c.msgs[st.rj] && RecvHeld(r, st.r, st.buf, st.rc, st.rskip)
  {
    hide RecvHeld;
  }

  lemma RecvPipes(c: Config, st: State, r: R.RecvRequest)
    requires RecvAt(c, st, r)
    ensures r.sock.inn.bytes == st.fwd && r.sock.out.bytes == st.back
  {
    hide RecvHeld;
  }

  lemma RecvPuts(c: Config, st: State, r: R.RecvRequest)
    requires st.rj < |c.msgs| && r.m == c.msgs[st.rj] && RecvHeld(r, st.r, st.buf, st.rc, st.rskip)
    requires r.sock.inn.bytes == st.fwd && r.sock.out.bytes == st.back
    ensures RecvAt(c, st, r)
  {
    hide RecvHeld;
  }

  /** process_send is called, the receive looking on. */
  method SendTurn(ghost c: Config, ghost st: State, s: S.SendRequest, r: R.RecvRequest)
    returns (ret: int, ghost st': State, ghost ks: seq<nat>)
    requires Inv(c, st) && Joined(s, r) && SendAt(c, st, s) && RecvAt(c, st, r)
    modifies s, s.packaged, s.offsets, s.missMem, s.sock.out, s.sock.inn, s.sock`log, s.flags
    modifies s.cache, s.cache.mem, s.cache.table, s.cache.table.words, s.cache.table.items
    ensures Inv(c, st') && SendAt(c, st', s) && RecvAt(c, st', r) && st'.si == st.si && st'.rj == st.rj
    ensures ret == if s.stage.SEND_COMPLETE? then 1 else 0
    ensures st.rj <= |c.msgs| && st.si <= |c.msgs| && MovesLeft(c, st') + |ks| <= MovesLeft(c, st)
    ensures ks == [] ==> st' == st
    ensures SenderMayMove(SideS(st)) ==> ks != []
  {
    hide Inv, Shape, SendHeld, RecvHeld, SendAt, RecvAt, MovesLeft, SenderMayMove;
    InvShape(c, st);
    RecvParts(c, st, r);
    ret, st', ks := SendCall(c, st, s);
    SendPipes(c, st', s);
    RecvPuts(c, st', r);
  }

  /** process_recv is called, the send looking on. */
  method RecvTurn(ghost c: Config, ghost st: State, s: S.SendRequest, r: R.RecvRequest)
    returns (ret: int, ghost st': State, ghost ks: seq<nat>)
    requires Inv(c, st) && Joined(s, r) && SendAt(c, st, s) && RecvAt(c, st, r)
    modifies r, r.fpMem, r.missInds, r.missSlots, r.appBuffer, r.sock.out, r.sock.inn, r.sock`log, r.flags
    modifies r.cache, r.cache.mem, r.cache.table, r.cache.table.words, r.cache.table.items
    ensures Inv(c, st') && SendAt(c, st', s) && RecvAt(c, st', r) && st'.si == st.si && st'.rj == st.rj
    ensures ret == if r.stage.RECV_COMPLETE? then 1 else 0
    ensures st.rj <= |c.msgs| && st.si <= |c.msgs| && MovesLeft(c, st') + |ks| <= MovesLeft(c, st)
    ensures ks == [] ==> st'.r == st.r
    ensures ReceiverMayMove(SideR(st)) ==> ks != []
  {
    hide Inv, Shape, SendHeld, RecvHeld, SendAt, RecvAt, MovesLeft, ReceiverMayMove;
    InvShape(c, st);
    SendParts(c, st, s);
    ret, st', ks := RecvCall(c, st, r);
    RecvPipes(c, st', r);
    SendPuts(c, st', s);
  }

  lemma SendComplete(c: Config, st: State, s: S.SendRequest)
    requires SendAt(c, st, s)
    ensures st.si < |c.msgs| && (s.stage.SEND_COMPLETE? <==> st.s.SDone?)
  {
    hide S.SendRequest.Valid, PageCaches.PageCache.Valid, PageCaches.PageCache.View;
  }

  lemma RecvComplete(c: Config, st: State, r: R.RecvRequest)
    requires RecvAt(c, st, r)
    ensures r.stage.RECV_COMPLETE? <==> st.r.RDone?
    ensures r.appBuffer[..] == st.buf
  {
    hide R.RecvRequest.Valid, PageCaches.PageCache.Valid, PageCaches.PageCache.View;
  }

  /** One call of each at the same message: unless both requests are complete, one of them has made
      progress. */
  method BothTurns(ghost c: Config, ghost st: State, s: S.SendRequest, r: R.RecvRequest)
    returns (done: bool, ghost st': State)
    requires Inv(c, st) && Joined(s, r) && SendAt(c, st, s) && RecvAt(c, st, r) && st.si == st.rj
    modifies s, s.packaged, s.offsets, s.missMem, s.sock.out, s.sock.inn, s.sock`log, s.flags
    modifies s.cache, s.cache.mem, s.cache.table, s.cache.table.words, s.cache.table.items
    modifies r, r.fpMem, r.missInds, r.missSlots, r.appBuffer, r.sock`log, r.flags
    modifies r.cache, r.cache.mem, r.cache.table, r.cache.table.words, r.cache.table.items
    ensures Inv(c, st') && SendAt(c, st', s) && RecvAt(c, st', r) && st'.si == st'.rj == st.si <= |c.msgs|
    ensures done == (st'.s.SDone? && st'.r.RDone?)
    ensures if done then MovesLeft(c, st') <= MovesLeft(c, st) else MovesLeft(c, st') < MovesLeft(c, st)
  {
    hide Inv, SendAt, RecvAt, CachesApart, MovesLeft, SenderMayMove, ReceiverMayMove;
    SendComplete(c, st, s);
    ghost var ks, ls, st1;
    var sent, received;
    sent, st1, ks := SendTurn(c, st, s, r);
    SendComplete(c, st1, s);
    received, st', ls := RecvTurn(c, st1, s, r);
    SendComplete(c, st', s);
    RecvComplete(c, st', r);
    done := sent == 1 && received == 1;
    if ks == [] && ls == [] { MayMoveAgain(c, st); }
  }

  lemma MayMoveAgain(c: Config, st: State)
    requires Inv(c, st) && st.si == st.rj < |c.msgs|
    ensures SenderMayMove(SideS(st)) || ReceiverMayMove(SideR(st)) || (st.s.SDone? && st.r.RDone?)
  {
    SameMessageMoves(c, st);
  }

  /** Where both sides are through with a message, it is in the buffer and nothing is left in flight. */
  lemma ThroughMeans(c: Config, st: State)
    requires Inv(c, st) && st.si == st.rj < |c.msgs| && st.s.SDone? && st.r.RDone?
    ensures st.buf == Delivered(c.msgs[st.rj]) && st.fwd == [] && st.back == []
  {
    hide CacheOK, ConfigOK, ReceiverOK, SenderOK, Delivered, Increasing, SentTotal, SeenTotal, RepliedTotal, HeardTotal;
    DoneDelivered(c.msgs[st.rj], st.asked[st.rj], st.r, st.buf);
    EvenTotals(c, st);
  }

  /** Called in turn, the two loops come to an end, whatever the sockets make of each call: both requests
      are complete, the receive holds the message, and the pipes are empty. */
  method Finish(ghost c: Config, ghost st: State, s: S.SendRequest, r: R.RecvRequest) returns (ghost last: State)
    requires Inv(c, st) && Joined(s, r) && SendAt(c, st, s) && RecvAt(c, st, r) && st.si == st.rj
    modifies s, s.packaged, s.offsets, s.missMem, s.sock.out, s.sock.inn, s.sock`log, s.flags
    modifies s.cache, s.cache.mem, s.cache.table, s.cache.table.words, s.cache.table.items
    modifies r, r.fpMem, r.missInds, r.missSlots, r.appBuffer, r.sock`log, r.flags
    modifies r.cache, r.cache.mem, r.cache.table, r.cache.table.words, r.cache.table.items
    ensures Inv(c, last) && SendAt(c, last, s) && RecvAt(c, last, r)
    ensures s.stage.SEND_COMPLETE? && r.stage.RECV_COMPLETE?
    ensures r.appBuffer[..] == Delivered(r.m)
    ensures s.sock.out.bytes == [] && s.sock.inn.bytes == []
  {
    hide Inv, SendHeld, RecvHeld, CachesApart, MovesLeft, Delivered;
    last := st;
    var done := false;
    LeftNotNegative(c, st);
    while !done
      invariant Inv(c, last) && SendAt(c, last, s) && RecvAt(c, last, r) && last.si == last.rj
      invariant done ==> last.s.SDone? && last.r.RDone?
      invariant MovesLeft(c, last) >= 0
      decreases MovesLeft(c, last), !done
    {
      done, last := BothTurns(c, last, s, r);
      LeftNotNegative(c, last);
    }
    SendComplete(c, last, s);
    RecvComplete(c, last, r);
    ThroughMeans(c, last);
  }

  // the connection that carries one message
  ghost function OneMessage(fp: Bytes -> Key, contents: iset<Bytes>, data: Bytes, buffer: Bytes): Config
  {
    DedupTransfer.Connection(SETTINGS, fp, contents, [DedupTransfer.Transfer(data, buffer)])
  }

  /** What the setting demands: the message fits, the caches are well filed, and there are no collisions
      among the contents compared. */
  ghost predicate Fair(fp: Bytes -> Key, contents: iset<Bytes>, data: Bytes, buffer: Bytes, sc: Cache, rc: Cache)
  {
    var t, c := DedupTransfer.Transfer(data, buffer), OneMessage(fp, contents, data, buffer);
    && DedupTransfer.Posted(SETTINGS, t) && DedupTransfer.ChunksIn(SETTINGS, t, contents)
    && CollisionFree(c) && CacheOK(c, sc) && CacheOK(c, rc)
  }

  lemma FairStart(fp: Bytes -> Key, contents: iset<Bytes>, data: Bytes, buffer: Bytes, sc: Cache, sskip: bool,
                  rc: Cache, rskip: bool)
    requires Fair(fp, contents, data, buffer, sc, rc)
    ensures |data| <= |buffer|
    ensures var c := OneMessage(fp, contents, data, buffer);
            && |c.msgs| == 1 && Inv(c, Start(c, sc, sskip, rc, rskip))
            && var m := c.msgs[0];
               && m.data == data && m.init == buffer && HasKeys(m) && Delivered(m) == Splice(buffer, 0, data)
               && (IsFp(m) ==> m.sizes == ChunkSizes(SETTINGS, data) && m.keys == Keys(fp, data, m.sizes))
  {
    var t, c := DedupTransfer.Transfer(data, buffer), OneMessage(fp, contents, data, buffer);
    DedupTransfer.CutOK(SETTINGS, c, t);
    DedupTransfer.DeliveredIsCopy(SETTINGS, fp, t);
    hide MsgOK, CollisionFree, ChunkSizes, Keys, Delivered;
    assert c.msgs[0] == DedupTransfer.Cut(SETTINGS, fp, t);
    StartOK(c, sc, sskip, rc, rskip);
  }

  method PostSend(ghost c: Config, ghost st: State, data: Bytes, fp: Bytes -> Key, out: Pipe, inn: Pipe,
                  cache: PageCaches.PageCache, flags: Flags) returns (s: S.SendRequest)
    requires cache.Valid() && out != inn && out.bytes == st.fwd && inn.bytes == st.back && st.si < |c.msgs|
    requires st.s.SHeader? && st.sc == cache.View() && st.sskip == flags.skipInsert
    requires var m := c.msgs[st.si];
             && m.data == data && HasKeys(m)
             && (IsFp(m) ==> m.sizes == ChunkSizes(SETTINGS, data) && m.keys == Keys(fp, data, m.sizes))
    ensures SendAt(c, st, s) && s.sock.out == out && s.sock.inn == inn && s.cache == cache && s.flags == flags
    ensures s.m == c.msgs[st.si]
    ensures fresh(s) && fresh(s.sock) && fresh(s.packaged) && fresh(s.offsets) && fresh(s.missMem)
  {
    hide ChunkSizes, Keys, Outgoing, PageCaches.PageCache.Valid, PageCaches.PageCache.View, HasKeys, IsFp;
    var table := GenTable(SETTINGS);
    var sock := new Socket(out, inn, true);
    s := new S.SendRequest(data, fp, table[..], sock, cache, flags, c.msgs[st.si]);
  }

  method PostRecv(ghost c: Config, ghost st: State, buffer: array<Byte>, out: Pipe, inn: Pipe,
                  cache: PageCaches.PageCache, flags: Flags) returns (r: R.RecvRequest)
    requires cache.Valid() && buffer != cache.mem && out != inn && inn.bytes == st.fwd && out.bytes == st.back
    requires st.rj < |c.msgs| && st.r.RHeader? && st.buf == buffer[..]
    requires st.rc == cache.View() && st.rskip == flags.skipInsert
    ensures RecvAt(c, st, r) && r.sock.out == out && r.sock.inn == inn && r.cache == cache && r.flags == flags
    ensures r.appBuffer == buffer && r.m == c.msgs[st.rj]
    ensures fresh(r) && fresh(r.sock) && fresh(r.fpMem) && fresh(r.missInds) && fresh(r.missSlots)
  {
    hide PageCaches.PageCache.Valid, PageCaches.PageCache.View;
    var sock := new Socket(out, inn, true);
    r := new R.RecvRequest(buffer, sock, cache, flags, c.msgs[st.rj]);
  }

  /** isend on one side, irecv on the other, and their progress until both are complete: the buffer then
      holds what a plain copy would have left in it. */
  method CopyMessage(data: Bytes, fp: Bytes -> Key, ghost contents: iset<Bytes>,
                     sendCache: PageCaches.PageCache, sendFlags: Flags,
                     recvCache: PageCaches.PageCache, recvFlags: Flags, buffer: array<Byte>)
    requires sendCache.Valid() && recvCache.Valid() && CachesApart(sendCache, recvCache) && sendFlags != recvFlags
    requires buffer != sendCache.mem && buffer != recvCache.mem
    requires Fair(fp, contents, data, buffer[..], sendCache.View(), recvCache.View())
    modifies buffer, sendFlags, sendCache, sendCache.mem, sendCache.table, sendCache.table.words, sendCache.table.items
    modifies recvFlags, recvCache, recvCache.mem, recvCache.table, recvCache.table.words, recvCache.table.items
    ensures buffer[..] == Splice(old(buffer[..]), 0, data)
    ensures |data| <= buffer.Length && buffer[..|data|] == data && buffer[|data|..] == old(buffer[|data|..])
    ensures sendCache.Valid() && recvCache.Valid()
    ensures Fair(fp, contents, data, old(buffer[..]), sendCache.View(), recvCache.View())
  {
    hide Fair, OneMessage, Inv, ChunkSizes, Keys, Delivered, SendAt, RecvAt, CachesApart, PageCaches.PageCache.Valid,
         PageCaches.PageCache.View, Splice;
    ghost var before := buffer[..];
    ghost var c := OneMessage(fp, contents, data, before);
    ghost var st := Start(c, sendCache.View(), sendFlags.skipInsert, recvCache.View(), recvFlags.skipInsert);
    FairStart(fp, contents, data, before, st.sc, st.sskip, st.rc, st.rskip);
    var there := new Pipe();
    var back := new Pipe();
    var s := PostSend(c, st, data, fp, there, back, sendCache, sendFlags);
    var r := PostRecv(c, st, buffer, back, there, recvCache, recvFlags);
    ghost var last := Finish(c, st, s, r);
    CachesAt(c, last, s, r);
    PlainCopy(before, data, buffer[..]);
    StillFair(fp, contents, data, before, st.sc, st.rc, last);
  }

  lemma PlainCopy(before: Bytes, data: Bytes, after: Bytes)
    requires |data| <= |before| && after == Splice(before, 0, data)
    ensures |after| == |before| && after[..|data|] == data && after[|data|..] == before[|data|..]
  {
  }

  lemma CachesAt(c: Config, st: State, s: S.SendRequest, r: R.RecvRequest)
    requires SendAt(c, st, s) && RecvAt(c, st, r)
    ensures s.cache.Valid() && s.cache.View() == st.sc && r.cache.Valid() && r.cache.View() == st.rc
  {
    hide PageCaches.PageCache.Valid, PageCaches.PageCache.View;
  }

  lemma StillFair(fp: Bytes -> Key, contents: iset<Bytes>, data: Bytes, buffer: Bytes, sc: Cache, rc: Cache, last: State)
    requires Fair(fp, contents, data, buffer, sc, rc) && Inv(OneMessage(fp, contents, data, buffer), last)
    ensures Fair(fp, contents, data, buffer, last.sc, last.rc)
  {
    hide CacheOK, CollisionFree, OneMessage;
  }

  lemma EmptySend(m: Msg, x: SendSide, y: SendSide)
    requires S.SendPath(m, x, [], y)
    ensures x == y
  {
  }

  lemma EmptyRecv(x: RecvSide, y: RecvSide)
    requires R.RecvPath(x, [], y)
    ensures x == y
  {
  }
}
