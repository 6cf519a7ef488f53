/** The two-party transfer (net_dedup.c): the stages of a send and of a receive, each as a state machine
    that one socket call or one local action moves on, and their joint system.

    The streams are FIFO.  A socket call moves any number of bytes up to what is asked for; a call that
    moves none leaves everything as it is, and so does -1, which the source always takes for EAGAIN.
    The general header and the fingerprint header move whole: see HeaderResume. */
module Protocol {
  import opened ByteStrings
  import opened Settings
  import opened Probing
  import opened CacheSpec
  import opened Tiling
  import opened Wire

  /** A message, what its posted receive buffer held before, and the chunk lengths and fingerprints the
      sender computes for it. */
  datatype Msg = Msg(data: Bytes, init: Bytes, sizes: seq<nat>, keys: seq<Key>)

  predicate IsFp(m: Msg)
  {
    |m.data| > THRESHOLD
  }

  function Piece(m: Msg, i: nat): Bytes
    requires i < |m.sizes|
  {
    Chunk(m.data, m.sizes, i)
  }

  // packaged_fingerprints
  function Fps(m: Msg): (fs: seq<Fingerprint>)
    requires |m.keys| == |m.sizes|
    ensures |fs| == |m.sizes|
  {
    seq(|m.sizes|, i requires 0 <= i < |m.sizes| => Fingerprint(m.sizes[i], m.keys[i]))
  }

  // ---- the sender ----

  // SendReqStage, with what each stage still needs of the request
  datatype Sender =
    | SHeader
    | SPlain(off: nat)                                  // SEND_REG_DATA
    | SCompute
    | SInsert(i: nat)                                   // INSERT_OUTBOUND_FINGERPRINTS, i inserted
    | SCount                                            // SEND_FINGERPRINT_HEADER
    | SFps(off: nat)                                    // SEND_PACKAGED_FINGERPRINTS
    | SMissCount(got: Bytes)                            // RECV_MISSING_FINGERPRINT_HEADER
    | SMissInds(n: nat, got: Bytes)                     // RECV_MISSING_FINGERPRINTS
    | SContent(miss: seq<nat>, ind: nat, off: nat)      // SEND_MISSING_CONTENT
    | SDone

  datatype SendSide = SendSide(s: Sender, fwd: Bytes, back: Bytes, cache: Cache, skip: bool)

  /** The next action can be taken, moving `k` bytes if it is a socket call. */
  predicate SendCan(m: Msg, x: SendSide, k: nat)
  {
    |m.keys| == |m.sizes| &&
    match x.s
    case SHeader => k == HEADER_BYTES
    case SPlain(off) => off + k <= |m.data| && (k > 0 || off == |m.data|)
    case SCompute => k == 0
    case SInsert(i) => k == 0 && i <= |m.sizes|
    case SCount => k == COUNT_BYTES
    case SFps(off) => k > 0 && off + k <= FINGERPRINT_BYTES * |m.sizes|
    case SMissCount(got) => 0 < k <= |x.back| && |got| + k <= COUNT_BYTES
    case SMissInds(n, got) => 0 < k <= |x.back| && |got| + k <= INDEX_BYTES * n
    case SContent(miss, ind, off) =>
      && ind < |miss| && miss[ind] < |m.sizes| && k > 0 && off + k <= m.sizes[miss[ind]]
      && off + k <= |Piece(m, miss[ind])|
    case SDone => false
  }

  function SendStep(m: Msg, x: SendSide, k: nat): SendSide
    requires SendCan(m, x, k)
  {
    match x.s
    case SHeader =>
      x.(s := if IsFp(m) then SCompute else SPlain(0), fwd := x.fwd + EncodeHeader(IsFp(m), |m.data|))
    case SPlain(off) =>
      x.(s := if off + k == |m.data| then SDone else SPlain(off + k), fwd := x.fwd + m.data[off..off + k])
    case SCompute =>
      x.(s := SInsert(0))
    case SInsert(i) =>
      if (i == 0 && x.skip) || i == |m.sizes| then x.(s := SCount)
      else if !Fits(x.cache, |Piece(m, i)|) then x.(s := SCount, skip := true)
      else x.(s := SInsert(i + 1), cache := Store(x.cache, m.keys[i], Piece(m, i)))
    case SCount =>
      x.(s := SFps(0), fwd := x.fwd + Encode(|m.sizes|, 8))
    case SFps(off) =>
      var b := EncodeFingerprints(Fps(m));
      x.(s := if off + k == |b| then SMissCount([]) else SFps(off + k), fwd := x.fwd + b[off..off + k])
    case SMissCount(got) =>
      var got' := got + x.back[..k];
      x.(s := if |got'| < COUNT_BYTES then SMissCount(got')
              else if Decode(got') == 0 then SDone else SMissInds(Decode(got'), []),
         back := x.back[k..])
    case SMissInds(n, got) =>
      var got' := got + x.back[..k];
      x.(s := if |got'| < INDEX_BYTES * n then SMissInds(n, got') else SContent(DecodeIndices(got'), 0, 0),
         back := x.back[k..])
    case SContent(miss, ind, off) =>
      var piece := Piece(m, miss[ind]);
      x.(s := if off + k < m.sizes[miss[ind]] then SContent(miss, ind, off + k)
              else if ind + 1 < |miss| then SContent(miss, ind + 1, 0) else SDone,
         fwd := x.fwd + piece[off..off + k])
  }

  // ---- the receiver ----

  /** What a receive has learnt of a fingerprinted message: the total size, the fingerprints, the
      indices of the missing ones and where their content goes. */
  datatype Plan = Plan(size: nat, fps: seq<Fingerprint>, miss: seq<nat>, slots: seq<nat>)

  // RecvReqStage
  datatype Receiver =
    | RHeader
    | RPlain(size: nat, off: nat)                       // RECV_REG_DATA
    | RCount(size: nat)                                 // RECV_FINGERPRINT_HEADER
    | RFps(size: nat, n: nat, got: Bytes)               // RECV_PACKAGED_FINGERPRINTS
    | RPopulate(plan: Plan, i: nat, pos: nat)           // POPULATE_FROM_NET_CACHE, i looked up
    | RMissCount(plan: Plan, off: nat)                  // SEND_MISSING_FINGERPRINT_HEADER
    | RMissInds(plan: Plan, off: nat)                   // SEND_MISSING_FINGERPRINTS
    | RContent(plan: Plan, ind: nat, off: nat)          // RECV_MISSING_CONTENT
    | RInsert(plan: Plan, i: nat)                       // INSERT_INBOUND_FINGERPRINTS, i inserted
    | RDone(size: nat)

  datatype RecvSide = RecvSide(r: Receiver, buf: Bytes, fwd: Bytes, back: Bytes, cache: Cache, skip: bool)

  // the length and the place of the `i`-th missing chunk
  function MissSize(p: Plan, i: nat): nat
  {
    if i < |p.miss| && p.miss[i] < |p.fps| then p.fps[p.miss[i]].size else 0
  }

  predicate RecvCan(x: RecvSide, k: nat)
  {
    match x.r
    case RHeader => k == HEADER_BYTES <= |x.fwd|
    case RPlain(size, off) => off + k <= size && (k > 0 || off == size) && k <= |x.fwd| && off + k <= |x.buf|
    case RCount(_) => k == COUNT_BYTES <= |x.fwd|
    case RFps(_, n, got) => 0 < k <= |x.fwd| && |got| + k <= FINGERPRINT_BYTES * n
    case RPopulate(p, i, pos) =>
      k == 0 && i <= |p.fps| &&
      (i < |p.fps| && p.fps[i].key in x.cache.index ==> pos + |x.cache.index[p.fps[i].key]| <= |x.buf|)
    case RMissCount(p, off) => k > 0 && off + k <= COUNT_BYTES
    case RMissInds(p, off) => k > 0 && off + k <= INDEX_BYTES * |p.miss|
    case RContent(p, ind, off) =>
      0 < k <= |x.fwd| && ind < |p.miss| == |p.slots| && off + k <= MissSize(p, ind) && p.slots[ind] + off + k <= |x.buf|
    case RInsert(p, i) =>
      k == 0 && i <= |p.miss| == |p.slots| && (i < |p.miss| ==> p.miss[i] < |p.fps| && p.slots[i] + MissSize(p, i) <= |x.buf|)
    case RDone(_) => false
  }

  function RecvStep(x: RecvSide, k: nat): RecvSide
    requires RecvCan(x, k)
  {
    match x.r
    case RHeader =>
      var h := x.fwd[..k];
      x.(r := if HeaderIsFingerprint(h) then RCount(HeaderSize(h)) else RPlain(HeaderSize(h), 0), fwd := x.fwd[k..])
    case RPlain(size, off) =>
      x.(r := if off + k == size then RDone(size) else RPlain(size, off + k),
         buf := Splice(x.buf, off, x.fwd[..k]), fwd := x.fwd[k..])
    case RCount(size) =>
      x.(r := RFps(size, Decode(x.fwd[..k]), []), fwd := x.fwd[k..])
    case RFps(size, n, got) =>
      var got' := got + x.fwd[..k];
      x.(r := if |got'| < FINGERPRINT_BYTES * n then RFps(size, n, got')
              else RPopulate(Plan(size, DecodeFingerprints(got'), [], []), 0, 0),
         fwd := x.fwd[k..])
    case RPopulate(p, i, pos) =>
      if i == |p.fps| then x.(r := RMissCount(p, 0))
      else
        var f := p.fps[i];
        if f.key in x.cache.index then
          x.(r := RPopulate(p, i + 1, pos + f.size), buf := Splice(x.buf, pos, x.cache.index[f.key]))
        else
          x.(r := RPopulate(p.(miss := p.miss + [i], slots := p.slots + [pos]), i + 1, pos + f.size))
    case RMissCount(p, off) =>
      var b := Encode(|p.miss|, 8);
      x.(r := if off + k < |b| then RMissCount(p, off + k) else if p.miss == [] then RDone(p.size) else RMissInds(p, 0),
         back := x.back + b[off..off + k])
    case RMissInds(p, off) =>
      var b := EncodeIndices(p.miss);
      x.(r := if off + k < |b| then RMissInds(p, off + k) else RContent(p, 0, 0),
         back := x.back + b[off..off + k])
    case RContent(p, ind, off) =>
      x.(r := if off + k < MissSize(p, ind) then RContent(p, ind, off + k)
              else if ind + 1 < |p.miss| then RContent(p, ind + 1, 0) else RInsert(p, 0),
         buf := Splice(x.buf, p.slots[ind] + off, x.fwd[..k]), fwd := x.fwd[k..])
    case RInsert(p, i) =>
      if (i == 0 && x.skip) || i == |p.miss| then x.(r := RDone(p.size))
      else
        var content := x.buf[p.slots[i]..p.slots[i] + MissSize(p, i)];
        if !Fits(x.cache, |content|) then x.(r := RDone(p.size), skip := true)
        else x.(r := RInsert(p, i + 1), cache := Store(x.cache, p.fps[p.miss[i]].key, content))
  }

  // ---- the joint system ----

  /** `fp` stands for SHA-256; `contents` are all the byte strings whose fingerprints are ever compared. */
  datatype Config = Config(fp: Bytes -> Key, contents: iset<Bytes>, msgs: seq<Msg>)

  /** One connection: the sender is at message `si`, the receiver at `rj`; either may be ahead.  `done`
      holds the buffers of the completed receives.  `asked` is a history variable: for each message the
      chunks its receiver asked for. */
  datatype State = State(
    si: nat, s: Sender, rj: nat, r: Receiver, buf: Bytes, done: seq<Bytes>,
    fwd: Bytes, back: Bytes, sc: Cache, sskip: bool, rc: Cache, rskip: bool,
    asked: seq<seq<nat>>)

  function SideS(st: State): SendSide
  {
    SendSide(st.s, st.fwd, st.back, st.sc, st.sskip)
  }

  function SideR(st: State): RecvSide
  {
    RecvSide(st.r, st.buf, st.fwd, st.back, st.rc, st.rskip)
  }

  function WithS(st: State, x: SendSide): State
  {
    st.(s := x.s, fwd := x.fwd, back := x.back, sc := x.cache, sskip := x.skip)
  }

  function WithR(st: State, x: RecvSide): State
  {
    st.(r := x.r, buf := x.buf, fwd := x.fwd, back := x.back, rc := x.cache, rskip := x.skip)
  }

  datatype Action =
    | SendAct(k: nat)                           // an action of the send in progress
    | RecvAct(k: nat)                           // an action of the receive in progress
    | NextSend                                  // the completed send is followed by the next isend
    | NextRecv                                  // the completed receive is followed by the next irecv
    | SendEnv(cache: Cache, skip: bool)         // other users of the sender's cache
    | RecvEnv(cache: Cache, skip: bool)         // other users of the receiver's cache

  /** Stored contents are filed under their own fingerprints. */
  ghost predicate CacheOK(c: Config, cache: Cache)
  {
    forall k :: k in cache.index ==> cache.index[k] in c.contents && c.fp(cache.index[k]) == k
  }

  /** Others insert, but nothing stored is removed or replaced. */
  ghost predicate Grows(a: Cache, b: Cache)
  {
    forall k :: k in a.index ==> k in b.index && b.index[k] == a.index[k]
  }

  ghost predicate Enabled(c: Config, st: State, a: Action)
  {
    match a
    case SendAct(k) => st.si < |c.msgs| && SendCan(c.msgs[st.si], SideS(st), k)
    case RecvAct(k) => st.rj < |c.msgs| && RecvCan(SideR(st), k)
    case NextSend => st.si < |c.msgs| && st.s.SDone?
    case NextRecv => st.rj < |c.msgs| && st.r.RDone?
    case SendEnv(cache, _) => CacheOK(c, cache) && Grows(st.sc, cache)
    case RecvEnv(cache, _) => CacheOK(c, cache) && Grows(st.rc, cache)
  }

  // the buffer of the receive to be posted as number j
  function BufferAt(c: Config, j: nat): Bytes
  {
    if j < |c.msgs| then c.msgs[j].init else []
  }

  ghost function Next(c: Config, st: State, a: Action): State
    requires Enabled(c, st, a)
  {
    match a
    case SendAct(k) => WithS(st, SendStep(c.msgs[st.si], SideS(st), k))
    case RecvAct(k) =>
      var st' := WithR(st, RecvStep(SideR(st), k));
      if st.r.RPopulate? && st'.r.RMissCount? && st.rj < |st.asked|
      then st'.(asked := st.asked[st.rj := st.r.plan.miss]) else st'
    case NextSend => st.(si := st.si + 1, s := SHeader)
    case NextRecv => st.(rj := st.rj + 1, r := RHeader, done := st.done + [st.buf], buf := BufferAt(c, st.rj + 1))
    case SendEnv(cache, skip) => st.(sc := cache, sskip := skip)
    case RecvEnv(cache, skip) => st.(rc := cache, rskip := skip)
  }

  /** Nothing sent or received yet; the caches may hold anything well filed. */
  function Start(c: Config, sc: Cache, sskip: bool, rc: Cache, rskip: bool): State
  {
    State(0, SHeader, 0, RHeader, BufferAt(c, 0), [], [], [], sc, sskip, rc, rskip,
          seq(|c.msgs|, _ => []))
  }

  ghost predicate IsRun(c: Config, states: seq<State>, acts: seq<Action>)
  {
    && |states| == |acts| + 1
    && forall i :: 0 <= i < |acts| ==> Enabled(c, states[i], acts[i]) && states[i + 1] == Next(c, states[i], acts[i])
  }
}
