/** The bytes that cross the wire for a message, place by place (net_dedup.c:714-1180, 1659-1738). */
module OnTheWire {
  import opened ByteStrings
  import opened Settings
  import opened Tiling
  import opened Wire
  import opened Protocol
  import opened Streams
  import opened Invariants
  import opened Transparency
  import opened SenderSteps
  import Progress

  const RECORDS := HEADER_BYTES + COUNT_BYTES   // where the fingerprints begin

  /** How many bytes of content go before the one asked for as number `j`. */
  function Before(m: Msg, a: seq<nat>, j: nat): nat
    requires j <= |a|
  {
    if j == 0 then 0 else Before(m, a, j - 1) + (if a[j - 1] < |m.sizes| then m.sizes[a[j - 1]] else 0)
  }

  /** The header says whether the message is longer than the threshold, and how long it is. */
  lemma HeaderPlaces(c: Config, m: Msg, a: seq<nat>)
    requires MsgOK(c, m)
    ensures var f := Forward(m, a);
            && |f| >= HEADER_BYTES && f[0] == (if |m.data| > THRESHOLD then 1 else 0) && Word(f, 8) == |m.data|
            && (|m.data| <= THRESHOLD ==> f[HEADER_BYTES..] == m.data)
  {
    hide Word, EncodeHeader, Preamble, Content, Encode;
    var f := Forward(m, a);
    HeaderLayout(IsFp(m), |m.data|);
    StartsWithHeader(m, a);
    WordInside(f, 0, Header(m), 8);
  }

  lemma StartsWithHeader(m: Msg, a: seq<nat>)
    requires HasKeys(m)
    ensures var f := Forward(m, a);
            |f| >= HEADER_BYTES && f[0..0 + |Header(m)|] == Header(m) && f[0] == Header(m)[0]
    ensures !IsFp(m) ==> Forward(m, a)[HEADER_BYTES..] == m.data
  {
    hide EncodeHeader, Content, Encode, EncodeFingerprints;
  }

  /** Then come the number of chunks, and length and digest of each. */
  lemma RecordPlaces(c: Config, m: Msg, a: seq<nat>, i: nat)
    requires MsgOK(c, m) && IsFp(m) && i < |m.sizes| && m.sizes[i] < U64_LIMIT
    ensures var f := Forward(m, a); var at := RECORDS + FINGERPRINT_BYTES * i;
            && |f| >= RECORDS + FINGERPRINT_BYTES * |m.sizes|
            && Word(f, HEADER_BYTES) == |m.sizes| && Word(f, at) == m.sizes[i] && Digest(f, at + 8) == m.keys[i]
  {
    hide Word, Digest, EncodeHeader, Content, Encode, EncodeFingerprints, MsgOK;
    FewChunks(c, m);
    var f := Forward(m, a);
    var count, records := Encode(|m.sizes|, 8), EncodeFingerprints(Fps(m));
    RecordsInside(m, a);
    EncodeWord(|m.sizes|);
    WordInside(f, HEADER_BYTES, count, 0);
    FingerprintsLayout(Fps(m), i);
    WordInside(f, RECORDS, records, FINGERPRINT_BYTES * i);
    DigestInside(f, RECORDS, records, FINGERPRINT_BYTES * i + 8);
  }

  lemma FewChunks(c: Config, m: Msg)
    requires MsgOK(c, m) && IsFp(m)
    ensures HasKeys(m) && |m.sizes| < U64_LIMIT
  {
  }

  lemma RecordsInside(m: Msg, a: seq<nat>)
    requires HasKeys(m) && IsFp(m)
    ensures var f, count, records := Forward(m, a), Encode(|m.sizes|, 8), EncodeFingerprints(Fps(m));
            && |f| >= RECORDS + |records|
            && f[HEADER_BYTES..HEADER_BYTES + |count|] == count && f[RECORDS..RECORDS + |records|] == records
  {
    hide EncodeHeader, Content, Encode, EncodeFingerprints;
    var head, count, records, rest := Header(m), Encode(|m.sizes|, 8), EncodeFingerprints(Fps(m)), Content(m, a, |a|);
    assert Forward(m, a) == head + count + records + rest;
  }

  /** And behind them each chunk asked for, in the order of the request. */
  lemma ContentPlaces(c: Config, m: Msg, a: seq<nat>, j: nat)
    requires MsgOK(c, m) && IsFp(m) && Increasing(a, |m.sizes|) && j < |a|
    ensures var f, from := Forward(m, a), Offset(m.sizes, a[j]);
            var at := RECORDS + FINGERPRINT_BYTES * |m.sizes| + Before(m, a, j);
            && at + m.sizes[a[j]] <= |f| && from + m.sizes[a[j]] <= |m.data|
            && f[at..at + m.sizes[a[j]]] == m.data[from..from + m.sizes[a[j]]]
  {
    hide Preamble, MsgOK, Offset, Piece, Before, Content;
    FewChunks(c, m);
    ContentAt(c, m, a, j);
    PieceSize(c, m, a[j]);
    var lo := Before(m, a, j);
    Behind(Preamble(m), Content(m, a, |a|), lo, lo + m.sizes[a[j]]);
  }

  lemma {:induction false} ContentLength(c: Config, m: Msg, a: seq<nat>, n: nat)
    requires MsgOK(c, m) && IsFp(m) && Increasing(a, |m.sizes|) && n <= |a|
    ensures |Content(m, a, n)| == Before(m, a, n)
  {
    hide MsgOK, Piece;
    if n > 0 {
      ContentLength(c, m, a, n - 1);
      PieceSize(c, m, a[n - 1]);
    }
  }

  lemma Behind(x: Bytes, y: Bytes, lo: nat, hi: nat)
    requires lo <= hi <= |y|
    ensures (x + y)[|x| + lo..|x| + hi] == y[lo..hi]
  {
  }

  lemma LastPart(all: Bytes, part: Bytes, x: Bytes, y: Bytes)
    requires part <= all && part == x + y
    ensures |x| + |y| <= |all| && all[|x|..|x| + |y|] == y
  {
    assert part[|x|..] == y;
  }

  lemma ContentAt(c: Config, m: Msg, a: seq<nat>, j: nat)
    requires MsgOK(c, m) && IsFp(m) && Increasing(a, |m.sizes|) && j < |a|
    ensures var lo, all := Before(m, a, j), Content(m, a, |a|);
            lo + m.sizes[a[j]] <= |all| && all[lo..lo + m.sizes[a[j]]] == Piece(m, a[j])
  {
    hide MsgOK, Piece;
    PieceSize(c, m, a[j]);
    ContentLength(c, m, a, j);
    ContentPrefix(m, a, j + 1, |a|);
    var all, part := Content(m, a, |a|), Content(m, a, j + 1);
    LastPart(all, part, Content(m, a, j), Piece(m, a[j]));
  }

  /** The reply: the number of chunks asked for, and their indices. */
  lemma ReplyPlaces(c: Config, m: Msg, a: seq<nat>, i: nat)
    requires MsgOK(c, m) && IsFp(m) && Increasing(a, |m.sizes|) && |a| < U64_LIMIT
    ensures var b := Backward(m, a);
            && |b| == COUNT_BYTES + INDEX_BYTES * |a| && Word(b, 0) == |a|
            && (i < |a| ==> Word(b, COUNT_BYTES + INDEX_BYTES * i) == a[i])
  {
    hide Word, Encode, EncodeIndices;
    var b, count, rest := Backward(m, a), Encode(|a|, 8), EncodeIndices(a);
    EncodeWord(|a|);
    assert b[0..0 + |count|] == count && b[COUNT_BYTES..COUNT_BYTES + |rest|] == rest;
    WordInside(b, 0, count, 0);
    if i < |a| {
      FewChunks(c, m);
      IndicesLayout(a, i);
      WordInside(b, COUNT_BYTES, rest, INDEX_BYTES * i);
    }
  }

  /** In every run: where the receiver is about to take in a header, the bytes in flight begin with the flag
      and the size of the message, as they are. */
  lemma HeaderInFlight(c: Config, states: seq<State>, acts: seq<Action>, last: State)
    requires ConfigOK(c) && Reaches(c, states, acts, last)
    requires last.rj < |c.msgs| && last.r.RHeader? && last.fwd != []
    ensures var m, b := c.msgs[last.rj], last.fwd;
            && |b| >= HEADER_BYTES && b[0] == (if |m.data| > THRESHOLD then 1 else 0) && Word(b, 8) == |m.data|
  {
    hide Word, Forward, Reaches, SidesOK, StreamsOK, CacheOK, EncodeHeader;
    Reachable(c, states, acts, last);
    var m, a := c.msgs[last.rj], last.asked[last.rj];
    Progress.HeadersWhole(c, last);
    HeaderPlaces(c, m, a);
    NextForward(c, last, HEADER_BYTES);
    assert last.fwd[..HEADER_BYTES] == Forward(m, a)[..HEADER_BYTES];
    var head := Forward(m, a)[..HEADER_BYTES];
    WordInside(Forward(m, a), 0, head, 8);
    WordInside(last.fwd, 0, head, 8);
    assert last.fwd[0] == head[0] == Forward(m, a)[0];
  }
}
