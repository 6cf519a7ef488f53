/** The two byte streams of a connection, and how much of them each side has dealt with. */
module Streams {
  import opened ByteStrings
  import opened Probing
  import opened Tiling
  import opened Wire
  import opened Protocol

  // ---- one message ----

  function Header(m: Msg): (b: Bytes)
    ensures |b| == HEADER_BYTES
  {
    EncodeHeader(IsFp(m), |m.data|)
  }

  predicate HasKeys(m: Msg)
  {
    |m.keys| == |m.sizes|
  }

  /** Everything up to the fingerprints. */
  function Preamble(m: Msg): (b: Bytes)
    requires HasKeys(m)
    ensures |b| == HEADER_BYTES + COUNT_BYTES + FINGERPRINT_BYTES * |m.sizes|
  {
    Header(m) + Encode(|m.sizes|, 8) + EncodeFingerprints(Fps(m))
  }

  /** The first `j` chunks asked for, concatenated in the order they were asked for. */
  function Content(m: Msg, a: seq<nat>, j: nat): Bytes
    requires j <= |a|
  {
    if j == 0 then [] else Content(m, a, j - 1) + (if a[j - 1] < |m.sizes| then Piece(m, a[j - 1]) else [])
  }

  /** All that the sender sends for a message whose receiver asks for the chunks `a`. */
  function Forward(m: Msg, a: seq<nat>): Bytes
    requires HasKeys(m)
  {
    if IsFp(m) then Preamble(m) + Content(m, a, |a|) else Header(m) + m.data
  }

  /** All that the receiver sends back. */
  function Backward(m: Msg, a: seq<nat>): Bytes
  {
    if IsFp(m) then Encode(|a|, 8) + EncodeIndices(a) else []
  }

  function Take(b: Bytes, n: nat): Bytes
  {
    if n <= |b| then b[..n] else b
  }

  lemma TakeSlice(b: Bytes, n: nat, lo: nat, hi: nat)
    requires lo <= hi <= n <= |b|
    ensures Take(b, n)[lo..hi] == b[lo..hi]
  {
  }

  function PartOf(m: Msg, a: seq<nat>, ind: nat, off: nat): Bytes
  {
    if ind < |a| && a[ind] < |m.sizes| then Take(Piece(m, a[ind]), off) else []
  }

  /** What the sender has sent of the message. */
  function SentF(m: Msg, a: seq<nat>, s: Sender): Bytes
    requires HasKeys(m)
  {
    match s
    case SHeader => []
    case SPlain(off) => Header(m) + Take(m.data, off)
    case SCompute => Header(m)
    case SInsert(_) => Header(m)
    case SCount => Header(m)
    case SFps(off) => Header(m) + Encode(|m.sizes|, 8) + Take(EncodeFingerprints(Fps(m)), off)
    case SMissCount(_) => Preamble(m)
    case SMissInds(_, _) => Preamble(m)
    case SContent(miss, ind, off) =>
      Preamble(m) + (if ind <= |miss| then Content(m, miss, ind) else []) + PartOf(m, miss, ind, off)
    case SDone => Forward(m, a)
  }

  /** What the receiver has taken in of the message. */
  function SeenF(m: Msg, a: seq<nat>, r: Receiver): Bytes
    requires HasKeys(m)
  {
    match r
    case RHeader => []
    case RPlain(_, off) => Header(m) + Take(m.data, off)
    case RCount(_) => Header(m)
    case RFps(_, _, got) => Header(m) + Encode(|m.sizes|, 8) + got
    case RPopulate(_, _, _) => Preamble(m)
    case RMissCount(_, _) => Preamble(m)
    case RMissInds(_, _) => Preamble(m)
    case RContent(p, ind, off) =>
      Preamble(m) + (if ind <= |p.miss| then Content(m, p.miss, ind) else []) + PartOf(m, p.miss, ind, off)
    case RInsert(_, _) => Forward(m, a)
    case RDone(_) => Forward(m, a)
  }

  /** What the receiver has sent back. */
  function SentB(m: Msg, a: seq<nat>, r: Receiver): Bytes
  {
    match r
    case RMissCount(p, off) => Take(Encode(|p.miss|, 8), off)
    case RMissInds(p, off) => Encode(|p.miss|, 8) + Take(EncodeIndices(p.miss), off)
    case RContent(_, _, _) => Backward(m, a)
    case RInsert(_, _) => Backward(m, a)
    case RDone(_) => Backward(m, a)
    case _ => []
  }

  /** What the sender has taken in of the reply. */
  function SeenB(m: Msg, a: seq<nat>, s: Sender): Bytes
  {
    match s
    case SMissCount(got) => got
    case SMissInds(n, got) => Encode(n, 8) + got
    case SContent(_, _, _) => Backward(m, a)
    case SDone => Backward(m, a)
    case _ => []
  }

  // ---- all messages ----

  predicate AllKeys(c: Config)
  {
    forall i :: 0 <= i < |c.msgs| ==> HasKeys(c.msgs[i])
  }

  function CatF(c: Config, asked: seq<seq<nat>>, k: nat): Bytes
    requires AllKeys(c) && k <= |c.msgs| == |asked|
  {
    if k == 0 then [] else CatF(c, asked, k - 1) + Forward(c.msgs[k - 1], asked[k - 1])
  }

  function CatB(c: Config, asked: seq<seq<nat>>, k: nat): Bytes
    requires k <= |c.msgs| == |asked|
  {
    if k == 0 then [] else CatB(c, asked, k - 1) + Backward(c.msgs[k - 1], asked[k - 1])
  }

  lemma {:induction false} CatFGrows(c: Config, asked: seq<seq<nat>>, j: nat, k: nat)
    requires AllKeys(c) && j <= k <= |c.msgs| == |asked|
    ensures CatF(c, asked, j) <= CatF(c, asked, k)
    decreases k
  {
    hide Forward;
    if j < k { CatFGrows(c, asked, j, k - 1); }
  }

  lemma {:induction false} CatBGrows(c: Config, asked: seq<seq<nat>>, j: nat, k: nat)
    requires j <= k <= |c.msgs| == |asked|
    ensures CatB(c, asked, j) <= CatB(c, asked, k)
    decreases k
  {
    hide Backward;
    if j < k { CatBGrows(c, asked, j, k - 1); }
  }

  /** What was asked for message `j` does not matter to the messages before it. */
  lemma {:induction false} CatUpdate(c: Config, asked: seq<seq<nat>>, j: nat, a: seq<nat>, k: nat)
    requires AllKeys(c) && k <= j < |c.msgs| == |asked|
    ensures CatF(c, asked[j := a], k) == CatF(c, asked, k)
    ensures CatB(c, asked[j := a], k) == CatB(c, asked, k)
  {
    hide Forward, Backward;
    if k > 0 { CatUpdate(c, asked, j, a, k - 1); }
  }

  /** A side that has dealt with `x`, the beginning of message `j`'s part of a stream, and gets `more`
      from the stream, gets the bytes that follow `x` in that part. */
  lemma NextBytes(before: Bytes, x: Bytes, more: Bytes, k: nat, part: Bytes, total: Bytes)
    requires before + x + more <= total && before + part <= total
    requires k <= |more| && |x| + k <= |part|
    ensures x + more[..k] == part[..|x| + k]
  {
    var n := |before|;
    assert part == total[n..n + |part|];
    assert (before + x + more)[n..n + |x| + k] == x + more[..k];
    assert total[n..n + |x| + k] == part[..|x| + k];
  }

  lemma {:induction false} ContentPrefix(m: Msg, a: seq<nat>, i: nat, j: nat)
    requires i <= j <= |a|
    ensures Content(m, a, i) <= Content(m, a, j)
    decreases j
  {
    if i < j { ContentPrefix(m, a, i, j - 1); }
  }

  lemma ContentPart(m: Msg, a: seq<nat>, ind: nat, off: nat)
    requires ind < |a|
    ensures Content(m, a, ind) + PartOf(m, a, ind, off) <= Content(m, a, ind + 1) <= Content(m, a, |a|)
  {
    ContentPrefix(m, a, ind + 1, |a|);
  }

  /** What follows `x` in a part of a stream. */
  lemma BytesAfter(whole: Bytes, x: Bytes, y: Bytes, rest: Bytes)
    requires whole == x + rest && |y| <= |rest| && x + y == whole[..|x| + |y|]
    ensures y == rest[..|y|]
  {
    assert (x + y)[|x|..] == y;
    assert whole[..|x| + |y|][|x|..] == rest[..|y|];
  }
}
