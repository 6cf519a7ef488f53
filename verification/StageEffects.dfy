/** What the stages that look up and insert come to, from their beginning to their end
    (net_dedup.c:896-949, 1581-1656, 1816-1859). */
module StageEffects {
  import opened ByteStrings
  import opened Probing
  import opened CacheSpec
  import opened Wire
  import opened Protocol
  import opened Streams
  import S = SendRequests
  import R = RecvRequests

  // ---- INSERT_OUTBOUND_FINGERPRINTS ----

  function Pieces(m: Msg): (ps: seq<Bytes>)
    ensures |ps| == |m.sizes|
  {
    seq(|m.sizes|, i requires 0 <= i < |m.sizes| => Piece(m, i))
  }

  /** The fingerprint header is sent once. */
  lemma {:induction false} CountOnce(m: Msg, x: SendSide, ks: seq<nat>, y: SendSide)
    requires S.SendPath(m, x, ks, y)
    requires x.s.SFps? || x.s.SMissCount? || x.s.SMissInds? || x.s.SContent? || x.s.SDone?
    ensures !y.s.SCount?
    decreases |ks|
  {
    hide EncodeFingerprints, DecodeIndices, Decode, Piece;
    if ks != [] { CountOnce(m, SendStep(m, x, ks[0]), ks[1..], y); }
  }

  lemma {:induction false} InsertsFrom(m: Msg, x: SendSide, ks: seq<nat>, y: SendSide, c: Cache)
    requires HasKeys(m) && x.s.SInsert? && x.s.i <= |m.sizes| && !x.skip
    requires S.SendPath(m, x, ks, y) && y.s.SCount?
    requires Inserted(c, m.keys, Pieces(m), x.s.i, x.cache)
    ensures StageInserts(c, false, m.keys, Pieces(m), y.cache, y.skip)
    decreases |ks|
  {
    hide Piece, Fits, Store, PagesFor, Inserted, SendStep, SendCan;
    var i, ps := x.s.i, Pieces(m);
    S.InsertStepIs(m, x);
    OnlyZero(m, x, ks[0]);
    var next := SendStep(m, x, 0);
    if i < |m.sizes| && Fits(x.cache, |ps[i]|) {
      InsertedMore(c, m.keys, ps, i, x.cache);
      InsertsFrom(m, next, ks[1..], y, c);
    } else {
      CountStays(m, next, ks[1..], y);
      FitsExactly(x.cache, if i < |ps| then |ps[i]| else 0);
      Refused(x.cache, m.keys, ps, i);
      assert Inserted(c, m.keys, ps, i, y.cache);
    }
  }

  lemma OnlyZero(m: Msg, x: SendSide, k: nat)
    requires x.s.SInsert? && SendCan(m, x, k)
    ensures k == 0
  {
  }

  lemma Refused(c: Cache, keys: seq<Key>, ps: seq<Bytes>, i: nat)
    requires i < |ps| == |keys| ==> !Fits(c, |ps[i]|)
    ensures i < |ps| == |keys| ==> Store(c, keys[i], ps[i]) == c
  {
  }

  lemma CountStays(m: Msg, x: SendSide, ks: seq<nat>, y: SendSide)
    requires S.SendPath(m, x, ks, y) && x.s.SCount? && y.s.SCount?
    ensures x == y
  {
    hide Encode;
    if ks != [] { CountOnce(m, SendStep(m, x, ks[0]), ks[1..], y); }
  }

  /** What the stage stores: with the flag set nothing; otherwise the chunks of the message in order, up to the first
      that there is no room for, which sets the flag. */
  lemma OutboundInserts(m: Msg, x: SendSide, ks: seq<nat>, y: SendSide)
    requires HasKeys(m) && x.s == SInsert(0) && S.SendPath(m, x, ks, y) && y.s.SCount?
    ensures StageInserts(x.cache, x.skip, m.keys, Pieces(m), y.cache, y.skip)
  {
    hide Piece, Fits, Store, PagesFor, Inserted, SendStep, SendCan;
    InsertedNone(x.cache, m.keys, Pieces(m));
    if x.skip {
      S.InsertStepIs(m, x);
      OnlyZero(m, x, ks[0]);
      CountStays(m, SendStep(m, x, 0), ks[1..], y);
    } else {
      InsertsFrom(m, x, ks, y, x.cache);
    }
  }

  // ---- INSERT_INBOUND_FINGERPRINTS ----

  /** The chunks asked for exist, and their places are in the buffer. */
  predicate PlanFits(p: Plan, n: nat)
  {
    && |p.slots| == |p.miss|
    && forall i :: 0 <= i < |p.miss| ==> p.miss[i] < |p.fps| && p.slots[i] + MissSize(p, i) <= n
  }

  function MissKeys(p: Plan): (ks: seq<Key>)
    requires forall i :: 0 <= i < |p.miss| ==> p.miss[i] < |p.fps|
    ensures |ks| == |p.miss|
  {
    seq(|p.miss|, i requires 0 <= i < |p.miss| => p.fps[p.miss[i]].key)
  }

  // the chunks asked for, as they stand in the buffer
  function MissPieces(p: Plan, buf: Bytes): (ps: seq<Bytes>)
    requires PlanFits(p, |buf|)
    ensures |ps| == |p.miss|
  {
    seq(|p.miss|, i requires 0 <= i < |p.miss| => buf[p.slots[i]..p.slots[i] + MissSize(p, i)])
  }

  lemma DoneStays(x: RecvSide, ks: seq<nat>, y: RecvSide)
    requires R.RecvPath(x, ks, y) && x.r.RDone?
    ensures x == y
  {
  }

  lemma InsertAct(x: RecvSide, k: nat)
    requires x.r.RInsert? && RecvCan(x, k)
    ensures k == 0
  {
  }

  lemma {:induction false} InsertsInFrom(x: RecvSide, ks: seq<nat>, y: RecvSide, c: Cache)
    requires x.r.RInsert? && x.r.i <= |x.r.plan.miss| && !x.skip && PlanFits(x.r.plan, |x.buf|)
    requires R.RecvPath(x, ks, y) && y.r.RDone?
    requires Inserted(c, MissKeys(x.r.plan), MissPieces(x.r.plan, x.buf), x.r.i, x.cache)
    ensures StageInserts(c, false, MissKeys(x.r.plan), MissPieces(x.r.plan, x.buf), y.cache, y.skip)
    decreases |ks|
  {
    hide MissSize, Fits, Store, PagesFor, Inserted, RecvStep, RecvCan;
    var i, keys, ps := x.r.i, MissKeys(x.r.plan), MissPieces(x.r.plan, x.buf);
    InsertAct(x, ks[0]);
    R.InsertCases(x);
    var next := RecvStep(x, 0);
    if i < |ps| && Fits(x.cache, |ps[i]|) {
      InsertedMore(c, keys, ps, i, x.cache);
      InsertsInFrom(next, ks[1..], y, c);
    } else {
      DoneStays(next, ks[1..], y);
      FitsExactly(x.cache, if i < |ps| then |ps[i]| else 0);
      Refused(x.cache, keys, ps, i);
      assert Inserted(c, keys, ps, i, y.cache);
    }
  }

  /** The same for the chunks that came in. */
  lemma InboundInserts(x: RecvSide, ks: seq<nat>, y: RecvSide)
    requires x.r.RInsert? && x.r.i == 0 && PlanFits(x.r.plan, |x.buf|) && R.RecvPath(x, ks, y) && y.r.RDone?
    ensures StageInserts(x.cache, x.skip, MissKeys(x.r.plan), MissPieces(x.r.plan, x.buf), y.cache, y.skip)
  {
    hide MissSize, Fits, Store, PagesFor, Inserted, RecvStep, RecvCan;
    InsertedNone(x.cache, MissKeys(x.r.plan), MissPieces(x.r.plan, x.buf));
    if x.skip {
      InsertAct(x, ks[0]);
      R.InsertCases(x);
      DoneStays(RecvStep(x, 0), ks[1..], y);
    } else {
      InsertsInFrom(x, ks, y, x.cache);
    }
  }

  // ---- POPULATE_FROM_NET_CACHE ----

  predicate Fixed(r: Receiver)
  {
    !r.RHeader? && !r.RPlain? && !r.RCount? && !r.RFps? && !r.RPopulate?
  }

  lemma StaysFixed(x: RecvSide, k: nat)
    requires RecvCan(x, k) && Fixed(x.r)
    ensures Fixed(RecvStep(x, k).r)
    ensures RecvStep(x, k).r.RMissCount? ==> x.r.RMissCount? && RecvStep(x, k).r.plan == x.r.plan
  {
    hide EncodeIndices, Encode, Splice, Fits, Store, MissSize;
  }

  /** Once the request is fixed, it stays as it is. */
  lemma {:induction false} RequestStays(x: RecvSide, ks: seq<nat>, y: RecvSide)
    requires R.RecvPath(x, ks, y) && Fixed(x.r)
    ensures y.r.RMissCount? ==> x.r.RMissCount? && y.r.plan == x.r.plan
    decreases |ks|
  {
    hide RecvStep, RecvCan;
    if ks != [] {
      StaysFixed(x, ks[0]);
      RequestStays(RecvStep(x, ks[0]), ks[1..], y);
    }
  }

  lemma {:induction false} LookupsFrom(x: RecvSide, ks: seq<nat>, y: RecvSide)
    requires x.r.RPopulate? && R.RecvPath(x, ks, y) && y.r.RMissCount?
    ensures y.r.plan.fps == x.r.plan.fps
    ensures forall j :: j in y.r.plan.miss <==>
              j in x.r.plan.miss || (x.r.i <= j < |x.r.plan.fps| && x.r.plan.fps[j].key !in x.cache.index)
    decreases |ks|
  {
    hide Splice, RecvCan;
    var p, i := x.r.plan, x.r.i;
    var next := LookupAct(x, ks[0]);
    if i < |p.fps| {
      LookupsFrom(next, ks[1..], y);
    } else {
      RequestStays(next, ks[1..], y);
    }
  }

  lemma LookupAct(x: RecvSide, k: nat) returns (next: RecvSide)
    requires x.r.RPopulate? && RecvCan(x, k)
    ensures next == RecvStep(x, k) && x.r.i <= |x.r.plan.fps| && next.cache == x.cache
    ensures x.r.i == |x.r.plan.fps| ==> next.r == RMissCount(x.r.plan, 0)
    ensures x.r.i < |x.r.plan.fps| ==>
              && next.r.RPopulate? && next.r.i == x.r.i + 1 && next.r.plan.fps == x.r.plan.fps
              && next.r.plan.miss == (if x.r.plan.fps[x.r.i].key in x.cache.index then x.r.plan.miss
                                      else x.r.plan.miss + [x.r.i])
  {
    hide Splice;
    next := RecvStep(x, k);
  }

  /** What the stage asks for: just the chunks whose fingerprints the cache does not hold. */
  lemma AsksForTheMissing(x: RecvSide, ks: seq<nat>, y: RecvSide)
    requires x.r.RPopulate? && x.r.i == 0 && x.r.plan.miss == [] && R.RecvPath(x, ks, y) && y.r.RMissCount?
    ensures y.r.plan.fps == x.r.plan.fps
    ensures forall j :: j in y.r.plan.miss <==> 0 <= j < |x.r.plan.fps| && x.r.plan.fps[j].key !in x.cache.index
  {
    LookupsFrom(x, ks, y);
  }
}
