/** The invariant holds in every reachable state, and with it the deduplicated transfer delivers what a
    plain copy would. */
module Transparency {
  import opened ByteStrings
  import opened Probing
  import opened CacheSpec
  import opened Tiling
  import opened Wire
  import opened Protocol
  import opened Streams
  import opened Invariants
  import SenderSteps
  import opened ReceiverSteps

  // ---- the receiver's actions ----

  lemma ReceiverGlue(c: Config, st: State, x': RecvSide, seen: Bytes, replied: Bytes)
    requires Inv(c, st) && st.rj < |c.msgs|
    requires Takes(c, c.msgs[st.rj], st.asked[st.rj], SideR(st), x', seen, replied)
    ensures Inv(c, WithR(st, x'))
  {
    hide ConfigOK, CacheOK, SenderOK, ReceiverOK, SentF, SeenF, SentB, SeenB, CatF, CatB, Increasing, Delivered;
    var st' := WithR(st, x');
    assert SeenTotal(c, st') == SeenTotal(c, st) + seen;
    assert RepliedTotal(c, st') == RepliedTotal(c, st) + replied;
    assert SeenTotal(c, st) + st.fwd == SeenTotal(c, st') + st'.fwd;
  }

  lemma RecvReady(c: Config, st: State, k: nat)
    requires Inv(c, st) && Enabled(c, st, RecvAct(k))
    ensures Ready(c, c.msgs[st.rj], st.asked[st.rj], SideR(st), k)
  {
    hide ReceiverOK, SenderOK, SeenF, SentF, SentB, SeenB, Forward, RecvCan, CacheOK, StreamsOK, CatF, CatB;
    var m, a := c.msgs[st.rj], st.asked[st.rj];
    if k <= |st.fwd| && |SeenF(m, a, st.r)| + k <= |Forward(m, a)| {
      NextForward(c, st, k);
    }
  }

  lemma TakesStep(c: Config, m: Msg, a: seq<nat>, x: RecvSide, k: nat) returns (seen: Bytes, replied: Bytes)
    requires HasKeys(m) && Ready(c, m, a, x, k)
    requires x.r.RPopulate? ==> x.r.i < |m.sizes|
    ensures RecvCan(x, k) && Takes(c, m, a, x, RecvStep(x, k), seen, replied)
  {
    ReadyCan(c, m, a, x, k);
    RecvNotDone(x, k);
    hide Takes, Ready, RecvCan, RecvStep;
    seen, replied := [], [];
    match x.r
    case RHeader => seen := x.fwd[..TakeCount(x, k)]; HeaderStage(c, m, a, x, k);
    case RPlain(_, _) => seen := x.fwd[..TakeCount(x, k)]; PlainStage(c, m, a, x, k);
    case RCount(_) => seen := x.fwd[..TakeCount(x, k)]; CountStage(c, m, a, x, k);
    case RFps(_, _, _) => seen := x.fwd[..TakeCount(x, k)]; FpsStage(c, m, a, x, k);
    case RPopulate(_, i, _) => if m.keys[i] in x.cache.index { HitStage(c, m, a, x, k); } else { MissStage(c, m, a, x, k); }
    case RMissCount(_, _) => replied := ReplyCountStage(c, m, a, x, k);
    case RMissInds(_, _) => replied := ReplyIndicesStage(c, m, a, x, k);
    case RContent(_, _, _) => seen := x.fwd[..TakeCount(x, k)]; ContentStage(c, m, a, x, k);
    case RInsert(_, _) => InsertStage(c, m, a, x, k);
  }

  // the bytes a receiving call takes
  function TakeCount(x: RecvSide, k: nat): (n: nat)
    requires RecvCan(x, k)
    requires x.r.RHeader? || x.r.RPlain? || x.r.RCount? || x.r.RFps? || x.r.RContent?
    ensures n == k <= |x.fwd|
  {
    k
  }

  lemma RecvNotDone(x: RecvSide, k: nat)
    requires RecvCan(x, k)
    ensures !x.r.RDone?
  {
  }

  // the request for missing chunks is fixed
  predicate HasAsked(r: Receiver)
  {
    r.RMissCount? || r.RMissInds? || r.RContent? || r.RInsert? || r.RDone?
  }

  /** While a receiver has not asked yet, the sender is not past that message, nor past the request. */
  lemma SenderBehind(c: Config, st: State)
    requires Inv(c, st) && st.rj < |c.msgs| && IsFp(c.msgs[st.rj]) && !HasAsked(st.r)
    ensures st.si <= st.rj
    ensures st.si == st.rj ==> !st.s.SMissInds? && !st.s.SContent? && !st.s.SDone?
  {
    hide Inv, HeardTotal, CatB, Backward, SeenB;
    InvShape(c, st);
    NothingReplied(c, st);
    hide Shape;
    var m, a := c.msgs[st.rj], st.asked[st.rj];
    if st.rj < st.si {
      LongReply(c, m, a);
      HeardParts(c, st);
      CatBNext(c, st.asked, st.rj);
      CatBGrows(c, st.asked, st.rj + 1, st.si);
    } else if st.rj == st.si {
      HeardParts(c, st);
      HeardSomething(m, a, st.s);
    }
  }

  lemma LongReply(c: Config, m: Msg, a: seq<nat>)
    requires IsFp(m)
    ensures |Backward(m, a)| >= COUNT_BYTES
  {
  }

  lemma CatBNext(c: Config, asked: seq<seq<nat>>, k: nat)
    requires k < |c.msgs| == |asked|
    ensures |CatB(c, asked, k + 1)| == |CatB(c, asked, k)| + |Backward(c.msgs[k], asked[k])|
  {
    hide Backward;
  }

  // what the sender has heard, and the part of it that belongs to its message
  lemma HeardParts(c: Config, st: State)
    requires st.si <= |c.msgs| == |st.asked|
    ensures |HeardTotal(c, st)| >= |CatB(c, st.asked, st.si)|
    ensures st.si < |c.msgs| ==>
              |HeardTotal(c, st)| == |CatB(c, st.asked, st.si)| + |SeenB(c.msgs[st.si], st.asked[st.si], st.s)|
  {
    hide CatB, SeenB;
  }

  // a receiver that has not asked has not replied to its message
  lemma NothingReplied(c: Config, st: State)
    requires Inv(c, st) && st.rj < |c.msgs| && !HasAsked(st.r)
    ensures Shape(c, st) && |HeardTotal(c, st)| <= |CatB(c, st.asked, st.rj)|
  {
    hide HeardTotal, CatB, SentTotal, SeenTotal, SidesOK, ConfigOK, AllKeys, CacheOK;
  }

  // past the count, a sender has heard at least that
  lemma HeardSomething(m: Msg, a: seq<nat>, s: Sender)
    requires IsFp(m) && |SeenB(m, a, s)| == 0
    ensures !s.SMissInds? && !s.SContent? && !s.SDone?
  {
  }

  /** So fixing the request then changes nothing that was sent or received before. */
  lemma AskNow(c: Config, st: State, a': seq<nat>)
    requires Inv(c, st) && st.rj < |c.msgs| && st.r.RPopulate? && Increasing(a', |c.msgs[st.rj].sizes|)
    ensures Inv(c, st.(asked := st.asked[st.rj := a']))
  {
    hide ConfigOK, CacheOK, CatF, CatB, Increasing, Delivered, Forward, Backward, Sorted, Preamble;
    SenderBehind(c, st);
    CatUpdate(c, st.asked, st.rj, a', st.si);
    CatUpdate(c, st.asked, st.rj, a', st.rj);
  }

  lemma RecvKeeps(c: Config, st: State, k: nat)
    requires Inv(c, st) && Enabled(c, st, RecvAct(k))
    ensures Inv(c, Next(c, st, RecvAct(k)))
  {
    hide Inv, Ready, Takes, RecvCan, RecvStep, StreamsOK, SidesOK, ConfigOK, ReceiverOK, CacheOK;
    InvShape(c, st);
    RecvReady(c, st, k);
    var m, a, x := c.msgs[st.rj], st.asked[st.rj], SideR(st);
    PopulateRange(c, m, a, x, k);
    if x.r.RPopulate? && x.r.i == |m.sizes| {
      LookedUpStage(c, m, a, x, k);
      AskNow(c, st, x.r.plan.miss);
      ReceiverGlue(c, st.(asked := st.asked[st.rj := x.r.plan.miss]), RecvStep(x, k), [], []);
    } else {
      var seen, replied := TakesStep(c, m, a, x, k);
      ReceiverGlue(c, st, RecvStep(x, k), seen, replied);
    }
  }

  lemma InvShape(c: Config, st: State)
    requires Inv(c, st)
    ensures Shape(c, st)
  {
  }

  // a lookup moves on to the request just when all fingerprints are looked up
  lemma PopulateRange(c: Config, m: Msg, a: seq<nat>, x: RecvSide, k: nat)
    requires HasKeys(m) && Ready(c, m, a, x, k)
    ensures RecvCan(x, k)
    ensures x.r.RPopulate? ==> x.r.i <= |m.sizes| && (x.r.i == |m.sizes| <==> RecvStep(x, k).r.RMissCount?)
  {
    hide CollisionFree, CacheOK, Increasing, Placed;
  }

  // ---- the other actions ----

  lemma NextSendKeeps(c: Config, st: State)
    requires Inv(c, st) && Enabled(c, st, NextSend)
    ensures Inv(c, Next(c, st, NextSend))
  {
    hide ConfigOK, CacheOK, ReceiverOK, SeenF, SentB, Increasing, Delivered, Forward, Backward;
    var st' := Next(c, st, NextSend);
    assert SentTotal(c, st') == SentTotal(c, st) + [];
    assert HeardTotal(c, st') == HeardTotal(c, st) + [];
    assert SeenTotal(c, st') == SeenTotal(c, st) && RepliedTotal(c, st') == RepliedTotal(c, st);
  }

  /** A completed receive holds the message and, after it, what was there before. */
  lemma DoneDelivered(m: Msg, a: seq<nat>, r: Receiver, buf: Bytes)
    requires HasKeys(m) && ReceiverOK(m, a, r, buf) && r.RDone?
    ensures buf == Delivered(m) && r.size == |m.data|
  {
    assert buf == buf[..|m.data|] + buf[|m.data|..];
  }

  lemma NextRecvKeeps(c: Config, st: State)
    requires Inv(c, st) && Enabled(c, st, NextRecv)
    ensures Inv(c, Next(c, st, NextRecv))
  {
    hide ConfigOK, CacheOK, SenderOK, ReceiverOK, SentF, SeenB, Increasing, Delivered, Forward, Backward, MsgOK, BufferAt;
    var st' := Next(c, st, NextRecv);
    DoneDelivered(c.msgs[st.rj], st.asked[st.rj], st.r, st.buf);
    InitOK(c, st.rj + 1, st.asked);
    assert SeenTotal(c, st') == SeenTotal(c, st) + [];
    assert RepliedTotal(c, st') == RepliedTotal(c, st) + [];
    assert SentTotal(c, st') == SentTotal(c, st) && HeardTotal(c, st') == HeardTotal(c, st);
  }

  lemma InitOK(c: Config, j: nat, asked: seq<seq<nat>>)
    requires ConfigOK(c) && AllKeys(c) && |asked| == |c.msgs|
    ensures j < |c.msgs| ==> ReceiverOK(c.msgs[j], asked[j], RHeader, BufferAt(c, j))
  {
  }

  lemma StartOK(c: Config, sc: Cache, sskip: bool, rc: Cache, rskip: bool)
    requires ConfigOK(c) && CacheOK(c, sc) && CacheOK(c, rc)
    ensures Inv(c, Start(c, sc, sskip, rc, rskip))
  {
    InitOK(c, 0, Start(c, sc, sskip, rc, rskip).asked);
    hide CacheOK, CollisionFree, ReceiverOK;
  }

  lemma EnvKeeps(c: Config, st: State, a: Action)
    requires Inv(c, st) && Enabled(c, st, a) && (a.SendEnv? || a.RecvEnv?)
    ensures Inv(c, Next(c, st, a))
  {
    hide CacheOK, SenderOK, ReceiverOK, SentF, SeenF, SentB, SeenB, CatF, CatB, ConfigOK, Increasing, Delivered;
  }

  lemma StepKeeps(c: Config, st: State, a: Action)
    requires Inv(c, st) && Enabled(c, st, a)
    ensures Inv(c, Next(c, st, a))
  {
    hide Inv, Enabled, Next;
    match a
    case SendAct(k) => SenderSteps.SendKeeps(c, st, k);
    case RecvAct(k) => RecvKeeps(c, st, k);
    case NextSend => NextSendKeeps(c, st);
    case NextRecv => NextRecvKeeps(c, st);
    case _ => EnvKeeps(c, st, a);
  }

  lemma {:induction false} RunKeeps(c: Config, states: seq<State>, acts: seq<Action>, i: nat)
    requires IsRun(c, states, acts) && Inv(c, states[0]) && i < |states|
    ensures Inv(c, states[i])
  {
    hide Inv, Enabled, Next;
    if i > 0 {
      RunKeeps(c, states, acts, i - 1);
      StepKeeps(c, states[i - 1], acts[i - 1]);
    }
  }

  /** A run of the connection from its start, over caches that are well filed. */
  ghost predicate Reaches(c: Config, states: seq<State>, acts: seq<Action>, last: State)
  {
    && IsRun(c, states, acts) && last == states[|acts|]
    && CacheOK(c, states[0].sc) && CacheOK(c, states[0].rc)
    && states[0] == Start(c, states[0].sc, states[0].sskip, states[0].rc, states[0].rskip)
  }

  lemma Reachable(c: Config, states: seq<State>, acts: seq<Action>, last: State)
    requires ConfigOK(c) && Reaches(c, states, acts, last)
    ensures Inv(c, last)
  {
    StartOK(c, states[0].sc, states[0].sskip, states[0].rc, states[0].rskip);
    RunKeeps(c, states, acts, |acts|);
  }

  // ---- the theorems ----

  lemma DeliveredBytes(c: Config, k: nat)
    requires ConfigOK(c) && k < |c.msgs|
    ensures var m := c.msgs[k]; var b := Delivered(m);
            |b| == |m.init| >= |m.data| && b[..|m.data|] == m.data && b[|m.data|..] == m.init[|m.data|..]
  {
  }

  /** Deduplication is transparent.  In every run, however the streams are split, whatever the caches held
      and whether or not they fill up: every completed receive holds the bytes of the send with the same
      number, followed by what its buffer held before, and so does a receive that has reached
      RECV_COMPLETE.

      An insert is one step here, and so is a lookup with the copy behind it; other users of a cache act
      between such steps.  The source takes a lock for inserts only.  That an unlocked lookup may be taken for one
      step is ConcurrentLookup.Linearizes, for lookups that do not end in the extra slot of a wrapped probe;
      for those, ConcurrentLookup.LookupExact says exactly when the entry found may be copied. */
  lemma DedupIsTransparent(c: Config, states: seq<State>, acts: seq<Action>, last: State)
    requires ConfigOK(c) && Reaches(c, states, acts, last)
    ensures |last.done| == last.rj <= |c.msgs|
    ensures forall k :: 0 <= k < last.rj ==> var m, b := c.msgs[k], last.done[k];
              |b| == |m.init| >= |m.data| && b[..|m.data|] == m.data && b[|m.data|..] == m.init[|m.data|..]
    ensures forall k :: 0 <= k < last.rj ==> last.done[k] == Delivered(c.msgs[k])
    ensures last.rj < |c.msgs| && last.r.RDone? ==> last.buf == Delivered(c.msgs[last.rj])
    ensures last.rj < |c.msgs| && last.r.RDone? ==> last.r.size == |c.msgs[last.rj].data|
  {
    hide StreamsOK, ConfigOK, CacheOK, ReceiverOK, SenderOK, Delivered, Increasing, IsRun, Start;
    Reachable(c, states, acts, last);
    forall k | 0 <= k < last.rj
      ensures var m, b := c.msgs[k], last.done[k];
              |b| == |m.init| >= |m.data| && b[..|m.data|] == m.data && b[|m.data|..] == m.init[|m.data|..]
    {
      DeliveredBytes(c, k);
    }
    if last.rj < |c.msgs| && last.r.RDone? {
      DoneDelivered(c.msgs[last.rj], last.asked[last.rj], last.r, last.buf);
    }
  }

  /** Messages stay framed: when as many receives as sends are complete, nothing is left in flight. */
  lemma Framed(c: Config, states: seq<State>, acts: seq<Action>, last: State)
    requires ConfigOK(c) && Reaches(c, states, acts, last)
    ensures last.si == last.rj && last.s.SHeader? && last.r.RHeader? ==> last.fwd == [] && last.back == []
    ensures last.si == last.rj && last.s.SDone? && last.r.RDone? ==> last.fwd == [] && last.back == []
  {
    Reachable(c, states, acts, last);
    hide CacheOK, ConfigOK, SidesOK, SentTotal, SeenTotal, RepliedTotal, HeardTotal, Reaches, AllKeys;
    if last.si == last.rj && ((last.s.SHeader? && last.r.RHeader?) || (last.s.SDone? && last.r.RDone?)) {
      EvenTotals(c, last);
    }
  }

  lemma EvenTotals(c: Config, st: State)
    requires Shape(c, st) && st.si == st.rj
    requires (st.s.SHeader? && st.r.RHeader?) || (st.s.SDone? && st.r.RDone?)
    ensures SentTotal(c, st) == SeenTotal(c, st) && RepliedTotal(c, st) == HeardTotal(c, st)
  {
    hide ConfigOK, CatF, CatB, Forward, Backward;
  }

  /** Whatever is kept in a cache is filed under its own fingerprint. */
  lemma CachesStaySound(c: Config, states: seq<State>, acts: seq<Action>, last: State)
    requires ConfigOK(c) && Reaches(c, states, acts, last)
    ensures CacheOK(c, last.sc) && CacheOK(c, last.rc)
  {
    Reachable(c, states, acts, last);
  }

  /** The reply content does not depend on how it was split: once the sender is done with a fingerprinted
      message, what it has put on the wire for it is the preamble and the chunks asked for, whole and in
      index order. */
  lemma ReplyIndependentOfSplits(c: Config, states: seq<State>, acts: seq<Action>, last: State)
    requires ConfigOK(c) && Reaches(c, states, acts, last)
    requires last.si < |c.msgs| && IsFp(c.msgs[last.si]) && last.s.SDone?
    ensures Shape(c, last)
    ensures var m, a := c.msgs[last.si], last.asked[last.si];
            && Increasing(a, |m.sizes|)
            && SentTotal(c, last) == CatF(c, last.asked, last.si) + (Preamble(m) + Content(m, a, |a|))
  {
    Reachable(c, states, acts, last);
  }
}
