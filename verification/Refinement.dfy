/** What ties the request classes to the joint machine: in every reachable state a call finds what it relies
    on, and what it does is a run of the machine. */
module Refinement {
  import opened ByteStrings
  import opened Wire
  import opened Protocol
  import opened Streams
  import opened Invariants
  import opened Transparency
  import Progress
  import S = SendRequests
  import R = RecvRequests

  // ---- a call finds what it relies on ----

  /** Before the request is fixed, no more than the fingerprints has been sent. */
  lemma AtMostPreamble(c: Config, st: State)
    requires Inv(c, st) && st.rj < |c.msgs| && IsFp(c.msgs[st.rj]) && !HasAsked(st.r)
    ensures SeenF(c.msgs[st.rj], st.asked[st.rj], st.r) + st.fwd <= Preamble(c.msgs[st.rj])
  {
    SenderBehind(c, st);
    if st.si == st.rj {
      SentAtMost(c.msgs[st.rj], st.asked[st.rj], st.s);
      SentOfSame(c, st);
    } else {
      NothingSent(c, st);
    }
    hide *;
  }

  lemma SentOfSame(c: Config, st: State)
    requires Inv(c, st) && st.si == st.rj < |c.msgs|
    ensures SentF(c.msgs[st.rj], st.asked[st.rj], st.s) == SeenF(c.msgs[st.rj], st.asked[st.rj], st.r) + st.fwd
  {
    hide SeenF, SentF, SentB, SeenB, Forward, Backward, SidesOK, CacheOK, MsgOK, CollisionFree;
    var m, a := c.msgs[st.rj], st.asked[st.rj];
    SameAfter(CatF(c, st.asked, st.rj), SentF(m, a, st.s), SeenF(m, a, st.r), st.fwd);
  }

  // the sender is not at the receiver's message yet
  lemma NothingSent(c: Config, st: State)
    requires Inv(c, st) && st.si < st.rj < |c.msgs|
    ensures SeenF(c.msgs[st.rj], st.asked[st.rj], st.r) == [] == st.fwd
  {
    hide SeenF, SentF, SentB, SeenB, Forward, Backward, ReceiverOK, SenderOK, CacheOK, Delivered, Increasing, MsgOK,
         CollisionFree;
    SentWithin(c.msgs[st.si], st.asked[st.si], st.s);
    CatFGrows(c, st.asked, st.si + 1, st.rj);
  }

  lemma SameAfter(before: Bytes, sent: Bytes, seen: Bytes, fwd: Bytes)
    requires before + sent == before + seen + fwd
    ensures sent == seen + fwd
  {
    assert sent == (before + sent)[|before|..];
    assert seen + fwd == (before + seen + fwd)[|before|..];
  }

  lemma SentAtMost(m: Msg, a: seq<nat>, s: Sender)
    requires HasKeys(m) && IsFp(m) && SenderOK(m, a, s) && !s.SMissInds? && !s.SContent? && !s.SDone?
    ensures SentF(m, a, s) <= Preamble(m)
  {
  }

  lemma RecvContextHolds(c: Config, st: State)
    requires Inv(c, st) && st.rj < |c.msgs|
    ensures R.RecvContext(c, c.msgs[st.rj], st.asked[st.rj], SideR(st))
  {
    hide MsgOK, CollisionFree, ReceiverOK, SenderOK, CacheOK, StreamsOK, Delivered, Increasing, R.Continues;
    StreamContinues(c, st);
  }

  lemma StreamContinues(c: Config, st: State)
    requires Inv(c, st) && st.rj < |c.msgs|
    ensures R.Continues(c.msgs[st.rj], st.asked[st.rj], SideR(st))
  {
    hide MsgOK, CollisionFree, SidesOK, CacheOK, StreamsOK, SeenF, Forward, Preamble;
    var m, a := c.msgs[st.rj], st.asked[st.rj];
    if IsFp(m) && !HasAsked(st.r) {
      AtMostPreamble(c, st);
    } else {
      forall k | 0 <= k <= |st.fwd| && |SeenF(m, a, st.r)| + k <= |Forward(m, a)|
        ensures SeenF(m, a, st.r) + st.fwd[..k] == Forward(m, a)[..|SeenF(m, a, st.r)| + k]
      {
        NextForward(c, st, k);
      }
    }
  }

  /** The receiver is not ahead of the sender by more than waiting for its next header. */
  lemma ReceiverNotAhead(c: Config, st: State)
    requires Inv(c, st) && st.si < st.rj
    ensures st.rj == st.si + 1 && st.r == RHeader
  {
    hide SentF, SentB, SeenB, Forward, Backward, SenderOK, ReceiverOK, CacheOK, Delivered, Increasing, MsgOK, CollisionFree,
         Preamble, Content, PartOf, Take, EncodeFingerprints;
    SentWithin(c.msgs[st.si], st.asked[st.si], st.s);
    CatFGrows(c, st.asked, st.si + 1, st.rj);
    if st.si + 1 < st.rj {
      Progress.ForwardLong(c, c.msgs[st.si + 1], st.asked[st.si + 1]);
      CatFGrows(c, st.asked, st.si + 2, st.rj);
    } else if st.rj < |c.msgs| {
      Progress.ForwardLong(c, c.msgs[st.rj], st.asked[st.rj]);
    }
  }

  lemma SendContextHolds(c: Config, st: State)
    requires Inv(c, st) && st.si < |c.msgs|
    ensures S.SendContext(c, c.msgs[st.si], st.asked[st.si], SideS(st))
  {
    hide SentF, SeenF, SeenB, Forward, Backward, SenderOK, ReceiverOK, CacheOK, Delivered, Increasing, MsgOK, CollisionFree;
    var m, a := c.msgs[st.si], st.asked[st.si];
    if st.si < st.rj {
      ReceiverNotAhead(c, st);
    } else {
      hide SentB;
      RepliedWithin(c.msgs[st.rj], st.asked[st.rj], st.r, st.buf);
      if st.rj < st.si { CatBGrows(c, st.asked, st.rj + 1, st.si); }
    }
    var heard := SeenB(m, a, st.s) + st.back;
    assert CatB(c, st.asked, st.si) + SeenB(m, a, st.s) + st.back == CatB(c, st.asked, st.si) + heard;
    assert CatB(c, st.asked, st.si) + heard <= CatB(c, st.asked, st.si + 1);
    PrefixCancel(CatB(c, st.asked, st.si), heard, Backward(m, a));
  }

  lemma PrefixCancel(x: Bytes, y: Bytes, z: Bytes)
    requires x + y <= x + z
    ensures y <= z
  {
    assert y == (x + y)[|x|..] && z == (x + z)[|x|..];
  }

  // ---- what a call does is a run ----

  lemma RunFrom(c: Config, st: State, a: Action, states: seq<State>, acts: seq<Action>)
    requires IsRun(c, states, acts) && Enabled(c, st, a) && states[0] == Next(c, st, a)
    ensures IsRun(c, [st] + states, [a] + acts)
  {
    hide Enabled, Next;
  }

  /** A call of `process_send` in a reachable state is a run of the joint machine that moves only the
      sender. */
  lemma {:induction false} SendPathRuns(c: Config, st: State, ks: seq<nat>, y: SendSide)
    returns (states: seq<State>, acts: seq<Action>)
    requires Inv(c, st) && st.si < |c.msgs| && S.SendPath(c.msgs[st.si], SideS(st), ks, y)
    ensures IsRun(c, states, acts) && states[0] == st && states[|acts|] == WithS(st, y)
    ensures Inv(c, WithS(st, y)) && SideS(WithS(st, y)) == y
    ensures st.rj <= |c.msgs| && Progress.MovesLeft(c, WithS(st, y)) + |ks| <= Progress.MovesLeft(c, st)
    decreases |ks|
  {
    hide Inv, SendCan, SendStep, Next, Progress.SendLeft, Progress.RecvLeft;
    InvShape(c, st);
    if ks == [] {
      return [st], [];
    }
    var a := SendAct(ks[0]);
    SendNext(c, st, ks[0]);
    Progress.MoveCounts(c, st, a);
    states, acts := SendPathRuns(c, Next(c, st, a), ks[1..], y);
    RunFrom(c, st, a, states, acts);
    states, acts := [st] + states, [a] + acts;
  }

  lemma SendNext(c: Config, st: State, k: nat)
    requires st.si < |c.msgs| && SendCan(c.msgs[st.si], SideS(st), k)
    ensures Next(c, st, SendAct(k)) == WithS(st, SendStep(c.msgs[st.si], SideS(st), k))
  {
    hide SendStep, SendCan;
  }

  /** And so is a call of `process_recv`, moving only the receiver. */
  lemma {:induction false} RecvPathRuns(c: Config, st: State, ks: seq<nat>, y: RecvSide)
    returns (states: seq<State>, acts: seq<Action>)
    requires Inv(c, st) && st.rj < |c.msgs| && R.RecvPath(SideR(st), ks, y)
    ensures IsRun(c, states, acts) && states[0] == st
    ensures var last := states[|acts|];
            && Inv(c, last) && SideR(last) == y && last == WithR(st, y).(asked := last.asked)
            && st.si <= |c.msgs| && Progress.MovesLeft(c, last) + |ks| <= Progress.MovesLeft(c, st)
    decreases |ks|
  {
    hide Inv, RecvCan, RecvStep, Next, Progress.SendLeft, Progress.RecvLeft;
    InvShape(c, st);
    if ks == [] {
      return [st], [];
    }
    var a := RecvAct(ks[0]);
    RecvNext(c, st, ks[0]);
    Progress.MoveCounts(c, st, a);
    states, acts := RecvPathRuns(c, Next(c, st, a), ks[1..], y);
    RunFrom(c, st, a, states, acts);
    states, acts := [st] + states, [a] + acts;
  }

  lemma RecvNext(c: Config, st: State, k: nat)
    requires st.rj < |c.msgs| && RecvCan(SideR(st), k)
    ensures var st' := Next(c, st, RecvAct(k));
            SideR(st') == RecvStep(SideR(st), k) && st' == WithR(st, SideR(st')).(asked := st'.asked)
  {
    hide RecvStep, RecvCan;
  }
}
