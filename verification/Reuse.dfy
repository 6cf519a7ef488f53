/** What the transfer is for: content that the receiver has had before is not sent again. */
module Reuse {
  import opened ByteStrings
  import opened Probing
  import opened CacheSpec
  import opened Wire
  import opened Protocol
  import opened Streams
  import opened Invariants
  import opened Transparency

  /** Every chunk of the message is in the cache. */
  ghost predicate AllIn(m: Msg, index: map<Key, Bytes>)
  {
    forall i :: 0 <= i < |m.keys| ==> m.keys[i] in index
  }

  /** The first `n` chunks but the missing ones are in the cache. */
  ghost predicate RestIn(m: Msg, miss: seq<nat>, n: nat, index: map<Key, Bytes>)
  {
    forall i :: 0 <= i < n && i < |m.keys| && i !in miss ==> m.keys[i] in index
  }

  /** The first `n` of the missing chunks are in the cache. */
  ghost predicate SomeIn(m: Msg, miss: seq<nat>, n: nat, index: map<Key, Bytes>)
  {
    forall i :: 0 <= i < n && i < |miss| && miss[i] < |m.keys| ==> m.keys[miss[i]] in index
  }

  /** What the receiver has stored of its message, by its stage. */
  ghost predicate Filed(m: Msg, r: Receiver, index: map<Key, Bytes>)
  {
    match r
    case RPopulate(p, i, _) => RestIn(m, p.miss, i, index)
    case RMissCount(p, _) => RestIn(m, p.miss, |m.keys|, index)
    case RMissInds(p, _) => RestIn(m, p.miss, |m.keys|, index)
    case RContent(p, _, _) => RestIn(m, p.miss, |m.keys|, index)
    case RInsert(p, i) => RestIn(m, p.miss, |m.keys|, index) && SomeIn(m, p.miss, i, index)
    case RDone(_) => IsFp(m) ==> AllIn(m, index)
    case _ => true
  }

  /** And the sender. */
  ghost predicate FiledOut(m: Msg, s: Sender, index: map<Key, Bytes>)
  {
    match s
    case SInsert(i) => forall j :: 0 <= j < i && j < |m.keys| ==> m.keys[j] in index
    case SCount => AllIn(m, index)
    case SFps(_) => AllIn(m, index)
    case SMissCount(_) => AllIn(m, index)
    case SMissInds(_, _) => AllIn(m, index)
    case SContent(_, _, _) => AllIn(m, index)
    case SDone => IsFp(m) ==> AllIn(m, index)
    case _ => true
  }

  /** All messages received are in the receiver's cache, and of the current one what its stage says. */
  ghost predicate Learnt(c: Config, st: State)
  {
    && (forall k :: 0 <= k < st.rj && k < |c.msgs| && IsFp(c.msgs[k]) ==> AllIn(c.msgs[k], st.rc.index))
    && (st.rj < |c.msgs| ==> Filed(c.msgs[st.rj], st.r, st.rc.index))
  }

  ghost predicate LearntOut(c: Config, st: State)
  {
    && (forall k :: 0 <= k < st.si && k < |c.msgs| && IsFp(c.msgs[k]) ==> AllIn(c.msgs[k], st.sc.index))
    && (st.si < |c.msgs| ==> FiledOut(c.msgs[st.si], st.s, st.sc.index))
  }

  lemma FiledGrows(m: Msg, r: Receiver, a: map<Key, Bytes>, b: map<Key, Bytes>)
    requires Filed(m, r, a) && forall k :: k in a ==> k in b
    ensures Filed(m, r, b)
  {
  }

  lemma FiledOutGrows(m: Msg, s: Sender, a: map<Key, Bytes>, b: map<Key, Bytes>)
    requires FiledOut(m, s, a) && forall k :: k in a ==> k in b
    ensures FiledOut(m, s, b)
  {
  }

  // what the stages that look up and insert go by
  lemma PlanIs(m: Msg, a: seq<nat>, r: Receiver, buf: Bytes)
    requires HasKeys(m) && ReceiverOK(m, a, r, buf)
    ensures r.RPopulate? ==> r.i <= |m.sizes| && r.plan.fps == Fps(m) && IsFp(m)
    ensures r.RInsert? ==> r.plan.fps == Fps(m) && IsFp(m)
    ensures r.RPlain? ==> !IsFp(m)
  {
    hide Increasing, Placed;
  }

  lemma LookupFiled(m: Msg, x: RecvSide, k: nat)
    requires HasKeys(m) && RecvCan(x, k) && x.r.RPopulate? && x.r.i <= |m.sizes| && x.r.plan.fps == Fps(m)
    requires Filed(m, x.r, x.cache.index)
    ensures Filed(m, RecvStep(x, k).r, x.cache.index) && RecvStep(x, k).cache == x.cache
  {
    var p, i := x.r.plan, x.r.i;
    var r' := RecvStep(x, k).r;
    if i < |p.fps| {
      assert p.fps[i].key == m.keys[i];
      forall j | 0 <= j < i + 1 && j !in r'.plan.miss ensures m.keys[j] in x.cache.index {
        assert p.miss <= r'.plan.miss;
        assert r'.plan.miss == p.miss + [i] ==> r'.plan.miss[|p.miss|] == i;
      }
    }
  }

  lemma InsertFiled(m: Msg, x: RecvSide, k: nat)
    requires HasKeys(m) && RecvCan(x, k) && x.r.RInsert? && x.r.plan.fps == Fps(m)
    requires Filed(m, x.r, x.cache.index) && !x.skip && !RecvStep(x, k).skip
    ensures Filed(m, RecvStep(x, k).r, RecvStep(x, k).cache.index)
    ensures forall f :: f in x.cache.index ==> f in RecvStep(x, k).cache.index
  {
    hide Fits, PagesFor;
    var p, i := x.r.plan, x.r.i;
    if i < |p.miss| {
      assert p.fps[p.miss[i]].key == m.keys[p.miss[i]];
    } else {
      forall j | 0 <= j < |m.keys| ensures m.keys[j] in x.cache.index {
        if j in p.miss { var n :| 0 <= n < |p.miss| && p.miss[n] == j; }
      }
    }
  }

  // stages that leave the cache alone
  lemma OtherFiled(m: Msg, x: RecvSide, k: nat)
    requires RecvCan(x, k) && !x.r.RPopulate? && !x.r.RInsert? && (x.r.RPlain? ==> !IsFp(m))
    requires Filed(m, x.r, x.cache.index)
    ensures Filed(m, RecvStep(x, k).r, x.cache.index) && RecvStep(x, k).cache == x.cache
  {
    hide Splice, EncodeIndices, Encode, DecodeFingerprints, Decode;
  }

  /** An action of the receiver that is not refused an insert. */
  lemma FiledStep(m: Msg, a: seq<nat>, x: RecvSide, k: nat)
    requires HasKeys(m) && RecvCan(x, k) && ReceiverOK(m, a, x.r, x.buf)
    requires Filed(m, x.r, x.cache.index) && !x.skip && !RecvStep(x, k).skip
    ensures Filed(m, RecvStep(x, k).r, RecvStep(x, k).cache.index)
    ensures forall f :: f in x.cache.index ==> f in RecvStep(x, k).cache.index
  {
    hide Filed, RecvStep, RecvCan, ReceiverOK;
    PlanIs(m, a, x.r, x.buf);
    if x.r.RPopulate? { LookupFiled(m, x, k); }
    else if x.r.RInsert? { InsertFiled(m, x, k); }
    else { OtherFiled(m, x, k); }
  }

  lemma FiledOutStep(m: Msg, a: seq<nat>, x: SendSide, k: nat)
    requires HasKeys(m) && SendCan(m, x, k) && SenderOK(m, a, x.s)
    requires FiledOut(m, x.s, x.cache.index) && !x.skip && !SendStep(m, x, k).skip
    ensures FiledOut(m, SendStep(m, x, k).s, SendStep(m, x, k).cache.index)
    ensures forall f :: f in x.cache.index ==> f in SendStep(m, x, k).cache.index
  {
    hide Piece, Fits, PagesFor, EncodeFingerprints, Encode, Decode, DecodeIndices, EncodeHeader;
  }

  // ---- whole runs ----

  lemma {:induction false} LearntStep(c: Config, st: State, a: Action)
    requires Inv(c, st) && Enabled(c, st, a) && Learnt(c, st) && !st.rskip && !Next(c, st, a).rskip
    ensures Learnt(c, Next(c, st, a))
    ensures forall f :: f in st.rc.index ==> f in Next(c, st, a).rc.index
  {
    hide Filed, RecvStep, RecvCan, SendStep, SendCan, ReceiverOK, SenderOK, StreamsOK, CacheOK, ConfigOK, IsFp;
    match a
    case RecvAct(k) => FiledStep(c.msgs[st.rj], st.asked[st.rj], SideR(st), k);
    case NextRecv => DoneFiled(c.msgs[st.rj], st.r, st.rc.index);
    case RecvEnv(cache, _) => if st.rj < |c.msgs| { FiledGrows(c.msgs[st.rj], st.r, st.rc.index, cache.index); }
    case _ =>
  }

  lemma DoneFiled(m: Msg, r: Receiver, index: map<Key, Bytes>)
    requires r.RDone? && Filed(m, r, index)
    ensures IsFp(m) ==> AllIn(m, index)
    ensures forall n: Msg :: Filed(n, RHeader, index)
  {
  }

  lemma LearntOutStep(c: Config, st: State, a: Action)
    requires Inv(c, st) && Enabled(c, st, a) && LearntOut(c, st) && !st.sskip && !Next(c, st, a).sskip
    ensures LearntOut(c, Next(c, st, a))
  {
    hide FiledOut, RecvStep, RecvCan, SendStep, SendCan, ReceiverOK, SenderOK, StreamsOK, CacheOK, ConfigOK, IsFp;
    match a
    case SendAct(k) => FiledOutStep(c.msgs[st.si], st.asked[st.si], SideS(st), k);
    case NextSend => DoneFiledOut(c.msgs[st.si], st.s, st.sc.index);
    case SendEnv(cache, _) => if st.si < |c.msgs| { FiledOutGrows(c.msgs[st.si], st.s, st.sc.index, cache.index); }
    case _ =>
  }

  lemma DoneFiledOut(m: Msg, s: Sender, index: map<Key, Bytes>)
    requires s.SDone? && FiledOut(m, s, index)
    ensures IsFp(m) ==> AllIn(m, index)
    ensures forall n: Msg :: FiledOut(n, SHeader, index)
  {
  }

  /** The flag that stops inserts was never set, so that no insert was refused. */
  ghost predicate ReceiverInserts(states: seq<State>)
  {
    forall i :: 0 <= i < |states| ==> !states[i].rskip
  }

  ghost predicate SenderInserts(states: seq<State>)
  {
    forall i :: 0 <= i < |states| ==> !states[i].sskip
  }

  lemma {:induction false} RunLearns(c: Config, states: seq<State>, acts: seq<Action>, i: nat)
    requires ConfigOK(c) && IsRun(c, states, acts) && i < |states| && states[0] == StartOf(c, states[0])
    requires CacheOK(c, states[0].sc) && CacheOK(c, states[0].rc)
    ensures Inv(c, states[i])
    ensures ReceiverInserts(states) ==> Learnt(c, states[i]) && forall f :: f in states[0].rc.index ==> f in states[i].rc.index
    ensures SenderInserts(states) ==> LearntOut(c, states[i])
    decreases i
  {
    hide Inv, Enabled, Next, Learnt, LearntOut, ConfigOK, CacheOK;
    if i > 0 {
      RunLearns(c, states, acts, i - 1);
      var st, a := states[i - 1], acts[i - 1];
      assert Enabled(c, st, a) && states[i] == Next(c, st, a);
      StepKeeps(c, st, a);
      if ReceiverInserts(states) { LearntStep(c, st, a); }
      if SenderInserts(states) { LearntOutStep(c, st, a); }
    } else {
      StartOK(c, states[0].sc, states[0].sskip, states[0].rc, states[0].rskip);
      StartLearnt(c, states[0]);
    }
  }

  function StartOf(c: Config, st: State): State
  {
    Start(c, st.sc, st.sskip, st.rc, st.rskip)
  }

  lemma StartLearnt(c: Config, st: State)
    requires st == StartOf(c, st)
    ensures Learnt(c, st) && LearntOut(c, st)
  {
  }

  /** Unless it is refused an insert, each side ends up with every chunk of the messages it has dealt with, under its
      fingerprint. */
  lemma BothLearn(c: Config, states: seq<State>, acts: seq<Action>, last: State, k: nat, i: nat)
    requires ConfigOK(c) && Reaches(c, states, acts, last)
    requires k < |c.msgs| && IsFp(c.msgs[k]) && i < |c.msgs[k].sizes|
    ensures HasKeys(c.msgs[k])
    ensures k < last.rj && ReceiverInserts(states) ==>
              var m := c.msgs[k]; m.keys[i] in last.rc.index && last.rc.index[m.keys[i]] == Piece(m, i)
    ensures k < last.si && SenderInserts(states) ==>
              var m := c.msgs[k]; m.keys[i] in last.sc.index && last.sc.index[m.keys[i]] == Piece(m, i)
  {
    hide Filed, FiledOut, SidesOK, StreamsOK;
    RunLearns(c, states, acts, |acts|);
    assert MsgOK(c, c.msgs[k]);
  }

  // ---- nothing is asked for twice ----

  /** The receiver has had this chunk before: in its cache at the start, or in an earlier message. */
  ghost predicate HadBefore(c: Config, had: map<Key, Bytes>, j: nat, i: nat)
    requires j < |c.msgs| && i < |c.msgs[j].keys|
  {
    || c.msgs[j].keys[i] in had
    || exists k :: 0 <= k < j && IsFp(c.msgs[k]) && c.msgs[j].keys[i] in c.msgs[k].keys
  }

  ghost predicate NoneOf(c: Config, had: map<Key, Bytes>, j: nat, a: seq<nat>)
    requires j < |c.msgs|
  {
    forall i :: 0 <= i < |c.msgs[j].keys| && HadBefore(c, had, j, i) ==> i !in a
  }

  ghost predicate NoneAgain(c: Config, had: map<Key, Bytes>, st: State)
  {
    && |st.asked| == |c.msgs|
    && (forall j :: 0 <= j < |c.msgs| ==> NoneOf(c, had, j, st.asked[j]))
    && (st.rj < |c.msgs| && st.r.RPopulate? ==> NoneOf(c, had, st.rj, st.r.plan.miss))
  }

  /** What was had before is in the cache by the time it is looked up. */
  lemma HadIsIn(c: Config, had: map<Key, Bytes>, st: State, i: nat)
    requires Learnt(c, st) && st.rj < |c.msgs| && i < |c.msgs[st.rj].keys| && HadBefore(c, had, st.rj, i)
    requires forall f :: f in had ==> f in st.rc.index
    ensures c.msgs[st.rj].keys[i] in st.rc.index
  {
  }

  lemma LookupAsks(c: Config, had: map<Key, Bytes>, st: State, k: nat)
    requires Learnt(c, st) && st.rj < |c.msgs| && RecvCan(SideR(st), k) && HasKeys(c.msgs[st.rj])
    requires forall f :: f in had ==> f in st.rc.index
    requires st.r.RPopulate? ==> st.r.plan.fps == Fps(c.msgs[st.rj]) && NoneOf(c, had, st.rj, st.r.plan.miss)
    ensures var r' := RecvStep(SideR(st), k).r; r'.RPopulate? ==> NoneOf(c, had, st.rj, r'.plan.miss)
  {
    hide HadBefore, Learnt, DecodeFingerprints, Decode, Encode, EncodeIndices, Splice;
    var m, r' := c.msgs[st.rj], RecvStep(SideR(st), k).r;
    if st.r.RPopulate? && r'.RPopulate? {
      var i := st.r.i;
      assert st.r.plan.fps[i].key == m.keys[i];
      if HadBefore(c, had, st.rj, i) { HadIsIn(c, had, st, i); }
    }
  }

  lemma NoneAgainStep(c: Config, had: map<Key, Bytes>, st: State, a: Action)
    requires Inv(c, st) && Enabled(c, st, a) && Learnt(c, st) && NoneAgain(c, had, st)
    requires forall f :: f in had ==> f in st.rc.index
    ensures NoneAgain(c, had, Next(c, st, a))
  {
    hide Learnt, NoneOf, RecvStep, RecvCan, SendStep, SendCan, ReceiverOK, SenderOK, StreamsOK, CacheOK, ConfigOK;
    if a.RecvAct? {
      PlanIs(c.msgs[st.rj], st.asked[st.rj], st.r, st.buf);
      LookupAsks(c, had, st, a.k);
    }
  }

  lemma {:induction false} RunAsksNone(c: Config, states: seq<State>, acts: seq<Action>, i: nat)
    requires ConfigOK(c) && IsRun(c, states, acts) && ReceiverInserts(states) && i < |states|
    requires states[0] == StartOf(c, states[0])
    requires CacheOK(c, states[0].sc) && CacheOK(c, states[0].rc)
    ensures NoneAgain(c, states[0].rc.index, states[i])
    decreases i
  {
    hide Inv, Enabled, Next, Learnt, LearntOut, ConfigOK, CacheOK, HadBefore, ReceiverInserts;
    if i > 0 {
      RunAsksNone(c, states, acts, i - 1);
      RunLearns(c, states, acts, i - 1);
      NoneAgainStep(c, states[0].rc.index, states[i - 1], acts[i - 1]);
    }
  }

  /** Only new content is asked for: in every run in which the receiver is refused no insert, a chunk that it asks for was
      not in its cache at the start, nor is it a chunk of any message before. */
  lemma OnlyNewIsAsked(c: Config, states: seq<State>, acts: seq<Action>, last: State, j: nat, i: nat)
    requires ConfigOK(c) && Reaches(c, states, acts, last) && ReceiverInserts(states)
    requires j < |c.msgs| && IsFp(c.msgs[j]) && i < |c.msgs[j].sizes|
    ensures |last.asked| == |c.msgs| && HasKeys(c.msgs[j])
    ensures i in last.asked[j] ==>
              && c.msgs[j].keys[i] !in states[0].rc.index
              && forall k, n :: 0 <= k < j && IsFp(c.msgs[k]) && 0 <= n < |c.msgs[k].sizes| ==>
                   Piece(c.msgs[k], n) != Piece(c.msgs[j], i)
  {
    RunAsksNone(c, states, acts, |acts|);
    assert MsgOK(c, c.msgs[j]);
    if i in last.asked[j] {
      assert !HadBefore(c, states[0].rc.index, j, i);
      forall k, n | 0 <= k < j && IsFp(c.msgs[k]) && 0 <= n < |c.msgs[k].sizes|
        ensures Piece(c.msgs[k], n) != Piece(c.msgs[j], i)
      {
        assert MsgOK(c, c.msgs[k]);
        assert c.msgs[k].keys[n] in c.msgs[k].keys;
      }
    }
  }

  /** So a message sent again costs its fingerprints and no content: all that the sender sends for it is the preamble,
      and the reply is the count 0. */
  lemma RepeatSendsNoContent(c: Config, states: seq<State>, acts: seq<Action>, last: State, k: nat, j: nat)
    requires ConfigOK(c) && Reaches(c, states, acts, last) && ReceiverInserts(states)
    requires k < j < |c.msgs| && IsFp(c.msgs[j])
    requires c.msgs[k].data == c.msgs[j].data && c.msgs[k].sizes == c.msgs[j].sizes
    ensures |last.asked| == |c.msgs| && last.asked[j] == [] && HasKeys(c.msgs[j])
    ensures Forward(c.msgs[j], last.asked[j]) == Preamble(c.msgs[j])
    ensures Backward(c.msgs[j], last.asked[j]) == Zeros(COUNT_BYTES)
  {
    hide HadBefore, ConfigOK, Preamble, Inv, NoneOf, Forward, Backward;
    RunAsksNone(c, states, acts, |acts|);
    Transparency.Reachable(c, states, acts, last);
    AskedInRange(c, last, j);
    KeysAgain(c, k, j);
    NoneLeft(c, states[0].rc.index, j, last.asked[j]);
    NothingAsked(c.msgs[j]);
  }

  lemma AskedInRange(c: Config, st: State, j: nat)
    requires Inv(c, st) && j < |c.msgs|
    ensures |st.asked| == |c.msgs| && HasKeys(c.msgs[j]) && forall i :: i in st.asked[j] ==> i < |c.msgs[j].sizes|
  {
    hide StreamsOK, ReceiverOK, SenderOK, CacheOK;
    assert MsgOK(c, c.msgs[j]);
    assert Increasing(st.asked[j], |c.msgs[j].sizes|);
  }

  lemma HasFirst(a: seq<nat>)
    ensures a == [] || exists i :: i in a
  {
    if a != [] { assert a[0] in a; }
  }

  lemma NoneLeft(c: Config, had: map<Key, Bytes>, j: nat, a: seq<nat>)
    requires j < |c.msgs| && NoneOf(c, had, j, a) && forall i :: i in a ==> i < |c.msgs[j].keys|
    requires forall i :: 0 <= i < |c.msgs[j].keys| ==> HadBefore(c, had, j, i)
    ensures a == []
  {
    hide HadBefore;
    HasFirst(a);
  }

  lemma NothingAsked(m: Msg)
    requires HasKeys(m) && IsFp(m)
    ensures Forward(m, []) == Preamble(m) && Backward(m, []) == Zeros(COUNT_BYTES)
  {
    hide Preamble;
    assert Encode(0, 4) == [0, 0, 0, 0];
    assert Encode(0, 8) == [0, 0, 0, 0, 0, 0, 0, 0];
  }

  lemma KeysAgain(c: Config, k: nat, j: nat)
    requires ConfigOK(c)
    requires k < j < |c.msgs| && IsFp(c.msgs[j])
    requires c.msgs[k].data == c.msgs[j].data && c.msgs[k].sizes == c.msgs[j].sizes
    ensures forall had, i :: 0 <= i < |c.msgs[j].keys| ==> HadBefore(c, had, j, i)
  {
    assert MsgOK(c, c.msgs[k]) && MsgOK(c, c.msgs[j]);
    forall had, i | 0 <= i < |c.msgs[j].keys| ensures HadBefore(c, had, j, i) {
      assert c.msgs[k].keys[i] == c.msgs[j].keys[i];
      assert c.msgs[j].keys[i] in c.msgs[k].keys;
    }
  }
}
