/** One request in flight per descriptor (netDedup_isend, netDedup_irecv, netDedup_test).

    How far a request gets in one call is the protocol's business; here a call is told whether it
    completes the request, and whether the lock of the ring is free. */
module RequestGate {

  // a request of the ring: never used, or somewhere in its stages, or at SEND_COMPLETE / RECV_COMPLETE
  datatype Request = Unused | InProgress | Complete

  // a communicator: its descriptor, its ring of requests, and take_req_ind
  datatype Ring = Ring(fd: nat, requests: seq<Request>, take: nat)

  // active_fds, and the communicators
  datatype World = World(active: seq<bool>, rings: seq<Ring>)

  /** isend or irecv on a communicator, or test of one of its requests. */
  datatype Call =
    | Post(n: nat, lockFree: bool, completes: bool)
    | Test(n: nat, req: nat, completes: bool)

  datatype Answer = Refused | Posted(req: nat) | Pending | Done

  /** The communicators use distinct descriptors. */
  predicate WorldOK(w: World)
  {
    && (forall n :: 0 <= n < |w.rings| ==> w.rings[n].fd < |w.active| && w.rings[n].take < |w.rings[n].requests|)
    && (forall n, m :: 0 <= n < m < |w.rings| ==> w.rings[n].fd != w.rings[m].fd)
  }

  /** The communicator exists, and a request that is tested was handed out before. */
  predicate Legal(w: World, call: Call)
  {
    && call.n < |w.rings|
    && (call.Test? ==> call.req < |w.rings[call.n].requests| && !w.rings[call.n].requests[call.req].Unused?)
  }

  function Started(completes: bool): Request
  {
    if completes then Complete else InProgress
  }

  /** What a call does: a post takes the next request of the ring, clears and starts it, unless the
      descriptor is active; a test that finds its request complete clears the mark. */
  function After(w: World, call: Call): (w': World)
    requires WorldOK(w) && Legal(w, call)
    ensures WorldOK(w') && |w'.rings| == |w.rings|
  {
    var ring := w.rings[call.n];
    match call
    case Post(n, lockFree, completes) =>
      if w.active[ring.fd] || !lockFree then w
      else World(w.active[ring.fd := true],
                 w.rings[n := Ring(ring.fd, ring.requests[ring.take := Started(completes)],
                                   (ring.take + 1) % |ring.requests|)])
    case Test(n, req, completes) =>
      if ring.requests[req].Complete? || completes
      then World(w.active[ring.fd := false], w.rings[n := ring.(requests := ring.requests[req := Complete])])
      else w
  }

  function Answered(w: World, call: Call): Answer
    requires WorldOK(w) && Legal(w, call)
  {
    var ring := w.rings[call.n];
    match call
    case Post(_, lockFree, _) => if w.active[ring.fd] || !lockFree then Refused else Posted(ring.take)
    case Test(_, req, completes) => if ring.requests[req].Complete? || completes then Done else Pending
  }

  // ---- the gate ----

  /** Some request of the ring is in progress. */
  predicate Busy(ring: Ring)
  {
    exists i :: 0 <= i < |ring.requests| && ring.requests[i].InProgress?
  }

  /** An unfinished request implies that its descriptor is marked active. */
  predicate Gated(w: World)
    requires WorldOK(w)
  {
    forall n :: 0 <= n < |w.rings| && Busy(w.rings[n]) ==> w.active[w.rings[n].fd]
  }

  predicate OneEach(w: World)
  {
    forall n, i, j :: 0 <= n < |w.rings| && 0 <= i < j < |w.rings[n].requests| ==>
      !(w.rings[n].requests[i].InProgress? && w.rings[n].requests[j].InProgress?)
  }

  /** The call asks again about a complete request while another one of its communicator is in progress. */
  predicate Stale(w: World, call: Call)
    requires Legal(w, call)
  {
    call.Test? && w.rings[call.n].requests[call.req].Complete? && Busy(w.rings[call.n])
  }

  /** While the gate holds, a request that is handed out was not in progress, nor was any other of its
      ring; and the next one to be handed out is the one after it. */
  lemma PostProtects(w: World, call: Call)
    requires WorldOK(w) && Legal(w, call) && Gated(w) && Answered(w, call).Posted?
    ensures !Busy(w.rings[call.n])
    ensures After(w, call).rings[call.n].take == (Answered(w, call).req + 1) % |w.rings[call.n].requests|
  {
  }

  lemma BusyWith(ring: Ring, i: nat)
    requires i < |ring.requests| && ring.requests[i].InProgress?
    ensures Busy(ring)
  {
  }

  /** One call from a state with the gate: it holds again exactly if the call is not stale. */
  lemma GateStep(w: World, call: Call)
    requires WorldOK(w) && Legal(w, call) && Gated(w) && OneEach(w)
    ensures Gated(After(w, call)) <==> !Stale(w, call)
    ensures Gated(After(w, call)) ==> OneEach(After(w, call))
  {
    var n, ring := call.n, w.rings[call.n];
    var w' := After(w, call);
    var ring' := w'.rings[n];
    if call.Post? {
      if Answered(w, call).Posted? {
        PostProtects(w, call);
        forall i | 0 <= i < |ring.requests| ensures !ring.requests[i].InProgress? {
          if ring.requests[i].InProgress? { BusyWith(ring, i); }
        }
      }
    } else {
      TestStep(w, call);
    }
  }

  lemma TestStep(w: World, call: Call)
    requires WorldOK(w) && Legal(w, call) && Gated(w) && OneEach(w) && call.Test?
    ensures Gated(After(w, call)) <==> !Stale(w, call)
    ensures OneEach(After(w, call))
  {
    var n, req, ring := call.n, call.req, w.rings[call.n];
    var w' := After(w, call);
    var ring' := w'.rings[n];
    if Answered(w, call).Done? {
      if Stale(w, call) {
        assert ring'.requests == ring.requests;
        assert !w'.active[ring'.fd];
      } else {
        forall i | 0 <= i < |ring'.requests| ensures !ring'.requests[i].InProgress? {
          if ring.requests[i].InProgress? { BusyWith(ring, i); }
        }
      }
    }
  }

  // ---- runs ----

  predicate AllLegal(w: World, calls: seq<Call>)
    requires WorldOK(w)
    decreases |calls|
  {
    calls == [] || (Legal(w, calls[0]) && AllLegal(After(w, calls[0]), calls[1..]))
  }

  function AfterAll(w: World, calls: seq<Call>): (w': World)
    requires WorldOK(w) && AllLegal(w, calls)
    ensures WorldOK(w')
    decreases |calls|
  {
    if calls == [] then w else AfterAll(After(w, calls[0]), calls[1..])
  }

  function Answers(w: World, calls: seq<Call>): (r: seq<Answer>)
    requires WorldOK(w) && AllLegal(w, calls)
    ensures |r| == |calls|
    decreases |calls|
  {
    if calls == [] then [] else [Answered(w, calls[0])] + Answers(After(w, calls[0]), calls[1..])
  }

  /** The gate holds before the run and after each of its calls. */
  predicate GatedThroughout(w: World, calls: seq<Call>)
    requires WorldOK(w) && AllLegal(w, calls)
    decreases |calls|
  {
    Gated(w) && (calls != [] ==> GatedThroughout(After(w, calls[0]), calls[1..]))
  }

  predicate NeverStale(w: World, calls: seq<Call>)
    requires WorldOK(w) && AllLegal(w, calls)
    decreases |calls|
  {
    calls == [] || (!Stale(w, calls[0]) && NeverStale(After(w, calls[0]), calls[1..]))
  }

  /** No post clears a request that is still in progress. */
  predicate NothingLost(w: World, calls: seq<Call>)
    requires WorldOK(w) && AllLegal(w, calls)
    decreases |calls|
  {
    calls == [] ||
    (&& (var a := Answered(w, calls[0]); a.Posted? ==> !w.rings[calls[0].n].requests[a.req].InProgress?)
     && NothingLost(After(w, calls[0]), calls[1..]))
  }

  /** `n` communicators with rings of `max` requests, as after connect and accept. */
  predicate Initial(w: World)
  {
    && WorldOK(w)
    && (forall f :: 0 <= f < |w.active| ==> !w.active[f])
    && (forall n, i :: 0 <= n < |w.rings| && 0 <= i < |w.rings[n].requests| ==> w.rings[n].requests[i].Unused?)
  }

  lemma {:induction false} GateRun(w: World, calls: seq<Call>)
    requires WorldOK(w) && AllLegal(w, calls) && Gated(w) && OneEach(w)
    ensures GatedThroughout(w, calls) <==> NeverStale(w, calls)
    ensures GatedThroughout(w, calls) ==> NothingLost(w, calls)
    decreases |calls|
  {
    hide After, Gated, OneEach, Stale, Busy, Legal;
    if calls != [] {
      GateStep(w, calls[0]);
      if Answered(w, calls[0]).Posted? { PostedWasFree(w, calls[0]); }
      if !Stale(w, calls[0]) {
        GateRun(After(w, calls[0]), calls[1..]);
      } else {
        NotGatedNow(After(w, calls[0]), calls[1..]);
      }
    }
  }

  lemma PostedWasFree(w: World, call: Call)
    requires WorldOK(w) && Legal(w, call) && Gated(w) && Answered(w, call).Posted?
    ensures !w.rings[call.n].requests[Answered(w, call).req].InProgress?
  {
    PostProtects(w, call);
  }

  lemma NotGatedNow(w: World, calls: seq<Call>)
    requires WorldOK(w) && AllLegal(w, calls) && !Gated(w)
    ensures !GatedThroughout(w, calls)
  {
  }

  /** From the initial state, with any number of communicators and rings of any length, the gate holds
      throughout a run if and only if no call asks again about a complete request while another one is
      in progress; and then no post clears a request in progress. */
  lemma GateExact(w: World, calls: seq<Call>)
    requires Initial(w) && AllLegal(w, calls)
    ensures GatedThroughout(w, calls) <==> NeverStale(w, calls)
    ensures NeverStale(w, calls) ==> NothingLost(w, calls)
  {
    GateRun(w, calls);
  }

  // one communicator with two requests
  function Two(active: bool, a: Request, b: Request, take: nat): World
  {
    World([active], [Ring(0, [a, b], take)])
  }

  lemma TwoPost(a: Request, b: Request, take: nat)
    requires take < 2
    ensures var w, call := Two(false, a, b, take), Post(0, true, false);
            && WorldOK(w) && Legal(w, call) && Answered(w, call) == Posted(take)
            && After(w, call) == if take == 0 then Two(true, InProgress, b, 1) else Two(true, a, InProgress, 0)
  {
    assert [false][0 := true] == [true];
    assert [a, b][0 := InProgress] == [InProgress, b] && [a, b][1 := InProgress] == [a, InProgress];
    var ring, r0, r1 := Ring(0, [a, b], take), Ring(0, [InProgress, b], 1), Ring(0, [a, InProgress], 0);
    assert [ring][0 := r0] == [r0] && [ring][0 := r1] == [r1];
  }

  lemma TwoTest(a: Request, b: Request, take: nat)
    requires take < 2 && !a.Unused?
    ensures var w, call := Two(true, a, b, take), Test(0, 0, true);
            && WorldOK(w) && Legal(w, call) && After(w, call) == Two(false, Complete, b, take)
  {
    assert [true][0 := false] == [false];
    assert [a, b][0 := Complete] == [Complete, b];
    var ring, r0 := Ring(0, [a, b], take), Ring(0, [Complete, b], take);
    assert [ring][0 := r0] == [r0];
  }

  lemma TwoStart()
    ensures Initial(Two(false, Unused, Unused, 0))
  {
  }

  lemma LastPostLoses()
    ensures var w, calls := Two(false, Complete, InProgress, 1), [Post(0, true, false)];
            WorldOK(w) && AllLegal(w, calls) && !NothingLost(w, calls)
  {
    assert [Post(0, true, false)][1..] == [];
  }

  /** The condition matters: in this run of one communicator with two requests, request 0 is asked about
      again when request 1 is in progress, and the last post clears request 1 unfinished. */
  lemma StaleRunLoses() returns (w: World, calls: seq<Call>)
    ensures Initial(w) && AllLegal(w, calls) && !NothingLost(w, calls)
  {
    hide *;
    var post, test := Post(0, true, false), Test(0, 0, true);
    TwoStart();
    LastPostLoses();
    TwoPost(Unused, Unused, 0);
    TwoTest(InProgress, Unused, 1);
    TwoPost(Complete, Unused, 1);
    TwoTest(Complete, InProgress, 0);
    TwoPost(Complete, InProgress, 0);
    TwoTest(InProgress, InProgress, 1);
    TwoPost(Complete, InProgress, 1);
    w := Two(false, Unused, Unused, 0);
    calls := LoseLater(Two(true, InProgress, InProgress, 1), test, Two(false, Complete, InProgress, 1), [post]);
    calls := LoseLater(Two(false, Complete, InProgress, 0), post, Two(true, InProgress, InProgress, 1), calls);
    calls := LoseLater(Two(true, Complete, InProgress, 0), test, Two(false, Complete, InProgress, 0), calls);
    calls := LoseLater(Two(false, Complete, Unused, 1), post, Two(true, Complete, InProgress, 0), calls);
    calls := LoseLater(Two(true, InProgress, Unused, 1), test, Two(false, Complete, Unused, 1), calls);
    calls := LoseLater(w, post, Two(true, InProgress, Unused, 1), calls);
  }

  lemma LoseLater(w: World, call: Call, w': World, calls: seq<Call>) returns (calls': seq<Call>)
    requires WorldOK(w) && Legal(w, call) && w' == After(w, call)
    requires AllLegal(w', calls) && !NothingLost(w', calls)
    ensures AllLegal(w, calls') && !NothingLost(w, calls')
  {
    calls' := [call] + calls;
    assert calls'[1..] == calls;
  }

  // ---- the objects of the source ----

  class Plugin {
    const active: array<bool>     // active_fds

    constructor (maxFds: nat)
      ensures fresh(active) && active.Length == maxFds
      ensures forall f :: 0 <= f < maxFds ==> !active[f]
    {
      active := new bool[maxFds](_ => false);
    }
  }

  class Comm {
    const fd: nat
    const requests: array<Request>
    var takeReqInd: nat

    ghost function View(): Ring
      reads this, requests
    {
      Ring(fd, requests[..], takeReqInd)
    }

    constructor (fd: nat, maxRequests: nat)
      requires maxRequests >= 1
      ensures fresh(requests) && View() == Ring(fd, seq(maxRequests, _ => Unused), 0)
    {
      this.fd := fd;
      requests := new Request[maxRequests](_ => Unused);
      takeReqInd := 0;
    }
  }

  /** The communicators are different objects with separate rings. */
  ghost predicate Apart(comms: seq<Comm>)
  {
    forall i, j :: 0 <= i < j < |comms| ==> comms[i] != comms[j] && comms[i].requests != comms[j].requests
  }

  ghost function Seen(p: Plugin, comms: seq<Comm>): World
    reads p.active, comms, set i | 0 <= i < |comms| :: comms[i].requests
  {
    World(p.active[..], seq(|comms|, i requires 0 <= i < |comms|
                                       reads comms, set j | 0 <= j < |comms| :: comms[j].requests => comms[i].View()))
  }

  /** isend or irecv. */
  method PostRequest(p: Plugin, comms: seq<Comm>, n: nat, lockFree: bool, completes: bool) returns (answer: Answer)
    requires Apart(comms) && n < |comms| && WorldOK(Seen(p, comms))
    modifies p.active, comms[n], comms[n].requests
    ensures Seen(p, comms) == After(old(Seen(p, comms)), Post(n, lockFree, completes))
    ensures answer == Answered(old(Seen(p, comms)), Post(n, lockFree, completes))
  {
    ghost var w := Seen(p, comms);
    var c := comms[n];
    assert w.rings[n] == c.View();
    if p.active[c.fd] {
      return Refused;
    }
    if !lockFree {
      return Refused;
    }
    var req := c.takeReqInd;
    c.takeReqInd := (c.takeReqInd + 1) % c.requests.Length;
    c.requests[req] := Started(completes);
    p.active[c.fd] := true;
    answer := Posted(req);
    OthersSame(p, comms, n, w, After(w, Post(n, lockFree, completes)));
  }

  /** test: pushes a request on, and when it is complete clears the mark of the descriptor. */
  method TestRequest(p: Plugin, comms: seq<Comm>, n: nat, req: nat, completes: bool) returns (answer: Answer)
    requires Apart(comms) && WorldOK(Seen(p, comms)) && Legal(Seen(p, comms), Test(n, req, completes))
    modifies p.active, comms[n].requests
    ensures Seen(p, comms) == After(old(Seen(p, comms)), Test(n, req, completes))
    ensures answer == Answered(old(Seen(p, comms)), Test(n, req, completes))
  {
    ghost var w := Seen(p, comms);
    var c := comms[n];
    assert w.rings[n] == c.View();
    if c.requests[req].InProgress? && completes {
      c.requests[req] := Complete;
    }
    answer := Pending;
    if c.requests[req].Complete? {
      answer := Done;
      p.active[c.fd] := false;
    }
    OthersSame(p, comms, n, w, After(w, Test(n, req, completes)));
  }

  // only the marks and one communicator differ
  lemma OthersSame(p: Plugin, comms: seq<Comm>, n: nat, w: World, w': World)
    requires n < |comms| == |w.rings| == |w'.rings|
    requires p.active[..] == w'.active && comms[n].View() == w'.rings[n]
    requires forall i :: 0 <= i < |comms| && i != n ==> comms[i].View() == w.rings[i] == w'.rings[i]
    ensures Seen(p, comms) == w'
  {
  }

  /** The calls, one after the other. */
  method Serve(p: Plugin, comms: seq<Comm>, calls: seq<Call>) returns (answers: seq<Answer>)
    requires Apart(comms) && WorldOK(Seen(p, comms)) && AllLegal(Seen(p, comms), calls)
    modifies p.active, comms, set i | 0 <= i < |comms| :: comms[i].requests
    ensures Seen(p, comms) == AfterAll(old(Seen(p, comms)), calls)
    ensures answers == Answers(old(Seen(p, comms)), calls)
  {
    hide WorldOK, Legal, After, Answered, Seen;
    ghost var w := Seen(p, comms);
    answers := [];
    for i := 0 to |calls|
      invariant WorldOK(Seen(p, comms)) && AllLegal(Seen(p, comms), calls[i..])
      invariant AfterAll(Seen(p, comms), calls[i..]) == AfterAll(w, calls)
      invariant answers + Answers(Seen(p, comms), calls[i..]) == Answers(w, calls)
    {
      assert calls[i..][0] == calls[i] && calls[i..][1..] == calls[i + 1..];
      LegalIndex(p, comms, calls[i]);
      var a;
      match calls[i] {
        case Post(n, lockFree, completes) => a := PostRequest(p, comms, n, lockFree, completes);
        case Test(n, req, completes) => a := TestRequest(p, comms, n, req, completes);
      }
      answers := answers + [a];
    }
  }

  lemma LegalIndex(p: Plugin, comms: seq<Comm>, call: Call)
    requires Legal(Seen(p, comms), call)
    ensures call.n < |comms|
  {
  }
}
