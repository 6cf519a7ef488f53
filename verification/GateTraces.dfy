/** What a caller sees of the gate: the answers of a whole run of posts and tests, from the calls and the answers
    before (net_dedup.c:1296-1390, 1954-2118). */
module GateTraces {
  import opened Congruence
  import opened RequestGate

  /** The world after the first `i` calls. */
  function WorldAt(w: World, calls: seq<Call>, i: nat): (w': World)
    requires WorldOK(w) && AllLegal(w, calls) && i <= |calls|
    ensures WorldOK(w') && |w'.rings| == |w.rings|
    decreases i
  {
    if i == 0 then w else WorldAt(After(w, calls[0]), calls[1..], i - 1)
  }

  lemma {:induction false} WorldStep(w: World, calls: seq<Call>, i: nat)
    requires WorldOK(w) && AllLegal(w, calls) && i < |calls|
    ensures Legal(WorldAt(w, calls, i), calls[i])
    ensures WorldAt(w, calls, i + 1) == After(WorldAt(w, calls, i), calls[i])
    ensures Answers(w, calls)[i] == Answered(WorldAt(w, calls, i), calls[i])
    decreases i
  {
    hide After, Answered, Legal;
    if i > 0 {
      WorldStep(After(w, calls[0]), calls[1..], i - 1);
      assert calls[1..][i - 1] == calls[i];
    } else {
      assert WorldAt(After(w, calls[0]), calls[1..], 0) == After(w, calls[0]);
    }
  }

  // ---- marks ----

  /** Call `j` handed out a request of communicator `n`. */
  predicate HandedOut(calls: seq<Call>, answers: seq<Answer>, j: nat, n: nat)
    requires |answers| == |calls| && j < |calls|
  {
    calls[j].Post? && calls[j].n == n && answers[j].Posted?
  }

  /** Call `j` was a test on communicator `n` that was answered with done. */
  predicate Reported(calls: seq<Call>, answers: seq<Answer>, j: nat, n: nat)
    requires |answers| == |calls| && j < |calls|
  {
    calls[j].Test? && calls[j].n == n && answers[j].Done?
  }

  /** Before call `i`, a request of the communicator was handed out and nothing was reported done since. */
  predicate Taken(calls: seq<Call>, answers: seq<Answer>, n: nat, i: nat)
    requires |answers| == |calls| && i <= |calls|
  {
    exists j :: 0 <= j < i && HandedOut(calls, answers, j, n) && forall k :: j < k < i ==> !Reported(calls, answers, k, n)
  }

  lemma TakenStep(calls: seq<Call>, answers: seq<Answer>, n: nat, i: nat)
    requires |answers| == |calls| && i < |calls|
    ensures Taken(calls, answers, n, i + 1) <==>
              HandedOut(calls, answers, i, n) || (Taken(calls, answers, n, i) && !Reported(calls, answers, i, n))
  {
    if HandedOut(calls, answers, i, n) {
      assert Taken(calls, answers, n, i + 1);
    } else if Taken(calls, answers, n, i + 1) {
      var j :| 0 <= j < i + 1 && HandedOut(calls, answers, j, n)
               && forall k :: j < k < i + 1 ==> !Reported(calls, answers, k, n);
      assert j < i;
    }
  }

  /** The mark of a descriptor after one call. */
  lemma MarkStep(w: World, call: Call, n: nat)
    requires WorldOK(w) && Legal(w, call) && n < |w.rings|
    ensures var a := Answered(w, call);
            After(w, call).active[w.rings[n].fd] ==
            ((call.Post? && call.n == n && a.Posted?)
             || (w.active[w.rings[n].fd] && !(call.Test? && call.n == n && a.Done?)))
    ensures After(w, call).rings[n].fd == w.rings[n].fd
  {
  }

  /** A descriptor is marked exactly while a request handed out on it has not been reported done. */
  lemma {:induction false} MarkIsTaken(w: World, calls: seq<Call>, n: nat, i: nat)
    requires Initial(w) && AllLegal(w, calls) && n < |w.rings| && i <= |calls|
    ensures WorldAt(w, calls, i).rings[n].fd == w.rings[n].fd
    ensures WorldAt(w, calls, i).active[w.rings[n].fd] <==> Taken(calls, Answers(w, calls), n, i)
    decreases i
  {
    if i > 0 {
      MarkIsTaken(w, calls, n, i - 1);
      WorldStep(w, calls, i - 1);
      MarkStep(WorldAt(w, calls, i - 1), calls[i - 1], n);
      TakenStep(calls, Answers(w, calls), n, i - 1);
      hide After, Answered, Legal, AllLegal, Answers, Taken;
    }
  }

  /** Over every run: a post with the ring free is refused exactly when a request handed out on that
      communicator has not been reported done since. */
  lemma RefusedExactly(w: World, calls: seq<Call>, i: nat)
    requires Initial(w) && AllLegal(w, calls) && i < |calls| && calls[i].Post?
    ensures var answers := Answers(w, calls);
            && (answers[i].Refused? <==> !calls[i].lockFree || Taken(calls, answers, calls[i].n, i))
            && (answers[i].Refused? || answers[i].Posted?)
  {
    WorldStep(w, calls, i);
    MarkIsTaken(w, calls, calls[i].n, i);
  }

  /** So between two requests handed out on a communicator, one of it was reported done. */
  lemma DoneBetween(w: World, calls: seq<Call>, n: nat, i: nat, j: nat)
    requires Initial(w) && AllLegal(w, calls) && i < j < |calls|
    requires HandedOut(calls, Answers(w, calls), i, n) && HandedOut(calls, Answers(w, calls), j, n)
    ensures exists k :: i < k < j && Reported(calls, Answers(w, calls), k, n)
  {
    RefusedExactly(w, calls, j);
  }

  // ---- completion ----

  /** Call `j` handed out request `req` of communicator `n`. */
  predicate Given(calls: seq<Call>, answers: seq<Answer>, j: nat, n: nat, req: nat)
    requires |answers| == |calls| && j < |calls|
  {
    calls[j].Post? && calls[j].n == n && answers[j] == Posted(req)
  }

  /** In call `j` the request came to its end: at once when it was posted, or when it was tested. */
  predicate Completes(calls: seq<Call>, answers: seq<Answer>, j: nat, n: nat, req: nat)
    requires |answers| == |calls| && j < |calls|
  {
    (Given(calls, answers, j, n, req) && calls[j].completes) || calls[j] == Test(n, req, true)
  }

  /** One of the first `i` calls completed the request, and it was not handed out again since. */
  predicate Finished(calls: seq<Call>, answers: seq<Answer>, n: nat, req: nat, i: nat)
    requires |answers| == |calls| && i <= |calls|
  {
    exists j :: 0 <= j < i && Completes(calls, answers, j, n, req)
                && forall k :: j < k < i ==> !Given(calls, answers, k, n, req)
  }

  lemma FinishedStep(calls: seq<Call>, answers: seq<Answer>, n: nat, req: nat, i: nat)
    requires |answers| == |calls| && i < |calls|
    ensures Finished(calls, answers, n, req, i + 1) <==>
              Completes(calls, answers, i, n, req) || (Finished(calls, answers, n, req, i) && !Given(calls, answers, i, n, req))
  {
    if Completes(calls, answers, i, n, req) {
      assert Finished(calls, answers, n, req, i + 1);
    } else if Finished(calls, answers, n, req, i + 1) {
      var j :| 0 <= j < i + 1 && Completes(calls, answers, j, n, req)
               && forall k :: j < k < i + 1 ==> !Given(calls, answers, k, n, req);
      assert j < i;
    }
  }

  /** A request after one call: it is complete if the call completed it, or if it was so before and is not the
      one handed out. */
  lemma RequestStep(w: World, call: Call, n: nat, req: nat)
    requires WorldOK(w) && Legal(w, call) && n < |w.rings| && req < |w.rings[n].requests|
    ensures |After(w, call).rings[n].requests| == |w.rings[n].requests|
    ensures var given := call.Post? && call.n == n && Answered(w, call) == Posted(req);
            After(w, call).rings[n].requests[req].Complete? <==>
              (given && call.completes) || call == Test(n, req, true) || (w.rings[n].requests[req].Complete? && !given)
  {
  }

  lemma {:induction false} CompleteIsFinished(w: World, calls: seq<Call>, n: nat, req: nat, i: nat)
    requires Initial(w) && AllLegal(w, calls) && n < |w.rings| && req < |w.rings[n].requests| && i <= |calls|
    ensures |WorldAt(w, calls, i).rings[n].requests| == |w.rings[n].requests|
    ensures WorldAt(w, calls, i).rings[n].requests[req].Complete? <==> Finished(calls, Answers(w, calls), n, req, i)
    decreases i
  {
    if i > 0 {
      CompleteIsFinished(w, calls, n, req, i - 1);
      WorldStep(w, calls, i - 1);
      RequestStep(WorldAt(w, calls, i - 1), calls[i - 1], n, req);
      FinishedStep(calls, Answers(w, calls), n, req, i - 1);
      hide After, Answered, Legal, AllLegal, Answers, Finished;
    }
  }

  /** A test is answered with done if and only if the request is complete afterwards. */
  lemma DoneMeansComplete(w: World, call: Call)
    requires WorldOK(w) && Legal(w, call) && call.Test?
    ensures Answered(w, call) == Done <==> After(w, call).rings[call.n].requests[call.req].Complete?
    ensures Answered(w, call) != Done ==> Answered(w, call) == Pending && After(w, call) == w
  {
  }

  // ---- the ring ----

  /** How many of the first `i` calls handed out a request of communicator `n`. */
  function HandedCount(calls: seq<Call>, answers: seq<Answer>, n: nat, i: nat): nat
    requires |answers| == |calls| && i <= |calls|
  {
    if i == 0 then 0 else HandedCount(calls, answers, n, i - 1) + (if HandedOut(calls, answers, i - 1, n) then 1 else 0)
  }

  lemma TakeStep(w: World, call: Call, n: nat)
    requires WorldOK(w) && Legal(w, call) && n < |w.rings|
    ensures var handed := call.Post? && call.n == n && Answered(w, call).Posted?;
            && |w.rings[n].requests| > 0
            && After(w, call).rings[n].take
               == (if handed then Around(w.rings[n].take + 1, |w.rings[n].requests|) else w.rings[n].take)
            && (handed ==> Answered(w, call) == Posted(w.rings[n].take))
  {
  }

  /** The place `x` steps from the start of a ring of `l`. */
  function Around(x: nat, l: nat): nat
    requires l > 0
  {
    x % l
  }

  lemma AroundStart(x: nat, l: nat)
    requires x < l
    ensures Around(x, l) == x
  {
    SmallRemainder(x, l);
  }

  lemma AroundNext(x: nat, l: nat)
    requires l > 0
    ensures Around(Around(x, l) + 1, l) == Around(x + 1, l)
  {
    PlusWrapped(x, 1, l);
  }

  lemma {:induction false} TakeIsCount(w: World, calls: seq<Call>, n: nat, i: nat)
    requires Initial(w) && AllLegal(w, calls) && n < |w.rings| && i <= |calls|
    ensures |w.rings[n].requests| > 0 && |WorldAt(w, calls, i).rings[n].requests| == |w.rings[n].requests|
    ensures WorldAt(w, calls, i).rings[n].take
            == Around(w.rings[n].take + HandedCount(calls, Answers(w, calls), n, i), |w.rings[n].requests|)
    decreases i
  {
    hide Around, After, Answered, Legal, AllLegal, Answers;
    if i > 0 {
      TakeIsCount(w, calls, n, i - 1);
      WorldStep(w, calls, i - 1);
      TakeStep(WorldAt(w, calls, i - 1), calls[i - 1], n);
      RequestStep(WorldAt(w, calls, i - 1), calls[i - 1], n, 0);
      AroundNext(w.rings[n].take + HandedCount(calls, Answers(w, calls), n, i - 1), |w.rings[n].requests|);
    } else {
      AroundStart(w.rings[n].take, |w.rings[n].requests|);
    }
  }

  // ---- the answers of a run ----

  /** The answer to call `i`, from the calls and the answers before it.  A post is refused while the ring is locked or
      a request of the communicator is out that was not reported done; otherwise it hands out the requests
      of the ring in turn.  A test is answered with done from the call that completes the request on, until
      it is handed out again. */
  ghost predicate RightAnswer(w: World, calls: seq<Call>, answers: seq<Answer>, i: nat)
    requires |answers| == |calls| && i < |calls|
  {
    match calls[i]
    case Post(n, lockFree, _) =>
      n < |w.rings| && |w.rings[n].requests| > 0 &&
      answers[i] == (if !lockFree || Taken(calls, answers, n, i) then Refused
                     else Posted(Around(w.rings[n].take + HandedCount(calls, answers, n, i), |w.rings[n].requests|)))
    case Test(n, req, _) =>
      answers[i] == (if Finished(calls, answers, n, req, i + 1) then Done else Pending)
  }

  lemma PostAnswer(w: World, calls: seq<Call>, i: nat)
    requires Initial(w) && AllLegal(w, calls) && i < |calls| && calls[i].Post?
    ensures RightAnswer(w, calls, Answers(w, calls), i)
  {
    hide Around, After, Answered, Legal, AllLegal, Answers, Taken, HandedCount;
    WorldStep(w, calls, i);
    RingsStay(w, calls, i);
    RefusedExactly(w, calls, i);
    TakeIsCount(w, calls, calls[i].n, i);
    TakeStep(WorldAt(w, calls, i), calls[i], calls[i].n);
  }

  lemma TestAnswer(w: World, calls: seq<Call>, i: nat)
    requires Initial(w) && AllLegal(w, calls) && i < |calls| && calls[i].Test?
    ensures RightAnswer(w, calls, Answers(w, calls), i)
  {
    hide After, Answered, AllLegal, Answers, Finished;
    WorldStep(w, calls, i);
    RingsStay(w, calls, i);
    CompleteIsFinished(w, calls, calls[i].n, calls[i].req, i + 1);
    DoneMeansComplete(WorldAt(w, calls, i), calls[i]);
  }

  lemma RingsStay(w: World, calls: seq<Call>, i: nat)
    requires Initial(w) && AllLegal(w, calls) && i < |calls|
    ensures calls[i].n < |w.rings|
    ensures calls[i].Test? ==> calls[i].req < |w.rings[calls[i].n].requests|
  {
    WorldStep(w, calls, i);
    TakeIsCount(w, calls, calls[i].n, i);
  }

  // the rule looks at the answers before call `i` only
  lemma {:induction false} SameCount(calls: seq<Call>, a: seq<Answer>, b: seq<Answer>, n: nat, i: nat)
    requires |a| == |b| == |calls| && i <= |calls| && forall k :: 0 <= k < i ==> a[k] == b[k]
    ensures HandedCount(calls, a, n, i) == HandedCount(calls, b, n, i)
  {
    if i > 0 { SameCount(calls, a, b, n, i - 1); }
  }

  lemma SameTaken(calls: seq<Call>, a: seq<Answer>, b: seq<Answer>, n: nat, i: nat)
    requires |a| == |b| == |calls| && i <= |calls| && forall k :: 0 <= k < i ==> a[k] == b[k]
    ensures Taken(calls, a, n, i) ==> Taken(calls, b, n, i)
  {
    if Taken(calls, a, n, i) {
      var j :| 0 <= j < i && HandedOut(calls, a, j, n) && forall k :: j < k < i ==> !Reported(calls, a, k, n);
      assert HandedOut(calls, b, j, n);
      assert forall k :: j < k < i ==> Reported(calls, a, k, n) == Reported(calls, b, k, n);
    }
  }

  lemma SameFinished(calls: seq<Call>, a: seq<Answer>, b: seq<Answer>, n: nat, req: nat, i: nat)
    requires |a| == |b| == |calls| && i < |calls| && (forall k :: 0 <= k < i ==> a[k] == b[k]) && calls[i].Test?
    ensures Finished(calls, a, n, req, i + 1) ==> Finished(calls, b, n, req, i + 1)
  {
    if Finished(calls, a, n, req, i + 1) {
      var j :| 0 <= j < i + 1 && Completes(calls, a, j, n, req)
               && forall k :: j < k < i + 1 ==> !Given(calls, a, k, n, req);
      assert Completes(calls, b, j, n, req);
      assert forall k :: j < k < i + 1 ==> Given(calls, a, k, n, req) == Given(calls, b, k, n, req);
    }
  }

  lemma {:induction false} SameAnswers(w: World, calls: seq<Call>, a: seq<Answer>, b: seq<Answer>, i: nat)
    requires |a| == |b| == |calls| && i <= |calls|
    requires forall k :: 0 <= k < |calls| ==> RightAnswer(w, calls, a, k) && RightAnswer(w, calls, b, k)
    ensures forall k :: 0 <= k < i ==> a[k] == b[k]
  {
    if i > 0 {
      SameAnswers(w, calls, a, b, i - 1);
      assert RightAnswer(w, calls, a, i - 1) && RightAnswer(w, calls, b, i - 1);
      match calls[i - 1]
      case Post(n, _, _) =>
        SameTaken(calls, a, b, n, i - 1);
        SameTaken(calls, b, a, n, i - 1);
        SameCount(calls, a, b, n, i - 1);
      case Test(n, req, _) =>
        SameFinished(calls, a, b, n, req, i - 1);
        SameFinished(calls, b, a, n, req, i - 1);
    }
  }

  /** From the initial state, the answers of every run are the right ones, and there are no others. */
  lemma AnswersAreTheRule(w: World, calls: seq<Call>, answers: seq<Answer>)
    requires Initial(w) && AllLegal(w, calls) && |answers| == |calls|
    ensures (forall i :: 0 <= i < |calls| ==> RightAnswer(w, calls, answers, i)) <==> answers == Answers(w, calls)
  {
    hide RightAnswer, AllLegal, Answers;
    var all := Answers(w, calls);
    forall i | 0 <= i < |calls| ensures RightAnswer(w, calls, all, i) {
      if calls[i].Post? { PostAnswer(w, calls, i); } else { TestAnswer(w, calls, i); }
    }
    if forall i :: 0 <= i < |calls| ==> RightAnswer(w, calls, answers, i) {
      SameAnswers(w, calls, all, answers, |calls|);
    }
  }
}
