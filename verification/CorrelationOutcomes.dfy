/** What a request returns, and exactly when: the history behind each outcome. */
module CorrelationOutcomes {
  import opened Common
  import opened Correlation

  // ----- outcomes and the steps behind them -----

  /** This step, taken now, is the one by which request `i` returns this. */
  predicate Ends(s: State, step: Step, i: Caller, outcome: Outcome) {
    match outcome
    case NotSent => (step == EncodeFails(i) && In(s, i, Encoding)) || (step == SendFails(i) && In(s, i, Sending))
    case Timeout => step == GiveUp(i) && In(s, i, Expired)
    case ConnectionLost => step == Complete(i) && In(s, i, Waiting) && s.requests[i].channel == Closed
    case Replied(k) => step == Complete(i) && In(s, i, Waiting) && s.requests[i].channel == Filled(k)
  }

  /** The step is a decision of this caller. */
  predicate IsOwn(step: Step, i: Caller) {
    match step
    case EncodeFails(j) => j == i
    case Register(j) => j == i
    case SendSucceeds(j) => j == i
    case SendFails(j) => j == i
    case Complete(j) => j == i
    case Expire(j) => j == i
    case GiveUp(j) => j == i
    case Abort(j) => j == i
    case _ => false
  }

  lemma OthersLeaveThePhase(s: State, step: Step, i: Caller)
    requires i < |s.requests| && !IsOwn(step, i)
    ensures i < |Next(s, step).requests| && Next(s, step).requests[i].phase == s.requests[i].phase
  {
  }

  /** Where a caller's own step takes it. */
  predicate OwnPhase(s: State, step: Step, i: Caller, after: Phase)
    requires i < |s.requests|
  {
    var before := s.requests[i].phase;
    after == match step
      case EncodeFails(_) => if before == Encoding then Returned(NotSent) else before
      case Register(_) => if before == Encoding then Sending else before
      case SendSucceeds(_) => if before == Sending then Waiting else before
      case SendFails(_) => if before == Sending then Returned(NotSent) else before
      case Complete(_) =>
        if before != Waiting then before
        else (match s.requests[i].channel
          case Open => before
          case Filled(k) => Returned(Replied(k))
          case Closed => Returned(ConnectionLost))
      case Expire(_) => if before == Waiting && s.requests[i].channel == Open then Expired else before
      case GiveUp(_) => if before == Expired then Returned(Timeout) else before
      case _ => if before == Sending || before == Waiting then Dropped else before
  }

  lemma OwnStepMoves(s: State, step: Step, i: Caller)
    requires i < |s.requests| && IsOwn(step, i)
    ensures i < |Next(s, step).requests|
    ensures OwnPhase(s, step, i, Next(s, step).requests[i].phase)
  {
  }

  lemma NewcomersEncode(s: State, step: Step, i: Caller)
    requires |s.requests| <= i < |Next(s, step).requests|
    ensures Next(s, step).requests[i].phase == Encoding
  {
  }

  lemma StepReturns(s: State, step: Step, i: Caller, outcome: Outcome)
    ensures In(Next(s, step), i, Returned(outcome)) <==> In(s, i, Returned(outcome)) || Ends(s, step, i, outcome)
  {
    PhaseMoves(s, step, i);
  }

  lemma PhaseMoves(s: State, step: Step, i: Caller)
    ensures i < |s.requests| && !IsOwn(step, i) ==> In(Next(s, step), i, s.requests[i].phase)
    ensures |s.requests| <= i < |Next(s, step).requests| ==> In(Next(s, step), i, Encoding)
    ensures i < |s.requests| && IsOwn(step, i) ==>
              i < |Next(s, step).requests| && OwnPhase(s, step, i, Next(s, step).requests[i].phase)
  {
    if i < |s.requests| {
      if IsOwn(step, i) {
        OwnStepMoves(s, step, i);
      } else {
        OthersLeaveThePhase(s, step, i);
      }
    } else if i < |Next(s, step).requests| {
      NewcomersEncode(s, step, i);
    }
  }

  /** The outcome was settled by step `n` of the run. */
  predicate EndedBy(steps: seq<Step>, n: nat, i: Caller, outcome: Outcome) {
    n < |steps| && Ends(After(steps[..n]), steps[n], i, outcome)
  }

  lemma {:induction false} ReturnFound(steps: seq<Step>, i: Caller, outcome: Outcome) returns (n: nat)
    requires In(After(steps), i, Returned(outcome))
    ensures EndedBy(steps, n, i, outcome)
  {
    var before := steps[..|steps| - 1];
    StepReturns(After(before), steps[|steps| - 1], i, outcome);
    if In(After(before), i, Returned(outcome)) {
      n := ReturnFound(before, i, outcome);
      assert before[..n] == steps[..n];
    } else {
      n := |steps| - 1;
    }
  }

  lemma {:induction false} ReturnStays(steps: seq<Step>, n: nat, i: Caller, outcome: Outcome)
    requires EndedBy(steps, n, i, outcome)
    ensures In(After(steps), i, Returned(outcome))
  {
    var before := steps[..|steps| - 1];
    StepReturns(After(before), steps[|steps| - 1], i, outcome);
    if n < |steps| - 1 {
      assert before[..n] == steps[..n];
      ReturnStays(before, n, i, outcome);
    }
  }

  /**
   * A request has returned an outcome exactly when it took the step that gives it: not sent, by
   * failing to encode or to send; timed out, by giving up once expired; a reply or a lost
   * connection, by completing while it waited, from what its channel held.
   */
  lemma ReturnedExactly(steps: seq<Step>, i: Caller, outcome: Outcome)
    ensures In(After(steps), i, Returned(outcome)) <==> exists n: nat :: EndedBy(steps, n, i, outcome)
  {
    if In(After(steps), i, Returned(outcome)) {
      var n := ReturnFound(steps, i, outcome);
    } else if n: nat :| EndedBy(steps, n, i, outcome) {
      ReturnStays(steps, n, i, outcome);
    }
  }

  // ----- what was sent -----

  /** The request has been sent, or was dropped. */
  predicate PastSending(s: State, i: Caller) {
    i < |s.requests| &&
    match s.requests[i].phase
    case Encoding => false
    case Sending => false
    case Returned(outcome) => outcome != NotSent
    case _ => true
  }

  lemma StaysPast(s: State, step: Step, i: Caller)
    requires PastSending(s, i)
    ensures PastSending(Next(s, step), i)
  {
    PhaseMoves(s, step, i);
  }

  lemma {:induction false} StaysPastRun(steps: seq<Step>, n: nat, i: Caller)
    requires n <= |steps| && PastSending(After(steps[..n]), i)
    ensures PastSending(After(steps), i)
    decreases |steps|
  {
    if n == |steps| {
      assert steps[..n] == steps;
    } else {
      var before := steps[..|steps| - 1];
      assert before[..n] == steps[..n];
      StaysPastRun(before, n, i);
      StaysPast(After(before), steps[|steps| - 1], i);
    }
  }

  /** A caller is never told that a request which was sent was not. */
  lemma SentIsNeverNotSent(steps: seq<Step>, n: nat, i: Caller)
    requires n <= |steps| && In(After(steps[..n]), i, Waiting)
    ensures !In(After(steps), i, Returned(NotSent))
  {
    StaysPastRun(steps, n, i);
  }

  /** At step `m` of the run the request, sent and with nothing to receive, ran out of time. */
  predicate ExpiredBy(steps: seq<Step>, m: nat, i: Caller) {
    && m < |steps| && steps[m] == Expire(i)
    && In(After(steps[..m]), i, Waiting) && After(steps[..m]).requests[i].channel == Open
  }

  lemma {:induction false} ExpiryFound(steps: seq<Step>, i: Caller) returns (m: nat)
    requires In(After(steps), i, Expired)
    ensures ExpiredBy(steps, m, i)
  {
    var before := steps[..|steps| - 1];
    if In(After(before), i, Expired) {
      m := ExpiryFound(before, i);
      assert before[..m] == steps[..m];
    } else {
      m := |steps| - 1;
      OnlyExpiring(After(before), steps[m], i);
    }
  }

  lemma OnlyExpiring(s: State, step: Step, i: Caller)
    requires In(Next(s, step), i, Expired) && !In(s, i, Expired)
    ensures step == Expire(i) && In(s, i, Waiting) && s.requests[i].channel == Open
  {
    PhaseMoves(s, step, i);
  }

  /** A request times out only after it was sent, its deadline passed with no reply in hand, and it gave up. */
  lemma TimeoutsWereSent(steps: seq<Step>, i: Caller) returns (m: nat, n: nat)
    requires In(After(steps), i, Returned(Timeout))
    ensures m < n && ExpiredBy(steps, m, i) && EndedBy(steps, n, i, Timeout)
  {
    n := ReturnFound(steps, i, Timeout);
    m := ExpiryFound(steps[..n], i);
    assert steps[..n][..m] == steps[..m];
  }

  // ----- what waiting leads to -----

  /**
   * A waiting request whose reply is not just being handed over completes at once with the first
   * terminal response since it registered if there was one; else as lost if the stream ended after
   * it registered and its sender is dropped; and else not at all.
   */
  lemma CompletesExactly(steps: seq<Step>, i: Caller, k: nat)
    requires var s := After(steps); Fits(s) && In(s, i, Waiting) && !IsHeld(s, i)
    ensures var s, t := After(steps), Next(After(steps), Complete(i));
            var r := s.requests[i];
            && (In(t, i, Returned(Replied(k))) <==> FirstAnswer(s, r, k))
            && (In(t, i, Returned(ConnectionLost)) <==>
                  s.ended && !r.late && i !in s.dropping && NoAnswerBefore(s, r, |s.log|))
            && (In(t, i, Waiting) <==> !t.requests[i].phase.Returned?)
  {
    var s := After(steps);
    Reachable(steps);
    assert Coherent(s, i);
    CompletionOf(s, i, k);
  }

  lemma CompletionOf(s: State, i: Caller, k: nat)
    requires i < |s.requests| && Coherent(s, i) && In(s, i, Waiting) && !IsHeld(s, i)
    ensures var t, r := Next(s, Complete(i)), s.requests[i];
            && (In(t, i, Returned(Replied(k))) <==> FirstAnswer(s, r, k))
            && (In(t, i, Returned(ConnectionLost)) <==>
                  s.ended && !r.late && i !in s.dropping && NoAnswerBefore(s, r, |s.log|))
            && (In(t, i, Waiting) <==> !t.requests[i].phase.Returned?)
  {
    var r := s.requests[i];
    if r.channel.Filled? && FirstAnswer(s, r, k) {
      OneFirstAnswer(s, r, k, r.channel.at);
    }
  }

  lemma OneFirstAnswer(s: State, r: Request, j: nat, k: nat)
    requires FirstAnswer(s, r, j) && FirstAnswer(s, r, k)
    ensures j == k
  {
  }

  /** The reply in the reader's hands is handed to its caller, if that one still listens, and completes it. */
  lemma HandedReplyCompletes(steps: seq<Step>, i: Caller)
    requires var s := After(steps); Fits(s) && In(s, i, Waiting) && IsHeld(s, i)
    ensures var s := After(steps);
            In(Next(Next(s, Hand), Complete(i)), i, Returned(Replied(s.held.value.at)))
    ensures FirstAnswer(After(steps), After(steps).requests[i], After(steps).held.value.at)
  {
    Reachable(steps);
    assert Coherent(After(steps), i);
  }

  // ----- what always gets through -----

  lemma AfterMore(steps: seq<Step>, step: Step)
    ensures After(steps + [step]) == Next(After(steps), step)
  {
    assert (steps + [step])[..|steps|] == steps;
  }

  /**
   * A reader with nothing in hand takes in any message while the stream lasts; a terminal response
   * with a waiting request's id, the first since it registered, reaches that request and completes it.
   */
  lemma ResponsesGetThrough(steps: seq<Step>, i: Caller, reply: Reply)
    requires var s := After(steps); Fits(s) && !s.ended && s.held.None? && In(s, i, Waiting)
    requires NoAnswerBefore(After(steps), After(steps).requests[i], |After(steps).log|)
    ensures var s := After(steps);
            var message := Answer(s.requests[i].id, reply);
            var t := After(((steps + [Receive(message)]) + [Hand]) + [Complete(i)]);
            t.log == s.log + [message] && In(t, i, Returned(Replied(|s.log|)))
  {
    var s := After(steps);
    var message := Answer(s.requests[i].id, reply);
    Reachable(steps);
    assert Coherent(s, i) && HasSlot(s, i) by {
      assert Coherent(s, i);
    }
    AfterMore(steps, Receive(message));
    AfterMore(steps + [Receive(message)], Hand);
    AfterMore((steps + [Receive(message)]) + [Hand], Complete(i));
    Delivered(s, i, message);
  }

  lemma Delivered(s: State, i: Caller, message: Message)
    requires HasSlot(s, i) && In(s, i, Waiting) && !s.ended && s.held.None?
    requires message.Answer? && message.id == s.requests[i].id
    ensures var t := Next(Next(Next(s, Receive(message)), Hand), Complete(i));
            t.log == s.log + [message] && In(t, i, Returned(Replied(|s.log|)))
  {
    var r := Next(s, Receive(message));
    assert r.held == Some(Held(i, |s.log|)) && r.requests == s.requests;
    assert Next(r, Hand).requests[i].channel == Filled(|s.log|);
  }

  /** When the stream ends, a waiting request with no response is told at once that the connection is lost. */
  lemma TheEndGetsThrough(steps: seq<Step>, i: Caller)
    requires var s := After(steps); Fits(s) && !s.ended && s.held.None? && In(s, i, Waiting)
    requires NoAnswerBefore(After(steps), After(steps).requests[i], |After(steps).log|)
    ensures In(After(((steps + [End]) + [DropSender(i)]) + [Complete(i)]), i, Returned(ConnectionLost))
  {
    var s := After(steps);
    Reachable(steps);
    assert Coherent(s, i);
    AfterMore(steps, End);
    AfterMore(steps + [End], DropSender(i));
    AfterMore((steps + [End]) + [DropSender(i)], Complete(i));
    WokenByTheEnd(s, i);
  }

  lemma WokenByTheEnd(s: State, i: Caller)
    requires HasSlot(s, i) && In(s, i, Waiting) && !s.ended && s.held.None?
    ensures In(Next(Next(Next(s, End), DropSender(i)), Complete(i)), i, Returned(ConnectionLost))
  {
    var t := Next(s, End);
    assert i in t.dropping && t.requests == s.requests by {
      assert s.slots[s.requests[i].id] == i;
    }
    assert Next(t, DropSender(i)).requests[i].channel == Closed;
  }

  /** The first request of a connection, sent and answered. */
  lemma FirstRequestIsAnswered(reply: Reply)
    ensures var steps := (([] + [Fetch]) + [Register(0)]) + [SendSucceeds(0)];
            && In(After(steps), 0, Waiting) && After(steps).requests[0].id == 1
            && In(After(((steps + [Receive(Answer(1, reply))]) + [Hand]) + [Complete(0)]), 0, Returned(Replied(0)))
  {
    var steps := (([] + [Fetch]) + [Register(0)]) + [SendSucceeds(0)];
    AfterMore([], Fetch);
    AfterMore([] + [Fetch], Register(0));
    AfterMore(([] + [Fetch]) + [Register(0)], SendSucceeds(0));
    assert After([]) == Start();
    ResponsesGetThrough(steps, 0, reply);
  }
}
