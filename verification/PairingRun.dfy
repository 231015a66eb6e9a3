/**
 * One pairing window: connections served one after another until one of them reports a device or
 * time is up, and how far "single use" holds of it.
 */
module PairingRun {
  import opened Common
  import opened Engine
  import opened Router
  import opened PairingGate

  /** What accepting gives: time runs out, a handshake fails, or a peer and what its connection brings. */
  datatype Accepted =
    | TimedOut
    | HandshakeFailed
    | Connected(peer: Key32, sas: string, items: seq<Incoming>)

  /** One turn of the loop: the clock at its start, and what is accepted. */
  datatype Visit = Visit(now: nat, accepted: Accepted)

  datatype Verdict = Waiting | Paired(device: PairedDevice) | Expired

  /** How the window stands, and the devices recorded while it was open. */
  datatype Window = Window(verdict: Verdict, recorded: seq<PairedDevice>)

  function Connection(d: Daemon, visit: Visit): Served
    requires visit.accepted.Connected?
  {
    ServeAll(d, ForPairing(visit.accepted.peer, visit.accepted.sas), visit.accepted.items)
  }

  function Turn(d: Daemon, deadline: nat, w: Window, visit: Visit): Window {
    if !w.verdict.Waiting? then w
    else if visit.now >= deadline || visit.accepted.TimedOut? then w.(verdict := Expired)
    else if visit.accepted.HandshakeFailed? then w
    else
      var c := Connection(d, visit);
      var verdict := match Conclusion(c)
        case Ok(Some(device)) => Paired(device)
        case _ => Waiting;
      Window(verdict, w.recorded + Devices(c.log))
  }

  function Run(d: Daemon, deadline: nat, visits: seq<Visit>): Window {
    if visits == [] then Window(Waiting, [])
    else Turn(d, deadline, Run(d, deadline, visits[..|visits| - 1]), visits[|visits| - 1])
  }

  lemma {:induction false} ClosedIsFinal(d: Daemon, deadline: nat, visits: seq<Visit>, n: nat)
    requires n <= |visits| && !Run(d, deadline, visits[..n]).verdict.Waiting?
    ensures Run(d, deadline, visits) == Run(d, deadline, visits[..n])
    decreases |visits|
  {
    if n < |visits| {
      assert visits[..|visits| - 1][..n] == visits[..n];
      ClosedIsFinal(d, deadline, visits[..|visits| - 1], n);
    } else {
      assert visits[..n] == visits;
    }
  }

  method Serving(d: Daemon, peer: Key32, sas: string, items: seq<Incoming>)
    returns (log: seq<Event>, outcome: Result<Option<PairedDevice>, ConnectionError>)
    ensures var c := ServeAll(d, ForPairing(peer, sas), items); log == c.log && outcome == Conclusion(c)
  {
    var router := new Router.Pair(d, peer, sas);
    log, outcome := ServeConnection(router, items);
  }

  method RunPairing(d: Daemon, deadline: nat, visits: seq<Visit>)
    returns (verdict: Verdict, recorded: seq<PairedDevice>)
    ensures Window(verdict, recorded) == Run(d, deadline, visits)
  {
    verdict, recorded := Waiting, [];
    for i := 0 to |visits|
      invariant verdict == Waiting && Window(verdict, recorded) == Run(d, deadline, visits[..i])
    {
      assert visits[..i + 1][..i] == visits[..i];
      if visits[i].now >= deadline {
        ClosedIsFinal(d, deadline, visits, i + 1);
        verdict := Expired;
        return;
      }
      match visits[i].accepted {
        case TimedOut =>
          ClosedIsFinal(d, deadline, visits, i + 1);
          verdict := Expired;
          return;
        case HandshakeFailed =>
        case Connected(peer, sas, items) =>
          var log, outcome := Serving(d, peer, sas, items);
          recorded := recorded + Devices(log);
          if outcome.Ok? && outcome.value.Some? {
            ClosedIsFinal(d, deadline, visits, i + 1);
            verdict := Paired(outcome.value.value);
            return;
          }
      }
    }
    assert visits[..|visits|] == visits;
  }

  // ----- which turns come, and what each does -----

  predicate Expires(deadline: nat, visit: Visit) {
    visit.now >= deadline || visit.accepted.TimedOut?
  }

  /** The connection records its peer. */
  predicate Records(d: Daemon, visit: Visit) {
    visit.accepted.Connected? && Devices(Connection(d, visit).log) != []
  }

  /** The connection records its peer and then fails. */
  predicate Hides(d: Daemon, visit: Visit) {
    Records(d, visit) && Connection(d, visit).failed
  }

  /** The connection records its peer and stays whole. */
  predicate Tells(d: Daemon, visit: Visit) {
    Records(d, visit) && !Connection(d, visit).failed
  }

  /** The turn does not end the window. */
  predicate GoesOn(d: Daemon, deadline: nat, visit: Visit) {
    !Expires(deadline, visit) && !Tells(d, visit)
  }

  /** Turn `i` comes, and time is not up: no earlier turn ended the window. */
  predicate Reached(d: Daemon, deadline: nat, visits: seq<Visit>, i: nat) {
    i < |visits| && !Expires(deadline, visits[i]) &&
    forall j :: 0 <= j < i ==> GoesOn(d, deadline, visits[j])
  }

  function NewDevices(d: Daemon, deadline: nat, visit: Visit): seq<PairedDevice> {
    if !Expires(deadline, visit) && visit.accepted.Connected? then Devices(Connection(d, visit).log) else []
  }

  lemma TurnActs(d: Daemon, deadline: nat, w: Window, visit: Visit)
    requires w.verdict.Waiting?
    ensures var v, added := Turn(d, deadline, w, visit), NewDevices(d, deadline, visit);
            && v.recorded == w.recorded + added && |added| <= 1
            && (added != [] <==> !Expires(deadline, visit) && Records(d, visit))
            && (v.verdict.Expired? <==> Expires(deadline, visit))
            && (v.verdict.Paired? <==> !Expires(deadline, visit) && Tells(d, visit))
            && (v.verdict.Paired? ==> added == [v.verdict.device])
  {
    if visit.accepted.Connected? {
      RecordedAtMostOnce(d, ForPairing(visit.accepted.peer, visit.accepted.sas), visit.accepted.items);
    }
    assert w.recorded + [] == w.recorded;
  }

  lemma {:induction false} WaitingExactly(d: Daemon, deadline: nat, visits: seq<Visit>)
    ensures Run(d, deadline, visits).verdict.Waiting? <==>
            forall j :: 0 <= j < |visits| ==> GoesOn(d, deadline, visits[j])
  {
    if visits != [] {
      var earlier, last := visits[..|visits| - 1], visits[|visits| - 1];
      WaitingExactly(d, deadline, earlier);
      assert forall j :: 0 <= j < |earlier| ==> visits[j] == earlier[j];
      if Run(d, deadline, earlier).verdict.Waiting? {
        TurnActs(d, deadline, Run(d, deadline, earlier), last);
      }
    }
  }

  /** A turn of the earlier visits comes among all of them too, and the last comes if those left it open. */
  lemma ReachedEarlier(d: Daemon, deadline: nat, visits: seq<Visit>, i: nat)
    requires i < |visits|
    ensures i < |visits| - 1 ==>
              (Reached(d, deadline, visits, i) <==> Reached(d, deadline, visits[..|visits| - 1], i))
    ensures i == |visits| - 1 ==>
              (Reached(d, deadline, visits, i) <==>
                 Run(d, deadline, visits[..i]).verdict.Waiting? && !Expires(deadline, visits[i]))
  {
    WaitingExactly(d, deadline, visits[..i]);
    assert forall j :: 0 <= j < i ==> visits[..i][j] == visits[j];
    if i < |visits| - 1 {
      assert forall j :: 0 <= j <= i ==> visits[..|visits| - 1][j] == visits[j];
    }
  }

  /** What the caller takes to be recorded. */
  function Announced(verdict: Verdict): seq<PairedDevice> {
    if verdict.Paired? then [verdict.device] else []
  }

  /** The turn is reached, and its connection records a device the caller is not told of. */
  predicate HiddenAt(d: Daemon, deadline: nat, visits: seq<Visit>, i: nat) {
    Reached(d, deadline, visits, i) && Hides(d, visits[i])
  }

  lemma {:induction false} HiddenShows(d: Daemon, deadline: nat, visits: seq<Visit>, i: nat)
    requires HiddenAt(d, deadline, visits, i)
    ensures var w := Run(d, deadline, visits); |w.recorded| > |Announced(w.verdict)|
  {
    var earlier, last := visits[..|visits| - 1], visits[|visits| - 1];
    ReachedEarlier(d, deadline, visits, i);
    if i < |visits| - 1 {
      HiddenShows(d, deadline, earlier, i);
    }
    if Run(d, deadline, earlier).verdict.Waiting? {
      TurnActs(d, deadline, Run(d, deadline, earlier), last);
    }
  }

  lemma {:induction false} NothingHidden(d: Daemon, deadline: nat, visits: seq<Visit>)
    requires forall i :: 0 <= i < |visits| ==> !HiddenAt(d, deadline, visits, i)
    ensures var w := Run(d, deadline, visits); w.recorded == Announced(w.verdict)
  {
    if visits != [] {
      var earlier, last := visits[..|visits| - 1], visits[|visits| - 1];
      forall i | 0 <= i < |earlier| ensures !HiddenAt(d, deadline, earlier, i) {
        ReachedEarlier(d, deadline, visits, i);
        assert !HiddenAt(d, deadline, visits, i);
      }
      NothingHidden(d, deadline, earlier);
      if Run(d, deadline, earlier).verdict.Waiting? {
        TurnActs(d, deadline, Run(d, deadline, earlier), last);
        ReachedEarlier(d, deadline, visits, |visits| - 1);
        assert !HiddenAt(d, deadline, visits, |visits| - 1);
      }
    }
  }

  /**
   * The devices recorded are the one the caller is told of, or none if it is told of none, exactly
   * when no connection that was served recorded its peer and then failed.
   */
  lemma ToldOfAllExactly(d: Daemon, deadline: nat, visits: seq<Visit>)
    ensures var w := Run(d, deadline, visits);
            w.recorded == Announced(w.verdict) <==>
            forall i :: 0 <= i < |visits| ==> !HiddenAt(d, deadline, visits, i)
  {
    if i :| 0 <= i < |visits| && HiddenAt(d, deadline, visits, i) {
      HiddenShows(d, deadline, visits, i);
    } else {
      NothingHidden(d, deadline, visits);
    }
  }

  // ----- time-boxed -----

  /** No connection accepted at or past the deadline is served: whatever comes then records nothing. */
  lemma {:induction false} NothingPastTheDeadline(d: Daemon, deadline: nat, visits: seq<Visit>, n: nat)
    requires n <= |visits| && forall i :: n <= i < |visits| ==> visits[i].now >= deadline
    ensures Run(d, deadline, visits).recorded == Run(d, deadline, visits[..n]).recorded
    ensures n < |visits| ==> !Run(d, deadline, visits).verdict.Waiting?
    decreases |visits|
  {
    if n == |visits| {
      assert visits[..n] == visits;
    } else {
      var earlier := visits[..|visits| - 1];
      assert earlier[..n] == visits[..n];
      NothingPastTheDeadline(d, deadline, earlier, n);
    }
  }

  /** A handshake that fails costs nothing. */
  lemma FailedHandshakesCostNothing(d: Daemon, deadline: nat, visits: seq<Visit>, now: nat)
    requires now < deadline
    ensures Run(d, deadline, visits + [Visit(now, HandshakeFailed)]) == Run(d, deadline, visits)
  {
    RunMore(d, deadline, visits, Visit(now, HandshakeFailed));
  }

  // ----- single use -----

  /** Turn `i` records a device and its connection fails; turn `j` comes later and records one too. */
  predicate UsedTwice(d: Daemon, deadline: nat, visits: seq<Visit>, i: nat, j: nat) {
    i < j && HiddenAt(d, deadline, visits, i) && Reached(d, deadline, visits, j) && Records(d, visits[j])
  }

  lemma {:induction false} TwiceShows(d: Daemon, deadline: nat, visits: seq<Visit>, i: nat, j: nat)
    requires UsedTwice(d, deadline, visits, i, j)
    ensures |Run(d, deadline, visits).recorded| > 1
  {
    var earlier, last := visits[..|visits| - 1], visits[|visits| - 1];
    ReachedEarlier(d, deadline, visits, i);
    ReachedEarlier(d, deadline, visits, j);
    if j < |visits| - 1 {
      TwiceShows(d, deadline, earlier, i, j);
    } else {
      HiddenShows(d, deadline, earlier, i);
    }
    if Run(d, deadline, earlier).verdict.Waiting? {
      TurnActs(d, deadline, Run(d, deadline, earlier), last);
    }
  }

  lemma {:induction false} TwiceFound(d: Daemon, deadline: nat, visits: seq<Visit>) returns (i: nat, j: nat)
    requires |Run(d, deadline, visits).recorded| > 1
    ensures UsedTwice(d, deadline, visits, i, j)
  {
    var earlier, last := visits[..|visits| - 1], visits[|visits| - 1];
    var before := Run(d, deadline, earlier);
    if before.verdict.Waiting? {
      TurnActs(d, deadline, before, last);
    }
    if |before.recorded| > 1 {
      i, j := TwiceFound(d, deadline, earlier);
      ReachedEarlier(d, deadline, visits, j);
    } else {
      ToldOfAllExactly(d, deadline, earlier);
      i :| 0 <= i < |earlier| && HiddenAt(d, deadline, earlier, i);
      j := |earlier|;
      ReachedEarlier(d, deadline, visits, j);
    }
    ReachedEarlier(d, deadline, visits, i);
  }

  /**
   * One window records more than one device exactly when a connection that recorded its peer
   * failed, and a later one recorded its own.
   */
  lemma SingleUseExactly(d: Daemon, deadline: nat, visits: seq<Visit>)
    ensures |Run(d, deadline, visits).recorded| > 1 <==>
            exists i: nat, j: nat :: UsedTwice(d, deadline, visits, i, j)
  {
    if i: nat, j: nat :| UsedTwice(d, deadline, visits, i, j) {
      TwiceShows(d, deadline, visits, i, j);
    } else if |Run(d, deadline, visits).recorded| > 1 {
      var i, j := TwiceFound(d, deadline, visits);
    }
  }

  /** A registration whose reply is lost, or not. */
  function Registering(peer: Key32, sas: string, call: Call, sent: bool, now: nat): Visit {
    Visit(now, Connected(peer, sas, [Ask(call, true, sent)]))
  }

  lemma TurnRegisters(d: Daemon, deadline: nat, w: Window, peer: Key32, sas: string, call: Call, sent: bool)
    requires w.verdict.Waiting? && WouldRegister(d, peer, sas, call) && deadline > 0
    ensures var device := DeviceFor(d, peer, call);
            Turn(d, deadline, w, Registering(peer, sas, call, sent, 0)) ==
            Window(if sent then Paired(device) else Waiting, w.recorded + [device])
  {
    LostReplyHidesTheDevice(d, peer, sas, call, sent);
  }

  lemma RunMore(d: Daemon, deadline: nat, visits: seq<Visit>, visit: Visit)
    ensures Run(d, deadline, visits + [visit]) == Turn(d, deadline, Run(d, deadline, visits), visit)
  {
    assert (visits + [visit])[..|visits|] == visits;
  }

  lemma RunTwo(d: Daemon, deadline: nat, a: Visit, b: Visit)
    ensures Run(d, deadline, [a, b]) == Turn(d, deadline, Turn(d, deadline, Window(Waiting, []), a), b)
  {
    RunMore(d, deadline, [], a);
    RunMore(d, deadline, [a], b);
    assert [] + [a] == [a] && [a] + [b] == [a, b];
  }

  /**
   * Two peers can register in one window: the reply to the first is lost, and the caller is told of
   * the second alone. Without the second it is told that no device registered.
   */
  lemma TwoInOneWindow(d: Daemon, p: Key32, sas: string, call: Call, q: Key32, sas': string, call': Call,
          deadline: nat)
    requires WouldRegister(d, p, sas, call) && WouldRegister(d, q, sas', call') && p != q && deadline > 0
    ensures var first, second := Registering(p, sas, call, false, 0), Registering(q, sas', call', true, 0);
            && Run(d, deadline, [first, second]) ==
               Window(Paired(DeviceFor(d, q, call')), [DeviceFor(d, p, call), DeviceFor(d, q, call')])
            && Run(d, deadline, [first, Visit(0, TimedOut)]) == Window(Expired, [DeviceFor(d, p, call)])
  {
    var first, second := Registering(p, sas, call, false, 0), Registering(q, sas', call', true, 0);
    var held := Window(Waiting, [DeviceFor(d, p, call)]);
    TurnRegisters(d, deadline, Window(Waiting, []), p, sas, call, false);
    TurnRegisters(d, deadline, held, q, sas', call', true);
    RunTwo(d, deadline, first, second);
    RunTwo(d, deadline, first, Visit(0, TimedOut));
    assert [] + [DeviceFor(d, p, call)] == held.recorded;
    assert held.recorded + [DeviceFor(d, q, call')] == [DeviceFor(d, p, call), DeviceFor(d, q, call')];
  }
}
