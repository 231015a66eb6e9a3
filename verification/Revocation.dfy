/**
 * Revocation against connections that are already open: accepting, registering, serving,
 * disconnecting and sweeping, interleaved in every way with pairing and revoking.
 *
 * A connection handle shared between its task and the registry is an index into `conns`.
 */
module Revocation {
  import opened Common

  /** Accepted by the handshake; pushed on the registry; served by its task; its task over; forgotten. */
  datatype Stage = Accepted | Listed | Serving | Over | Gone

  datatype Conn = Conn(device: DeviceId, open: bool, stage: Stage)

  // ----- the handshake and the registry, as the daemon runs them -----

  /** Every key is compared, so that time does not tell which matched; no readable list admits nobody. */
  method Authorize(keys: Option<seq<DeviceId>>, peer: DeviceId) returns (ok: bool)
    ensures ok <==> keys.Some? && peer in keys.value
  {
    if keys.None? {
      return false;
    }
    ok := false;
    for i := 0 to |keys.value|
      invariant ok <==> peer in keys.value[..i]
    {
      ok := ok || keys.value[i] == peer;
    }
    assert keys.value[..|keys.value|] == keys.value;
  }

  predicate Survives(conns: seq<Conn>, active: set<DeviceId>, i: nat) {
    i < |conns| && conns[i].open && conns[i].device in active
  }

  /** The registry after a sweep. */
  function Retained(conns: seq<Conn>, active: set<DeviceId>, registry: seq<nat>): (r: seq<nat>)
    ensures forall i :: i in r <==> i in registry && Survives(conns, active, i)
  {
    if registry == [] then []
    else
      var before := Retained(conns, active, registry[..|registry| - 1]);
      var last := registry[|registry| - 1];
      assert registry == registry[..|registry| - 1] + [last];
      if Survives(conns, active, last) then before + [last] else before
  }

  /** The connections after a sweep: those of the registry whose device is not active are closed. */
  function Swept(conns: seq<Conn>, active: set<DeviceId>, registry: seq<nat>): (r: seq<Conn>)
    ensures |r| == |conns|
    ensures forall i :: 0 <= i < |conns| ==>
              r[i] == if i in registry && conns[i].device !in active then conns[i].(open := false) else conns[i]
  {
    seq(|conns|, i requires 0 <= i < |conns| =>
      if i in registry && conns[i].device !in active then conns[i].(open := false) else conns[i])
  }

  /** A sweep that has done `done` and now meets `c`. */
  lemma SweepStep(conns: seq<Conn>, active: set<DeviceId>, done: seq<nat>, c: nat)
    requires c < |conns|
    ensures var so := Swept(conns, active, done);
            && Retained(conns, active, done + [c]) ==
                 (if so[c].open && so[c].device in active then Retained(conns, active, done) + [c]
                  else Retained(conns, active, done))
            && Swept(conns, active, done + [c]) ==
                 (if so[c].open && so[c].device !in active then so[c := so[c].(open := false)] else so)
  {
    var so := Swept(conns, active, done);
    assert (done + [c])[..|done|] == done;
    var then_ := if so[c].open && so[c].device !in active then so[c := so[c].(open := false)] else so;
    forall i | 0 <= i < |conns|
      ensures Swept(conns, active, done + [c])[i] == then_[i]
    {
    }
  }

  /** The registry without one connection; the same handle, not merely an equal one. */
  function Without(registry: seq<nat>, c: nat): (r: seq<nat>)
    ensures forall i :: i in r <==> i in registry && i != c
  {
    if registry == [] then []
    else
      var before := Without(registry[..|registry| - 1], c);
      var last := registry[|registry| - 1];
      assert registry == registry[..|registry| - 1] + [last];
      if last == c then before else before + [last]
  }

  // ----- the system -----

  datatype Standing = Active | Revoked

  datatype State = State(
    devices: map<DeviceId, Standing>,
    conns: seq<Conn>,
    registry: seq<nat>,
    reading: Option<set<DeviceId>>)

  datatype Step =
    | Pair(device: DeviceId)
    | Revoke(device: DeviceId)
    | Accept(device: DeviceId)
    | Register(conn: nat)
    | Spawn(conn: nat)
    | Disconnect(conn: nat)
    | Finish(conn: nat)
    | Deregister(conn: nat)
    | SweepRead
    | SweepApply

  function Start(): State {
    State(map[], [], [], None)
  }

  predicate IsActive(s: State, d: DeviceId) {
    d in s.devices && s.devices[d] == Active
  }

  predicate IsRevoked(s: State, d: DeviceId) {
    d in s.devices && s.devices[d] == Revoked
  }

  function ActiveDevices(s: State): set<DeviceId> {
    set d | d in s.devices && s.devices[d] == Active
  }

  predicate At(s: State, c: nat, stage: Stage) {
    c < |s.conns| && s.conns[c].stage == stage
  }

  function MoveTo(s: State, c: nat, stage: Stage): State
    requires c < |s.conns|
  {
    s.(conns := s.conns[c := s.conns[c].(stage := stage)])
  }

  /** One step; a step that is not possible now changes nothing. */
  function Next(s: State, step: Step): State {
    match step
    case Pair(d) =>
      // a known key is refused, even a revoked one
      if d in s.devices then s else s.(devices := s.devices[d := Active])
    case Revoke(d) =>
      if IsActive(s, d) then s.(devices := s.devices[d := Revoked]) else s
    case Accept(d) =>
      if IsActive(s, d) then s.(conns := s.conns + [Conn(d, true, Accepted)]) else s
    case Register(c) =>
      if At(s, c, Accepted) then MoveTo(s, c, Listed).(registry := s.registry + [c]) else s
    case Spawn(c) =>
      if At(s, c, Listed) then MoveTo(s, c, Serving) else s
    case Disconnect(c) =>
      if c < |s.conns| then s.(conns := s.conns[c := s.conns[c].(open := false)]) else s
    case Finish(c) =>
      if At(s, c, Serving) then MoveTo(s, c, Over) else s
    case Deregister(c) =>
      if At(s, c, Over) then MoveTo(s, c, Gone).(registry := Without(s.registry, c)) else s
    case SweepRead =>
      if s.reading.None? then s.(reading := Some(ActiveDevices(s))) else s
    case SweepApply =>
      match s.reading
      case None => s
      case Some(active) =>
        State(s.devices, Swept(s.conns, active, s.registry), Retained(s.conns, active, s.registry), None)
  }

  function After(s: State, steps: seq<Step>): State {
    if steps == [] then s else Next(After(s, steps[..|steps| - 1]), steps[|steps| - 1])
  }

  lemma {:induction false} AfterInParts(s: State, a: seq<Step>, b: seq<Step>)
    ensures After(s, a + b) == After(After(s, a), b)
  {
    if b == [] {
      assert a + b == a;
    } else {
      assert (a + b)[..|a + b| - 1] == a + b[..|b| - 1];
      AfterInParts(s, a, b[..|b| - 1]);
    }
  }

  // ----- what every interleaving keeps -----

  /** An open connection that was registered and not yet forgotten is in the registry. */
  predicate Covered(s: State, c: nat)
    requires c < |s.conns|
  {
    var stage := s.conns[c].stage;
    s.conns[c].open && (stage == Listed || stage == Serving || stage == Over) ==> c in s.registry
  }

  predicate Inv(s: State) {
    && (forall c :: c in s.registry ==> c < |s.conns| && s.conns[c].stage != Accepted && s.conns[c].stage != Gone)
    && (forall c :: 0 <= c < |s.conns| ==> Covered(s, c) && s.conns[c].device in s.devices)
    && (s.reading.Some? ==> forall d :: d in s.reading.value ==> d in s.devices)
  }

  lemma StepKeeps(s: State, step: Step)
    requires Inv(s)
    ensures Inv(Next(s, step))
  {
    var t := Next(s, step);
    forall c | 0 <= c < |t.conns|
      ensures Covered(t, c) && t.conns[c].device in t.devices
    {
      if c < |s.conns| {
        assert Covered(s, c);
      }
    }
  }

  // ----- the listener's side of it -----

  /** The listener's own steps; pairing, revoking, peers and connection tasks act on the same state. */
  class Listener {
    var devices: map<DeviceId, Standing>
    var conns: seq<Conn>
    var registry: seq<nat>
    var reading: Option<set<DeviceId>>

    ghost function View(): State
      reads this
    {
      State(devices, conns, registry, reading)
    }

    constructor ()
      ensures View() == Start()
    {
      devices, conns, registry, reading := map[], [], [], None;
    }

    /** A handshake is accepted exactly from an active device, and only then is there a connection. */
    method AcceptPeer(d: DeviceId) returns (c: Option<nat>)
      requires Inv(View())
      modifies this
      ensures View() == Next(old(View()), Accept(d)) && Inv(View())
      ensures c == if old(IsActive(View(), d)) then Some(old(|conns|)) else None
    {
      StepKeeps(View(), Accept(d));
      if d in devices && devices[d] == Active {
        c := Some(|conns|);
        conns := conns + [Conn(d, true, Accepted)];
      } else {
        c := None;
      }
    }

    /** Registered before it is served, so that it is in the registry from its first moment of service. */
    method Enlist(c: nat)
      requires Inv(View()) && At(View(), c, Accepted)
      modifies this
      ensures View() == Next(Next(old(View()), Register(c)), Spawn(c)) && Inv(View())
      ensures At(View(), c, Serving) && c in registry
    {
      StepKeeps(View(), Register(c));
      registry := registry + [c];
      conns := conns[c := conns[c].(stage := Listed)];
      StepKeeps(View(), Spawn(c));
      conns := conns[c := conns[c].(stage := Serving)];
    }

    method Forget(c: nat)
      requires Inv(View()) && At(View(), c, Over)
      modifies this
      ensures View() == Next(old(View()), Deregister(c)) && Inv(View())
    {
      StepKeeps(View(), Deregister(c));
      var kept := [];
      for k := 0 to |registry|
        invariant View() == old(View())
        invariant kept == Without(registry[..k], c)
      {
        assert registry[..k + 1][..k] == registry[..k];
        if registry[k] != c {
          kept := kept + [registry[k]];
        }
      }
      assert registry[..|registry|] == registry;
      registry := kept;
      conns := conns[c := conns[c].(stage := Gone)];
    }

    /** An unreadable device list is no evidence against anyone: the round is skipped. */
    method ReadActive(readable: bool)
      requires Inv(View()) && reading == None
      modifies this
      ensures View() == (if readable then Next(old(View()), SweepRead) else old(View())) && Inv(View())
    {
      StepKeeps(View(), SweepRead);
      if readable {
        reading := Some(set d | d in devices && devices[d] == Active);
      }
    }

    /** The retain over the registry: closed connections go, inactive devices' are closed and go. */
    method Retain(active: set<DeviceId>) returns (kept: seq<nat>)
      requires forall c :: c in registry ==> c < |conns|
      modifies this`conns
      ensures kept == Retained(old(conns), active, registry)
      ensures conns == Swept(old(conns), active, registry)
    {
      kept := [];
      for k := 0 to |registry|
        invariant kept == Retained(old(conns), active, registry[..k])
        invariant conns == Swept(old(conns), active, registry[..k])
      {
        var c := registry[k];
        assert c in registry;
        assert registry[..k + 1] == registry[..k] + [c];
        SweepStep(old(conns), active, registry[..k], c);
        if conns[c].open {
          if conns[c].device in active {
            kept := kept + [c];
          } else {
            conns := conns[c := conns[c].(open := false)];
          }
        }
      }
      assert registry[..|registry|] == registry;
    }

    method Sweep()
      requires Inv(View()) && reading.Some?
      modifies this
      ensures View() == Next(old(View()), SweepApply) && Inv(View())
    {
      StepKeeps(View(), SweepApply);
      var kept := Retain(reading.value);
      registry := kept;
      reading := None;
    }
  }

  lemma {:induction false} RunKeeps(s: State, steps: seq<Step>)
    requires Inv(s)
    ensures Inv(After(s, steps))
  {
    if steps != [] {
      RunKeeps(s, steps[..|steps| - 1]);
      StepKeeps(After(s, steps[..|steps| - 1]), steps[|steps| - 1]);
    }
  }

  /** No connection is ever served outside the sweep's reach. */
  lemma ServedIsRegistered(steps: seq<Step>, c: nat)
    requires At(After(Start(), steps), c, Serving) && After(Start(), steps).conns[c].open
    ensures c in After(Start(), steps).registry
  {
    RunKeeps(Start(), steps);
    assert Covered(After(Start(), steps), c);
  }

  /** What time never undoes: connections stay of their device, closed ones closed, registered ones registered. */
  ghost predicate Progressed(s: State, t: State) {
    && |s.conns| <= |t.conns|
    && (forall c :: 0 <= c < |s.conns| ==>
          && t.conns[c].device == s.conns[c].device
          && (t.conns[c].open ==> s.conns[c].open)
          && (t.conns[c].stage == Accepted ==> s.conns[c].stage == Accepted))
    && (forall d :: IsRevoked(s, d) ==> IsRevoked(t, d))
    && (forall c :: |s.conns| <= c < |t.conns| ==> !IsRevoked(s, t.conns[c].device))
  }

  lemma StepProgresses(s: State, step: Step)
    ensures Progressed(s, Next(s, step))
  {
  }

  lemma {:induction false} RunProgresses(s: State, steps: seq<Step>)
    ensures Progressed(s, After(s, steps))
  {
    if steps != [] {
      RunProgresses(s, steps[..|steps| - 1]);
      StepProgresses(After(s, steps[..|steps| - 1]), steps[|steps| - 1]);
    }
  }

  lemma OnlyApplyEndsReading(s: State, step: Step)
    requires s.reading.Some? && step != SweepApply
    ensures Next(s, step).reading == s.reading
  {
  }

  lemma {:induction false} ReadingStands(s: State, steps: seq<Step>)
    requires s.reading.Some? && SweepApply !in steps
    ensures After(s, steps).reading == s.reading
  {
    if steps != [] {
      ReadingStands(s, steps[..|steps| - 1]);
      assert steps[|steps| - 1] in steps;
      OnlyApplyEndsReading(After(s, steps[..|steps| - 1]), steps[|steps| - 1]);
    }
  }

  /**
   * Of the open connections a sweep closes exactly those that are registered when it acts and
   * whose device was not active when it read the list, whatever happened in between.
   */
  lemma SweepClosesExactly(before: seq<Step>, between: seq<Step>, c: nat)
    requires After(Start(), before).reading.None? && SweepApply !in between
    requires var s := After(Start(), before + [SweepRead] + between);
             c < |s.conns| && s.conns[c].open
    ensures var s := After(Start(), before + [SweepRead] + between);
            Next(s, SweepApply).conns[c].open <==>
            || s.conns[c].stage == Accepted || s.conns[c].stage == Gone
            || IsActive(After(Start(), before), s.conns[c].device)
  {
    var read := Next(After(Start(), before), SweepRead);
    var s := After(Start(), before + [SweepRead] + between);
    assert before + [SweepRead] + between == (before + [SweepRead]) + between;
    assert (before + [SweepRead])[..|before|] == before;
    AfterInParts(Start(), before + [SweepRead], between);
    ReadingStands(read, between);
    RunKeeps(Start(), before + [SweepRead] + between);
    assert Covered(s, c);
  }

  // ----- what each step may change -----

  /** A sweep acting now finds connection `c` registered and its device not among those it read. */
  predicate SweepCloses(s: State, step: Step, c: nat) {
    && step == SweepApply && s.reading.Some? && c < |s.conns|
    && c in s.registry && s.conns[c].device !in s.reading.value
  }

  /** A connection moves from stage to stage, and closes only when it is disconnected or swept. */
  lemma ConnectionMoves(s: State, step: Step, c: nat)
    requires c < |s.conns|
    ensures c < |Next(s, step).conns|
    ensures Next(s, step).conns[c].open <==> s.conns[c].open && step != Disconnect(c) && !SweepCloses(s, step, c)
    ensures Next(s, step).conns[c].stage ==
            if step == Register(c) && s.conns[c].stage == Accepted then Listed
            else if step == Spawn(c) && s.conns[c].stage == Listed then Serving
            else if step == Finish(c) && s.conns[c].stage == Serving then Over
            else if step == Deregister(c) && s.conns[c].stage == Over then Gone
            else s.conns[c].stage
  {
  }

  /** A device is active once paired if it was unknown, revoked once revoked if it was active, and so for ever. */
  lemma StandingMoves(s: State, step: Step, d: DeviceId)
    ensures IsActive(Next(s, step), d) <==>
            (IsActive(s, d) && step != Revoke(d)) || (step == Pair(d) && d !in s.devices)
    ensures IsRevoked(Next(s, step), d) <==> IsRevoked(s, d) || (step == Revoke(d) && IsActive(s, d))
  {
  }

  /** Step `n` of the run closed the connection. */
  predicate ClosedBy(steps: seq<Step>, n: nat, c: nat) {
    n < |steps| &&
    var s := After(Start(), steps[..n]);
    c < |s.conns| && s.conns[c].open && (steps[n] == Disconnect(c) || SweepCloses(s, steps[n], c))
  }

  lemma {:induction false} ClosingFound(steps: seq<Step>, c: nat) returns (n: nat)
    requires c < |After(Start(), steps).conns| && !After(Start(), steps).conns[c].open
    ensures ClosedBy(steps, n, c)
  {
    var before := steps[..|steps| - 1];
    var s := After(Start(), before);
    if c < |s.conns| {
      ConnectionMoves(s, steps[|steps| - 1], c);
    }
    if c < |s.conns| && !s.conns[c].open {
      n := ClosingFound(before, c);
      assert before[..n] == steps[..n];
    } else {
      OpensOpen(s, steps[|steps| - 1], c);
      n := |steps| - 1;
    }
  }

  lemma OpensOpen(s: State, step: Step, c: nat)
    ensures |s.conns| <= c < |Next(s, step).conns| ==> Next(s, step).conns[c].open
  {
  }

  lemma {:induction false} ClosedStays(steps: seq<Step>, n: nat, c: nat)
    requires ClosedBy(steps, n, c)
    ensures c < |After(Start(), steps).conns| && !After(Start(), steps).conns[c].open
  {
    var before := steps[..|steps| - 1];
    if n < |steps| - 1 {
      assert before[..n] == steps[..n];
      ClosedStays(before, n, c);
    }
    ConnectionMoves(After(Start(), before), steps[|steps| - 1], c);
  }

  /**
   * Over any run a connection is closed exactly when it was disconnected while open, or a sweep
   * met it registered with its device not among the active ones it had read.
   */
  lemma ClosedExactly(steps: seq<Step>, c: nat)
    requires c < |After(Start(), steps).conns|
    ensures !After(Start(), steps).conns[c].open <==> exists n: nat :: ClosedBy(steps, n, c)
  {
    if !After(Start(), steps).conns[c].open {
      var n := ClosingFound(steps, c);
    } else if n: nat :| ClosedBy(steps, n, c) {
      ClosedStays(steps, n, c);
    }
  }

  /** After a sweep the registry holds just those it held that are open and were active; no handle else is lost. */
  lemma SweepKeepsExactly(steps: seq<Step>, c: nat)
    requires After(Start(), steps).reading.Some?
    ensures var s := After(Start(), steps);
            c in Next(s, SweepApply).registry <==>
            && c in s.registry && c < |s.conns|
            && s.conns[c].open && s.conns[c].device in s.reading.value
  {
  }

  predicate ClearOf(s: State, d: DeviceId) {
    forall c :: 0 <= c < |s.conns| && s.conns[c].open && s.conns[c].device == d ==> s.conns[c].stage == Gone
  }

  lemma StaysRevoked(before: seq<Step>, more: seq<Step>, d: DeviceId)
    requires IsRevoked(After(Start(), before), d)
    ensures IsRevoked(After(Start(), before + more), d)
  {
    AfterInParts(Start(), before, more);
    RunProgresses(After(Start(), before), more);
  }

  /** An open connection of this device that is not yet registered. */
  predicate Pending(s: State, d: DeviceId) {
    exists c :: 0 <= c < |s.conns| && s.conns[c].device == d && s.conns[c].open && s.conns[c].stage == Accepted
  }

  /** A sweep that read after the revocation leaves the device nothing exactly when no handshake of its is pending. */
  lemma SweptClear(before: seq<Step>, between: seq<Step>, d: DeviceId)
    requires IsRevoked(After(Start(), before), d) && After(Start(), before).reading.None?
    requires SweepApply !in between
    ensures var s := After(Start(), before + [SweepRead] + between);
            ClearOf(Next(s, SweepApply), d) <==> !Pending(s, d)
  {
    var s := After(Start(), before + [SweepRead] + between);
    var t := Next(s, SweepApply);
    StepProgresses(s, SweepApply);
    forall c | 0 <= c < |s.conns| && s.conns[c].device == d && s.conns[c].open
      ensures t.conns[c].open <==> s.conns[c].stage == Accepted || s.conns[c].stage == Gone
      ensures t.conns[c].stage == s.conns[c].stage
    {
      SweepClosesExactly(before, between, c);
    }
  }

  /**
   * Once a device is revoked, a whole sweep after that, with none of its handshakes still waiting
   * to be registered when the sweep acts, leaves it no connection, then and for ever after.
   */
  lemma RevocationReachesOpenSessions(before: seq<Step>, between: seq<Step>, later: seq<Step>, d: DeviceId)
    requires IsRevoked(After(Start(), before), d) && After(Start(), before).reading.None?
    requires SweepApply !in between && !Pending(After(Start(), before + [SweepRead] + between), d)
    ensures ClearOf(After(Start(), before + [SweepRead] + between + [SweepApply] + later), d)
  {
    var run := before + [SweepRead] + between;
    SweptClear(before, between, d);
    assert run == before + ([SweepRead] + between);
    StaysRevoked(before, [SweepRead] + between, d);
    StaysRevoked(run, [SweepApply], d);
    assert (run + [SweepApply])[..|run|] == run;
    AfterInParts(Start(), run + [SweepApply], later);
    StaysClear(After(Start(), run + [SweepApply]), later, d);
  }

  lemma {:induction false} StaysClear(s: State, later: seq<Step>, d: DeviceId)
    requires IsRevoked(s, d) && ClearOf(s, d)
    ensures IsRevoked(After(s, later), d) && ClearOf(After(s, later), d)
  {
    if later != [] {
      var t, step := After(s, later[..|later| - 1]), later[|later| - 1];
      StaysClear(s, later[..|later| - 1], d);
      StepProgresses(t, step);
    }
  }

  lemma AfterThree(s: State, a: Step, b: Step, c: Step)
    ensures After(s, [a, b, c]) == Next(Next(Next(s, a), b), c)
  {
    assert [a, b, c][..2] == [a, b] && [a, b][..1] == [a] && [a][..0] == [];
    assert After(s, [a]) == Next(s, a);
    assert After(s, [a, b]) == Next(After(s, [a]), b);
  }

  /** A handshake that finished before the revocation and is registered after the sweep slips past that sweep. */
  lemma UnregisteredSlipsPast(d: DeviceId)
    ensures var s := After(After(Start(), [Pair(d), Accept(d), Revoke(d)]), [SweepRead, SweepApply, Register(0)]);
            IsRevoked(s, d) && s.conns == [Conn(d, true, Listed)]
  {
    AfterThree(Start(), Pair(d), Accept(d), Revoke(d));
    var s := After(Start(), [Pair(d), Accept(d), Revoke(d)]);
    assert s == State(map[d := Revoked], [Conn(d, true, Accepted)], [], None);
    AfterThree(s, SweepRead, SweepApply, Register(0));
    assert Next(Next(s, SweepRead), SweepApply).conns == [Conn(d, true, Accepted)];
  }

  /** A device paired and connected between a sweep's read and its act is closed though nobody revoked it. */
  lemma FreshDeviceMayBeSwept(d: DeviceId)
    ensures var s := After(After(Start(), [SweepRead, Pair(d), Accept(d)]), [Register(0), Spawn(0), SweepApply]);
            IsActive(s, d) && s.conns == [Conn(d, false, Serving)]
  {
    AfterThree(Start(), SweepRead, Pair(d), Accept(d));
    var s := After(Start(), [SweepRead, Pair(d), Accept(d)]);
    assert ActiveDevices(Start()) == {};
    assert s == State(map[d := Active], [Conn(d, true, Accepted)], [], Some({}));
    AfterThree(s, Register(0), Spawn(0), SweepApply);
    StaleListCloses(s, d);
  }

  lemma StaleListCloses(s: State, d: DeviceId)
    requires s == State(map[d := Active], [Conn(d, true, Accepted)], [], Some({}))
    ensures var t := Next(Next(Next(s, Register(0)), Spawn(0)), SweepApply);
            IsActive(t, d) && t.conns == [Conn(d, false, Serving)]
  {
    var t := Next(Next(s, Register(0)), Spawn(0));
    Enlisted(s, d);
    assert Swept(t.conns, {}, t.registry) == [Conn(d, false, Serving)] by {
      assert 0 in t.registry;
    }
  }

  lemma Enlisted(s: State, d: DeviceId)
    requires s.conns == [Conn(d, true, Accepted)] && s.registry == []
    ensures var t := Next(Next(s, Register(0)), Spawn(0));
            t == State(s.devices, [Conn(d, true, Serving)], [0], s.reading)
  {
    assert Next(s, Register(0)).conns == [Conn(d, true, Listed)];
  }
}
