/**
 * One connection's request router and the loop that serves it: while pairing only
 * `sys.register` is on offer, and a registration is recorded before it is answered.
 */
module Router {
  import opened Common
  import opened Bytes
  import opened Engine

  const SYS_INFO := "sys.info"
  const SYS_REGISTER := "sys.register"
  const FS_METHODS: set<string> := {"fs.list", "fs.read"}
  const PTY_METHODS: set<string> :=
    {"pty.spawn", "pty.input", "pty.resize", "pty.screen", "pty.kill", "pty.list"}

  datatype Request = Request(correlationId: U64, name: string, params: Data)

  datatype Body = Success(result: Data) | Failure(error: ProtoError)

  datatype Response = Response(correlationId: U64, body: Body)

  /** A request, and what the service behind its method answers if it is asked. */
  datatype Call = Call(request: Request, answer: Result<Data, ProtoError>)

  datatype RegisterParams = RegisterParams(deviceName: string, sas: string)

  /** The parts of the daemon the router calls: decoding and encoding, and the digest naming a key. */
  datatype Daemon = Daemon(
    decodeRegister: Data -> Option<RegisterParams>,
    encodeRegistered: DeviceId -> Option<Data>,
    deviceOf: Key32 -> DeviceId)

  datatype PairingState = Pairing(expectedSas: string) | Established

  datatype Effect = NoEffect | Registered(peer: Key32, deviceName: string)

  datatype Session = Session(peer: Key32, grant: Option<DeviceGrant>, state: PairingState)

  datatype Dispatched = Dispatched(session: Session, result: Result<(Data, Effect), ProtoError>)

  datatype Handled = Handled(session: Session, response: Response, effect: Effect)

  function ForPairing(peer: Key32, expectedSas: string): Session {
    Session(peer, None, Pairing(expectedSas))
  }

  function ForDevice(peer: Key32, grant: DeviceGrant): Session {
    Session(peer, Some(grant), Established)
  }

  function Digits(text: string): string {
    if text == [] then []
    else (if '0' <= text[0] <= '9' then [text[0]] else []) + Digits(text[1..])
  }

  function Plain(answer: Result<Data, ProtoError>): Result<(Data, Effect), ProtoError> {
    match answer
    case Ok(bytes) => Ok((bytes, NoEffect))
    case Err(e) => Err(e)
  }

  /** The request is a registration that presents the expected digits. */
  predicate Matches(d: Daemon, expectedSas: string, q: Request) {
    && q.name == SYS_REGISTER
    && d.decodeRegister(q.params).Some?
    && Digits(d.decodeRegister(q.params).value.sas) == expectedSas
  }

  function NewGrant(d: Daemon, peer: Key32): DeviceGrant {
    DeviceGrant(d.deviceOf(peer), DEFAULT_GRANT, false)
  }

  function SysRegister(d: Daemon, s: Session, q: Request): Dispatched {
    var params := d.decodeRegister(q.params);
    if params.None? then Dispatched(s, Err(BadRequest("malformed parameters")))
    else if s.state.Established? then Dispatched(s, Err(BadRequest("not pairing")))
    else if Digits(params.value.sas) != s.state.expectedSas then
      Dispatched(s, Err(BadRequest("pairing code mismatch")))
    else
      var granted := Session(s.peer, Some(NewGrant(d, s.peer)), Established);
      match d.encodeRegistered(d.deviceOf(s.peer))
      case None => Dispatched(granted, Err(Internal("encode")))
      case Some(bytes) => Dispatched(granted, Ok((bytes, Registered(s.peer, params.value.deviceName))))
  }

  function Dispatch(d: Daemon, s: Session, call: Call): Dispatched {
    var name := call.request.name;
    if !(name == SYS_INFO || name == SYS_REGISTER || name in FS_METHODS || name in PTY_METHODS) then
      Dispatched(s, Err(Unsupported(name)))
    else if s.state.Pairing? && name != SYS_REGISTER then Dispatched(s, Err(Denied(FsRead)))
    else if s.state.Established? && name == SYS_REGISTER then
      Dispatched(s, Err(Unsupported("sys.register outside a pairing window")))
    else if name == SYS_REGISTER then SysRegister(d, s, call.request)
    else if name in PTY_METHODS && PtySpawn !in Effective(s.grant) then Dispatched(s, Err(Denied(PtySpawn)))
    else Dispatched(s, Plain(call.answer))
  }

  function Handle(d: Daemon, s: Session, call: Call): Handled {
    var done := Dispatch(d, s, call);
    match done.result
    case Ok((bytes, effect)) => Handled(done.session, Response(call.request.correlationId, Success(bytes)), effect)
    case Err(e) => Handled(done.session, Response(call.request.correlationId, Failure(e)), NoEffect)
  }

  // ----- the router -----

  class Router {
    const daemon: Daemon
    const peer: Key32
    var grant: Option<DeviceGrant>
    var state: PairingState

    ghost function State(): Session
      reads this
    {
      Session(peer, grant, state)
    }

    constructor Resume(daemon: Daemon, peer: Key32, grant: DeviceGrant)
      ensures this.daemon == daemon && State() == ForDevice(peer, grant)
    {
      this.daemon, this.peer, this.grant, this.state := daemon, peer, Some(grant), Established;
    }

    constructor Pair(daemon: Daemon, peer: Key32, expectedSas: string)
      ensures this.daemon == daemon && State() == ForPairing(peer, expectedSas)
    {
      this.daemon, this.peer, this.grant, this.state := daemon, peer, None, Pairing(expectedSas);
    }

    method Answer(call: Call) returns (response: Response, effect: Effect)
      modifies this
      ensures Handled(State(), response, effect) == Handle(daemon, old(State()), call)
    {
      var result := DispatchCall(call);
      match result
      case Ok((bytes, e)) =>
        response, effect := Response(call.request.correlationId, Success(bytes)), e;
      case Err(error) =>
        response, effect := Response(call.request.correlationId, Failure(error)), NoEffect;
    }

    method DispatchCall(call: Call) returns (result: Result<(Data, Effect), ProtoError>)
      modifies this
      ensures Dispatched(State(), result) == Dispatch(daemon, old(State()), call)
    {
      var name := call.request.name;
      if name != SYS_INFO && name != SYS_REGISTER && name !in FS_METHODS && name !in PTY_METHODS {
        return Err(Unsupported(name));
      }
      if state.Pairing? && name != SYS_REGISTER {
        return Err(Denied(FsRead));
      }
      if state.Established? && name == SYS_REGISTER {
        return Err(Unsupported("sys.register outside a pairing window"));
      }
      if name == SYS_REGISTER {
        result := Register(call.request);
        return;
      }
      if name in PTY_METHODS {
        var held := Effective(grant);
        if PtySpawn !in held {
          return Err(Denied(PtySpawn));
        }
      }
      result := Plain(call.answer);
    }

    method Register(q: Request) returns (result: Result<(Data, Effect), ProtoError>)
      modifies this
      ensures Dispatched(State(), result) == SysRegister(daemon, old(State()), q)
    {
      var params := daemon.decodeRegister(q.params);
      if params.None? {
        return Err(BadRequest("malformed parameters"));
      }
      if state.Established? {
        return Err(BadRequest("not pairing"));
      }
      if Digits(params.value.sas) != state.expectedSas {
        return Err(BadRequest("pairing code mismatch"));
      }
      var device := daemon.deviceOf(peer);
      grant := Some(DeviceGrant(device, DEFAULT_GRANT, false));
      state := Established;
      var encoded := daemon.encodeRegistered(device);
      if encoded.None? {
        return Err(Internal("encode"));
      }
      result := Ok((encoded.value, Registered(peer, params.value.deviceName)));
    }
  }

  // ----- serving a connection -----

  /** What arrives, with the outcomes of recording and sending that its handling may need. */
  datatype Incoming =
    | Ask(call: Call, recorded: bool, sent: bool)
    | Ping(beat: U64, sent: bool)
    | Unexpected
    | Malformed
    | StreamFailure

  datatype PairedDevice = PairedDevice(name: string, key: Key32)

  /** What the connection did to the outside, in order. */
  datatype Event =
    | Recorded(device: PairedDevice)
    | Replied(request: Request, response: Response)
    | Pong(beat: U64)

  datatype Served = Served(session: Session, log: seq<Event>, registered: Option<PairedDevice>, failed: bool)

  datatype ConnectionError = ConnectionFailed

  /** What the caller is told: after a failure only that, whatever was registered before it. */
  function Conclusion(c: Served): Result<Option<PairedDevice>, ConnectionError> {
    if c.failed then Err(ConnectionFailed) else Ok(c.registered)
  }

  function Opening(session: Session): Served {
    Served(session, [], None, false)
  }

  function DeviceIn(effect: Effect): PairedDevice
    requires effect.Registered?
  {
    PairedDevice(effect.deviceName, effect.peer)
  }

  function ServeCall(d: Daemon, c: Served, call: Call, recorded: bool, sent: bool): Served {
    var h := Handle(d, c.session, call);
    if h.effect.Registered? && !recorded then c.(session := h.session, failed := true)
    else
      var noted := if h.effect.Registered? then [Recorded(DeviceIn(h.effect))] else [];
      var registered := if h.effect.Registered? then Some(DeviceIn(h.effect)) else c.registered;
      var replied := if sent then [Replied(call.request, h.response)] else [];
      Served(h.session, c.log + noted + replied, registered, !sent)
  }

  /** Once failed, nothing more happens. */
  function Serve(d: Daemon, c: Served, item: Incoming): Served {
    if c.failed then c
    else
      match item
      case Ask(call, recorded, sent) => ServeCall(d, c, call, recorded, sent)
      case Ping(beat, sent) => if sent then c.(log := c.log + [Pong(beat)]) else c.(failed := true)
      case Unexpected => c
      case Malformed => c.(failed := true)
      case StreamFailure => c.(failed := true)
  }

  function ServeAll(d: Daemon, session: Session, items: seq<Incoming>): Served {
    if items == [] then Opening(session)
    else Serve(d, ServeAll(d, session, items[..|items| - 1]), items[|items| - 1])
  }

  lemma {:induction false} FailureIsFinal(d: Daemon, session: Session, items: seq<Incoming>, n: nat)
    requires n <= |items| && ServeAll(d, session, items[..n]).failed
    ensures ServeAll(d, session, items) == ServeAll(d, session, items[..n])
    decreases |items|
  {
    if n < |items| {
      assert items[..|items| - 1][..n] == items[..n];
      FailureIsFinal(d, session, items[..|items| - 1], n);
    } else {
      assert items[..n] == items;
    }
  }

  lemma ServedNext(d: Daemon, session: Session, items: seq<Incoming>, i: nat)
    requires i < |items|
    ensures ServeAll(d, session, items[..i + 1]) == Serve(d, ServeAll(d, session, items[..i]), items[i])
  {
    assert items[..i + 1][..i] == items[..i];
  }

  method ServeConnection(router: Router, items: seq<Incoming>)
    returns (log: seq<Event>, outcome: Result<Option<PairedDevice>, ConnectionError>)
    modifies router
    ensures var c := ServeAll(router.daemon, old(router.State()), items);
            router.State() == c.session && log == c.log && outcome == Conclusion(c)
  {
    log, outcome := [], Err(ConnectionFailed);
    var registered := None;
    ghost var start := router.State();
    for i := 0 to |items|
      invariant outcome == Err(ConnectionFailed)
      invariant ServeAll(router.daemon, start, items[..i]) == Served(router.State(), log, registered, false)
    {
      ServedNext(router.daemon, start, items, i);
      match items[i] {
        case Ask(call, recorded, sent) =>
          var response, effect := router.Answer(call);
          if effect.Registered? {
            if !recorded {
              FailureIsFinal(router.daemon, start, items, i + 1);
              return;
            }
            log := log + [Recorded(PairedDevice(effect.deviceName, effect.peer))];
            registered := Some(PairedDevice(effect.deviceName, effect.peer));
          }
          if !sent {
            FailureIsFinal(router.daemon, start, items, i + 1);
            return;
          }
          log := log + [Replied(call.request, response)];
        case Ping(beat, sent) =>
          if !sent {
            FailureIsFinal(router.daemon, start, items, i + 1);
            return;
          }
          log := log + [Pong(beat)];
        case Unexpected =>
        case _ =>
          FailureIsFinal(router.daemon, start, items, i + 1);
          return;
      }
    }
    assert items[..|items|] == items;
    outcome := Ok(registered);
  }
}
