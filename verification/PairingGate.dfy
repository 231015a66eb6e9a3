/** What holds over every connection, whatever the peer sends and whatever fails. */
module PairingGate {
  import opened Common
  import opened Engine
  import opened Router

  /** Some message was a registration presenting the expected digits. */
  predicate CodePresented(d: Daemon, sas: string, items: seq<Incoming>) {
    exists i :: 0 <= i < |items| && items[i].Ask? && Matches(d, sas, items[i].call.request)
  }

  predicate Refusal(e: Event) {
    e.Pong? || (e.Replied? && e.response.body.Failure?)
  }

  predicate Sealed(c: Served, session: Session) {
    && c.session == session && c.registered == None
    && forall i :: 0 <= i < |c.log| ==> Refusal(c.log[i])
  }

  /**
   * Until the digits are presented a pairing connection has no grant, records nothing, and
   * answers every request with an error.
   */
  lemma {:induction false} NothingBeforeTheCode(d: Daemon, peer: Key32, sas: string, items: seq<Incoming>)
    requires !CodePresented(d, sas, items)
    ensures Sealed(ServeAll(d, ForPairing(peer, sas), items), ForPairing(peer, sas))
  {
    if items != [] {
      var earlier, last := items[..|items| - 1], items[|items| - 1];
      assert forall i :: 0 <= i < |earlier| ==> earlier[i] == items[i];
      NothingBeforeTheCode(d, peer, sas, earlier);
      SealedStep(d, ServeAll(d, ForPairing(peer, sas), earlier), ForPairing(peer, sas), last);
    }
  }

  lemma SealedStep(d: Daemon, c: Served, session: Session, item: Incoming)
    requires Sealed(c, session) && session.state.Pairing?
    requires item.Ask? ==> !Matches(d, session.state.expectedSas, item.call.request)
    ensures Sealed(Serve(d, c, item), session)
  {
    if item.Ask? {
      RefusedUntilMatched(d, session, item.call);
    }
  }

  lemma RefusedUntilMatched(d: Daemon, session: Session, call: Call)
    requires session.state.Pairing? && !Matches(d, session.state.expectedSas, call.request)
    ensures var h := Handle(d, session, call);
            h.session == session && h.response.body.Failure? && h.effect == NoEffect
  {
  }

  /** Presenting the digits on an open pairing connection grants the default capabilities, at once. */
  lemma TheCodeOpens(d: Daemon, peer: Key32, sas: string, call: Call)
    ensures Handle(d, ForPairing(peer, sas), call).session.grant.Some? <==> Matches(d, sas, call.request)
    ensures Matches(d, sas, call.request) ==>
              var h := Handle(d, ForPairing(peer, sas), call);
              && h.session == ForDevice(peer, NewGrant(d, peer))
              && (h.effect.Registered? <==> h.response.body.Success?)
  {
    if !Matches(d, sas, call.request) {
      RefusedUntilMatched(d, ForPairing(peer, sas), call);
    }
  }

  // ----- recording -----

  /** The devices recorded, in order. */
  function Devices(log: seq<Event>): seq<PairedDevice> {
    if log == [] then []
    else
      var last := log[|log| - 1];
      Devices(log[..|log| - 1]) + (if last.Recorded? then [last.device] else [])
  }

  lemma DevicesMore(log: seq<Event>, e: Event)
    ensures Devices(log + [e]) == Devices(log) + (if e.Recorded? then [e.device] else [])
  {
    assert (log + [e])[..|log|] == log;
  }

  /** What is among the devices is in the log, and conversely. */
  lemma {:induction false} DevicesAreLogged(log: seq<Event>, device: PairedDevice)
    ensures device in Devices(log) <==> Recorded(device) in log
  {
    if log != [] {
      DevicesAreLogged(log[..|log| - 1], device);
      assert log == log[..|log| - 1] + [log[|log| - 1]];
    }
  }

  /** A success answers `sys.register` at position `k` only with a recording before it. */
  predicate RecordedFirst(log: seq<Event>, k: nat) {
    k < |log| && log[k].Replied? && log[k].request.name == SYS_REGISTER && log[k].response.body.Success? ==>
      exists j :: 0 <= j < k && log[j].Recorded?
  }

  predicate AllRecordedFirst(log: seq<Event>) {
    forall k :: 0 <= k < |log| ==> RecordedFirst(log, k)
  }

  function OneOrNone(device: Option<PairedDevice>): seq<PairedDevice> {
    if device.Some? then [device.value] else []
  }

  predicate Sound(c: Served) {
    && Devices(c.log) == OneOrNone(c.registered)
    && (c.registered.Some? ==> c.registered.value.key == c.session.peer)
    && (c.session.state.Pairing? ==> c.registered == None)
    && AllRecordedFirst(c.log)
  }

  lemma {:induction false} RecordedAtMostOnce(d: Daemon, session: Session, items: seq<Incoming>)
    ensures Sound(ServeAll(d, session, items)) && ServeAll(d, session, items).session.peer == session.peer
  {
    if items != [] {
      RecordedAtMostOnce(d, session, items[..|items| - 1]);
      SoundStep(d, ServeAll(d, session, items[..|items| - 1]), items[|items| - 1]);
    }
  }

  lemma SoundStep(d: Daemon, c: Served, item: Incoming)
    requires Sound(c)
    ensures Sound(Serve(d, c, item)) && Serve(d, c, item).session.peer == c.session.peer
  {
    match item
    case Ask(call, recorded, sent) => SoundCall(d, c, call, recorded, sent);
    case Ping(beat, sent) => SoundPong(c.log, beat);
    case _ =>
  }

  lemma SoundPong(log: seq<Event>, beat: U64)
    requires AllRecordedFirst(log)
    ensures Devices(log + [Pong(beat)]) == Devices(log) && AllRecordedFirst(log + [Pong(beat)])
  {
    SoundMore(log, Pong(beat));
    assert RecordedFirst(log + [Pong(beat)], |log|);
  }

  lemma SoundMore(log: seq<Event>, e: Event)
    requires AllRecordedFirst(log)
    ensures forall k :: 0 <= k < |log| ==> RecordedFirst(log + [e], k)
    ensures Devices(log + [e]) == Devices(log) + (if e.Recorded? then [e.device] else [])
  {
    DevicesMore(log, e);
    forall k | 0 <= k < |log|
      ensures RecordedFirst(log + [e], k)
    {
      assert (log + [e])[k] == log[k] && RecordedFirst(log, k);
      assert forall j :: 0 <= j < k ==> (log + [e])[j] == log[j];
    }
  }

  lemma SoundRecording(log: seq<Event>, device: PairedDevice)
    requires AllRecordedFirst(log)
    ensures Devices(log + [Recorded(device)]) == Devices(log) + [device]
    ensures AllRecordedFirst(log + [Recorded(device)])
  {
    SoundMore(log, Recorded(device));
    assert RecordedFirst(log + [Recorded(device)], |log|);
  }

  lemma SoundReply(log: seq<Event>, q: Request, response: Response)
    requires AllRecordedFirst(log)
    requires q.name == SYS_REGISTER && response.body.Success? ==> log != [] && log[|log| - 1].Recorded?
    ensures Devices(log + [Replied(q, response)]) == Devices(log)
    ensures AllRecordedFirst(log + [Replied(q, response)])
  {
    var e := Replied(q, response);
    SoundMore(log, e);
    if log != [] {
      assert (log + [e])[|log| - 1] == log[|log| - 1];
    }
    assert RecordedFirst(log + [e], |log|);
  }

  lemma SoundCall(d: Daemon, c: Served, call: Call, recorded: bool, sent: bool)
    requires Sound(c)
    ensures Sound(ServeCall(d, c, call, recorded, sent))
    ensures ServeCall(d, c, call, recorded, sent).session.peer == c.session.peer
  {
    var h := Handle(d, c.session, call);
    RegistrationIsPairing(d, c.session, call);
    if !h.effect.Registered? || recorded {
      SoundLog(c.log, h.effect, sent, call.request, h.response);
    }
  }

  lemma SoundLog(log: seq<Event>, effect: Effect, sent: bool, q: Request, response: Response)
    requires AllRecordedFirst(log)
    requires effect.Registered? <==> q.name == SYS_REGISTER && response.body.Success?
    ensures var noted := if effect.Registered? then [Recorded(DeviceIn(effect))] else [];
            var more := log + noted + (if sent then [Replied(q, response)] else []);
            && Devices(more) == Devices(log) + (if effect.Registered? then [DeviceIn(effect)] else [])
            && AllRecordedFirst(more)
  {
    var noted := log;
    if effect.Registered? {
      noted := log + [Recorded(DeviceIn(effect))];
      SoundRecording(log, DeviceIn(effect));
    }
    if sent {
      SoundReply(noted, q, response);
    }
    assert log + [] == log && noted + [] == noted;
  }

  lemma RegistrationIsPairing(d: Daemon, s: Session, call: Call)
    ensures var h := Handle(d, s, call);
            && (h.effect.Registered? ==> s.state.Pairing? && h.session.state.Established?)
            && (h.effect.Registered? <==> call.request.name == SYS_REGISTER && h.response.body.Success?)
            && (h.effect.Registered? ==> h.effect.peer == s.peer)
            && (s.state.Established? ==> h.session == s) && h.session.peer == s.peer
  {
  }

  /**
   * Over any connection at most one device is recorded, it is the peer itself, and no
   * `sys.register` is answered with success before it. The caller is told of a device exactly when
   * that one was recorded and the connection did not fail afterwards.
   */
  lemma RecordBeforeReply(d: Daemon, session: Session, items: seq<Incoming>, k: nat, device: PairedDevice)
    ensures var c := ServeAll(d, session, items);
            && |Devices(c.log)| <= 1 && (device in Devices(c.log) ==> device.key == session.peer)
            && RecordedFirst(c.log, k)
            && (Conclusion(c) == Ok(Some(device)) <==> !c.failed && Recorded(device) in c.log)
            && (Conclusion(c) == Ok(None) <==> !c.failed && Devices(c.log) == [])
  {
    RecordedAtMostOnce(d, session, items);
    DevicesAreLogged(ServeAll(d, session, items).log, device);
  }

  // ----- which connections record, and which say so -----

  /** The registration would be granted and its result encodes. */
  predicate WouldRegister(d: Daemon, peer: Key32, sas: string, call: Call) {
    Matches(d, sas, call.request) && d.encodeRegistered(d.deviceOf(peer)).Some?
  }

  function DeviceFor(d: Daemon, peer: Key32, call: Call): PairedDevice
    requires d.decodeRegister(call.request.params).Some?
  {
    PairedDevice(d.decodeRegister(call.request.params).value.deviceName, peer)
  }

  /** A device is recorded whether or not the reply can be sent, but only then is the caller told. */
  lemma LostReplyHidesTheDevice(d: Daemon, peer: Key32, sas: string, call: Call, sent: bool)
    requires WouldRegister(d, peer, sas, call)
    ensures var c := ServeAll(d, ForPairing(peer, sas), [Ask(call, true, sent)]);
            && Devices(c.log) == [DeviceFor(d, peer, call)]
            && Conclusion(c) == if sent then Ok(Some(DeviceFor(d, peer, call))) else Err(ConnectionFailed)
  {
    var items := [Ask(call, true, sent)];
    assert items[..0] == [];
    assert ServeAll(d, ForPairing(peer, sas), items) ==
           ServeCall(d, Opening(ForPairing(peer, sas)), call, true, sent);
    RecordedAtMostOnce(d, ForPairing(peer, sas), items);
  }

  /** Nothing is served after this, whatever the request. */
  predicate Breaks(item: Incoming) {
    match item
    case Ask(_, _, sent) => !sent
    case Ping(_, sent) => !sent
    case Unexpected => false
    case _ => true
  }

  predicate Broken(items: seq<Incoming>) {
    exists j :: 0 <= j < |items| && Breaks(items[j])
  }

  /** Item `i` is the first to present the digits, it can be recorded, and the connection held until then. */
  predicate PairsAt(d: Daemon, sas: string, items: seq<Incoming>, i: nat) {
    && i < |items| && items[i].Ask? && Matches(d, sas, items[i].call.request) && items[i].recorded
    && !CodePresented(d, sas, items[..i]) && !Broken(items[..i])
  }

  lemma BrokenLater(items: seq<Incoming>, i: nat)
    requires i < |items|
    ensures Broken(items[i..]) <==> Broken(items[..|items| - 1][i..]) || Breaks(items[|items| - 1])
    ensures i == 0 ==> (Broken(items) <==> Broken(items[i..]))
  {
    var most := items[..|items| - 1];
    assert items[i..][|items| - 1 - i] == items[|items| - 1];
    assert forall j :: 0 <= j < |most| - i ==> most[i..][j] == items[i..][j];
    if j :| 0 <= j < |items[i..]| && Breaks(items[i..][j]) {
      assert j < |most| - i ==> Breaks(most[i..][j]);
    }
  }

  lemma {:induction false} BeforeTheCode(d: Daemon, peer: Key32, sas: string, items: seq<Incoming>)
    requires !CodePresented(d, sas, items)
    ensures var c := ServeAll(d, ForPairing(peer, sas), items);
            Sealed(c, ForPairing(peer, sas)) && (c.failed <==> Broken(items))
  {
    NothingBeforeTheCode(d, peer, sas, items);
    if items != [] {
      var earlier, last := items[..|items| - 1], items[|items| - 1];
      assert forall i :: 0 <= i < |earlier| ==> earlier[i] == items[i];
      BeforeTheCode(d, peer, sas, earlier);
      BrokenLater(items, 0);
      assert earlier[0..] == earlier;
      if last.Ask? {
        RefusedUntilMatched(d, ForPairing(peer, sas), last.call);
      }
    }
  }

  lemma {:induction false} AfterTheCode(d: Daemon, peer: Key32, sas: string, items: seq<Incoming>, i: nat)
    requires PairsAt(d, sas, items, i) && d.encodeRegistered(d.deviceOf(peer)).Some?
    ensures var c := ServeAll(d, ForPairing(peer, sas), items);
            && c.session.state.Established? && c.registered == Some(DeviceFor(d, peer, items[i].call))
            && (c.failed <==> Broken(items[i..]))
  {
    var earlier, last := items[..|items| - 1], items[|items| - 1];
    var c := ServeAll(d, ForPairing(peer, sas), earlier);
    BrokenLater(items, i);
    if i == |items| - 1 {
      BeforeTheCode(d, peer, sas, earlier);
    } else {
      assert earlier[..i] == items[..i] && earlier[i] == items[i];
      AfterTheCode(d, peer, sas, earlier, i);
      if last.Ask? {
        RegistrationIsPairing(d, c.session, last.call);
      }
    }
  }

  lemma {:induction false} FirstCode(d: Daemon, sas: string, items: seq<Incoming>) returns (i: nat)
    requires CodePresented(d, sas, items)
    ensures i < |items| && items[i].Ask? && Matches(d, sas, items[i].call.request)
    ensures !CodePresented(d, sas, items[..i])
  {
    var earlier := items[..|items| - 1];
    if CodePresented(d, sas, earlier) {
      i := FirstCode(d, sas, earlier);
      assert earlier[..i] == items[..i];
    } else {
      i := |items| - 1;
    }
  }

  /** Where the code comes first but cannot be recorded, or the connection broke before it, nothing is. */
  lemma OtherwiseNothing(d: Daemon, peer: Key32, sas: string, items: seq<Incoming>, i: nat)
    requires d.encodeRegistered(d.deviceOf(peer)).Some?
    requires i < |items| && items[i].Ask? && Matches(d, sas, items[i].call.request)
    requires !CodePresented(d, sas, items[..i]) && !PairsAt(d, sas, items, i)
    ensures ServeAll(d, ForPairing(peer, sas), items).registered == None
  {
    BeforeTheCode(d, peer, sas, items[..i]);
    if Broken(items[..i]) {
      FailureIsFinal(d, ForPairing(peer, sas), items, i);
    } else {
      assert items[..i + 1][..i] == items[..i];
      EncodedRegistration(d, peer, sas, items[i].call);
      FailureIsFinal(d, ForPairing(peer, sas), items, i + 1);
    }
  }

  lemma {:induction false} UnencodedIsNeverRecorded(d: Daemon, peer: Key32, sas: string, items: seq<Incoming>)
    requires d.encodeRegistered(d.deviceOf(peer)).None?
    ensures var c := ServeAll(d, ForPairing(peer, sas), items);
            c.registered == None && (c.session == ForPairing(peer, sas) || c.session.state.Established?)
  {
    if items != [] {
      var c, last := ServeAll(d, ForPairing(peer, sas), items[..|items| - 1]), items[|items| - 1];
      UnencodedIsNeverRecorded(d, peer, sas, items[..|items| - 1]);
      if last.Ask? {
        UnencodedIsAnError(d, peer, sas, last.call);
        RegistrationIsPairing(d, c.session, last.call);
        TheCodeOpens(d, peer, sas, last.call);
        if !Matches(d, sas, last.call.request) {
          RefusedUntilMatched(d, ForPairing(peer, sas), last.call);
        }
      }
    }
  }

  /**
   * A pairing connection records its peer exactly when, before anything breaks it, the digits are
   * presented and can be recorded; and it does so unknown to the caller exactly when something
   * breaks it at that request or after.
   */
  lemma RecordedExactly(d: Daemon, peer: Key32, sas: string, items: seq<Incoming>)
    ensures var c, encodes := ServeAll(d, ForPairing(peer, sas), items), d.encodeRegistered(d.deviceOf(peer)).Some?;
            && (Devices(c.log) != [] <==> encodes && exists i: nat :: PairsAt(d, sas, items, i))
            && (Devices(c.log) != [] && c.failed <==>
                  encodes && exists i: nat :: PairsAt(d, sas, items, i) && Broken(items[i..]))
            && (encodes ==> forall i: nat :: PairsAt(d, sas, items, i) ==>
                  Devices(c.log) == [DeviceFor(d, peer, items[i].call)])
  {
    RecordedAtMostOnce(d, ForPairing(peer, sas), items);
    if d.encodeRegistered(d.deviceOf(peer)).None? {
      UnencodedIsNeverRecorded(d, peer, sas, items);
    } else {
      forall i: nat | PairsAt(d, sas, items, i)
        ensures var c := ServeAll(d, ForPairing(peer, sas), items);
                c.registered == Some(DeviceFor(d, peer, items[i].call)) && (c.failed <==> Broken(items[i..]))
      {
        AfterTheCode(d, peer, sas, items, i);
      }
      if CodePresented(d, sas, items) {
        var i := FirstCode(d, sas, items);
        if !PairsAt(d, sas, items, i) {
          OtherwiseNothing(d, peer, sas, items, i);
        }
      } else {
        BeforeTheCode(d, peer, sas, items);
      }
    }
  }

  /** A connection of a paired device never records anyone, and its grant never changes. */
  lemma {:induction false} PairedConnectionsRegisterNobody(d: Daemon, session: Session, items: seq<Incoming>)
    requires session.state.Established?
    ensures var c := ServeAll(d, session, items);
            c.session == session && c.registered == None && Devices(c.log) == []
  {
    if items != [] {
      var c, last := ServeAll(d, session, items[..|items| - 1]), items[|items| - 1];
      PairedConnectionsRegisterNobody(d, session, items[..|items| - 1]);
      if last.Ask? {
        RegistrationIsPairing(d, session, last.call);
      }
      RecordedAtMostOnce(d, session, items);
    }
  }

  // ----- answers -----

  function Asked(items: seq<Incoming>): seq<U64> {
    if items == [] then []
    else
      var last := items[|items| - 1];
      Asked(items[..|items| - 1]) + (if last.Ask? then [last.call.request.correlationId] else [])
  }

  function Answered(log: seq<Event>): seq<U64> {
    if log == [] then []
    else
      var last := log[|log| - 1];
      Answered(log[..|log| - 1]) + (if last.Replied? then [last.response.correlationId] else [])
  }

  lemma AnsweredOne(log: seq<Event>, e: Event)
    ensures Answered(log + [e]) == Answered(log) + (if e.Replied? then [e.response.correlationId] else [])
  {
    assert (log + [e])[..|log|] == log;
  }

  lemma AnswersOne(d: Daemon, c: Served, call: Call, recorded: bool, sent: bool)
    ensures var t := ServeCall(d, c, call, recorded, sent);
            Answered(t.log) == Answered(c.log) + (if t.failed then [] else [call.request.correlationId])
  {
    var h := Handle(d, c.session, call);
    var noted := c.log;
    if h.effect.Registered? && recorded {
      noted := c.log + [Recorded(DeviceIn(h.effect))];
      AnsweredOne(c.log, Recorded(DeviceIn(h.effect)));
    }
    AnsweredOne(noted, Replied(call.request, h.response));
    assert c.log + [] == c.log && noted + [] == noted;
  }

  /** Each request is answered once, in order, under its own id, until the connection fails. */
  lemma {:induction false} AnswersFollowRequests(d: Daemon, session: Session, items: seq<Incoming>)
    ensures var c := ServeAll(d, session, items);
            && Answered(c.log) <= Asked(items)
            && (!c.failed ==> Answered(c.log) == Asked(items))
  {
    if items != [] {
      var c, last := ServeAll(d, session, items[..|items| - 1]), items[|items| - 1];
      AnswersFollowRequests(d, session, items[..|items| - 1]);
      match last
      case Ask(call, recorded, sent) => AnswersOne(d, c, call, recorded, sent);
      case Ping(beat, _) => AnsweredOne(c.log, Pong(beat));
      case _ =>
    }
  }

  // ----- what a grant is worth -----

  /** The session is as it opened or fully established, and while open its grant is on record. */
  predicate GrantOnRecord(c: Served, peer: Key32, sas: string) {
    && c.session.peer == peer
    && (c.session == ForPairing(peer, sas) || (c.session.grant.Some? && c.session.state.Established?))
    && (!c.failed ==> (c.session.grant.Some? <==> c.registered.Some?))
  }

  lemma GrantStep(d: Daemon, c: Served, peer: Key32, sas: string, call: Call, recorded: bool, sent: bool)
    requires d.encodeRegistered(d.deviceOf(peer)).Some?
    requires GrantOnRecord(c, peer, sas) && !c.failed
    ensures GrantOnRecord(ServeCall(d, c, call, recorded, sent), peer, sas)
  {
    RegistrationIsPairing(d, c.session, call);
    if c.session.state.Pairing? {
      TheCodeOpens(d, peer, sas, call);
      EncodedRegistration(d, peer, sas, call);
      if !Matches(d, sas, call.request) {
        RefusedUntilMatched(d, c.session, call);
      }
    }
  }

  lemma {:induction false} GrantStaysOnRecord(d: Daemon, peer: Key32, sas: string, items: seq<Incoming>)
    requires d.encodeRegistered(d.deviceOf(peer)).Some?
    ensures GrantOnRecord(ServeAll(d, ForPairing(peer, sas), items), peer, sas)
  {
    if items != [] {
      var c, last := ServeAll(d, ForPairing(peer, sas), items[..|items| - 1]), items[|items| - 1];
      GrantStaysOnRecord(d, peer, sas, items[..|items| - 1]);
      if last.Ask? && !c.failed {
        GrantStep(d, c, peer, sas, last.call, last.recorded, last.sent);
      }
    }
  }

  /** On an open pairing connection the peer holds a grant exactly when it was recorded, if results encode. */
  lemma GrantedExactlyWhenRecorded(d: Daemon, peer: Key32, sas: string, items: seq<Incoming>)
    requires d.encodeRegistered(d.deviceOf(peer)).Some?
    requires !ServeAll(d, ForPairing(peer, sas), items).failed
    ensures var c := ServeAll(d, ForPairing(peer, sas), items);
            c.session.grant.Some? <==> Devices(c.log) != []
  {
    GrantStaysOnRecord(d, peer, sas, items);
    RecordedAtMostOnce(d, ForPairing(peer, sas), items);
  }

  lemma EncodedRegistration(d: Daemon, peer: Key32, sas: string, call: Call)
    requires d.encodeRegistered(d.deviceOf(peer)).Some?
    ensures Matches(d, sas, call.request) <==> Handle(d, ForPairing(peer, sas), call).effect.Registered?
  {
  }

  lemma UnencodedIsAnError(d: Daemon, peer: Key32, sas: string, call: Call)
    requires d.encodeRegistered(d.deviceOf(peer)).None?
    ensures Handle(d, ForPairing(peer, sas), call).effect == NoEffect
  {
  }

  /** Were the result of a registration not to encode, the peer would hold a grant that is recorded nowhere. */
  lemma UnencodedGrantIsNotRecorded(d: Daemon, peer: Key32, sas: string, call: Call, recorded: bool)
    requires d.encodeRegistered(d.deviceOf(peer)).None? && Matches(d, sas, call.request)
    ensures var c := ServeAll(d, ForPairing(peer, sas), [Ask(call, recorded, true)]);
            !c.failed && c.session.grant.Some? && Devices(c.log) == []
  {
    var items := [Ask(call, recorded, true)];
    var start := Opening(ForPairing(peer, sas));
    assert items[..0] == [];
    assert ServeAll(d, ForPairing(peer, sas), items) == ServeCall(d, start, call, recorded, true);
    TheCodeOpens(d, peer, sas, call);
    UnencodedIsAnError(d, peer, sas, call);
    RecordedAtMostOnce(d, ForPairing(peer, sas), items);
  }

  /** A terminal method succeeds only for a live grant of `pty:spawn`. */
  lemma TerminalsNeedTheCapability(d: Daemon, s: Session, call: Call)
    requires call.request.name in PTY_METHODS && Handle(d, s, call).response.body.Success?
    ensures s.state.Established? && PtySpawn in Effective(s.grant)
    ensures Handle(d, s, call).session == s
  {
  }
}
