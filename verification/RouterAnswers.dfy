/** What each request is answered, and that a connection sends exactly the answers due, in turn. */
module RouterAnswers {
  import opened Common
  import opened Bytes
  import opened Engine
  import opened Router
  import opened PairingGate

  // ----- one request -----

  function BodyOf(answer: Result<Data, ProtoError>): Body {
    match answer
    case Ok(bytes) => Success(bytes)
    case Err(e) => Failure(e)
  }

  predicate MayUseTerminals(grant: Option<DeviceGrant>) {
    grant.Some? && !grant.value.revoked && PtySpawn in grant.value.capabilities
  }

  /** What a paired device is owed for a call: its service's own answer wherever that may be asked. */
  function AnswerFor(grant: Option<DeviceGrant>, call: Call): Body {
    var name := call.request.name;
    if name in {"sys.info", "fs.list", "fs.read"} then BodyOf(call.answer)
    else if name in {"pty.spawn", "pty.input", "pty.resize", "pty.screen", "pty.kill", "pty.list"} then
      if MayUseTerminals(grant) then BodyOf(call.answer) else Failure(Denied(PtySpawn))
    else if name == "sys.register" then Failure(Unsupported("sys.register outside a pairing window"))
    else Failure(Unsupported(name))
  }

  /** An established session hands on its services' answers, and nothing in it changes. */
  lemma EstablishedAnswers(d: Daemon, s: Session, call: Call)
    requires s.state.Established?
    ensures Handle(d, s, call) ==
            Handled(s, Response(call.request.correlationId, AnswerFor(s.grant, call)), NoEffect)
  {
  }

  /** While pairing nothing is told but why: unknown, not yet, unreadable, or the wrong digits. */
  lemma PairingAnswers(d: Daemon, peer: Key32, sas: string, call: Call)
    ensures var name, params := call.request.name, d.decodeRegister(call.request.params);
            Handle(d, ForPairing(peer, sas), call).response == Response(call.request.correlationId,
              if name == "sys.register" then
                if params.None? then Failure(BadRequest("malformed parameters"))
                else if Digits(params.value.sas) != sas then Failure(BadRequest("pairing code mismatch"))
                else match d.encodeRegistered(d.deviceOf(peer))
                  case None => Failure(Internal("encode"))
                  case Some(bytes) => Success(bytes)
              else if name in {"sys.info", "fs.list", "fs.read",
                               "pty.spawn", "pty.input", "pty.resize", "pty.screen", "pty.kill", "pty.list"} then
                Failure(Denied(FsRead))
              else Failure(Unsupported(name)))
  {
  }

  /** The digits of a text are its ASCII digits in order, whatever stands between them. */
  lemma {:induction false} DigitsInParts(a: string, b: string)
    ensures Digits(a + b) == Digits(a) + Digits(b)
  {
    if a == [] {
      assert a + b == b;
    } else {
      assert (a + b)[1..] == a[1..] + b;
      DigitsInParts(a[1..], b);
    }
  }

  lemma DigitOrNot(c: char)
    ensures Digits([c]) == if c in "0123456789" then [c] else []
  {
    assert [c][1..] == [];
  }

  // ----- a whole connection -----

  /** What was sent, in order. */
  function Sent(log: seq<Event>): seq<Event> {
    if log == [] then []
    else
      var last := log[|log| - 1];
      Sent(log[..|log| - 1]) + (if last.Recorded? then [] else [last])
  }

  lemma SentMore(log: seq<Event>, e: Event)
    ensures Sent(log + [e]) == Sent(log) + (if e.Recorded? then [] else [e])
  {
    assert (log + [e])[..|log|] == log;
  }

  /** What one message is owed: a request its answer, a ping its beat, anything else nothing. */
  function Owed(d: Daemon, s: Session, item: Incoming): seq<Event> {
    match item
    case Ask(call, _, _) => [Replied(call.request, Handle(d, s, call).response)]
    case Ping(beat, _) => [Pong(beat)]
    case _ => []
  }

  lemma CallSends(d: Daemon, c: Served, call: Call, recorded: bool, sent: bool)
    ensures var t := ServeCall(d, c, call, recorded, sent);
            Sent(t.log) == Sent(c.log) + (if t.failed then [] else Owed(d, c.session, Ask(call, recorded, sent)))
  {
    var h := Handle(d, c.session, call);
    var noted := c.log;
    if h.effect.Registered? && recorded {
      noted := c.log + [Recorded(DeviceIn(h.effect))];
      SentMore(c.log, Recorded(DeviceIn(h.effect)));
    }
    SentMore(noted, Replied(call.request, h.response));
    assert c.log + [] == c.log && noted + [] == noted;
  }

  /** Each message, while the connection holds, is sent at once what it is owed. */
  lemma StepSends(d: Daemon, c: Served, item: Incoming)
    ensures Sent(Serve(d, c, item).log) ==
            Sent(c.log) + (if Serve(d, c, item).failed then [] else Owed(d, c.session, item))
  {
    if !c.failed {
      match item
      case Ask(call, recorded, sent) => CallSends(d, c, call, recorded, sent);
      case Ping(beat, _) => SentMore(c.log, Pong(beat));
      case _ =>
    }
  }

  /** All that is owed for the messages so far, each by the session as it was when the message came. */
  function Due(d: Daemon, session: Session, items: seq<Incoming>): seq<Event> {
    if items == [] then []
    else
      var earlier := items[..|items| - 1];
      Due(d, session, earlier) + Owed(d, ServeAll(d, session, earlier).session, items[|items| - 1])
  }

  /** A connection sends exactly what is due, in order, and stops short only by failing. */
  lemma {:induction false} SendsWhatIsDue(d: Daemon, session: Session, items: seq<Incoming>)
    ensures var c := ServeAll(d, session, items);
            Sent(c.log) <= Due(d, session, items) && (!c.failed ==> Sent(c.log) == Due(d, session, items))
  {
    if items != [] {
      var earlier := items[..|items| - 1];
      SendsWhatIsDue(d, session, earlier);
      StepSends(d, ServeAll(d, session, earlier), items[|items| - 1]);
    }
  }

  function DueTo(grant: Option<DeviceGrant>, items: seq<Incoming>): seq<Event> {
    if items == [] then []
    else
      var last := items[|items| - 1];
      DueTo(grant, items[..|items| - 1]) + (
        match last
        case Ask(call, _, _) =>
          [Replied(call.request, Response(call.request.correlationId, AnswerFor(grant, call)))]
        case Ping(beat, _) => [Pong(beat)]
        case _ => [])
  }

  /** A paired device is sent, for each of its requests in turn, its service's answer under its own id. */
  lemma {:induction false} PairedConnectionsAreAnswered(d: Daemon, session: Session, items: seq<Incoming>)
    requires session.state.Established?
    ensures Due(d, session, items) == DueTo(session.grant, items)
    ensures var c := ServeAll(d, session, items);
            Sent(c.log) <= DueTo(session.grant, items) && (!c.failed ==> Sent(c.log) == DueTo(session.grant, items))
  {
    SendsWhatIsDue(d, session, items);
    if items != [] {
      var earlier, last := items[..|items| - 1], items[|items| - 1];
      PairedConnectionsAreAnswered(d, session, earlier);
      PairedConnectionsRegisterNobody(d, session, earlier);
      if last.Ask? {
        EstablishedAnswers(d, session, last.call);
      }
    }
  }

  lemma {:induction false} FailsExactlyWhenBroken(d: Daemon, session: Session, items: seq<Incoming>)
    requires session.state.Established?
    ensures ServeAll(d, session, items).failed <==> Broken(items)
  {
    if items != [] {
      var earlier, last := items[..|items| - 1], items[|items| - 1];
      FailsExactlyWhenBroken(d, session, earlier);
      PairedConnectionsRegisterNobody(d, session, earlier);
      BrokenLater(items, 0);
      assert earlier[0..] == earlier;
      if last.Ask? {
        EstablishedAnswers(d, session, last.call);
      }
    }
  }

  /** A paired connection lasts until something breaks it, and by then has sent all that was due before. */
  lemma ServedUntilBroken(d: Daemon, session: Session, items: seq<Incoming>, n: nat)
    requires session.state.Established? && n <= |items|
    requires !Broken(items[..n]) && (n < |items| ==> Breaks(items[n]))
    ensures var c := ServeAll(d, session, items);
            Sent(c.log) == DueTo(session.grant, items[..n]) && (c.failed <==> n < |items|)
  {
    FailsExactlyWhenBroken(d, session, items[..n]);
    PairedConnectionsAreAnswered(d, session, items[..n]);
    if n == |items| {
      assert items[..n] == items;
    } else {
      var next := items[..n + 1];
      assert next[..n] == items[..n];
      FailsExactlyWhenBroken(d, session, next);
      assert Breaks(next[n]);
      StepSends(d, ServeAll(d, session, items[..n]), items[n]);
      FailureIsFinal(d, session, items, n + 1);
    }
  }

  /** What was sent stays sent. */
  lemma {:induction false} SentStaysSent(d: Daemon, session: Session, items: seq<Incoming>, n: nat)
    requires n <= |items|
    ensures Sent(ServeAll(d, session, items[..n]).log) <= Sent(ServeAll(d, session, items).log)
    decreases |items|
  {
    if n == |items| {
      assert items[..n] == items;
    } else {
      var earlier := items[..|items| - 1];
      assert earlier[..n] == items[..n];
      SentStaysSent(d, session, earlier, n);
      StepSends(d, ServeAll(d, session, earlier), items[|items| - 1]);
    }
  }

  // ----- what pairing gives -----

  /** A device that has just paired holds exactly what needs no finger on each use, terminals included. */
  lemma PairingGrants(d: Daemon, peer: Key32)
    ensures var held := Effective(Some(NewGrant(d, peer)));
            && (forall c :: c in held <==> !RequiresPresence(c))
            && (forall c :: RequiresPresence(c) <==> c in {FsSecrets, ExecArbitrary, GitDangerous, PolicyWrite})
    ensures MayUseTerminals(Some(NewGrant(d, peer)))
  {
  }
}
