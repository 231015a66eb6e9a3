/**
 * Requests and responses on one control stream: many callers, one reader, deadlines, callers
 * that are dropped, and the end of the stream, in every interleaving.
 *
 * A step is one atomic access to the shared map or to a reply channel, or one decision of a
 * caller. The log of received messages is history: the source does not keep it.
 */
module Correlation {
  import opened Common
  import opened Bytes

  type Id = U64
  type Caller = nat

  const IDS: nat := 0x1_0000_0000_0000_0000

  datatype Reply = Success(result: Data) | Failure(error: Data)

  /** What the reader makes of one frame: a terminal response, a progress report, or anything else. */
  datatype Message = Answer(id: Id, reply: Reply) | Progress(id: Id) | Other

  // ----- the map of pending requests -----

  /** The map without one slot. */
  function Without(slots: map<Id, Caller>, id: Id): map<Id, Caller> {
    slots - {id}
  }

  function Sender(slots: map<Id, Caller>, id: Id): Option<Caller> {
    if id in slots then Some(slots[id]) else None
  }

  lemma FoundByAnId(slots: map<Id, Caller>, caller: Caller)
    ensures caller in slots.Values <==> exists id: Id :: Sender(slots, id) == Some(caller)
  {
    if id: Id :| id in slots && slots[id] == caller {
      assert Sender(slots, id) == Some(caller);
    }
  }

  /** Each slot holds the sending half of one caller's channel, named here by the caller. */
  class PendingMap {
    var slots: map<Id, Caller>

    constructor ()
      ensures slots == map[]
    {
      slots := map[];
    }

    /** The sender of a slot that was already there is dropped. */
    method Register(id: Id, caller: Caller) returns (dropped: Option<Caller>)
      modifies this
      ensures slots == old(slots)[id := caller] && dropped == Sender(old(slots), id)
    {
      dropped := if id in slots then Some(slots[id]) else None;
      slots := slots[id := caller];
    }

    method Take(id: Id) returns (sender: Option<Caller>)
      modifies this
      ensures slots == Without(old(slots), id) && sender == Sender(old(slots), id)
    {
      if id in slots {
        sender := Some(slots[id]);
        slots := slots - {id};
      } else {
        sender := None;
      }
    }

    /** The sender the reply of a terminal response goes to; anything else leaves the map alone. */
    method Deliver(message: Message) returns (sender: Option<Caller>)
      modifies this
      ensures message.Answer? ==> slots == Without(old(slots), message.id) && sender == Sender(old(slots), message.id)
      ensures !message.Answer? ==> slots == old(slots) && sender == None
    {
      match message
      case Answer(id, _) =>
        sender := Take(id);
      case _ =>
        sender := None;
    }

    /** Afterwards no id finds a sender, and exactly the senders some id found are dropped. */
    method AbandonAll() returns (dropped: set<Caller>)
      modifies this
      ensures slots == map[] && dropped == old(slots).Values
      ensures forall id: Id :: Sender(slots, id) == None
      ensures forall caller :: caller in dropped <==> exists id: Id :: Sender(old(slots), id) == Some(caller)
    {
      forall caller: Caller
        ensures caller in slots.Values <==> exists id: Id :: Sender(slots, id) == Some(caller)
      {
        FoundByAnId(slots, caller);
      }
      dropped := slots.Values;
      slots := map[];
    }
  }

  // ----- the system -----

  datatype Outcome =
    | NotSent
    | Replied(at: nat)
    | ConnectionLost
    | Timeout

  datatype Phase =
    | Encoding
    | Sending
    | Waiting
    | Expired
    | Returned(outcome: Outcome)
    | Dropped

  /** A caller's one-shot channel; a reply is named by the position of its response in the log. */
  datatype Channel = Open | Filled(at: nat) | Closed

  /** `since` is the length of the log at registration; `late` says the stream had ended by then. */
  datatype Request = Request(id: Id, phase: Phase, channel: Channel, since: nat, late: bool)

  /** A reply the reader has taken the sender for but not yet sent. */
  datatype Held = Held(caller: Caller, at: nat)

  datatype State = State(
    nextId: Id,
    requests: seq<Request>,
    slots: map<Id, Caller>,
    log: seq<Message>,
    held: Option<Held>,
    ended: bool,
    dropping: set<Caller>)

  datatype Step =
    | Fetch
    | EncodeFails(caller: Caller)
    | Register(caller: Caller)
    | SendSucceeds(caller: Caller)
    | SendFails(caller: Caller)
    | Receive(message: Message)
    | Hand
    | End
    | DropSender(caller: Caller)
    | Complete(caller: Caller)
    | Expire(caller: Caller)
    | GiveUp(caller: Caller)
    | Abort(caller: Caller)

  function Start(): State {
    State(1, [], map[], [], None, false, {})
  }

  function WithPhase(s: State, i: Caller, phase: Phase): State
    requires i < |s.requests|
  {
    s.(requests := s.requests[i := s.requests[i].(phase := phase)])
  }

  function WithChannel(s: State, i: Caller, channel: Channel): State
    requires i < |s.requests|
  {
    s.(requests := s.requests[i := s.requests[i].(channel := channel)])
  }

  predicate In(s: State, i: Caller, phase: Phase) {
    i < |s.requests| && s.requests[i].phase == phase
  }

  /** The receiving half is still there. */
  predicate Listening(s: State, i: Caller) {
    i < |s.requests| && (s.requests[i].phase == Sending || s.requests[i].phase == Waiting)
  }

  /** Dropping a sender closes the channel if someone still listens to it. */
  function Close(s: State, sender: Option<Caller>): State {
    if sender.Some? && Listening(s, sender.value) then WithChannel(s, sender.value, Closed) else s
  }

  function Forget(s: State, id: Id): State {
    Close(s, Sender(s.slots, id)).(slots := Without(s.slots, id))
  }

  function RegisterSlot(s: State, i: Caller): State
    requires i < |s.requests|
  {
    var r := s.requests[i];
    var displaced := Close(s, Sender(s.slots, r.id));
    var mine := displaced.requests[i].(phase := Sending, since := |s.log|, late := s.ended);
    displaced.(slots := s.slots[r.id := i], requests := displaced.requests[i := mine])
  }

  /** The reader takes the sender for a terminal response; every message is noted in the log. */
  function Route(s: State, message: Message): State {
    var noted := s.(log := s.log + [message]);
    if message.Answer? && message.id in s.slots then
      noted.(slots := Without(s.slots, message.id), held := Some(Held(s.slots[message.id], |s.log|)))
    else noted
  }

  /** A reply sent to a caller that stopped listening is discarded. */
  function HandOver(s: State, h: Held): State {
    var sent := if Listening(s, h.caller) then WithChannel(s, h.caller, Filled(h.at)) else s;
    sent.(held := None)
  }

  function Settle(s: State, i: Caller): State
    requires i < |s.requests|
  {
    match s.requests[i].channel
    case Open => s
    case Filled(k) => WithPhase(s, i, Returned(Replied(k)))
    case Closed => WithPhase(s, i, Returned(ConnectionLost))
  }

  /** One step; a step that is not possible now changes nothing. */
  function Next(s: State, step: Step): State {
    match step
    case Fetch =>
      s.(nextId := (s.nextId + 1) % IDS, requests := s.requests + [Request(s.nextId, Encoding, Open, 0, false)])
    case EncodeFails(i) =>
      if In(s, i, Encoding) then WithPhase(s, i, Returned(NotSent)) else s
    case Register(i) =>
      if In(s, i, Encoding) then RegisterSlot(s, i) else s
    case SendSucceeds(i) =>
      if In(s, i, Sending) then WithPhase(s, i, Waiting) else s
    case SendFails(i) =>
      if In(s, i, Sending)
      then Forget(WithPhase(s, i, Returned(NotSent)), s.requests[i].id) else s
    case Receive(m) =>
      if !s.ended && s.held.None? then Route(s, m) else s
    case Hand =>
      if s.held.Some? then HandOver(s, s.held.value) else s
    case End =>
      if !s.ended && s.held.None?
      then s.(ended := true, dropping := s.slots.Values, slots := map[]) else s
    case DropSender(i) =>
      if i in s.dropping then Close(s, Some(i)).(dropping := s.dropping - {i}) else s
    case Complete(i) =>
      if In(s, i, Waiting) then Settle(s, i) else s
    case Expire(i) =>
      // the deadline is looked at only while there is nothing to receive
      if In(s, i, Waiting) && s.requests[i].channel == Open then WithPhase(s, i, Expired) else s
    case GiveUp(i) =>
      if In(s, i, Expired)
      then Forget(WithPhase(s, i, Returned(Timeout)), s.requests[i].id) else s
    case Abort(i) =>
      // the caller's future is dropped while it awaits; nothing tidies the slot
      if Listening(s, i) then WithPhase(s, i, Dropped) else s
  }

  function After(steps: seq<Step>): State {
    if steps == [] then Start() else Next(After(steps[..|steps| - 1]), steps[|steps| - 1])
  }

  // ----- the connection's side of it -----

  /** The steps that touch the shared map, as the connection takes them. */
  class Live {
    const pending: PendingMap
    var nextId: Id
    var requests: seq<Request>
    var log: seq<Message>
    var held: Option<Held>
    var ended: bool
    var dropping: set<Caller>

    ghost function View(): State
      reads this, pending
    {
      State(nextId, requests, pending.slots, log, held, ended, dropping)
    }

    constructor ()
      ensures View() == Start() && fresh(pending)
    {
      pending := new PendingMap();
      nextId, requests, log, held, ended, dropping := 1, [], [], None, false, {};
    }

    method FetchId() returns (i: Caller)
      modifies this
      ensures View() == Next(old(View()), Fetch) && i == old(|requests|) && In(View(), i, Encoding)
    {
      i := |requests|;
      requests := requests + [Request(nextId, Encoding, Open, 0, false)];
      nextId := if nextId == IDS - 1 then 0 else nextId + 1;
    }

    method DropOne(sender: Option<Caller>)
      modifies this`requests
      ensures View() == Close(old(View()), sender)
    {
      if sender.Some? {
        var i := sender.value;
        if i < |requests| && (requests[i].phase == Sending || requests[i].phase == Waiting) {
          requests := requests[i := requests[i].(channel := Closed)];
        }
      }
    }

    /** Registered before anything is sent, so that no response can come too early. */
    method RegisterBeforeSending(i: Caller)
      requires In(View(), i, Encoding)
      modifies this, pending
      ensures View() == Next(old(View()), Register(i))
    {
      var dropped := pending.Register(requests[i].id, i);
      DropOne(dropped);
      requests := requests[i := requests[i].(phase := Sending, since := |log|, late := ended)];
    }

    /** A caller that failed to send, or whose deadline passed, takes its own slot away. */
    method Withdraw(i: Caller, outcome: Outcome)
      requires (In(View(), i, Sending) && outcome == NotSent) || (In(View(), i, Expired) && outcome == Timeout)
      modifies this, pending
      ensures View() == Next(old(View()), if outcome == NotSent then SendFails(i) else GiveUp(i))
    {
      requests := requests[i := requests[i].(phase := Returned(outcome))];
      var sender := pending.Take(requests[i].id);
      DropOne(sender);
    }

    /** One message from the stream: a terminal response takes its slot, progress leaves it. */
    method TakeIn(message: Message)
      requires !ended && held == None
      modifies this, pending
      ensures View() == Next(old(View()), Receive(message))
    {
      var at := |log|;
      log := log + [message];
      var sender := pending.Deliver(message);
      if sender.Some? {
        held := Some(Held(sender.value, at));
      }
    }

    /** The stream is over: every sender left in the map is to be dropped, and the map is empty. */
    method EndStream()
      requires !ended && held == None
      modifies this, pending
      ensures View() == Next(old(View()), End)
      ensures forall i :: HasSlot(old(View()), i) ==> i in dropping && !HasSlot(View(), i)
    {
      ended := true;
      dropping := pending.AbandonAll();
    }
  }

  // ----- what every interleaving keeps -----

  function IdOf(i: Caller): Id {
    (i + 1) % IDS
  }

  predicate HasSlot(s: State, i: Caller) {
    i < |s.requests| && s.requests[i].id in s.slots && s.slots[s.requests[i].id] == i
  }

  predicate IsHeld(s: State, i: Caller) {
    s.held.Some? && s.held.value.caller == i
  }

  /** No terminal response to this request came between its registration and position `k`. */
  predicate NoAnswerBefore(s: State, r: Request, k: nat) {
    forall j :: r.since <= j < k && j < |s.log| ==> !(s.log[j].Answer? && s.log[j].id == r.id)
  }

  /** Position `k` holds the first terminal response to this request since it registered. */
  predicate FirstAnswer(s: State, r: Request, k: nat) {
    && r.since <= k < |s.log|
    && s.log[k].Answer? && s.log[k].id == r.id
    && NoAnswerBefore(s, r, k)
  }

  predicate Coherent(s: State, i: Caller)
    requires i < |s.requests|
  {
    var r := s.requests[i];
    && r.id == IdOf(i)
    && (HasSlot(s, i) ==>
        && !IsHeld(s, i) && i !in s.dropping && r.channel == Open
        && (r.phase == Sending || r.phase == Waiting || r.phase == Expired || r.phase == Dropped)
        && (s.ended ==> r.late)
        && r.since <= |s.log| && NoAnswerBefore(s, r, |s.log|))
    && (r.late ==> s.ended && r.channel == Open && !IsHeld(s, i) && i !in s.dropping)
    && (IsHeld(s, i) ==> !s.ended && r.channel == Open && r.phase != Encoding && FirstAnswer(s, r, s.held.value.at))
    && (i in s.dropping ==>
        s.ended && r.channel == Open && r.phase != Encoding && NoAnswerBefore(s, r, |s.log|))
    && (r.phase == Encoding ==> r.channel == Open && !r.late)
    && (r.channel.Filled? ==> FirstAnswer(s, r, r.channel.at))
    && (r.channel.Closed? ==> s.ended && NoAnswerBefore(s, r, |s.log|))
    && (Listening(s, i) && r.channel == Open ==> HasSlot(s, i) || IsHeld(s, i) || i in s.dropping)
    && (r.phase == Returned(ConnectionLost) ==> r.channel == Closed)
    && (r.phase.Returned? && r.phase.outcome.Replied? ==> r.channel == Filled(r.phase.outcome.at))
  }

  predicate SlotsOwned(s: State) {
    && s.nextId == IdOf(|s.requests|)
    && (forall id :: id in s.slots ==> s.slots[id] < |s.requests| && s.requests[s.slots[id]].id == id)
    && (s.held.Some? ==> s.held.value.caller < |s.requests|)
    && (forall i :: i in s.dropping ==> i < |s.requests|)
  }

  predicate Inv(s: State) {
    SlotsOwned(s) && forall i :: 0 <= i < |s.requests| ==> Coherent(s, i)
  }

  lemma IdsDiffer(i: Caller, j: Caller)
    ensures IdOf(i) == IdOf(j) <==> (j - i) % IDS == 0
  {
  }

  lemma FewIdsDiffer(i: Caller, j: Caller)
    requires i < IDS && j < IDS && i != j
    ensures IdOf(i) != IdOf(j)
  {
  }

  lemma Distinct(s: State)
    requires Inv(s) && |s.requests| <= IDS
    ensures forall i, j :: 0 <= i < j < |s.requests| ==> s.requests[i].id != s.requests[j].id
  {
    forall i, j | 0 <= i < j < |s.requests|
      ensures s.requests[i].id != s.requests[j].id
    {
      assert Coherent(s, i) && Coherent(s, j);
      FewIdsDiffer(i, j);
    }
  }

  predicate Fits(s: State) {
    |s.requests| <= IDS
  }

  lemma FetchKeeps(s: State)
    requires Inv(s) && Fits(Next(s, Fetch))
    ensures Inv(Next(s, Fetch))
  {
    var t := Next(s, Fetch);
    forall i | 0 <= i < |t.requests|
      ensures Coherent(t, i)
    {
      if i < |s.requests| {
        assert Coherent(s, i);
      }
    }
  }

  /** A change of phase that takes no reply it was not given and leaves no slot behind a return. */
  lemma PhaseKeeps(s: State, i: Caller, phase: Phase)
    requires Inv(s) && i < |s.requests| && phase != Encoding
    requires HasSlot(s, i) ==> phase == Sending || phase == Waiting || phase == Expired || phase == Dropped
    requires phase == Sending || phase == Waiting ==> Listening(s, i)
    requires phase == Returned(ConnectionLost) ==> s.requests[i].channel == Closed
    requires phase.Returned? && phase.outcome.Replied? ==> s.requests[i].channel == Filled(phase.outcome.at)
    ensures Inv(WithPhase(s, i, phase))
  {
    var t := WithPhase(s, i, phase);
    forall j | 0 <= j < |t.requests|
      ensures Coherent(t, j)
    {
      assert Coherent(s, j);
    }
  }

  lemma CallerKeeps(s: State, step: Step)
    requires Inv(s)
    requires step.EncodeFails? || step.SendSucceeds? || step.Complete? || step.Expire? || step.Abort?
    ensures Inv(Next(s, step))
  {
    var i := step.caller;
    if i < |s.requests| {
      assert Coherent(s, i);
      match step
      case EncodeFails(_) => if In(s, i, Encoding) { PhaseKeeps(s, i, Returned(NotSent)); }
      case SendSucceeds(_) => if In(s, i, Sending) { PhaseKeeps(s, i, Waiting); }
      case Expire(_) => if In(s, i, Waiting) { PhaseKeeps(s, i, Expired); }
      case Abort(_) => if Listening(s, i) { PhaseKeeps(s, i, Dropped); }
      case Complete(_) =>
        if In(s, i, Waiting) {
          match s.requests[i].channel
          case Open =>
          case Filled(k) => PhaseKeeps(s, i, Returned(Replied(k)));
          case Closed => PhaseKeeps(s, i, Returned(ConnectionLost));
        }
    }
  }

  lemma NoSlotYet(s: State, caller: Caller)
    requires Inv(s) && Fits(s) && In(s, caller, Encoding)
    ensures s.requests[caller].id !in s.slots
  {
    Distinct(s);
    assert Coherent(s, caller);
  }

  lemma RegisterKeeps(s: State, caller: Caller)
    requires Inv(s) && Fits(s)
    ensures Inv(Next(s, Register(caller)))
  {
    if In(s, caller, Encoding) {
      var id := s.requests[caller].id;
      var mine := s.requests[caller].(phase := Sending, since := |s.log|, late := s.ended);
      var t := s.(slots := s.slots[id := caller], requests := s.requests[caller := mine]);
      NoSlotYet(s, caller);
      assert Next(s, Register(caller)) == t;
      Distinct(s);
      forall i | 0 <= i < |t.requests|
        ensures Coherent(t, i)
      {
        assert Coherent(s, i);
      }
    }
  }

  /** A caller that returns of its own accord takes its slot with it. */
  lemma WithdrawKeeps(s: State, i: Caller, outcome: Outcome)
    requires Inv(s) && Fits(s) && i < |s.requests| && s.requests[i].phase != Encoding
    requires outcome == NotSent || outcome == Timeout
    ensures Inv(Forget(WithPhase(s, i, Returned(outcome)), s.requests[i].id))
  {
    var quiet := WithPhase(s, i, Returned(outcome));
    var t := Forget(quiet, s.requests[i].id);
    Distinct(s);
    assert Coherent(s, i);
    assert t == quiet.(slots := Without(s.slots, s.requests[i].id));
    forall j | 0 <= j < |t.requests|
      ensures Coherent(t, j)
    {
      assert Coherent(s, j);
    }
  }

  lemma ReceiveKeeps(s: State, message: Message)
    requires Inv(s) && Fits(s)
    ensures Inv(Next(s, Receive(message)))
  {
    var t := Next(s, Receive(message));
    Distinct(s);
    forall i | 0 <= i < |t.requests|
      ensures Coherent(t, i)
    {
      assert Coherent(s, i);
    }
  }

  lemma HandKeeps(s: State)
    requires Inv(s)
    ensures Inv(Next(s, Hand))
  {
    var t := Next(s, Hand);
    forall i | 0 <= i < |t.requests|
      ensures Coherent(t, i)
    {
      assert Coherent(s, i);
    }
  }

  lemma EndKeeps(s: State)
    requires Inv(s)
    ensures Inv(Next(s, End))
  {
    var t := Next(s, End);
    forall i | 0 <= i < |t.requests|
      ensures Coherent(t, i)
    {
      assert Coherent(s, i);
      if i in t.dropping && !s.ended && s.held.None? {
        assert HasSlot(s, i);
      }
    }
  }

  lemma DropSenderKeeps(s: State, caller: Caller)
    requires Inv(s)
    ensures Inv(Next(s, DropSender(caller)))
  {
    var t := Next(s, DropSender(caller));
    forall i | 0 <= i < |t.requests|
      ensures Coherent(t, i)
    {
      assert Coherent(s, i);
    }
  }

  lemma StepKeeps(s: State, step: Step)
    requires Inv(s) && Fits(Next(s, step))
    ensures Inv(Next(s, step)) && |s.requests| <= |Next(s, step).requests|
  {
    match step
    case Fetch => FetchKeeps(s);
    case Register(i) => RegisterKeeps(s, i);
    case SendFails(i) => if In(s, i, Sending) { WithdrawKeeps(s, i, NotSent); }
    case GiveUp(i) => if In(s, i, Expired) { WithdrawKeeps(s, i, Timeout); }
    case Receive(m) => ReceiveKeeps(s, m);
    case Hand => HandKeeps(s);
    case End => EndKeeps(s);
    case DropSender(i) => DropSenderKeeps(s, i);
    case _ => CallerKeeps(s, step);
  }

  lemma {:induction false} Reachable(steps: seq<Step>)
    requires Fits(After(steps))
    ensures Inv(After(steps))
  {
    if steps != [] {
      var earlier := steps[..|steps| - 1];
      RequestsGrow(After(earlier), steps[|steps| - 1]);
      Reachable(earlier);
      StepKeeps(After(earlier), steps[|steps| - 1]);
    }
  }

  lemma RequestsGrow(s: State, step: Step)
    ensures |s.requests| <= |Next(s, step).requests|
  {
  }

  // ----- the laws -----

  /** Ids repeat only every 2^64 requests, so those of any 2^64 requests differ. */
  lemma {:induction false} IdsRepeatExactly(steps: seq<Step>, i: Caller, j: Caller)
    requires i < |After(steps).requests| && j < |After(steps).requests|
    ensures var s := After(steps);
            && s.requests[i].id == (i + 1) % 0x1_0000_0000_0000_0000
            && (s.requests[i].id == s.requests[j].id <==> (j - i) % 0x1_0000_0000_0000_0000 == 0)
  {
    IdsInOrder(steps);
    IdsDiffer(i, j);
  }

  lemma {:induction false} IdsInOrder(steps: seq<Step>)
    ensures var s := After(steps);
            s.nextId == IdOf(|s.requests|) && forall i :: 0 <= i < |s.requests| ==> s.requests[i].id == IdOf(i)
  {
    if steps != [] {
      IdsInOrder(steps[..|steps| - 1]);
      StepNumbers(After(steps[..|steps| - 1]), steps[|steps| - 1]);
    }
  }

  lemma IdAfter(n: nat)
    ensures (IdOf(n) + 1) % IDS == IdOf(n + 1)
  {
  }

  lemma StepNumbers(s: State, step: Step)
    requires s.nextId == IdOf(|s.requests|) && forall i :: 0 <= i < |s.requests| ==> s.requests[i].id == IdOf(i)
    ensures var t := Next(s, step);
            t.nextId == IdOf(|t.requests|) && forall i :: 0 <= i < |t.requests| ==> t.requests[i].id == IdOf(i)
  {
    if step.Fetch? {
      IdAfter(|s.requests|);
    } else {
      SameIds(s, step);
    }
  }

  lemma SameIds(s: State, step: Step)
    requires !step.Fetch?
    ensures var t := Next(s, step);
            && t.nextId == s.nextId && |t.requests| == |s.requests|
            && forall i :: 0 <= i < |s.requests| ==> t.requests[i].id == s.requests[i].id
  {
  }

  /** A request that returns a reply got the first terminal response with its id since it registered. */
  lemma RepliesBelong(steps: seq<Step>, i: Caller, k: nat)
    requires Fits(After(steps)) && In(After(steps), i, Returned(Replied(k)))
    ensures FirstAnswer(After(steps), After(steps).requests[i], k)
  {
    Reachable(steps);
    assert Coherent(After(steps), i);
  }

  /** No response completes two requests. */
  lemma ResponsesCompleteOne(steps: seq<Step>, i: Caller, j: Caller, k: nat)
    requires Fits(After(steps))
    requires In(After(steps), i, Returned(Replied(k))) && In(After(steps), j, Returned(Replied(k)))
    ensures i == j
  {
    var s := After(steps);
    Reachable(steps);
    Distinct(s);
    assert Coherent(s, i) && Coherent(s, j);
  }

  /** A slot is left only by a request still under way or one whose caller was dropped. */
  lemma ReturnsLeaveNoSlot(steps: seq<Step>, id: Id)
    requires Fits(After(steps)) && id in After(steps).slots
    ensures var s := After(steps);
            var i := s.slots[id];
            && i < |s.requests| && s.requests[i].id == id
            && !s.requests[i].phase.Returned? && s.requests[i].phase != Encoding
  {
    var s := After(steps);
    Reachable(steps);
    assert Coherent(s, s.slots[id]);
  }

  /** Only the end of the stream is reported as a lost connection. */
  lemma LossMeansTheStreamEnded(steps: seq<Step>, i: Caller)
    requires Fits(After(steps)) && In(After(steps), i, Returned(ConnectionLost))
    ensures After(steps).ended
  {
    Reachable(steps);
    assert Coherent(After(steps), i);
  }

  /**
   * Once the stream has ended and the reader has finished, a waiting request has its answer
   * or its error at once, unless it registered after the end.
   */
  lemma TheEndWakesAllBefore(steps: seq<Step>, i: Caller)
    requires var s := After(steps);
             Fits(s) && s.ended && s.dropping == {} && In(s, i, Waiting)
    ensures var s := After(steps);
            Next(s, Complete(i)).requests[i].phase.Returned? <==> !s.requests[i].late
  {
    var s := After(steps);
    Reachable(steps);
    assert Coherent(s, i);
  }

  /** A request that registers after the end is not woken: it waits for its own deadline. */
  lemma LateRequestsWait()
    ensures var s := After([End, Fetch, Register(0), SendSucceeds(0)]);
            s.ended && s.dropping == {} && In(s, 0, Waiting) && Next(s, Complete(0)) == s
  {
    var steps := [End, Fetch, Register(0), SendSucceeds(0)];
    assert steps[..3] == [End, Fetch, Register(0)];
    assert steps[..3][..2] == [End, Fetch];
    assert steps[..3][..2][..1] == [End];
    assert steps[..3][..2][..1][..0] == [];
    var ended := After([End]);
    assert ended == Start().(ended := true);
    assert After([End, Fetch]) == Next(ended, Fetch);
    assert After(steps[..3]) == Next(After([End, Fetch]), Register(0));
    assert After(steps) == Next(After(steps[..3]), SendSucceeds(0));
  }
}
