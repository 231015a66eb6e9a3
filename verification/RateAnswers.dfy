/**
 * What each call is answered, in terms of what callers hold: slots and bytes are given out exactly
 * while they last, and the rates and caps are those of section 3.8 of ARCHITECTURE.md.
 */
module RateAnswers {
  import opened Common
  import opened RateLimit
  import opened RateBounds
  import opened RateLedger
  import opened RateBursts

  // ----- slots -----

  /** The answer to a call that wants a token only. */
  function TokenAnswer(s: Buckets, device: DeviceId, c: OperationClass, at: Nanos): Outcome {
    Step(s, Event(at, Acquire(device, c))).1
  }

  /**
   * A token is had exactly when the bucket has a whole one or the class counts none. A refusal says
   * to wait if the class has a rate, and how many there are if not.
   */
  lemma TokenAnswersExactly(s: Buckets, device: DeviceId, c: OperationClass, at: Nanos)
    ensures var o, k := TokenAnswer(s, device, c, at), KeyFor(device, c);
            && (o == Done <==> !Limited(c) || Ready(s, k, at) >= TOKEN_SCALE)
            && (o != Done && Limits(c).refill.Some? ==> o.RateLimited? && o.ms >= 1)
            && (o != Done && Limits(c).refill.None? ==> o == Exhausted(Limits(c).burst))
  {
    if Limited(c) {
      ChargeTakesOne(s, KeyFor(device, c), at, Limits(c));
    }
  }

  lemma SlotAnswer(s: Buckets, now: Nanos, later: Nanos, k: Key, l: ClassLimits)
    requires l == Limits(k.cls) && now <= later
    ensures var (s', o) := TakeSlot(s, now, later, k, l);
            if l.maxConcurrent.Some? && InFlight(s, k) >= l.maxConcurrent.value then
              && o == Exhausted(l.maxConcurrent.value)
              && (forall j: Key :: j in s ==> j in s' && s'[j] == s[j])
            else
              o == match Charge(s, later, k, l).1 case Done => Granted(k) case other => other
  {
    if k !in s {
      OpenedAnyTime(s, now, later, k, l);
    }
  }

  /** A bucket opened for this call answers alike whichever reading opened it. */
  lemma OpenedAnyTime(s: Buckets, now: Nanos, later: Nanos, k: Key, l: ClassLimits)
    requires k !in s && l == Limits(k.cls)
    ensures Charge(s, later, k, l).1 == Charge(Open(s, k, l, now), later, k, l).1
  {
    FullStaysFull(NewBucket(l, now), later, l);
    FullStaysFull(NewBucket(l, later), later, l);
  }

  /**
   * While no holder is forgotten, a slot is refused at the ceiling exactly when that many are
   * held, which costs no token and changes no bucket; otherwise the answer is that of a token.
   */
  lemma SlotAnswersExactly(run: Run, e: Event)
    requires Lawful(FRESH, run) && e.call.AcquireSlot? && e.now <= e.End()
    requires HolderKept(FRESH, run, KeyFor(e.call.device, e.call.cls))
    ensures var w, k, c := After(FRESH, run), KeyFor(e.call.device, e.call.cls), e.call.cls;
            var (s', o) := Step(w.buckets, e);
            if Limits(c).maxConcurrent.Some? && w.slots[k] >= Limits(c).maxConcurrent.value then
              && o == Exhausted(Limits(c).maxConcurrent.value)
              && (forall j: Key :: j in w.buckets ==> j in s' && s'[j] == w.buckets[j])
            else
              o == match TokenAnswer(w.buckets, e.call.device, c, e.call.later)
                case Done => Granted(k)
                case other => other
  {
    var k := KeyFor(e.call.device, e.call.cls);
    var w := After(FRESH, run);
    CeilingHolds(FRESH, run, k);
    SlotAnswer(w.buckets, e.now, e.call.later, k, Limits(e.call.cls));
  }

  // ----- bytes -----

  /** A reservation is granted in full exactly when it fits beside what is lent; without a ceiling it is empty. */
  lemma ReservationsAnsweredExactly(run: Run, e: Event)
    requires Lawful(FRESH, run) && e.call.Reserve?
    ensures var w, k, o := After(FRESH, run), KeyFor(e.call.device, e.call.cls), Step(After(FRESH, run).buckets, e).1;
            match Limits(e.call.cls).maxBytesInFlight
            case None => o == Reserved(k, 0)
            case Some(max) =>
              if Lent(w.loans, k) + e.call.amount <= max then o == Reserved(k, e.call.amount) else o == Exhausted(max)
  {
    var k := KeyFor(e.call.device, e.call.cls);
    BytesConserved(FRESH, run);
    assert BytesInFlight(After(FRESH, run).buckets, k) == Lent(After(FRESH, run).loans, k);
    TakeBytesAnswer(After(FRESH, run).buckets, e.now, k, Limits(e.call.cls), e.call.amount);
  }

  lemma TakeBytesAnswer(s: Buckets, now: Nanos, k: Key, l: ClassLimits, amount: U64)
    requires l.maxBytesInFlight.Some? ==> l.maxBytesInFlight.value < U64_MAX
    ensures var o := TakeBytes(s, now, k, l, amount).1;
            match l.maxBytesInFlight
            case None => o == Reserved(k, 0)
            case Some(max) =>
              if BytesInFlight(s, k) + amount <= max then o == Reserved(k, amount) else o == Exhausted(max)
  {
  }

  // ----- the documented table -----

  /** How many, and per how many seconds; zero seconds means once and for all. */
  function DocumentedRate(c: OperationClass): Option<(nat, nat)> {
    match c
    case Pairing => Some((3, 0))
    case Handshake => Some((10, 60))
    case FsRead => Some((100, 1))
    case FsWrite => Some((20, 1))
    case Search => Some((2, 1))
    case PtySpawn => Some((1, 1))
    case AgentSpawn => Some((1, 5))
    case Control => Some((50, 1))
    case Watcher => None
    case SendBuffer => None
  }

  function DocumentedCap(c: OperationClass): Option<nat> {
    match c
    case Pairing => Some(1)
    case Search => Some(4)
    case PtySpawn => Some(16)
    case Watcher => Some(8)
    case AgentSpawn => Some(8)
    case _ => None
  }

  lemma RateInForce(c: OperationClass, tokens: nat, secs: nat)
    requires DocumentedRate(c) == Some((tokens, secs))
    ensures Limited(c) && Limits(c).burst == tokens
    ensures Rate(Limits(c)) == (if secs > 0 then tokens * TOKEN_SCALE else 0)
    ensures Per(Limits(c)) == (if secs > 0 then secs * 1_000_000_000 else 1)
  {
  }

  lemma CapInForce(c: OperationClass)
    ensures DocumentedCap(c).Some? ==> Limits(c).maxConcurrent.Some?
    ensures DocumentedCap(c).Some? ==> Limits(c).maxConcurrent.value == DocumentedCap(c).value
  {
  }

  lemma Windowed(history: Run, window: Run, k: Key, from: nat, to: nat, n: nat, tokens: nat, l: ClassLimits)
    requires Timed(history, 0, from) && Timed(window, from, to) && Undisturbed(window, k)
    requires l == Limits(k.cls) && Limited(k.cls) && Capacity(l) == tokens * TOKEN_SCALE
    ensures Rate(l) == tokens * TOKEN_SCALE && to - from == n * Per(l) ==>
              Admissions(Final(map[], history), window, k) <= tokens * (n + 1)
    ensures Rate(l) == 0 && Per(l) == 1 ==> Admissions(Final(map[], history), window, k) <= tokens
  {
    var m := Admissions(Final(map[], history), window, k);
    TimedEnds(window, from, to);
    WindowBound(history, window, k, from, to);
    if Rate(l) == tokens * TOKEN_SCALE && to - from == n * Per(l) {
      WholePeriods(m, tokens, Per(l), n, to - from);
    }
    if Rate(l) == 0 && Per(l) == 1 {
      NoPeriod(m, tokens, to - from);
    }
  }

  lemma NoPeriod(m: nat, tokens: nat, d: nat)
    requires m * (TOKEN_SCALE * 1) < (tokens * TOKEN_SCALE + 1) * 1 + d * 0
    ensures m <= tokens
  {
  }

  /** In `n` periods after any history at most `n + 1` times the documented number is admitted. */
  lemma RatesAsDocumented(history: Run, window: Run, k: Key, from: nat, to: nat, n: nat)
    requires Timed(history, 0, from) && Timed(window, from, to) && Undisturbed(window, k)
    requires DocumentedRate(k.cls).Some?
    requires DocumentedRate(k.cls).value.1 > 0 ==> to - from == n * (DocumentedRate(k.cls).value.1 * 1_000_000_000)
    ensures var (tokens, secs) := DocumentedRate(k.cls).value;
            Admissions(Final(map[], history), window, k) <= tokens * (if secs > 0 then n + 1 else 1)
  {
    var (tokens, secs) := DocumentedRate(k.cls).value;
    RateInForce(k.cls, tokens, secs);
    Windowed(history, window, k, from, to, n, tokens, Limits(k.cls));
  }

  lemma WholePeriods(m: nat, tokens: nat, p: nat, n: nat, d: nat)
    requires p > 0 && d == n * p
    requires m * (TOKEN_SCALE * p) < (tokens * TOKEN_SCALE + 1) * p + d * (tokens * TOKEN_SCALE)
    ensures m <= tokens * (n + 1)
  {
    assert d * (tokens * TOKEN_SCALE) == (n * tokens * TOKEN_SCALE) * p;
    assert m * (TOKEN_SCALE * p) == (m * TOKEN_SCALE) * p;
    if m * TOKEN_SCALE >= tokens * TOKEN_SCALE + 1 + n * tokens * TOKEN_SCALE {
      MulMono(tokens * TOKEN_SCALE + 1 + n * tokens * TOKEN_SCALE, m * TOKEN_SCALE, p);
    }
    assert m * TOKEN_SCALE <= (tokens * (n + 1)) * TOKEN_SCALE;
  }

  /** All of them are admitted at once from a bucket not yet opened, and the next call is refused. */
  lemma BurstsAsDocumented(history: Run, run: Run, next: Event, k: Key, now: Nanos)
    requires DocumentedRate(k.cls).Some? && k !in Final(map[], history)
    requires AtOnce(run, k, now) && AtOnce([next], k, now) && |run| == DocumentedRate(k.cls).value.0
    ensures Admissions(Final(map[], history), run, k) == |run|
    ensures Step(Final(Final(map[], history), run), next).1 != Done
  {
    RateInForce(k.cls, DocumentedRate(k.cls).value.0, DocumentedRate(k.cls).value.1);
    BurstFromCreation(history, run, next, k, now);
  }

  /** Where no rate is documented none is enforced: only slots and bytes run out. */
  lemma UnratedAsDocumented(s: Buckets, device: DeviceId, c: OperationClass, at: Nanos)
    ensures DocumentedRate(c).None? ==> TokenAnswer(s, device, c, at) == Done
    ensures DocumentedCap(c).None? <==> Limits(c).maxConcurrent.None?
    ensures c != SendBuffer <==> Limits(c).maxBytesInFlight.None?
  {
  }

  /** The documented caps hold wherever no holder is forgotten, and the send buffer's 64 MiB always. */
  lemma CapsAsDocumented(run: Run, k: Key)
    requires Lawful(FRESH, run)
    ensures HolderKept(FRESH, run, k) && DocumentedCap(k.cls).Some? ==>
              After(FRESH, run).slots[k] <= DocumentedCap(k.cls).value
    ensures Lent(After(FRESH, run).loans, Key(None, SendBuffer)) <= 64 * 1024 * 1024
  {
    if HolderKept(FRESH, run, k) {
      CapInForce(k.cls);
      CeilingHolds(FRESH, run, k);
    }
    LentInBuffer(run, Key(None, SendBuffer));
  }

  lemma LentInBuffer(run: Run, shared: Key)
    requires Lawful(FRESH, run) && shared == Key(None, SendBuffer)
    ensures Lent(After(FRESH, run).loans, shared) <= 64 * 1024 * 1024
  {
    BytesConserved(FRESH, run);
    var w := After(FRESH, run);
    assert BytesInFlight(w.buckets, shared) == Lent(w.loans, shared) <= ByteCeiling(shared);
  }

  /** Up to the documented caps, with a token to be had, a slot is granted; and so are 64 MiB. */
  lemma CapsAreReached(run: Run, e: Event)
    requires Lawful(FRESH, run) && e.now <= e.End()
    ensures e.call.AcquireSlot? && HolderKept(FRESH, run, KeyFor(e.call.device, e.call.cls)) ==>
              var w, k, c := After(FRESH, run), KeyFor(e.call.device, e.call.cls), e.call.cls;
              && (DocumentedCap(c).Some? && w.slots[k] >= DocumentedCap(c).value ==>
                    Step(w.buckets, e).1 == Exhausted(DocumentedCap(c).value))
              && ((DocumentedCap(c).Some? ==> w.slots[k] < DocumentedCap(c).value) &&
                  TokenAnswer(w.buckets, e.call.device, c, e.call.later) == Done ==>
                    Step(w.buckets, e).1 == Granted(k))
    ensures e.call.Reserve? && e.call.cls == SendBuffer ==>
              var w, k := After(FRESH, run), Key(None, SendBuffer);
              Step(w.buckets, e).1 == (if Lent(w.loans, k) + e.call.amount <= 67_108_864
                                       then Reserved(k, e.call.amount) else Exhausted(67_108_864))
  {
    if e.call.AcquireSlot? && HolderKept(FRESH, run, KeyFor(e.call.device, e.call.cls)) {
      SlotAnswersExactly(run, e);
    }
    if e.call.Reserve? {
      ReservationsAnsweredExactly(run, e);
    }
  }

  /** Pairing attempts and the send buffer are budgeted for all devices together, everything else for each. */
  lemma SharedBudgets(d1: DeviceId, d2: DeviceId, c: OperationClass)
    requires d1 != d2
    ensures KeyFor(d1, c) == KeyFor(d2, c) <==> c == Pairing || c == SendBuffer
  {
  }
}
