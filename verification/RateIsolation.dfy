/** One device's budget is not another's: erasing every other device's calls changes nothing it sees. */
module RateIsolation {
  import opened Common
  import opened RateLimit

  /** The device a call concerns: the caller, the holder of what is given back, or the one forgotten. */
  function Owner(e: Event): Option<DeviceId> {
    match e.call
    case Release(k) => k.device
    case ReleaseBytes(k, _) => k.device
    case _ => Some(e.call.device)
  }

  function Only(run: Run, d: DeviceId): Run {
    if run == [] then []
    else if Owner(run[0]) == Some(d) then [run[0]] + Only(run[1..], d)
    else Only(run[1..], d)
  }

  /** Calls whose class has one budget per device. */
  predicate PerDevice(e: Event) {
    match e.call
    case Acquire(_, c) => !IsGlobal(c)
    case AcquireSlot(_, c, _) => !IsGlobal(c)
    case Reserve(_, c, _) => !IsGlobal(c)
    case _ => true
  }

  /** What device `d` is told, in order, about its per-device classes. */
  function Seen(s: Buckets, run: Run, d: DeviceId): seq<Outcome>
    decreases |run|
  {
    if run == [] then []
    else
      var (s', o) := Step(s, run[0]);
      (if Owner(run[0]) == Some(d) && PerDevice(run[0]) then [o] else []) + Seen(s', run[1..], d)
  }

  ghost predicate Agree(s: Buckets, s': Buckets, d: DeviceId) {
    forall k: Key :: k.device == Some(d) ==> (k in s <==> k in s') && (k in s ==> s[k] == s'[k])
  }

  lemma OthersDoNotTouch(s: Buckets, e: Event, d: DeviceId)
    requires Owner(e) != Some(d)
    ensures Agree(s, Step(s, e).0, d)
  {
    forall k: Key | k.device == Some(d)
      ensures SameAt(s, Step(s, e).0, k)
    {
      OtherDoesNotTouch(s, e, d, k);
    }
  }

  lemma ElsewhereUntouched(s: Buckets, now: Nanos, later: Nanos, k: Key, l: ClassLimits, amount: U64, j: Key)
    requires j != k
    ensures SameAt(s, Charge(s, now, k, l).0, j) && SameAt(s, TakeSlot(s, now, later, k, l).0, j)
    ensures SameAt(s, TakeBytes(s, now, k, l, amount).0, j) && SameAt(s, Refresh(s, now, k, l), j)
    ensures SameAt(s, GiveSlot(s, k), j) && SameAt(s, GiveBytes(s, k, amount), j)
  {
  }

  lemma OtherDoesNotTouch(s: Buckets, e: Event, d: DeviceId, k: Key)
    requires Owner(e) != Some(d) && k.device == Some(d)
    ensures SameAt(s, Step(s, e).0, k)
  {
    match e.call
    case Acquire(other, c) => ElsewhereUntouched(s, e.now, e.now, KeyFor(other, c), Limits(c), 0, k);
    case AcquireSlot(other, c, later) => ElsewhereUntouched(s, e.now, later, KeyFor(other, c), Limits(c), 0, k);
    case Reserve(other, c, n) => ElsewhereUntouched(s, e.now, e.now, KeyFor(other, c), Limits(c), n, k);
    case Reset(other, c) => ElsewhereUntouched(s, e.now, e.now, KeyFor(other, c), Limits(c), 0, k);
    case _ =>
  }

  predicate SameAt(s: Buckets, s': Buckets, k: Key) {
    (k in s <==> k in s') && (k in s ==> s[k] == s'[k])
  }

  lemma ChargeIsLocal(s: Buckets, s': Buckets, now: Nanos, k: Key, l: ClassLimits, j: Key)
    requires SameAt(s, s', k) && SameAt(s, s', j)
    ensures Charge(s, now, k, l).1 == Charge(s', now, k, l).1
    ensures SameAt(Charge(s, now, k, l).0, Charge(s', now, k, l).0, j)
  {
  }

  lemma TakeSlotIsLocal(s: Buckets, s': Buckets, now: Nanos, later: Nanos, k: Key, l: ClassLimits, j: Key)
    requires SameAt(s, s', k) && SameAt(s, s', j)
    ensures TakeSlot(s, now, later, k, l).1 == TakeSlot(s', now, later, k, l).1
    ensures SameAt(TakeSlot(s, now, later, k, l).0, TakeSlot(s', now, later, k, l).0, j)
  {
    var ready := if l.maxConcurrent.Some? then Open(s, k, l, now) else s;
    var ready' := if l.maxConcurrent.Some? then Open(s', k, l, now) else s';
    ChargeIsLocal(ready, ready', later, k, l, k);
    ChargeIsLocal(ready, ready', later, k, l, j);
  }

  lemma TakeBytesIsLocal(s: Buckets, s': Buckets, now: Nanos, k: Key, l: ClassLimits, amount: U64, j: Key)
    requires SameAt(s, s', k) && SameAt(s, s', j)
    ensures TakeBytes(s, now, k, l, amount).1 == TakeBytes(s', now, k, l, amount).1
    ensures SameAt(TakeBytes(s, now, k, l, amount).0, TakeBytes(s', now, k, l, amount).0, j)
  {
  }

  /** A call on a global bucket leaves every per-device bucket as it was. */
  lemma GlobalCallsDoNotTouch(s: Buckets, e: Event, j: Key)
    requires !PerDevice(e) && j.device.Some?
    ensures SameAt(s, Step(s, e).0, j)
  {
  }

  lemma OwnCallsAgree(s: Buckets, s': Buckets, e: Event, d: DeviceId)
    requires Agree(s, s', d) && Owner(e) == Some(d)
    ensures Agree(Step(s, e).0, Step(s', e).0, d)
    ensures PerDevice(e) ==> Step(s, e).1 == Step(s', e).1
  {
    if PerDevice(e) && e.call.Acquire? {
      ChargeIsLocal(s, s', e.now, KeyFor(d, e.call.cls), Limits(e.call.cls), KeyFor(d, e.call.cls));
    } else if PerDevice(e) && e.call.AcquireSlot? {
      TakeSlotIsLocal(s, s', e.now, e.call.later, KeyFor(d, e.call.cls), Limits(e.call.cls), KeyFor(d, e.call.cls));
    } else if PerDevice(e) && e.call.Reserve? {
      TakeBytesIsLocal(s, s', e.now, KeyFor(d, e.call.cls), Limits(e.call.cls), e.call.amount, KeyFor(d, e.call.cls));
    }
    forall j: Key | j.device == Some(d) ensures SameAt(Step(s, e).0, Step(s', e).0, j) {
      OwnCallAgrees(s, s', e, d, j);
    }
  }

  lemma OwnCallAgrees(s: Buckets, s': Buckets, e: Event, d: DeviceId, j: Key)
    requires Agree(s, s', d) && Owner(e) == Some(d) && j.device == Some(d)
    ensures SameAt(Step(s, e).0, Step(s', e).0, j)
  {
    if !PerDevice(e) {
      GlobalCallsDoNotTouch(s, e, j);
      GlobalCallsDoNotTouch(s', e, j);
    } else if e.call.Acquire? {
      ChargeIsLocal(s, s', e.now, KeyFor(d, e.call.cls), Limits(e.call.cls), j);
    } else if e.call.AcquireSlot? {
      TakeSlotIsLocal(s, s', e.now, e.call.later, KeyFor(d, e.call.cls), Limits(e.call.cls), j);
    } else if e.call.Reserve? {
      TakeBytesIsLocal(s, s', e.now, KeyFor(d, e.call.cls), Limits(e.call.cls), e.call.amount, j);
    } else if e.call.Reset? && !IsGlobal(e.call.cls) {
      RefreshIsLocal(s, s', e.now, KeyFor(d, e.call.cls), Limits(e.call.cls), j);
    } else {
      KeepsOrGives(s, s', e, d, j);
    }
  }

  lemma RefreshIsLocal(s: Buckets, s': Buckets, now: Nanos, k: Key, l: ClassLimits, j: Key)
    requires SameAt(s, s', j) && SameAt(s, s', k)
    ensures SameAt(Refresh(s, now, k, l), Refresh(s', now, k, l), j)
  {
  }

  lemma KeepsOrGives(s: Buckets, s': Buckets, e: Event, d: DeviceId, j: Key)
    requires Agree(s, s', d) && j.device == Some(d)
    requires e.call.Release? || e.call.ReleaseBytes? || e.call.Forget? || (e.call.Reset? && IsGlobal(e.call.cls))
    ensures SameAt(Step(s, e).0, Step(s', e).0, j)
  {
  }

  lemma {:induction false} SeenFromAgreeing(s: Buckets, s': Buckets, run: Run, d: DeviceId)
    requires Agree(s, s', d)
    ensures Seen(s, run, d) == Seen(s', Only(run, d), d)
    decreases |run|
  {
    if run != [] {
      var e := run[0];
      if Owner(e) == Some(d) {
        OwnCallsAgree(s, s', e, d);
        SeenFromAgreeing(Step(s, e).0, Step(s', e).0, run[1..], d);
        assert Only(run, d)[0] == e && Only(run, d)[1..] == Only(run[1..], d);
      } else {
        OthersDoNotTouch(s, e, d);
        SeenFromAgreeing(Step(s, e).0, s', run[1..], d);
      }
    }
  }

  /**
   * In any interleaved run a device sees, call for call, the answers it would have seen had no
   * other device called at all (or been forgotten), at the same clock readings.
   */
  lemma DevicesAreIsolated(run: Run, d: DeviceId)
    ensures Seen(map[], run, d) == Seen(map[], Only(run, d), d)
  {
    SeenFromAgreeing(map[], map[], run, d);
  }
}
