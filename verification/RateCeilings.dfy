/**
 * Which ceilings bind: a class shared by all devices keeps its ceiling in every run, and a class
 * with a budget per device can be taken past it by forgetting a device that holds its slots.
 */
module RateCeilings {
  import opened Common
  import opened RateLimit
  import opened RateBounds
  import opened RateLedger

  /** Long enough for any class to restore a token. */
  const GAP: nat := 5 * SECOND

  /** Limits under which a token can be had every `GAP`, if tokens are counted at all. */
  predicate Restores(l: ClassLimits) {
    match l.refill
    case None => l.burst == 0
    case Some(rate) => l.burst > 0 && rate.tokens > 0 && rate.per <= GAP
  }

  /** Bucket `k` is absent, or has a token, or has had time for one. */
  predicate Ready(s: Buckets, k: Key, l: ClassLimits, t: nat) {
    k in s && l.refill.Some? ==>
      s[k].tokens <= Capacity(l) && s[k].last <= t && (s[k].tokens >= TOKEN_SCALE || s[k].last + GAP <= t)
  }

  lemma ProductMono(a: nat, b: nat, c: nat, d: nat)
    requires a <= b && c <= d
    ensures a * c <= d * b
  {
    MulMono(a, b, c);
    MulMono(c, d, b);
  }

  lemma ReadyHasToken(b: Bucket, now: Nanos, l: ClassLimits)
    requires l.refill.Some? && Restores(l) && b.tokens <= Capacity(l) && b.last <= now
    requires b.tokens >= TOKEN_SCALE || b.last + GAP <= now
    ensures Refilled(b, now, l).tokens >= TOKEN_SCALE
  {
    RefillHasEffect(b, now, l);
    if b.tokens < TOKEN_SCALE {
      MulMono(1, l.burst, TOKEN_SCALE);
      MulMono(1, l.refill.value.tokens, TOKEN_SCALE);
      ProductMono(TOKEN_SCALE - b.tokens, Rate(l), Per(l), now - b.last);
      RestoredAfter(b, b.last, now, l);
    }
  }

  lemma ChargeWhenReady(s: Buckets, now: Nanos, k: Key, l: ClassLimits)
    requires Restores(l) && Ready(s, k, l, now)
    ensures Charge(s, now, k, l).1 == Done && Ready(Charge(s, now, k, l).0, k, l, now + GAP)
    ensures InFlight(Charge(s, now, k, l).0, k) == InFlight(s, k)
  {
    if l.refill.Some? {
      var b := Open(s, k, l, now)[k];
      MulMono(1, l.burst, TOKEN_SCALE);
      ReadyHasToken(b, now, l);
      RefillHasEffect(b, now, l);
    }
  }

  /** A ready class below its ceiling grants a slot, and is ready again after another `GAP`. */
  lemma SlotWhenReady(s: Buckets, now: Nanos, k: Key, l: ClassLimits)
    requires Restores(l) && Ready(s, k, l, now)
    requires l.maxConcurrent.Some? && InFlight(s, k) < l.maxConcurrent.value
    ensures TakeSlot(s, now, now, k, l).1 == Granted(k)
    ensures InFlight(TakeSlot(s, now, now, k, l).0, k) == InFlight(s, k) + 1
    ensures Ready(TakeSlot(s, now, now, k, l).0, k, l, now + GAP)
  {
    if l.refill.Some? {
      MulMono(1, l.burst, TOKEN_SCALE);
    }
    ChargeWhenReady(Open(s, k, l, now), now, k, l);
  }

  lemma CeilingsRestore(c: OperationClass)
    requires Limits(c).maxConcurrent.Some? && !IsGlobal(c)
    ensures Restores(Limits(c)) && Limits(c).maxConcurrent.value > 0
  {
  }

  /** `n` times `GAP`. */
  function Span(n: nat): (r: nat)
    ensures r == n * 5_000_000_000
  {
    if n == 0 then 0 else GAP + Span(n - 1)
  }

  /** A lawful, timely run that adds `n` slots of key `k`, all of them counted. */
  ghost predicate Fills(w: World, run: Run, k: Key, n: nat, from: nat, to: nat) {
    var w' := After(w, run);
    && Lawful(w, run) && Timed(run, from, to)
    && w'.slots[k] == w.slots[k] + n && InFlight(w'.buckets, k) == InFlight(w.buckets, k) + n
  }

  lemma OneThen(w: World, e: Event, run: Run)
    ensures After(w, [e] + run) == After(Advance(w, e), run)
    ensures Lawful(w, [e] + run) <==> Owned(w, e) && Lawful(Advance(w, e), run)
  {
    assert ([e] + run)[1..] == run;
  }

  lemma {:induction false} TimedSooner(run: Run, sooner: nat, from: nat, to: nat)
    requires Timed(run, from, to) && sooner <= from
    ensures Timed(run, sooner, to)
  {
  }

  /** One slot taken: the counter and the holders move together, and the class will be ready again. */
  ghost predicate Took(w: World, e: Event, w': World, k: Key, l: ClassLimits) {
    && Owned(w, e) && w' == Advance(w, e)
    && w'.slots[k] == w.slots[k] + 1 && InFlight(w'.buckets, k) == InFlight(w.buckets, k) + 1
    && Ready(w'.buckets, k, l, e.End() + GAP)
  }

  lemma TakeOne(w: World, d: DeviceId, c: OperationClass, t: Nanos, k: Key, l: ClassLimits)
    returns (e: Event, w': World)
    requires l == Limits(c) && Restores(l) && l.maxConcurrent.Some? && k == KeyFor(d, c)
    requires Ready(w.buckets, k, l, t) && InFlight(w.buckets, k) < l.maxConcurrent.value
    ensures Took(w, e, w', k, l) && e.now == e.End() == t
    ensures InFlight(w'.buckets, k) == InFlight(w.buckets, k) + 1 && Ready(w'.buckets, k, l, t + GAP)
  {
    SlotWhenReady(w.buckets, t, k, l);
    e := Event(t, AcquireSlot(d, c, t));
    w' := Advance(w, e);
  }

  lemma TookThenFills(w: World, e: Event, w': World, rest: Run, k: Key, l: ClassLimits, n: nat, t: nat, to: nat)
    returns (run: Run)
    requires n > 0 && Took(w, e, w', k, l) && e.now == e.End() == t && Fills(w', rest, k, n - 1, t + GAP, to)
    ensures Fills(w, run, k, n, t, to)
  {
    run := [e] + rest;
    OneThen(w, e, rest);
    assert run[1..] == rest;
    TimedSooner(rest, t, t + GAP, to);
  }

  lemma NothingFills(w: World, k: Key, t: nat)
    ensures Fills(w, [], k, 0, t, t)
  {
  }

  /** `n` slots can be had, one every `GAP`. */
  lemma {:induction false} TakeSlots(w: World, d: DeviceId, c: OperationClass, n: nat, t: nat, to: nat,
                                     k: Key, l: ClassLimits)
    returns (run: Run)
    requires l == Limits(c) && Restores(l) && l.maxConcurrent.Some? && k == KeyFor(d, c)
    requires t + Span(n) == to <= DURATION_MAX
    requires Ready(w.buckets, k, l, t) && InFlight(w.buckets, k) + n <= l.maxConcurrent.value
    ensures Fills(w, run, k, n, t, to)
    decreases n
  {
    if n == 0 {
      run := [];
      NothingFills(w, k, t);
    } else {
      var e, w' := TakeOne(w, d, c, t, k, l);
      var rest := TakeSlots(w', d, c, n - 1, t + GAP, to, k, l);
      run := TookThenFills(w, e, w', rest, k, l, n, t, to);
    }
  }

  lemma {:induction false} AfterAppend(w: World, a: Run, b: Run, from: nat, mid: nat, to: nat)
    requires Timed(a, from, mid) && Timed(b, mid, to)
    ensures After(w, a + b) == After(After(w, a), b) && Timed(a + b, from, to)
    ensures Lawful(w, a) && Lawful(After(w, a), b) ==> Lawful(w, a + b)
    decreases |a|
  {
    if a == [] {
      assert a + b == b;
      TimedSooner(b, from, mid, to);
    } else {
      assert (a + b)[0] == a[0] && (a + b)[1..] == a[1..] + b;
      AfterAppend(Advance(w, a[0]), a[1..], b, a[0].End(), mid, to);
    }
  }

  lemma Forgotten(full: World, d: DeviceId, t: Nanos, k: Key) returns (emptied: World)
    requires k.device == Some(d)
    ensures emptied == Advance(full, Event(t, Forget(d)))
    ensures k !in emptied.buckets && emptied.slots == full.slots
  {
    emptied := Advance(full, Event(t, Forget(d)));
  }

  lemma OneMore(full: World, d: DeviceId, c: OperationClass, t: nat, k: Key, l: ClassLimits) returns (run: Run)
    requires l == Limits(c) && Restores(l) && l.maxConcurrent.Some? && l.maxConcurrent.value > 0
    requires !IsGlobal(c) && k == KeyFor(d, c) && t + Span(1) <= DURATION_MAX
    ensures Lawful(full, run) && Timed(run, t, t + Span(1))
    ensures After(full, run).slots[k] == full.slots[k] + 1
  {
    var forget := Event(t, Forget(d));
    var emptied := Forgotten(full, d, t, k);
    var rest := TakeSlots(emptied, d, c, 1, t, t + Span(1), k, l);
    run := [forget] + rest;
    OneThen(full, forget, rest);
    assert run[1..] == rest;
  }

  lemma Overfill(w: World, d: DeviceId, c: OperationClass, m: U32, k: Key, l: ClassLimits) returns (run: Run)
    requires l == Limits(c) && Restores(l) && l.maxConcurrent == Some(m) && m > 0
    requires !IsGlobal(c) && k == KeyFor(d, c) && Span(m) + Span(1) <= DURATION_MAX
    requires k !in w.buckets && w.slots[k] == 0
    ensures Lawful(w, run) && Timed(run, 0, Span(m) + Span(1)) && After(w, run).slots[k] == m + 1
  {
    var fill := TakeSlots(w, d, c, m, 0, Span(m), k, l);
    var more := OneMore(After(w, fill), d, c, Span(m), k, l);
    AfterAppend(w, fill, more, 0, Span(m), Span(m) + Span(1));
    run := fill + more;
  }

  /** Any class with a budget per device can be held one past its ceiling, by forgetting the holder. */
  lemma ForgettingLiftsTheCeiling(d: DeviceId, c: OperationClass, m: U32) returns (run: Run)
    requires Limits(c).maxConcurrent == Some(m) && !IsGlobal(c)
    ensures Lawful(FRESH, run) && Timed(run, 0, Span(m) + Span(1))
    ensures After(FRESH, run).slots[KeyFor(d, c)] == m + 1
  {
    CeilingsRestore(c);
    run := Overfill(FRESH, d, c, m, KeyFor(d, c), Limits(c));
  }

  /** Nothing forgets a bucket that belongs to no device. */
  lemma {:induction false} SharedIsKept(w: World, run: Run, k: Key)
    requires k.device == None
    ensures HolderKept(w, run, k)
    decreases |run|
  {
    if run != [] {
      SharedIsKept(Advance(w, run[0]), run[1..], k);
    }
  }

  /** No lawful run holds more slots of a class than its ceiling. */
  ghost predicate Binds(d: DeviceId, c: OperationClass, m: U32) {
    forall run :: Lawful(FRESH, run) ==> After(FRESH, run).slots[KeyFor(d, c)] <= m
  }

  /** A ceiling binds in every run exactly when its class is shared by all devices. */
  lemma CeilingBindsExactly(d: DeviceId, c: OperationClass, m: U32)
    requires Limits(c).maxConcurrent == Some(m)
    ensures Binds(d, c, m) <==> IsGlobal(c)
  {
    if IsGlobal(c) {
      forall run | Lawful(FRESH, run)
        ensures After(FRESH, run).slots[KeyFor(d, c)] <= m
      {
        SharedIsKept(FRESH, run, KeyFor(d, c));
        CeilingHolds(FRESH, run, KeyFor(d, c));
      }
    } else {
      var run := ForgettingLiftsTheCeiling(d, c, m);
    }
  }
}
