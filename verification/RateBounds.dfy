/**
 * How fast the limiter can be driven: admissions over any window of any run, how long a
 * refused client waits, and what polling costs. All bounds are in exact integer arithmetic,
 * multiplied out so that no division is left.
 */
module RateBounds {
  import opened Common
  import opened RateLimit

  /** Units restored per period, and the period, of a class; nothing is restored without a rate. */
  function Rate(l: ClassLimits): nat {
    if l.refill.Some? then l.refill.value.tokens * TOKEN_SCALE else 0
  }

  function Per(l: ClassLimits): nat {
    if l.refill.Some? then Max(l.refill.value.per, 1) else 1
  }

  // ----- one refill -----

  lemma MulMono(a: nat, b: nat, c: nat)
    requires a <= b
    ensures a * c <= b * c
  {
  }

  lemma DivBounds(a: nat, b: nat)
    requires b > 0
    ensures Div(a, b) * b <= a < (Div(a, b) + 1) * b
  {
    assert a == (a / b) * b + a % b;
  }

  /** Truncation loses less than one unit; saturation only happens when far more than a token is due. */
  lemma CreditBounds(elapsed: nat, rate: Refill)
    ensures var q, r, p := Credit(elapsed, rate), rate.tokens * TOKEN_SCALE, Max(rate.per, 1);
            q * p <= elapsed * r && (q >= TOKEN_SCALE || elapsed * r < (q + 1) * p)
  {
    var p := Max(rate.per, 1);
    var inner := SatMul(elapsed, rate.tokens);
    var dividend := SatMul(inner, TOKEN_SCALE);
    var q := Credit(elapsed, rate);
    DivBounds(dividend, p);
    MulMono(p, DURATION_MAX, TOKEN_SCALE);
    assert elapsed * (rate.tokens * TOKEN_SCALE) == (elapsed * rate.tokens) * TOKEN_SCALE;
    MulMono(inner, elapsed * rate.tokens, TOKEN_SCALE);
    if dividend < U128_MAX {
      assert inner < U128_MAX;
      assert dividend == (elapsed * rate.tokens) * TOKEN_SCALE;
    } else if q < TOKEN_SCALE {
      MulMono(q + 1, TOKEN_SCALE, p);
      assert false;
    }
  }

  /** What a refill may do to the fixed-point account of a bucket. */
  ghost predicate RefillEffect(b: Bucket, b': Bucket, now: nat, l: ClassLimits) {
    && b' == b.(tokens := b'.tokens, last := b'.last)
    && b.tokens <= b'.tokens <= Capacity(l)
    && b.last <= b'.last <= now
    // no unit is invented
    && b'.tokens * Per(l) + (now - b'.last) * Rate(l) <= b.tokens * Per(l) + (now - b.last) * Rate(l)
    // what is left unaccounted is under one unit
    && (now - b'.last) * Rate(l) < Per(l)
    // a refill that moves the mark keeps more than half of what it was due
    && (b' == b || b'.tokens >= Min(Capacity(l), TOKEN_SCALE)
        || 2 * (b'.tokens - b.tokens) * Per(l) > (b'.last - b.last) * Rate(l))
  }

  lemma CreditedTokens(tokens: nat, q: nat, capacity: nat, e: nat, p: nat, r: nat)
    requires tokens <= capacity && q > 0 && p > 0
    requires q * p <= e * r && (q >= TOKEN_SCALE || e * r < (q + 1) * p)
    ensures var full := Min(tokens + q, capacity);
            && full * p <= tokens * p + e * r
            && (full >= Min(capacity, TOKEN_SCALE) || 2 * (full - tokens) * p > e * r)
  {
    var full := Min(tokens + q, capacity);
    MulMono(full, tokens + q, p);
    assert (tokens + q) * p == tokens * p + q * p;
    if full == tokens + q && q < TOKEN_SCALE {
      MulMono(q + 1, 2 * q, p);
    }
  }

  lemma NoEffect(b: Bucket, now: Nanos, l: ClassLimits)
    requires b.tokens <= Capacity(l) && b.last <= now && (now - b.last) * Rate(l) < Per(l)
    ensures RefillEffect(b, b, now, l)
  {
  }

  lemma FullEffect(b: Bucket, now: Nanos, l: ClassLimits, full: nat)
    requires b.tokens <= full <= Capacity(l) && b.last <= now
    requires full * Per(l) <= b.tokens * Per(l) + (now - b.last) * Rate(l)
    requires full >= Min(Capacity(l), TOKEN_SCALE) || 2 * (full - b.tokens) * Per(l) > (now - b.last) * Rate(l)
    ensures RefillEffect(b, b.(tokens := full, last := now), now, l)
  {
  }

  lemma RefillHasEffect(b: Bucket, now: Nanos, l: ClassLimits)
    requires b.tokens <= Capacity(l) && b.last <= now
    ensures RefillEffect(b, Refilled(b, now, l), now, l)
  {
    if l.refill.None? || l.refill.value.tokens == 0 {
      assert Rate(l) == 0;
      NoEffect(b, now, l);
    } else {
      var e := now - b.last;
      var q := Credit(e, l.refill.value);
      CreditBounds(e, l.refill.value);
      if q == 0 {
        NoEffect(b, now, l);
      } else {
        CreditedTokens(b.tokens, q, Capacity(l), e, Per(l), Rate(l));
        FullEffect(b, now, l, Min(b.tokens + q, Capacity(l)));
        RefilledTokens(b, now, l, q);
      }
    }
  }

  lemma RefilledTokens(b: Bucket, now: Nanos, l: ClassLimits, q: nat)
    requires b.last <= now && l.refill.Some? && l.refill.value.tokens > 0
    requires q == Credit(now - b.last, l.refill.value) && q > 0
    ensures Refilled(b, now, l) == b.(tokens := Min(b.tokens + q, Capacity(l)), last := now)
  {
  }

  // ----- the account of one bucket over time -----

  /**
   * Unspent credit in unit-nanoseconds: stored tokens and time not yet turned into tokens, up to one
   * unit over full.
   */
  function Account(b: Bucket, t: nat, l: ClassLimits): nat {
    Min(b.tokens * Per(l) + SatSub(t, b.last) * Rate(l), Capacity(l) * Per(l) + Per(l) - 1)
  }

  lemma CappedAges(x: nat, d: nat, cap: int)
    requires cap >= 0
    ensures Min(x + d, cap) <= Min(x, cap) + d
  {
  }

  lemma AccountAges(b: Bucket, t: nat, t': nat, l: ClassLimits)
    requires b.last <= t <= t'
    ensures Account(b, t', l) <= Account(b, t, l) + (t' - t) * Rate(l)
  {
    SumTerms(t - b.last, t' - t, t' - b.last, Rate(l));
    CappedAges(b.tokens * Per(l) + (t - b.last) * Rate(l), (t' - t) * Rate(l), Capacity(l) * Per(l) + Per(l) - 1);
  }

  /** Refilling creates no credit, and a token taken afterwards is paid for in full. */
  lemma AccountCharged(b: Bucket, now: Nanos, l: ClassLimits)
    requires b.tokens <= Capacity(l) && b.last <= now
    ensures var f := Refilled(b, now, l);
            && Account(f, now, l) <= Account(b, now, l)
            && (f.tokens >= TOKEN_SCALE ==>
                  Account(f.(tokens := f.tokens - TOKEN_SCALE), now, l) + TOKEN_SCALE * Per(l) <= Account(b, now, l))
  {
    var f := Refilled(b, now, l);
    RefillHasEffect(b, now, l);
    MulMono(f.tokens, Capacity(l), Per(l));
    if f.tokens >= TOKEN_SCALE {
      assert (f.tokens - TOKEN_SCALE) * Per(l) + TOKEN_SCALE * Per(l) == f.tokens * Per(l);
    }
  }

  // ----- runs of the whole limiter, seen from one key -----

  /** Classes whose admissions are counted at all. */
  predicate Limited(c: OperationClass) {
    Limits(c).refill.Some? || Limits(c).burst != 0
  }

  predicate Admits(s: Buckets, e: Event, k: Key) {
    match e.call
    case Acquire(d, c) => KeyFor(d, c) == k && Step(s, e).1 == Done
    case AcquireSlot(d, c, _) => KeyFor(d, c) == k && Step(s, e).1.Granted?
    case _ => false
  }

  /** The calls that may hand a bucket new credit outright. */
  predicate Disrupts(e: Event, k: Key) {
    match e.call
    case Reset(d, c) => KeyFor(d, c) == k
    case Forget(d) => k.device == Some(d)
    case _ => false
  }

  predicate Undisturbed(run: Run, k: Key) {
    forall i :: 0 <= i < |run| ==> !Disrupts(run[i], k)
  }

  function Admissions(s: Buckets, run: Run, k: Key): nat
    decreases |run|
  {
    if run == [] then 0
    else (if Admits(s, run[0], k) then 1 else 0) + Admissions(Step(s, run[0]).0, run[1..], k)
  }

  /** No bucket holds more than its capacity or a mark from the future. */
  ghost predicate Sane(s: Buckets, t: nat) {
    forall k :: k in s ==> s[k].tokens <= Capacity(Limits(k.cls)) && s[k].last <= t
  }

  function Balance(b: Option<Bucket>, t: nat, l: ClassLimits): nat {
    if b.Some? then Account(b.value, t, l) else Capacity(l) * Per(l)
  }

  ghost predicate SameAccount(a: Bucket, b: Bucket) {
    a.tokens == b.tokens && a.last == b.last
  }

  ghost predicate BucketSane(b: Bucket, l: ClassLimits, t: nat) {
    b.tokens <= Capacity(l) && b.last <= t
  }

  /** A bucket after a call that does not touch its tokens, that is refused, or that takes one. */
  ghost predicate Moved(b: Bucket, b': Bucket, at: Nanos, l: ClassLimits, admitted: bool) {
    var f := Refilled(b, at, l);
    if admitted then f.tokens >= TOKEN_SCALE && SameAccount(b', f.(tokens := f.tokens - TOKEN_SCALE))
    else SameAccount(b', b) || SameAccount(b', f)
  }

  lemma ChargeMoves(s: Buckets, now: Nanos, k: Key, l: ClassLimits)
    requires l.refill.Some? || l.burst != 0
    ensures var (s', o) := Charge(s, now, k, l);
            k in s' && Moved(Open(s, k, l, now)[k], s'[k], now, l, o == Done)
  {
  }

  lemma TakeSlotMoves(s: Buckets, now: Nanos, later: Nanos, k: Key, l: ClassLimits)
    requires l.refill.Some? || l.burst != 0
    ensures var (s', o) := TakeSlot(s, now, later, k, l);
            k in s' && (|| Moved(Open(s, k, l, now)[k], s'[k], later, l, o.Granted?)
                        || Moved(Open(s, k, l, later)[k], s'[k], later, l, o.Granted?))
  {
    var ready := if l.maxConcurrent.Some? then Open(s, k, l, now) else s;
    ChargeMoves(ready, later, k, l);
  }

  /** A call leaves the account of a bucket it does not charge alone. */
  lemma StepSpares(s: Buckets, e: Event, k: Key)
    requires !Disrupts(e, k)
    requires e.call.Acquire? || e.call.AcquireSlot? ==> KeyFor(e.call.device, e.call.cls) != k
    ensures !Admits(s, e, k)
    ensures var s' := Step(s, e).0;
            if k in s' then SameAccount(Open(s, k, Limits(k.cls), e.now)[k], s'[k]) else k !in s
  {
  }

  /** The bucket of a key before and after a call that began at `now` and ended at `end`. */
  ghost predicate KeyMoved(before: Option<Bucket>, after: Option<Bucket>, now: Nanos, end: Nanos,
          l: ClassLimits, admitted: bool) {
    match (before, after)
    case (None, None) => !admitted
    case (Some(_), None) => false
    case (Some(b), Some(b')) => Moved(b, b', end, l, admitted)
    case (None, Some(b')) =>
      Moved(NewBucket(l, now), b', end, l, admitted) || Moved(NewBucket(l, end), b', end, l, admitted)
  }

  function Lookup(s: Buckets, k: Key): Option<Bucket> {
    if k in s then Some(s[k]) else None
  }

  /** What one call can do to the account of a bucket, opened during the call if it was absent. */
  lemma StepMoves(s: Buckets, e: Event, k: Key)
    requires !Disrupts(e, k) && Limited(k.cls)
    ensures KeyMoved(Lookup(s, k), Lookup(Step(s, e).0, k), e.now, e.End(), Limits(k.cls), Admits(s, e, k))
  {
    if (e.call.Acquire? || e.call.AcquireSlot?) && KeyFor(e.call.device, e.call.cls) == k {
      if e.call.Acquire? {
        ChargeMoves(s, e.now, k, Limits(k.cls));
      } else {
        TakeSlotMoves(s, e.now, e.call.later, k, Limits(k.cls));
      }
    } else {
      StepSpares(s, e, k);
    }
  }

  lemma MovedSane(b: Bucket, b': Bucket, at: Nanos, l: ClassLimits, admitted: bool)
    requires BucketSane(b, l, at) && Moved(b, b', at, l, admitted)
    ensures BucketSane(b', l, at)
  {
    RefillHasEffect(b, at, l);
  }

  lemma KeyMovedSane(before: Option<Bucket>, after: Option<Bucket>, now: Nanos, end: Nanos, l: ClassLimits,
          admitted: bool)
    requires KeyMoved(before, after, now, end, l, admitted) && now <= end
    requires before.Some? ==> BucketSane(before.value, l, now)
    ensures after.Some? ==> BucketSane(after.value, l, end)
  {
    if after.Some? {
      var b := if before.Some? then before.value
               else if Moved(NewBucket(l, now), after.value, end, l, admitted) then NewBucket(l, now)
               else NewBucket(l, end);
      MovedSane(b, after.value, end, l, admitted);
    }
  }

  lemma StepSane(s: Buckets, e: Event, t: nat)
    requires Sane(s, t) && t <= e.now <= e.End()
    ensures Sane(Step(s, e).0, e.End())
  {
    var s' := Step(s, e).0;
    forall k | k in s' ensures BucketSane(s'[k], Limits(k.cls), e.End()) {
      if Disrupts(e, k) || !Limited(k.cls) {
        UnlimitedSane(s, e, k);
      } else {
        StepMoves(s, e, k);
        KeyMovedSane(Lookup(s, k), Lookup(s', k), e.now, e.End(), Limits(k.cls), Admits(s, e, k));
      }
    }
  }

  lemma UnlimitedSane(s: Buckets, e: Event, k: Key)
    requires k in Step(s, e).0 && (Disrupts(e, k) || !Limited(k.cls))
    requires e.now <= e.End()
    requires k in s ==> BucketSane(s[k], Limits(k.cls), e.now)
    ensures BucketSane(Step(s, e).0[k], Limits(k.cls), e.End())
  {
    if e.call.Acquire? || e.call.AcquireSlot? {
      UnchargedSane(s, e, k, KeyFor(e.call.device, e.call.cls), Limits(e.call.cls));
    }
  }

  /** A charge to another bucket, or to a bucket without limits, leaves `k` as sane as it was. */
  lemma UnchargedSane(s: Buckets, e: Event, k: Key, charged: Key, l: ClassLimits)
    requires k != charged || (l.refill.None? && l.burst == 0)
    requires e.now <= e.End()
    requires k in s ==> BucketSane(s[k], l, e.now) || k != charged
    ensures var s' := Charge(s, e.now, charged, l).0;
            k in s' ==> k in s && SameAccount(s'[k], s[k])
    ensures var s' := TakeSlot(s, e.now, e.End(), charged, l).0;
            k in s' ==> (k in s && SameAccount(s'[k], s[k])) || (k == charged && BucketSane(s'[k], l, e.End()))
  {
  }

  lemma MovedAccount(b: Bucket, b': Bucket, at: Nanos, l: ClassLimits, admitted: bool)
    requires BucketSane(b, l, at) && Moved(b, b', at, l, admitted)
    ensures Account(b', at, l) + (if admitted then TOKEN_SCALE * Per(l) else 0) <= Account(b, at, l)
  {
    AccountCharged(b, at, l);
  }

  /** The balance of one bucket pays for what `Moved` admits, with credit accruing at the class rate. */
  lemma AgedAndMoved(b: Bucket, b': Bucket, t: nat, at: Nanos, l: ClassLimits, admitted: bool)
    requires b.tokens <= Capacity(l) && b.last <= t <= at && Moved(b, b', at, l, admitted)
    ensures Account(b', at, l) + (if admitted then TOKEN_SCALE * Per(l) else 0) <= Account(b, t, l) + (at - t) * Rate(l)
  {
    AccountAges(b, t, at, l);
    MovedAccount(b, b', at, l, admitted);
  }

  lemma FreshAndMoved(birth: Nanos, b': Bucket, t: nat, at: Nanos, l: ClassLimits, admitted: bool)
    requires t <= birth <= at && Moved(NewBucket(l, birth), b', at, l, admitted)
    ensures Account(b', at, l) + (if admitted then TOKEN_SCALE * Per(l)
              else 0) <= Capacity(l) * Per(l) + (at - t) * Rate(l)
  {
    AgedAndMoved(NewBucket(l, birth), b', birth, at, l, admitted);
    MulMono(at - birth, at - t, Rate(l));
  }

  lemma BalanceMoved(before: Option<Bucket>, after: Option<Bucket>, t: nat, now: Nanos, end: Nanos,
          l: ClassLimits, admitted: bool)
    requires KeyMoved(before, after, now, end, l, admitted) && t <= now <= end
    requires before.Some? ==> BucketSane(before.value, l, t)
    ensures Balance(after, end, l) + (if admitted then TOKEN_SCALE * Per(l) else 0)
         <= Balance(before, t, l) + (end - t) * Rate(l)
  {
    if after.None? {
      MulMono(0, end - t, Rate(l));
    } else if before.Some? {
      AgedAndMoved(before.value, after.value, t, end, l, admitted);
    } else if Moved(NewBucket(l, now), after.value, end, l, admitted) {
      FreshAndMoved(now, after.value, t, end, l, admitted);
    } else {
      FreshAndMoved(end, after.value, t, end, l, admitted);
    }
  }

  /** An account that grew by no more than the rate, after paying for an admission. */
  predicate Pays(before: nat, after: nat, elapsed: nat, l: ClassLimits, admitted: bool) {
    after + (if admitted then TOKEN_SCALE * Per(l) else 0) <= before + elapsed * Rate(l)
  }

  lemma ChargePays(s: Buckets, now: Nanos, k: Key, l: ClassLimits, t: nat)
    requires l.refill.Some? || l.burst != 0
    requires t <= now && (k in s ==> BucketSane(s[k], l, t))
    ensures var (s', o) := Charge(s, now, k, l);
            Pays(Balance(Lookup(s, k), t, l), Balance(Lookup(s', k), now, l), now - t, l, o == Done)
  {
    ChargeMoves(s, now, k, l);
    BalanceMoved(Lookup(s, k), Lookup(Charge(s, now, k, l).0, k), t, now, now, l, Charge(s, now, k, l).1 == Done);
  }

  lemma SlotPays(s: Buckets, now: Nanos, later: Nanos, k: Key, l: ClassLimits, t: nat)
    requires l.refill.Some? || l.burst != 0
    requires t <= now <= later && (k in s ==> BucketSane(s[k], l, t))
    ensures var (s', o) := TakeSlot(s, now, later, k, l);
            Pays(Balance(Lookup(s, k), t, l), Balance(Lookup(s', k), later, l), later - t, l, o.Granted?)
  {
    var (s', o) := TakeSlot(s, now, later, k, l);
    TakeSlotMoves(s, now, later, k, l);
    BalanceMoved(Lookup(s, k), Lookup(s', k), t, now, later, l, o.Granted?);
  }

  lemma SparedPays(before: Option<Bucket>, after: Option<Bucket>, t: nat, now: Nanos, end: Nanos, l: ClassLimits)
    requires t <= now <= end && (before.Some? ==> BucketSane(before.value, l, t))
    requires if after.Some? then SameAccount(if before.Some? then before.value else NewBucket(l, now), after.value)
             else before.None?
    ensures Pays(Balance(before, t, l), Balance(after, end, l), end - t, l, false)
  {
    BalanceMoved(before, after, t, now, end, l, false);
  }

  lemma BalanceStep(s: Buckets, e: Event, k: Key, t: nat, l: ClassLimits)
    requires k in s ==> BucketSane(s[k], l, t)
    requires t <= e.now <= e.End() && !Disrupts(e, k)
    requires Limited(k.cls) && l == Limits(k.cls)
    ensures Pays(Balance(Lookup(s, k), t, l), Balance(Lookup(Step(s, e).0, k), e.End(), l),
                 e.End() - t, l, Admits(s, e, k))
  {
    if e.call.Acquire? && KeyFor(e.call.device, e.call.cls) == k {
      ChargePays(s, e.now, k, l, t);
    } else if e.call.AcquireSlot? && KeyFor(e.call.device, e.call.cls) == k {
      SlotPays(s, e.now, e.call.later, k, l, t);
    } else {
      StepSpares(s, e, k);
      SparedPays(Lookup(s, k), Lookup(Step(s, e).0, k), t, e.now, e.End(), l);
    }
  }

  lemma {:induction false} BalanceRun(s: Buckets, run: Run, k: Key, from: nat, to: nat, l: ClassLimits)
    requires Sane(s, from) && Timed(run, from, to) && Undisturbed(run, k)
    requires Limited(k.cls) && l == Limits(k.cls)
    ensures Admissions(s, run, k) * (TOKEN_SCALE * Per(l)) <= Balance(Lookup(s, k), from, l) + (to - from) * Rate(l)
    decreases |run|
  {
    TimedEnds(run, from, to);
    var cost, r, m, b0 := TOKEN_SCALE * Per(l), Rate(l), Admissions(s, run, k), Balance(Lookup(s, k), from, l);
    assert m * cost <= b0 + (to - from) * r by {
      if run == [] {
        Nothing(m, cost, b0, to - from, r);
      } else {
        var e, rest, s' := run[0], run[1..], Step(s, run[0]).0;
        StepSane(s, e, from);
        BalanceStep(s, e, k, from, l);
        TimedEnds(rest, e.End(), to);
        BalanceRun(s', rest, k, e.End(), to, l);
        Compose(Admits(s, e, k), Admissions(s', rest, k), m, cost, b0, Balance(Lookup(s', k), e.End(), l),
                e.End() - from, to - e.End(), to - from, r);
      }
    }
  }

  lemma Nothing(m: nat, cost: nat, b0: nat, d: nat, r: nat)
    requires m == 0
    ensures m * cost <= b0 + d * r
  {
    MulMono(0, d, r);
  }

  lemma Compose(admitted: bool, n: nat, m: nat, cost: nat, b0: nat, b1: nat, d1: nat, d2: nat, d: nat, r: nat)
    requires b1 + (if admitted then cost else 0) <= b0 + d1 * r
    requires n * cost <= b1 + d2 * r
    requires m == (if admitted then 1 else 0) + n && d == d1 + d2
    ensures m * cost <= b0 + d * r
  {
  }

  lemma {:induction false} TimedEnds(run: Run, from: nat, to: nat)
    requires Timed(run, from, to)
    ensures from <= to
    decreases |run|
  {
    if run != [] {
      TimedEnds(run[1..], run[0].End(), to);
    }
  }

  // ----- the rate bound -----

  lemma {:induction false} FinalSane(s: Buckets, run: Run, from: nat, to: nat)
    requires Sane(s, from) && Timed(run, from, to)
    ensures Sane(Final(s, run), to)
    decreases |run|
  {
    if run != [] {
      StepSane(s, run[0], from);
      FinalSane(Step(s, run[0]).0, run[1..], run[0].End(), to);
    }
  }

  lemma AccountBounded(b: Bucket, t: nat, l: ClassLimits)
    ensures Account(b, t, l) < (Capacity(l) + 1) * Per(l)
  {
  }

  /**
   * After any history at all, the admissions of one bucket in the window `[from, to]` stay
   * within its burst, what the rate restores in the window, and less than one fixed-point unit.
   */
  lemma WindowBound(history: Run, window: Run, k: Key, from: nat, to: nat)
    requires Timed(history, 0, from) && Timed(window, from, to)
    requires Undisturbed(window, k) && Limited(k.cls)
    ensures var l := Limits(k.cls);
            Admissions(Final(map[], history), window, k) * (TOKEN_SCALE * Per(l))
            < (Capacity(l) + 1) * Per(l) + (to - from) * Rate(l)
  {
    var s, l := Final(map[], history), Limits(k.cls);
    FinalSane(map[], history, 0, from);
    BalanceRun(s, window, k, from, to, l);
    if k in s {
      AccountBounded(s[k], from, l);
    }
  }

  function TokensPerPeriod(l: ClassLimits): nat {
    if l.refill.Some? then l.refill.value.tokens else 0
  }

  lemma Descale(n: nat, p: nat, burst: nat, d: nat, tokens: nat)
    requires n * (TOKEN_SCALE * p) <= (burst * TOKEN_SCALE) * p + d * (tokens * TOKEN_SCALE)
    ensures n * p <= burst * p + d * tokens
  {
    assert n * (TOKEN_SCALE * p) == (n * p) * TOKEN_SCALE;
    assert (burst * TOKEN_SCALE) * p == (burst * p) * TOKEN_SCALE;
    assert d * (tokens * TOKEN_SCALE) == (d * tokens) * TOKEN_SCALE;
  }

  /** Counted from before its bucket exists, a class never exceeds burst plus rate, with no slack at all. */
  lemma BoundFromCreation(history: Run, window: Run, k: Key, from: nat, to: nat)
    requires Timed(history, 0, from) && Timed(window, from, to)
    requires Undisturbed(window, k) && Limited(k.cls) && k !in Final(map[], history)
    ensures var l := Limits(k.cls);
            Admissions(Final(map[], history), window, k) * Per(l) <= l.burst * Per(l) + (to - from) * TokensPerPeriod(l)
  {
    var s, l := Final(map[], history), Limits(k.cls);
    FinalSane(map[], history, 0, from);
    BalanceRun(s, window, k, from, to, l);
    TimedEnds(window, from, to);
    Descale(Admissions(s, window, k), Per(l), l.burst, to - from, TokensPerPeriod(l));
  }

  // ----- polling -----

  /** How far a bucket has come since `b0` without an admission: at least half of what time was worth. */
  ghost predicate Progress(b0: Bucket, b: Bucket, l: ClassLimits) {
    && b0.tokens <= b.tokens && b0.last <= b.last
    && (|| b.tokens >= Min(Capacity(l), TOKEN_SCALE)
        || SameAccount(b, b0)
        || 2 * (b.tokens - b0.tokens) * Per(l) > (b.last - b0.last) * Rate(l))
  }

  lemma ProgressRefilled(b0: Bucket, b: Bucket, now: Nanos, l: ClassLimits)
    requires Progress(b0, b, l) && BucketSane(b, l, now)
    ensures Progress(b0, Refilled(b, now, l), l)
  {
    var f := Refilled(b, now, l);
    RefillHasEffect(b, now, l);
    if f != b && f.tokens < Min(Capacity(l), TOKEN_SCALE) {
      SumTerms(2 * (b.tokens - b0.tokens), 2 * (f.tokens - b.tokens), 2 * (f.tokens - b0.tokens), Per(l));
      SumTerms(b.last - b0.last, f.last - b.last, f.last - b0.last, Rate(l));
    }
  }

  lemma SumTerms(a: nat, b: nat, c: nat, r: nat)
    requires a + b == c
    ensures a * r + b * r == c * r
  {
  }

  lemma ProgressMoved(b0: Bucket, b: Bucket, b': Bucket, at: Nanos, l: ClassLimits)
    requires Moved(b, b', at, l, false) && BucketSane(b, l, at) && Progress(b0, b, l)
    ensures Progress(b0, b', l)
  {
    ProgressRefilled(b0, b, at, l);
  }

  lemma ProgressStep(b0: Bucket, s: Buckets, e: Event, k: Key, l: ClassLimits)
    requires !Disrupts(e, k) && Limited(k.cls) && l == Limits(k.cls) && !Admits(s, e, k)
    requires k in s && BucketSane(s[k], l, e.End()) && Progress(b0, s[k], l)
    ensures var s' := Step(s, e).0;
            k in s' && Progress(b0, s'[k], l)
  {
    StepMoves(s, e, k);
    ProgressMoved(b0, s[k], Step(s, e).0[k], e.End(), l);
  }

  lemma {:induction false} ProgressRun(b0: Bucket, s: Buckets, run: Run, k: Key, from: nat, to: nat, l: ClassLimits)
    requires Sane(s, from) && Timed(run, from, to) && Undisturbed(run, k)
    requires Limited(k.cls) && l == Limits(k.cls)
    requires k in s && Progress(b0, s[k], l) && Admissions(s, run, k) == 0
    ensures k in Final(s, run) && Progress(b0, Final(s, run)[k], l)
    decreases |run|
  {
    if run != [] {
      StepSane(s, run[0], from);
      ProgressStep(b0, s, run[0], k, l);
      ProgressRun(b0, Step(s, run[0]).0, run[1..], k, run[0].End(), to, l);
    }
  }

  lemma Overtakes(gained: nat, deficit: nat, p: nat, r: nat, moved: nat, left: nat, waited: nat)
    requires p > 0 && deficit > 0
    requires moved + left >= waited && left * r < p && waited * r >= 2 * deficit * p
    requires 2 * gained * p > moved * r || (gained == 0 && moved == 0)
    ensures gained >= deficit
  {
    SumTerms(moved, left, moved + left, r);
    MulMono(waited, moved + left, r);
    if gained < deficit {
      MulMono(2 * gained + 1, 2 * deficit - 1, p);
      SumTerms(2 * deficit - 1, 1, 2 * deficit, p);
    }
  }

  /** Every class with a rate restores something, into room for at least one token. */
  lemma RatedClasses(c: OperationClass)
    requires Limits(c).refill.Some?
    ensures Limits(c).refill.value.tokens > 0 && Limits(c).burst > 0 && Limited(c)
    ensures Capacity(Limits(c)) >= TOKEN_SCALE && Rate(Limits(c)) > 0
  {
  }

  /** A refused bucket is out of tokens and has less than one unit of time unaccounted. */
  lemma Refused(s: Buckets, e: Event, k: Key, t: nat)
    requires Sane(s, t) && t <= e.now <= e.End() && Step(s, e).1.RateLimited?
    requires (e.call.Acquire? || e.call.AcquireSlot?) && KeyFor(e.call.device, e.call.cls) == k
    ensures var s', l := Step(s, e).0, Limits(k.cls);
            && k in s' && s'[k].tokens < TOKEN_SCALE && s'[k].last <= e.End()
            && l.refill.Some? && Step(s, e).1.ms == RetryAfterMs(s'[k].tokens, l.refill.value)
            && (e.End() - s'[k].last) * Rate(l) < Per(l)
  {
    var l := Limits(k.cls);
    if e.call.Acquire? {
      ChargeRefused(s, e.now, k, l);
    } else {
      var ready := if l.maxConcurrent.Some? then Open(s, k, l, e.now) else s;
      ChargeRefused(ready, e.call.later, k, l);
    }
  }

  lemma ChargeRefused(s: Buckets, now: Nanos, k: Key, l: ClassLimits)
    requires Charge(s, now, k, l).1.RateLimited?
    requires k in s ==> BucketSane(s[k], l, now)
    ensures var (s', o) := Charge(s, now, k, l);
            && k in s' && s'[k].tokens < TOKEN_SCALE && s'[k].last <= now
            && l.refill.Some? && o.ms == RetryAfterMs(s'[k].tokens, l.refill.value)
            && (now - s'[k].last) * Rate(l) < Per(l)
  {
    RefillHasEffect(Open(s, k, l, now)[k], now, l);
  }

  /**
   * Polling costs at most a factor two: once twice the deficit's worth of time has passed since a
   * refusal, an attempt is admitted, whatever calls were made in between without being admitted.
   */
  lemma PollingCostsAtMostDouble(history: Run, refused: Event, polls: Run, k: Key, from: nat, to: Nanos,
          device: DeviceId)
    requires Timed(history, 0, from) && from <= refused.now <= refused.End() && Timed(polls, refused.End(), to)
    requires refused.call.Acquire? || refused.call.AcquireSlot?
    requires KeyFor(refused.call.device, refused.call.cls) == k == KeyFor(device, k.cls)
    requires Step(Final(map[], history), refused).1.RateLimited?
    requires var s := Step(Final(map[], history), refused).0;
             && k in s && Admissions(s, polls, k) == 0 && Undisturbed(polls, k)
             && (to - refused.End()) * Rate(Limits(k.cls)) >= 2 * (TOKEN_SCALE - s[k].tokens) * Per(Limits(k.cls))
    ensures var s := Final(Step(Final(map[], history), refused).0, polls);
            Step(s, Event(to, Acquire(device, k.cls))).1 == Done
  {
    var s0 := Final(map[], history);
    FinalSane(map[], history, 0, from);
    StepSane(s0, refused, from);
    Refused(s0, refused, k, from);
    RatedClasses(k.cls);
    TimedEnds(polls, refused.End(), to);
    PolledThenAdmitted(Step(s0, refused).0, polls, k, refused.End(), to, device, Limits(k.cls));
  }

  lemma PolledThenAdmitted(s: Buckets, polls: Run, k: Key, t: nat, to: Nanos, device: DeviceId, l: ClassLimits)
    requires Sane(s, t) && Timed(polls, t, to) && Undisturbed(polls, k)
    requires Limited(k.cls) && l == Limits(k.cls) && KeyFor(device, k.cls) == k && Capacity(l) >= TOKEN_SCALE
    requires k in s && s[k].tokens < TOKEN_SCALE && s[k].last <= t && (t - s[k].last) * Rate(l) < Per(l)
    requires t <= to && Admissions(s, polls, k) == 0
    requires (to - t) * Rate(l) >= 2 * (TOKEN_SCALE - s[k].tokens) * Per(l)
    ensures Step(Final(s, polls), Event(to, Acquire(device, k.cls))).1 == Done
  {
    ProgressRun(s[k], s, polls, k, t, to, l);
    FinalSane(s, polls, t, to);
    TimedEnds(polls, t, to);
    AdmittedAfterTwice(s[k], Final(s, polls)[k], t, to, l);
    WholeTokenAdmits(Final(s, polls), k, to, device);
  }

  lemma WholeTokenAdmits(s: Buckets, k: Key, to: Nanos, device: DeviceId)
    requires k in s && KeyFor(device, k.cls) == k
    requires Refilled(s[k], to, Limits(k.cls)).tokens >= TOKEN_SCALE
    ensures Step(s, Event(to, Acquire(device, k.cls))).1 == Done
  {
  }

  lemma AdmittedAfterTwice(b0: Bucket, b: Bucket, t: Nanos, to: Nanos, l: ClassLimits)
    requires b0.tokens < TOKEN_SCALE && b0.last <= t <= to && (t - b0.last) * Rate(l) < Per(l)
    requires Capacity(l) >= TOKEN_SCALE && Progress(b0, b, l) && BucketSane(b, l, to)
    requires (to - t) * Rate(l) >= 2 * (TOKEN_SCALE - b0.tokens) * Per(l)
    ensures Refilled(b, to, l).tokens >= TOKEN_SCALE
  {
    var f := Refilled(b, to, l);
    ProgressRefilled(b0, b, to, l);
    RefillHasEffect(b, to, l);
    if f.tokens < TOKEN_SCALE {
      Overtakes(f.tokens - b0.tokens, TOKEN_SCALE - b0.tokens, Per(l), Rate(l), f.last - b0.last, to - f.last, to - t);
    }
  }

  // ----- the advertised wait -----

  /** The reported wait covers the deficit, to within the nanosecond its division drops. */
  lemma WaitCovers(tokens: nat, rate: Refill)
    requires tokens < TOKEN_SCALE && rate.tokens > 0
    requires RetryAfterMs(tokens, rate) < U32_MAX
    ensures var ms, r, d := RetryAfterMs(tokens, rate), rate.tokens * TOKEN_SCALE,
              (TOKEN_SCALE - tokens) * Max(rate.per, 1);
            && d <= (ms * 1_000_000 + 1) * r
            && (Max(rate.per, 1) % r == 0 ==> d <= (ms * 1_000_000) * r)
  {
    var deficit, r, ms := TOKEN_SCALE - tokens, rate.tokens * TOKEN_SCALE, RetryAfterMs(tokens, rate);
    MulMono(deficit, TOKEN_SCALE, rate.per);
    MulMono(rate.per, DURATION_MAX, TOKEN_SCALE);
    MulMono(rate.tokens, U32_MAX, TOKEN_SCALE);
    var q := Div(deficit * rate.per, r);
    DivBounds(deficit * rate.per, r);
    assert ms == Max(WholeMs(q), 1);
    assert ms * 1_000_000 >= q && ms * 1_000_000 >= 1;
    MulMono(q + 1, ms * 1_000_000 + 1, r);
    if rate.per == 0 {
      MulMono(1, ms * 1_000_000, r);
    } else if rate.per % r == 0 {
      ExactQuotient(deficit, rate.per, r);
      MulMono(q, ms * 1_000_000, r);
    }
  }

  lemma ExactQuotient(d: nat, p: nat, r: nat)
    requires r > 0 && p % r == 0
    ensures Div(d * p, r) * r == d * p
  {
    var u := p / r;
    assert d * p == (d * u) * r;
    DivBounds(d * p, r);
    var q := Div(d * p, r);
    if q < d * u {
      MulMono(q + 1, d * u, r);
    } else if q > d * u {
      MulMono(d * u + 1, q, r);
    }
  }

  /** A bucket left alone while its deficit accrues has a whole token. */
  lemma RestoredAfter(b: Bucket, t: Nanos, to: Nanos, l: ClassLimits)
    requires b.tokens < TOKEN_SCALE && b.last <= t <= to
    requires l.refill.Some? && l.refill.value.tokens > 0 && Capacity(l) >= TOKEN_SCALE
    requires (to - t) * Rate(l) >= (TOKEN_SCALE - b.tokens) * Per(l)
    ensures Refilled(b, to, l).tokens >= TOKEN_SCALE
  {
    var q, d, e := Credit(to - b.last, l.refill.value), TOKEN_SCALE - b.tokens, to - b.last;
    CreditBounds(e, l.refill.value);
    MulMono(to - t, e, Rate(l));
    if q < d {
      MulMono(q + 1, d, Per(l));
    }
  }

  /** Each class's period is a whole number of nanoseconds per unit, so its wait is exact. */
  lemma RatesDividePeriods(c: OperationClass)
    requires Limits(c).refill.Some?
    ensures Per(Limits(c)) % Rate(Limits(c)) == 0
    ensures forall tokens: nat :: RetryAfterMs(tokens, Limits(c).refill.value) < U32_MAX
  {
    var rate, u := Limits(c).refill.value, Per(Limits(c)) / Rate(Limits(c));
    forall tokens: nat ensures RetryAfterMs(tokens, rate) < U32_MAX {
      var deficit := if tokens < TOKEN_SCALE then TOKEN_SCALE - tokens else 0;
      var r := SatMul(rate.tokens, TOKEN_SCALE);
      MulMono(deficit, TOKEN_SCALE, rate.per);
      DivBounds(SatMul(deficit, rate.per), r);
    }
  }

  predicate Charges(e: Event, k: Key) {
    (e.call.Acquire? || e.call.AcquireSlot?) && KeyFor(e.call.device, e.call.cls) == k
  }

  /** No call charges or resets bucket `k`; slots and bytes may still be returned to it. */
  predicate LeftAlone(run: Run, k: Key) {
    forall i :: 0 <= i < |run| ==> !Charges(run[i], k) && !Disrupts(run[i], k)
  }

  lemma {:induction false} LeftAloneKeepsAccount(s: Buckets, run: Run, k: Key)
    requires k in s && LeftAlone(run, k)
    ensures k in Final(s, run) && SameAccount(s[k], Final(s, run)[k])
    decreases |run|
  {
    if run != [] {
      StepSpares(s, run[0], k);
      LeftAloneKeepsAccount(Step(s, run[0]).0, run[1..], k);
    }
  }

  /** Waiting exactly as long as a refusal says is enough, for every class in the table. */
  lemma AdvertisedWaitSuffices(history: Run, refused: Event, meanwhile: Run, k: Key, from: nat, to: Nanos,
          device: DeviceId)
    requires Timed(history, 0, from) && from <= refused.now <= refused.End() && Timed(meanwhile, refused.End(), to)
    requires Charges(refused, k) && KeyFor(device, k.cls) == k && LeftAlone(meanwhile, k)
    requires Step(Final(map[], history), refused).1.RateLimited?
    requires to >= refused.End() + Step(Final(map[], history), refused).1.ms * 1_000_000
    ensures var s := Final(Step(Final(map[], history), refused).0, meanwhile);
            Step(s, Event(to, Acquire(device, k.cls))).1 == Done
  {
    var s0, l, t := Final(map[], history), Limits(k.cls), refused.End();
    var s1 := Step(s0, refused).0;
    FinalSane(map[], history, 0, from);
    Refused(s0, refused, k, from);
    RatedClasses(k.cls);
    RatesDividePeriods(k.cls);
    LeftAloneKeepsAccount(s1, meanwhile, k);
    ExactWaitRestores(Final(s1, meanwhile)[k], t, to, l);
    WholeTokenAdmits(Final(s1, meanwhile), k, to, device);
  }

  lemma ExactWaitRestores(b: Bucket, t: Nanos, to: Nanos, l: ClassLimits)
    requires b.tokens < TOKEN_SCALE && b.last <= t
    requires l.refill.Some? && l.refill.value.tokens > 0 && Capacity(l) >= TOKEN_SCALE
    requires Per(l) % Rate(l) == 0 && RetryAfterMs(b.tokens, l.refill.value) < U32_MAX
    requires to >= t + RetryAfterMs(b.tokens, l.refill.value) * 1_000_000
    ensures Refilled(b, to, l).tokens >= TOKEN_SCALE
  {
    var ms := RetryAfterMs(b.tokens, l.refill.value);
    WaitCovers(b.tokens, l.refill.value);
    MulMono(ms * 1_000_000, to - t, Rate(l));
    RestoredAfter(b, t, to, l);
  }

  /** For an arbitrary rate the wait is short by less than a nanosecond. */
  lemma AdvertisedWaitIsAlmostExact(b: Bucket, t: Nanos, to: Nanos, l: ClassLimits)
    requires b.tokens < TOKEN_SCALE && b.last <= t
    requires l.refill.Some? && l.refill.value.tokens > 0 && Capacity(l) >= TOKEN_SCALE
    requires RetryAfterMs(b.tokens, l.refill.value) < U32_MAX
    requires to >= t + RetryAfterMs(b.tokens, l.refill.value) * 1_000_000 + 1
    ensures Refilled(b, to, l).tokens >= TOKEN_SCALE
  {
    var ms := RetryAfterMs(b.tokens, l.refill.value);
    WaitCovers(b.tokens, l.refill.value);
    MulMono(ms * 1_000_000 + 1, to - t, Rate(l));
    RestoredAfter(b, t, to, l);
  }

  /** The nanosecond is real: one unit short at a rate that does not divide its period. */
  lemma WaitCanBeShort()
    ensures var l := ClassLimits(1, Some(Refill(1, 1000 * SECOND + 1)), None, None);
            var b := Bucket(TOKEN_SCALE - 1, 0, 0, 0);
            && RetryAfterMs(b.tokens, l.refill.value) == 1
            && Refilled(b, 1_000_000, l).tokens < TOKEN_SCALE
  {
    var rate := Refill(1, 1000 * SECOND + 1);
    DivBounds(SatMul(1, rate.per), SatMul(rate.tokens, TOKEN_SCALE));
    DivBounds(SatMul(SatMul(1_000_000, rate.tokens), TOKEN_SCALE), rate.per);
  }
}
