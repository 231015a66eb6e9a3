/**
 * What the limiter must admit: whole bursts at once, from a bucket that is new, reset or rested;
 * steady use; and how much longer than needed a refused client is told to wait.
 */
module RateBursts {
  import opened Common
  import opened RateLimit
  import opened RateBounds

  // ----- what a refill restores, exactly -----

  lemma CreditExactly(e: nat, rate: Refill, full: nat)
    requires full * Max(rate.per, 1) <= U128_MAX
    ensures Min(Credit(e, rate), full) == Min(Div(e * (rate.tokens * TOKEN_SCALE), Max(rate.per, 1)), full)
  {
    var p, due := Max(rate.per, 1), e * (rate.tokens * TOKEN_SCALE);
    assert due == (e * rate.tokens) * TOKEN_SCALE;
    MulMono(SatMul(e, rate.tokens), e * rate.tokens, TOKEN_SCALE);
    if due > U128_MAX {
      assert SatMul(SatMul(e, rate.tokens), TOKEN_SCALE) == U128_MAX;
      AtLeast(U128_MAX, p, full);
      AtLeast(due, p, full);
    } else {
      assert e * rate.tokens <= due;
    }
  }

  lemma AtLeast(a: nat, p: nat, q: nat)
    requires p > 0 && q * p <= a
    ensures Div(a, p) >= q
  {
    DivBounds(a, p);
    if Div(a, p) < q {
      MulMono(Div(a, p) + 1, q, p);
    }
  }

  /** Saturation is out of reach before the bucket is full. */
  predicate Sound(l: ClassLimits) {
    Capacity(l) * Per(l) <= U128_MAX
  }

  lemma TableIsSound(c: OperationClass)
    ensures Sound(Limits(c))
  {
  }

  /** A refill restores what the time is worth, rounded down, up to a full bucket. */
  lemma RefillExactly(b: Bucket, now: Nanos, l: ClassLimits)
    requires Sound(l) && b.tokens <= Capacity(l) && b.last <= now
    ensures Refilled(b, now, l).tokens == Min(Capacity(l), b.tokens + Div((now - b.last) * Rate(l), Per(l)))
  {
    if l.refill.None? || l.refill.value.tokens == 0 {
      assert Rate(l) == 0 && (now - b.last) * Rate(l) == 0;
    } else {
      var q := Credit(now - b.last, l.refill.value);
      CreditExactly(now - b.last, l.refill.value, Capacity(l));
      if q > 0 {
        RefilledTokens(b, now, l, q);
      }
    }
  }

  lemma FullStaysFull(b: Bucket, now: Nanos, l: ClassLimits)
    requires b.tokens == Capacity(l)
    ensures Refilled(b, now, l).tokens == Capacity(l)
  {
  }

  // ----- many calls at one reading -----

  /** Every call of the run asks bucket `k` for a token, at one reading of the clock. */
  predicate AtOnce(run: Run, k: Key, now: Nanos) {
    forall i :: 0 <= i < |run| ==> run[i].now == now && run[i].call.Acquire? && Charges(run[i], k)
  }

  /** The units bucket `k` has for a call at this reading, opened for it if need be. */
  function Ready(s: Buckets, k: Key, now: Nanos): nat {
    Refilled(Open(s, k, Limits(k.cls), now)[k], now, Limits(k.cls)).tokens
  }

  lemma RefilledTwice(b: Bucket, now: Nanos, l: ClassLimits, tokens: nat)
    ensures var f := Refilled(b, now, l).(tokens := tokens); Refilled(f, now, l) == f
  {
    if l.refill.Some? {
      assert Credit(0, l.refill.value) == 0 by {
        assert SatMul(0, l.refill.value.tokens) == 0 && SatMul(0, TOKEN_SCALE) == 0;
        DivBounds(0, Max(l.refill.value.per, 1));
      }
    }
  }

  lemma ChargeTakesOne(s: Buckets, k: Key, now: Nanos, l: ClassLimits)
    requires l == Limits(k.cls) && Limited(k.cls)
    ensures var (s', o) := Charge(s, now, k, l);
            && (o == Done <==> Ready(s, k, now) >= TOKEN_SCALE)
            && Ready(s', k, now) == Ready(s, k, now) - (if o == Done then TOKEN_SCALE else 0)
  {
    var b := Open(s, k, l, now)[k];
    var f := Refilled(b, now, l);
    RefilledTwice(b, now, l, f.tokens);
    if f.tokens >= TOKEN_SCALE {
      RefilledTwice(b, now, l, f.tokens - TOKEN_SCALE);
    }
  }

  lemma WholeTokens(ready: nat)
    ensures ready >= TOKEN_SCALE ==> Div(ready, TOKEN_SCALE) == Div(ready - TOKEN_SCALE, TOKEN_SCALE) + 1
    ensures ready < TOKEN_SCALE ==> Div(ready, TOKEN_SCALE) == 0
    ensures ready >= Div(ready, TOKEN_SCALE) * TOKEN_SCALE
  {
  }

  /** Of calls at one reading exactly as many are admitted as there are whole tokens. */
  lemma {:induction false} AdmittedAtOnce(s: Buckets, run: Run, k: Key, now: Nanos)
    requires Limited(k.cls) && AtOnce(run, k, now)
    ensures Admissions(s, run, k) == Min(|run|, Div(Ready(s, k, now), TOKEN_SCALE))
    ensures Ready(Final(s, run), k, now) + Admissions(s, run, k) * TOKEN_SCALE == Ready(s, k, now)
    decreases |run|
  {
    if run != [] {
      assert Charges(run[0], k) && run[0].call.Acquire?;
      ChargeTakesOne(s, k, now, Limits(k.cls));
      WholeTokens(Ready(s, k, now));
      AdmittedAtOnce(Step(s, run[0]).0, run[1..], k, now);
    }
  }

  /** The call after them is admitted exactly while a whole token is left. */
  lemma NextAtOnce(s: Buckets, run: Run, next: Event, k: Key, now: Nanos)
    requires Limited(k.cls) && AtOnce(run, k, now) && AtOnce([next], k, now)
    ensures Step(Final(s, run), next).1 == Done <==> |run| < Div(Ready(s, k, now), TOKEN_SCALE)
  {
    assert next == [next][0];
    AdmittedAtOnce(s, run, k, now);
    ChargeTakesOne(Final(s, run), k, now, Limits(k.cls));
    LeftOver(Ready(s, k, now), Ready(Final(s, run), k, now), Admissions(s, run, k), |run|);
  }

  lemma LeftOver(ready: nat, left: nat, admitted: nat, asked: nat)
    requires admitted == Min(asked, Div(ready, TOKEN_SCALE)) && left + admitted * TOKEN_SCALE == ready
    ensures left >= TOKEN_SCALE <==> asked < Div(ready, TOKEN_SCALE)
  {
    DivBounds(ready, TOKEN_SCALE);
    var q := Div(ready, TOKEN_SCALE);
    if asked < q {
      MulMono(asked + 1, q, TOKEN_SCALE);
    }
  }

  lemma WholeBurst(l: ClassLimits)
    ensures Div(Capacity(l), TOKEN_SCALE) == l.burst
  {
  }

  /** A full bucket admits its whole burst at once, and nothing more. */
  ghost predicate AdmitsBurst(s: Buckets, run: Run, next: Event, k: Key) {
    && Admissions(s, run, k) == Min(|run|, Limits(k.cls).burst)
    && (Step(Final(s, run), next).1 == Done <==> |run| < Limits(k.cls).burst)
  }

  lemma FullAdmitsBurst(s: Buckets, run: Run, next: Event, k: Key, now: Nanos)
    requires Limited(k.cls) && AtOnce(run, k, now) && AtOnce([next], k, now)
    requires Ready(s, k, now) == Capacity(Limits(k.cls))
    ensures AdmitsBurst(s, run, next, k)
  {
    AdmittedAtOnce(s, run, k, now);
    NextAtOnce(s, run, next, k, now);
    WholeBurst(Limits(k.cls));
  }

  /** A bucket not yet opened, after any history, admits exactly its burst at once. */
  lemma BurstFromCreation(history: Run, run: Run, next: Event, k: Key, now: Nanos)
    requires Limited(k.cls) && k !in Final(map[], history)
    requires AtOnce(run, k, now) && AtOnce([next], k, now)
    ensures AdmitsBurst(Final(map[], history), run, next, k)
  {
    FullStaysFull(NewBucket(Limits(k.cls), now), now, Limits(k.cls));
    FullAdmitsBurst(Final(map[], history), run, next, k, now);
  }

  lemma {:induction false} AloneStaysFull(s: Buckets, alone: Run, k: Key)
    requires LeftAlone(alone, k) && (k in s ==> s[k].tokens == Capacity(Limits(k.cls)))
    ensures k in Final(s, alone) ==> Final(s, alone)[k].tokens == Capacity(Limits(k.cls))
    decreases |alone|
  {
    if alone != [] {
      StepSpares(s, alone[0], k);
      AloneStaysFull(Step(s, alone[0]).0, alone[1..], k);
    }
  }

  /** So does one that was reset, however long ago, and not charged since. */
  lemma BurstAfterReset(history: Run, reset: Event, alone: Run, run: Run, next: Event, k: Key, now: Nanos)
    requires Limited(k.cls) && reset.call.Reset? && KeyFor(reset.call.device, reset.call.cls) == k
    requires LeftAlone(alone, k) && AtOnce(run, k, now) && AtOnce([next], k, now)
    ensures AdmitsBurst(Final(Step(Final(map[], history), reset).0, alone), run, next, k)
  {
    var s := Final(Step(Final(map[], history), reset).0, alone);
    AloneStaysFull(Step(Final(map[], history), reset).0, alone, k);
    FullStaysFull(Open(s, k, Limits(k.cls), now)[k], now, Limits(k.cls));
    FullAdmitsBurst(s, run, next, k, now);
  }

  /** And one whose device was forgotten, and which was not charged since. */
  lemma BurstAfterForgetting(history: Run, forget: Event, alone: Run, run: Run, next: Event, k: Key, now: Nanos)
    requires Limited(k.cls) && forget.call.Forget? && k.device == Some(forget.call.device)
    requires LeftAlone(alone, k) && AtOnce(run, k, now) && AtOnce([next], k, now)
    ensures AdmitsBurst(Final(Step(Final(map[], history), forget).0, alone), run, next, k)
  {
    var s := Final(Step(Final(map[], history), forget).0, alone);
    AloneStaysFull(Step(Final(map[], history), forget).0, alone, k);
    FullStaysFull(Open(s, k, Limits(k.cls), now)[k], now, Limits(k.cls));
    FullAdmitsBurst(s, run, next, k, now);
  }

  /** And one left alone for as long as its rate takes to restore a burst. */
  lemma BurstAfterRest(history: Run, rest: Run, run: Run, next: Event, k: Key, from: nat, now: Nanos)
    requires Limited(k.cls) && Timed(history, 0, from) && LeftAlone(rest, k) && Timed(rest, from, now)
    requires (now - from) * TokensPerPeriod(Limits(k.cls)) >= Limits(k.cls).burst * Per(Limits(k.cls))
    requires AtOnce(run, k, now) && AtOnce([next], k, now)
    ensures AdmitsBurst(Final(Final(map[], history), rest), run, next, k)
  {
    var s := Final(map[], history);
    FinalSane(map[], history, 0, from);
    TimedEnds(rest, from, now);
    TableIsSound(k.cls);
    RestedIsFull(s, rest, k, from, now, Limits(k.cls));
    FullAdmitsBurst(Final(s, rest), run, next, k, now);
  }

  lemma RestedIsFull(s: Buckets, rest: Run, k: Key, from: nat, now: Nanos, l: ClassLimits)
    requires l == Limits(k.cls) && Sound(l) && Sane(s, from) && from <= now && LeftAlone(rest, k)
    requires (now - from) * TokensPerPeriod(l) >= l.burst * Per(l)
    ensures Ready(Final(s, rest), k, now) == Capacity(l)
  {
    var t := Final(s, rest);
    if k in s {
      LeftAloneKeepsAccount(s, rest, k);
      RestoredInFull(t[k], from, now, l);
    } else {
      AloneStaysFull(s, rest, k);
      FullStaysFull(Open(t, k, l, now)[k], now, l);
    }
  }

  lemma RestoredInFull(b: Bucket, from: nat, now: Nanos, l: ClassLimits)
    requires BucketSane(b, l, from) && from <= now && Sound(l)
    requires (now - from) * TokensPerPeriod(l) >= l.burst * Per(l)
    ensures Refilled(b, now, l).tokens == Capacity(l)
  {
    RefillExactly(b, now, l);
    Restores(l.burst, Per(l), now - from, now - b.last, TokensPerPeriod(l));
  }

  lemma Restores(burst: nat, p: nat, waited: nat, elapsed: nat, tokens: nat)
    requires p > 0 && waited <= elapsed && waited * tokens >= burst * p
    ensures Div(elapsed * (tokens * TOKEN_SCALE), p) >= burst * TOKEN_SCALE
  {
    MulMono(waited, elapsed, tokens);
    MulMono(burst * p, elapsed * tokens, TOKEN_SCALE);
    Rescale(burst, p, elapsed, tokens);
    AtLeast(elapsed * (tokens * TOKEN_SCALE), p, burst * TOKEN_SCALE);
  }

  lemma Rescale(burst: nat, p: nat, d: nat, tokens: nat)
    ensures (burst * p) * TOKEN_SCALE == (burst * TOKEN_SCALE) * p
    ensures (d * tokens) * TOKEN_SCALE == d * (tokens * TOKEN_SCALE)
  {
  }

  // ----- steady use -----

  /** Calls asking bucket `k` for a token, each at least one token's time after the reading before it. */
  predicate Spaced(run: Run, k: Key, from: nat, to: nat)
    decreases |run|
  {
    if run == [] then from <= to
    else
      && from <= run[0].now && run[0].call.Acquire? && Charges(run[0], k)
      && (run[0].now - from) * TokensPerPeriod(Limits(k.cls)) >= Per(Limits(k.cls))
      && Spaced(run[1..], k, run[0].now, to)
  }

  /** A client that keeps to the rate is never refused, whatever happened before. */
  lemma SteadyUseIsAdmitted(history: Run, run: Run, k: Key, from: nat, to: nat)
    requires Limited(k.cls) && Timed(history, 0, from) && Spaced(run, k, from, to)
    ensures Admissions(Final(map[], history), run, k) == |run|
  {
    FinalSane(map[], history, 0, from);
    SteadyRun(Final(map[], history), run, k, from, to);
  }

  lemma {:induction false} SteadyRun(s: Buckets, run: Run, k: Key, from: nat, to: nat)
    requires Limited(k.cls) && Sane(s, from) && Spaced(run, k, from, to)
    ensures Admissions(s, run, k) == |run|
    decreases |run|
  {
    if run != [] {
      OneTokensTime(s, k, from, run[0].now, Limits(k.cls));
      ChargeTakesOne(s, k, run[0].now, Limits(k.cls));
      StepSane(s, run[0], from);
      SteadyRun(Step(s, run[0]).0, run[1..], k, run[0].now, to);
    }
  }

  lemma OneTokensTime(s: Buckets, k: Key, from: nat, now: Nanos, l: ClassLimits)
    requires Sane(s, from) && Limited(k.cls) && l == Limits(k.cls) && from <= now
    requires (now - from) * TokensPerPeriod(l) >= Per(l)
    ensures Ready(s, k, now) >= TOKEN_SCALE
  {
    var b := Open(s, k, l, now)[k];
    RatedOrNot(k.cls);
    if k in s {
      RefillExactly(b, now, l);
      Restores(1, Per(l), now - from, now - b.last, TokensPerPeriod(l));
    } else {
      FullStaysFull(b, now, l);
    }
  }

  lemma RatedOrNot(c: OperationClass)
    requires Limited(c)
    ensures Capacity(Limits(c)) >= TOKEN_SCALE
    ensures Sound(Limits(c)) && Per(Limits(c)) > 0
  {
  }

  // ----- the wait is not too long -----

  /**
   * A refused client is told to wait at most a millisecond and one unit's time too long: a bucket
   * left alone does not admit it any sooner than that before the wait is over.
   */
  lemma AdvertisedWaitIsNotTooLong(history: Run, refused: Event, meanwhile: Run, k: Key, from: nat, to: Nanos,
          device: DeviceId)
    requires Timed(history, 0, from) && from <= refused.now <= refused.End() && Timed(meanwhile, refused.End(), to)
    requires Charges(refused, k) && KeyFor(device, k.cls) == k && LeftAlone(meanwhile, k)
    requires Step(Final(map[], history), refused).1.RateLimited?
    requires var ms, r := Step(Final(map[], history), refused).1.ms, Rate(Limits(k.cls));
             (to - refused.End() + 1_000_000) * r + Per(Limits(k.cls)) <= (ms * 1_000_000) * r
    ensures var s := Final(Step(Final(map[], history), refused).0, meanwhile);
            Step(s, Event(to, Acquire(device, k.cls))).1.RateLimited?
  {
    var s0, t := Final(map[], history), refused.End();
    FinalSane(map[], history, 0, from);
    Refused(s0, refused, k, from);
    RatedClasses(k.cls);
    TableIsSound(k.cls);
    TimedEnds(meanwhile, t, to);
    StillRefused(Step(s0, refused).0, meanwhile, k, t, to, device, Limits(k.cls), Step(s0, refused).1.ms);
  }

  lemma StillRefused(s: Buckets, meanwhile: Run, k: Key, t: Nanos, to: Nanos, device: DeviceId, l: ClassLimits, ms: nat)
    requires l == Limits(k.cls) && Limited(k.cls) && Sound(l) && Capacity(l) >= TOKEN_SCALE
    requires KeyFor(device, k.cls) == k && LeftAlone(meanwhile, k) && k in s && t <= to
    requires s[k].tokens < TOKEN_SCALE && s[k].last <= t && (t - s[k].last) * Rate(l) < Per(l)
    requires l.refill.Some? && l.refill.value.tokens > 0 && ms == RetryAfterMs(s[k].tokens, l.refill.value)
    requires (to - t + 1_000_000) * Rate(l) + Per(l) <= (ms * 1_000_000) * Rate(l)
    ensures Step(Final(s, meanwhile), Event(to, Acquire(device, k.cls))).1.RateLimited?
  {
    LeftAloneKeepsAccount(s, meanwhile, k);
    TooSoon(Final(s, meanwhile)[k], t, to, l, ms);
    ChargeRefuses(Final(s, meanwhile), k, to, l);
  }

  lemma ChargeRefuses(s: Buckets, k: Key, now: Nanos, l: ClassLimits)
    requires l.refill.Some? && k in s && Refilled(s[k], now, l).tokens < TOKEN_SCALE
    ensures Charge(s, now, k, l).1.RateLimited?
  {
  }

  lemma TooSoon(b: Bucket, t: Nanos, to: Nanos, l: ClassLimits, ms: nat)
    requires b.tokens < TOKEN_SCALE <= Capacity(l) && b.last <= t <= to && Sound(l)
    requires l.refill.Some? && l.refill.value.tokens > 0 && ms == RetryAfterMs(b.tokens, l.refill.value)
    requires (t - b.last) * Rate(l) < Per(l)
    requires (to - t + 1_000_000) * Rate(l) + Per(l) <= (ms * 1_000_000) * Rate(l)
    ensures Refilled(b, to, l).tokens < TOKEN_SCALE
  {
    var deficit, r := TOKEN_SCALE - b.tokens, Rate(l);
    var q := Div(SatMul(deficit, l.refill.value.per), SatMul(l.refill.value.tokens, TOKEN_SCALE));
    if ms <= 1 {
      MulMono(ms * 1_000_000, to - t + 1_000_000, r);
      assert false;
    }
    WaitIsShort(b.tokens, l.refill.value, ms);
    SumTerms(t - b.last, to - t, to - b.last, r);
    SumTerms(to - t, 1_000_000, to - t + 1_000_000, r);
    SumTerms((ms - 1) * 1_000_000, 1_000_000, ms * 1_000_000, r);
    RefillExactly(b, to, l);
    Below((to - b.last) * r, Per(l), deficit);
  }

  lemma Below(a: nat, p: nat, q: nat)
    requires p > 0 && a < q * p
    ensures Div(a, p) < q
  {
    DivBounds(a, p);
    if Div(a, p) >= q {
      MulMono(q, Div(a, p), p);
    }
  }

  lemma WaitIsShort(tokens: nat, rate: Refill, ms: nat)
    requires tokens < TOKEN_SCALE && rate.tokens > 0 && ms == RetryAfterMs(tokens, rate) > 1
    ensures ((ms - 1) * 1_000_000) * (rate.tokens * TOKEN_SCALE) <= (TOKEN_SCALE - tokens) * Max(rate.per, 1)
  {
    var deficit, r := TOKEN_SCALE - tokens, rate.tokens * TOKEN_SCALE;
    MulMono(deficit, TOKEN_SCALE, rate.per);
    MulMono(rate.per, DURATION_MAX, TOKEN_SCALE);
    MulMono(rate.tokens, U32_MAX, TOKEN_SCALE);
    var q := Div(deficit * rate.per, r);
    DivBounds(deficit * rate.per, r);
    assert (ms - 1) * 1_000_000 <= q;
    MulMono((ms - 1) * 1_000_000, q, r);
    MulMono(rate.per, Max(rate.per, 1), deficit);
  }
}
