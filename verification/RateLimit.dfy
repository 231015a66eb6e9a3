/**
 * The token-bucket limiter: fixed-point refill, concurrency slots and byte reservations.
 *
 * `Step` says what one call does to the map of buckets. The class `RateLimiter` is the
 * limiter as an object that updates its map in place, each method proved against `Step`.
 */
module RateLimit {
  import opened Common

  // ----- units and limits -----

  /** One whole token, in fixed-point units. */
  const TOKEN_SCALE: nat := 1_000_000

  const SECOND: nat := 1_000_000_000

  /** The longest duration: 2^64 - 1 seconds and 999_999_999 nanoseconds. */
  const DURATION_MAX: nat := U64_MAX * SECOND + 999_999_999

  /** A duration, or a reading of the monotonic clock, in nanoseconds. */
  type Nanos = x: int | 0 <= x <= DURATION_MAX

  /** `tokens` tokens become available every `per`. */
  datatype Refill = Refill(tokens: U32, per: Nanos)

  datatype OperationClass =
    | Pairing | Handshake | FsRead | FsWrite | Search
    | PtySpawn | Watcher | AgentSpawn | SendBuffer | Control

  datatype ClassLimits = ClassLimits(
    burst: U32,
    refill: Option<Refill>,
    maxConcurrent: Option<U32>,
    maxBytesInFlight: Option<U64>)

  const MAX_SEND_BUFFER_BYTES: U64 := 64 * 1024 * 1024

  function Limits(c: OperationClass): ClassLimits {
    match c
    case Pairing => ClassLimits(3, None, Some(1), None)
    case Handshake => ClassLimits(10, Some(Refill(10, 60 * SECOND)), None, None)
    case FsRead => ClassLimits(100, Some(Refill(100, SECOND)), None, None)
    case FsWrite => ClassLimits(20, Some(Refill(20, SECOND)), None, None)
    case Search => ClassLimits(2, Some(Refill(2, SECOND)), Some(4), None)
    case PtySpawn => ClassLimits(1, Some(Refill(1, SECOND)), Some(16), None)
    case Watcher => ClassLimits(0, None, Some(8), None)
    case AgentSpawn => ClassLimits(1, Some(Refill(1, 5 * SECOND)), Some(8), None)
    case SendBuffer => ClassLimits(0, None, None, Some(MAX_SEND_BUFFER_BYTES))
    case Control => ClassLimits(50, Some(Refill(50, SECOND)), None, None)
  }

  predicate IsGlobal(c: OperationClass) {
    c == Pairing || c == SendBuffer
  }

  /** The bucket a call is charged to: global classes have no device. */
  datatype Key = Key(device: Option<DeviceId>, cls: OperationClass)

  function KeyFor(device: DeviceId, c: OperationClass): Key {
    Key(if IsGlobal(c) then None else Some(device), c)
  }

  // ----- one bucket -----

  datatype Bucket = Bucket(tokens: nat, last: Nanos, inFlight: nat, bytes: nat)

  function Capacity(l: ClassLimits): nat {
    l.burst * TOKEN_SCALE
  }

  function NewBucket(l: ClassLimits, now: Nanos): Bucket {
    Bucket(Capacity(l), now, 0, 0)
  }

  function SatMul(a: nat, b: nat): nat {
    Min(a * b, U128_MAX)
  }

  /** The units restored by `elapsed` nanoseconds, in saturating 128-bit arithmetic. */
  function Credit(elapsed: nat, rate: Refill): nat {
    Div(SatMul(SatMul(elapsed, rate.tokens), TOKEN_SCALE), Max(rate.per, 1))
  }

  /** Restores tokens. A credit of zero units leaves the clock mark where it was. */
  function Refilled(b: Bucket, now: Nanos, l: ClassLimits): Bucket {
    if l.refill.None? || l.refill.value.tokens == 0 then b
    else
      var added := Credit(SatSub(now, b.last), l.refill.value);
      if added == 0 then b
      else b.(tokens := Min(Min(Min(b.tokens + added, U128_MAX), U64_MAX), Capacity(l)), last := now)
  }

  function Div(a: nat, b: nat): nat
    requires b > 0
  {
    a / b
  }

  function WholeMs(nanos: nat): nat {
    (nanos + 999_999) / 1_000_000
  }

  /** The wait reported with a refusal, in milliseconds. */
  function RetryAfterMs(tokens: nat, rate: Refill): nat {
    var deficit := if tokens < TOKEN_SCALE then TOKEN_SCALE - tokens else 0;
    var denominator := SatMul(rate.tokens, TOKEN_SCALE);
    if denominator == 0 then U32_MAX
    else
      Min(Max(WholeMs(Div(SatMul(deficit, rate.per), denominator)), 1), U32_MAX)
  }

  // ----- the limiter, one call at a time -----

  type Buckets = map<Key, Bucket>

  datatype Call =
    | Acquire(device: DeviceId, cls: OperationClass)
    /** The clock is read twice: once for the slot check and once for the token. */
    | AcquireSlot(device: DeviceId, cls: OperationClass, later: Nanos)
    | Release(key: Key)
    | Reserve(device: DeviceId, cls: OperationClass, amount: U64)
    | ReleaseBytes(key: Key, amount: U64)
    | Reset(device: DeviceId, cls: OperationClass)
    | Forget(device: DeviceId)

  datatype Event = Event(now: Nanos, call: Call) {
    /** The last clock reading of this call. */
    function End(): Nanos {
      if call.AcquireSlot? then call.later else now
    }
  }

  datatype Outcome =
    | Done
    | Granted(slot: Key)
    | Reserved(key: Key, amount: U64)
    | RateLimited(ms: nat)
    | Exhausted(limit: nat)

  function Open(s: Buckets, k: Key, l: ClassLimits, now: Nanos): Buckets {
    if k in s then s else s[k := NewBucket(l, now)]
  }

  /** Charges one token to bucket `k`. */
  function Charge(s: Buckets, now: Nanos, k: Key, l: ClassLimits): (Buckets, Outcome) {
    if l.refill.None? && l.burst == 0 then (s, Done)
    else
      var ready := Open(s, k, l, now);
      var b := Refilled(ready[k], now, l);
      if b.tokens >= TOKEN_SCALE then (ready[k := b.(tokens := b.tokens - TOKEN_SCALE)], Done)
      else
        (ready[k := b],
         if l.refill.Some? then RateLimited(RetryAfterMs(b.tokens, l.refill.value)) else Exhausted(l.burst))
  }

  /** Takes a slot of bucket `k` and charges a token for it; the slot ceiling is checked first. */
  function TakeSlot(s: Buckets, now: Nanos, later: Nanos, k: Key, l: ClassLimits): (Buckets, Outcome) {
    var ready := if l.maxConcurrent.Some? then Open(s, k, l, now) else s;
    if l.maxConcurrent.Some? && ready[k].inFlight >= l.maxConcurrent.value then
      (ready, Exhausted(l.maxConcurrent.value))
    else
      var (charged, outcome) := Charge(ready, later, k, l);
      if outcome != Done then (charged, outcome)
      else
        var held := Open(charged, k, l, now);
        (held[k := held[k].(inFlight := held[k].inFlight + 1)], Granted(k))
  }

  function TakeBytes(s: Buckets, now: Nanos, k: Key, l: ClassLimits, amount: U64): (Buckets, Outcome) {
    match l.maxBytesInFlight
    case None => (s, Reserved(k, 0))
    case Some(max) =>
      var ready := Open(s, k, l, now);
      var after := Min(ready[k].bytes + amount, U64_MAX);
      if after > max then (ready, Exhausted(max))
      else (ready[k := ready[k].(bytes := after)], Reserved(k, amount))
  }

  function GiveSlot(s: Buckets, k: Key): Buckets {
    if k in s then s[k := s[k].(inFlight := SatSub(s[k].inFlight, 1))] else s
  }

  function GiveBytes(s: Buckets, k: Key, amount: U64): Buckets {
    if k in s then s[k := s[k].(bytes := SatSub(s[k].bytes, amount))] else s
  }

  function Refresh(s: Buckets, now: Nanos, k: Key, l: ClassLimits): Buckets {
    var ready := Open(s, k, l, now);
    ready[k := ready[k].(tokens := Capacity(l), last := now)]
  }

  function Without(s: Buckets, device: DeviceId): Buckets {
    map k | k in s && k.device != Some(device) :: s[k]
  }

  /** What one call does to the buckets, and what it returns. */
  function Step(s: Buckets, e: Event): (Buckets, Outcome) {
    match e.call
    case Acquire(d, c) => Charge(s, e.now, KeyFor(d, c), Limits(c))
    case AcquireSlot(d, c, later) => TakeSlot(s, e.now, later, KeyFor(d, c), Limits(c))
    case Release(k) => (GiveSlot(s, k), Done)
    case Reserve(d, c, n) => TakeBytes(s, e.now, KeyFor(d, c), Limits(c), n)
    case ReleaseBytes(k, n) => (GiveBytes(s, k, n), Done)
    case Reset(d, c) => (Refresh(s, e.now, KeyFor(d, c), Limits(c)), Done)
    case Forget(d) => (Without(s, d), Done)
  }

  type Run = seq<Event>

  function Final(s: Buckets, run: Run): Buckets
    decreases |run|
  {
    if run == [] then s else Final(Step(s, run[0]).0, run[1..])
  }

  /** Clock readings never go backwards and lie in `[from, to]`. */
  ghost predicate Timed(run: Run, from: nat, to: nat)
    decreases |run|
  {
    if run == [] then from <= to
    else from <= run[0].now <= run[0].End() && Timed(run[1..], run[0].End(), to)
  }

  // ----- the limiter as an object -----

  /** Per-device, per-class buckets, updated in place. A clock reading is an argument where one is taken. */
  class RateLimiter {
    var buckets: Buckets

    constructor ()
      ensures buckets == map[]
    {
      buckets := map[];
    }

    /** Opens the bucket of `key` unless it is already tracked. */
    method Track(key: Key, now: Nanos)
      modifies this
      ensures buckets == Open(old(buckets), key, Limits(key.cls), now)
    {
      if key !in buckets {
        buckets := buckets[key := NewBucket(Limits(key.cls), now)];
      }
    }

    method TryAcquire(now: Nanos, device: DeviceId, c: OperationClass) returns (r: Outcome)
      modifies this
      ensures (buckets, r) == Step(old(buckets), Event(now, Acquire(device, c)))
    {
      var limits := Limits(c);
      if limits.refill.None? && limits.burst == 0 {
        return Done;
      }
      var key := KeyFor(device, c);
      Track(key, now);
      var bucket := Refilled(buckets[key], now, limits);
      if bucket.tokens >= TOKEN_SCALE {
        bucket := bucket.(tokens := bucket.tokens - TOKEN_SCALE);
        r := Done;
      } else if limits.refill.Some? {
        r := RateLimited(RetryAfterMs(bucket.tokens, limits.refill.value));
      } else {
        r := Exhausted(limits.burst);
      }
      buckets := buckets[key := bucket];
    }

    method TryAcquireSlot(now: Nanos, later: Nanos, device: DeviceId, c: OperationClass) returns (r: Outcome)
      modifies this
      ensures (buckets, r) == Step(old(buckets), Event(now, AcquireSlot(device, c, later)))
    {
      var limits, key := Limits(c), KeyFor(device, c);
      if limits.maxConcurrent.Some? {
        Track(key, now);
        if buckets[key].inFlight >= limits.maxConcurrent.value {
          return Exhausted(limits.maxConcurrent.value);
        }
      }
      r := TryAcquire(later, device, c);
      if r == Done {
        Track(key, now);
        buckets := buckets[key := buckets[key].(inFlight := buckets[key].inFlight + 1)];
        r := Granted(key);
      }
    }

    method ReleaseSlot(slot: Key)
      modifies this
      ensures forall now: Nanos :: buckets == Step(old(buckets), Event(now, Release(slot))).0
    {
      if slot in buckets {
        buckets := buckets[slot := buckets[slot].(inFlight := SatSub(buckets[slot].inFlight, 1))];
      }
    }

    method ReserveBytes(now: Nanos, device: DeviceId, c: OperationClass, amount: U64) returns (r: Outcome)
      modifies this
      ensures (buckets, r) == Step(old(buckets), Event(now, Reserve(device, c, amount)))
    {
      var limits, key := Limits(c), KeyFor(device, c);
      if limits.maxBytesInFlight.None? {
        return Reserved(key, 0);
      }
      Track(key, now);
      var after := Min(buckets[key].bytes + amount, U64_MAX);
      if after > limits.maxBytesInFlight.value {
        return Exhausted(limits.maxBytesInFlight.value);
      }
      buckets := buckets[key := buckets[key].(bytes := after)];
      r := Reserved(key, amount);
    }

    method ReturnBytes(key: Key, amount: U64)
      modifies this
      ensures forall now: Nanos :: buckets == Step(old(buckets), Event(now, ReleaseBytes(key, amount))).0
    {
      if key in buckets {
        buckets := buckets[key := buckets[key].(bytes := SatSub(buckets[key].bytes, amount))];
      }
    }

    method ResetBudget(now: Nanos, device: DeviceId, c: OperationClass)
      modifies this
      ensures buckets == Step(old(buckets), Event(now, Reset(device, c))).0
    {
      var key := KeyFor(device, c);
      Track(key, now);
      buckets := buckets[key := buckets[key].(tokens := Capacity(Limits(c)), last := now)];
    }

    method ForgetDevice(device: DeviceId)
      modifies this
      ensures forall now: Nanos :: buckets == Step(old(buckets), Event(now, Forget(device))).0
    {
      buckets := map k | k in buckets && k.device != Some(device) :: buckets[k];
    }
  }
}
