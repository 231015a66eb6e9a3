/**
 * What is held: slots and byte reservations are handed out and given back over a run, and
 * the buckets' counters are compared with what is really outstanding.
 */
module RateLedger {
  import opened Common
  import opened RateLimit

  /** A byte reservation held by some caller. */
  datatype Loan = Loan(key: Key, amount: nat)

  /** The buckets together with everything callers hold. */
  datatype World = World(buckets: Buckets, slots: multiset<Key>, loans: seq<Loan>)

  const FRESH: World := World(map[], multiset{}, [])

  function Remove(loans: seq<Loan>, x: Loan): seq<Loan> {
    if loans == [] then []
    else if loans[0] == x then loans[1..]
    else [loans[0]] + Remove(loans[1..], x)
  }

  function Lent(loans: seq<Loan>, k: Key): nat {
    if loans == [] then 0
    else (if loans[0].key == k then loans[0].amount else 0) + Lent(loans[1..], k)
  }

  /** Slots and reservations are moved into the call that gives them back, so only held ones can be given. */
  predicate Owned(w: World, e: Event) {
    match e.call
    case Release(k) => k in w.slots
    case ReleaseBytes(k, n) => Loan(k, n) in w.loans
    case _ => true
  }

  function Advance(w: World, e: Event): World {
    var (s, o) := Step(w.buckets, e);
    match e.call
    case Release(k) => w.(buckets := s, slots := w.slots - multiset{k})
    case ReleaseBytes(k, n) => w.(buckets := s, loans := Remove(w.loans, Loan(k, n)))
    case AcquireSlot(_, _, _) => w.(buckets := s, slots := if o.Granted? then w.slots + multiset{o.slot} else w.slots)
    case Reserve(_, _, _) =>
      w.(buckets := s, loans := if o.Reserved? then w.loans + [Loan(o.key, o.amount)] else w.loans)
    case _ => w.(buckets := s)
  }

  function After(w: World, run: Run): World
    decreases |run|
  {
    if run == [] then w else After(Advance(w, run[0]), run[1..])
  }

  predicate Lawful(w: World, run: Run)
    decreases |run|
  {
    run == [] || (Owned(w, run[0]) && Lawful(Advance(w, run[0]), run[1..]))
  }

  /** No device is forgotten while it holds a slot. */
  predicate NoHolderForgotten(w: World, run: Run)
    decreases |run|
  {
    run == [] ||
    (&& (run[0].call.Forget? ==> forall k :: k in w.slots ==> k.device != Some(run[0].call.device))
     && NoHolderForgotten(Advance(w, run[0]), run[1..]))
  }

  function InFlight(s: Buckets, k: Key): nat {
    if k in s then s[k].inFlight else 0
  }

  function BytesInFlight(s: Buckets, k: Key): nat {
    if k in s then s[k].bytes else 0
  }

  // ----- reservations -----

  lemma {:induction false} LentAppend(loans: seq<Loan>, x: Loan, k: Key)
    ensures Lent(loans + [x], k) == Lent(loans, k) + (if x.key == k then x.amount else 0)
  {
    if loans == [] {
      assert loans + [x] == [x];
    } else {
      assert (loans + [x])[1..] == loans[1..] + [x];
      LentAppend(loans[1..], x, k);
    }
  }

  lemma {:induction false} LentRemove(loans: seq<Loan>, x: Loan, k: Key)
    requires x in loans
    ensures Lent(Remove(loans, x), k) + (if x.key == k then x.amount else 0) == Lent(loans, k)
  {
    if loans[0] != x {
      LentRemove(loans[1..], x, k);
    }
  }

  lemma {:induction false} LentLocal(loans: seq<Loan>, k: Key)
    requires forall i :: 0 <= i < |loans| && loans[i].amount > 0 ==> loans[i].key.device == None
    requires k.device != None
    ensures Lent(loans, k) == 0
  {
    if loans != [] {
      LentLocal(loans[1..], k);
    }
  }

  lemma {:induction false} RemoveKeeps(loans: seq<Loan>, x: Loan)
    ensures forall y :: y in Remove(loans, x) ==> y in loans
  {
    if loans != [] && loans[0] != x {
      RemoveKeeps(loans[1..], x);
    }
  }

  function ByteCeiling(k: Key): nat {
    if Limits(k.cls).maxBytesInFlight.Some? then Limits(k.cls).maxBytesInFlight.value else 0
  }

  /** Every reserved byte is counted, exactly once, and the ceiling holds. */
  ghost predicate BytesBalanced(w: World) {
    && (forall x :: x in w.loans && x.amount > 0 ==> x.key.device == None)
    && (forall k: Key :: BytesInFlight(w.buckets, k) == Lent(w.loans, k) <= ByteCeiling(k))
  }

  lemma ChargeKeepsCounts(s: Buckets, now: Nanos, k: Key, l: ClassLimits, j: Key)
    ensures var s' := Charge(s, now, k, l).0;
            InFlight(s', j) == InFlight(s, j) && BytesInFlight(s', j) == BytesInFlight(s, j)
  {
  }

  lemma TakeSlotCounts(s: Buckets, now: Nanos, later: Nanos, k: Key, l: ClassLimits, j: Key)
    ensures var (s', o) := TakeSlot(s, now, later, k, l);
            && InFlight(s', j) == InFlight(s, j) + (if j == k && o.Granted? then 1 else 0)
            && (o.Granted? ==> o.slot == k)
            && (o.Granted? && l.maxConcurrent.Some? ==> InFlight(s, k) < l.maxConcurrent.value)
            && BytesInFlight(s', j) == BytesInFlight(s, j)
  {
    var ready := if l.maxConcurrent.Some? then Open(s, k, l, now) else s;
    ChargeKeepsCounts(ready, later, k, l, j);
    ChargeKeepsCounts(ready, later, k, l, k);
  }

  lemma TakeBytesCounts(s: Buckets, now: Nanos, k: Key, l: ClassLimits, amount: U64, j: Key)
    requires l.maxBytesInFlight.Some? ==> l.maxBytesInFlight.value < U64_MAX
    ensures var (s', o) := TakeBytes(s, now, k, l, amount);
            && BytesInFlight(s', j) == BytesInFlight(s, j) + (if j == k && o.Reserved? then o.amount else 0)
            && (o.Reserved? ==> o.key == k && (o.amount > 0 ==>
                l.maxBytesInFlight.Some? && BytesInFlight(s', k) <= l.maxBytesInFlight.value))
            && InFlight(s', j) == InFlight(s, j)
  {
  }

  lemma BytesUntouched(s: Buckets, e: Event, k: Key)
    requires !e.call.Reserve? && !e.call.ReleaseBytes?
    requires e.call.Forget? ==> k.device != Some(e.call.device)
    ensures BytesInFlight(Step(s, e).0, k) == BytesInFlight(s, k)
  {
    match e.call
    case Acquire(d, c) => ChargeKeepsCounts(s, e.now, KeyFor(d, c), Limits(c), k);
    case AcquireSlot(d, c, later) => TakeSlotCounts(s, e.now, later, KeyFor(d, c), Limits(c), k);
    case _ =>
  }

  lemma BytesStepAt(w: World, e: Event, k: Key)
    requires BytesBalanced(w) && Owned(w, e)
    ensures BytesInFlight(Advance(w, e).buckets, k) == Lent(Advance(w, e).loans, k) <= ByteCeiling(k)
  {
    assert BytesInFlight(w.buckets, k) == Lent(w.loans, k) <= ByteCeiling(k);
    match e.call
    case Reserve(d, c, n) =>
      var o := TakeBytes(w.buckets, e.now, KeyFor(d, c), Limits(c), n).1;
      TakeBytesCounts(w.buckets, e.now, KeyFor(d, c), Limits(c), n, k);
      if o.Reserved? {
        LentAppend(w.loans, Loan(o.key, o.amount), k);
      }
    case ReleaseBytes(k', n) =>
      LentRemove(w.loans, Loan(k', n), k);
    case Forget(d) =>
      if k.device == Some(d) {
        LentLocal(w.loans, k);
      }
    case _ =>
      BytesUntouched(w.buckets, e, k);
  }

  lemma BytesStep(w: World, e: Event)
    requires BytesBalanced(w) && Owned(w, e)
    ensures BytesBalanced(Advance(w, e))
  {
    forall k: Key
      ensures BytesInFlight(Advance(w, e).buckets, k) == Lent(Advance(w, e).loans, k) <= ByteCeiling(k)
    {
      BytesStepAt(w, e, k);
    }
    match e.call
    case Reserve(d, c, n) => TakeBytesCounts(w.buckets, e.now, KeyFor(d, c), Limits(c), n, KeyFor(d, c));
    case ReleaseBytes(k, n) => RemoveKeeps(w.loans, Loan(k, n));
    case _ =>
  }

  /**
   * In every run the bytes in flight of a class are exactly the sum of the outstanding
   * reservations, and never exceed its ceiling.
   */
  lemma {:induction false} BytesConserved(w: World, run: Run)
    requires BytesBalanced(w) && Lawful(w, run)
    ensures BytesBalanced(After(w, run))
    decreases |run|
  {
    if run != [] {
      BytesStep(w, run[0]);
      BytesConserved(Advance(w, run[0]), run[1..]);
    }
  }

  // ----- slots -----

  /** The counters never claim more than is held, and never pass the ceiling. */
  ghost predicate SlotsBounded(w: World) {
    forall k: Key :: && InFlight(w.buckets, k) <= w.slots[k]
                && (Limits(k.cls).maxConcurrent.Some? ==> InFlight(w.buckets, k) <= Limits(k.cls).maxConcurrent.value)
  }

  /** The counters are exact. */
  ghost predicate SlotsExact(w: World) {
    forall k: Key :: InFlight(w.buckets, k) == w.slots[k]
  }

  lemma SlotsUntouched(s: Buckets, e: Event, k: Key)
    requires !e.call.AcquireSlot? && !e.call.Release? && !e.call.Forget?
    ensures InFlight(Step(s, e).0, k) == InFlight(s, k)
  {
    match e.call
    case Acquire(d, c) => ChargeKeepsCounts(s, e.now, KeyFor(d, c), Limits(c), k);
    case Reserve(d, c, n) => TakeBytesCounts(s, e.now, KeyFor(d, c), Limits(c), n, k);
    case _ =>
  }

  /** What one call does to the counter of one key and to the slots outstanding for it. */
  lemma SlotStepAt(w: World, e: Event, k: Key)
    requires Owned(w, e)
    ensures var w' := Advance(w, e);
            var c, c', n, n' := InFlight(w.buckets, k), InFlight(w'.buckets, k), w.slots[k], w'.slots[k];
            || (c' == c && n' == n)
            || (&& c' == c + 1 && n' == n + 1
                && (Limits(k.cls).maxConcurrent.Some? ==> c < Limits(k.cls).maxConcurrent.value))
            || (c' == SatSub(c, 1) && n == n' + 1)
            || (c' == 0 && n' == n && e.call.Forget? && k.device == Some(e.call.device))
  {
    if e.call.AcquireSlot? {
      var j, l := KeyFor(e.call.device, e.call.cls), Limits(e.call.cls);
      TakeSlotCounts(w.buckets, e.now, e.call.later, j, l, k);
      TakeSlotCounts(w.buckets, e.now, e.call.later, j, l, j);
    } else if !e.call.Release? && !e.call.Forget? {
      SlotsUntouched(w.buckets, e, k);
    }
  }

  lemma SlotsStep(w: World, e: Event)
    requires SlotsBounded(w) && Owned(w, e)
    ensures SlotsBounded(Advance(w, e))
    ensures SlotsExact(w) && (e.call.Forget? ==> forall k :: k in w.slots ==> k.device != Some(e.call.device))
            ==> SlotsExact(Advance(w, e))
  {
    forall k: Key
      ensures InFlight(Advance(w, e).buckets, k) <= Advance(w, e).slots[k]
      ensures Limits(k.cls).maxConcurrent.Some? ==>
                InFlight(Advance(w, e).buckets, k) <= Limits(k.cls).maxConcurrent.value
      ensures SlotsExact(w) && (e.call.Forget? ==> forall k :: k in w.slots ==> k.device != Some(e.call.device))
              ==> InFlight(Advance(w, e).buckets, k) == Advance(w, e).slots[k]
    {
      SlotStepAt(w, e, k);
      assert InFlight(w.buckets, k) <= w.slots[k];
    }
  }

  /** In every run a counter is at most the number of slots outstanding, and at most its ceiling. */
  lemma {:induction false} SlotsNeverOvercounted(w: World, run: Run)
    requires SlotsBounded(w) && Lawful(w, run)
    ensures SlotsBounded(After(w, run))
    decreases |run|
  {
    if run != [] {
      SlotsStep(w, run[0]);
      SlotsNeverOvercounted(Advance(w, run[0]), run[1..]);
    }
  }

  /** The counter of one key is exact. */
  predicate ExactAt(w: World, k: Key) {
    InFlight(w.buckets, k) == w.slots[k]
  }

  /** The device of key `k` is not forgotten while it holds a slot of that key. */
  predicate HolderKept(w: World, run: Run, k: Key)
    decreases |run|
  {
    run == [] ||
    (&& (run[0].call.Forget? && k in w.slots ==> k.device != Some(run[0].call.device))
     && HolderKept(Advance(w, run[0]), run[1..], k))
  }

  lemma SlotExactStep(w: World, e: Event, k: Key)
    requires ExactAt(w, k) && Owned(w, e)
    ensures ExactAt(Advance(w, e), k) <==> !(e.call.Forget? && k in w.slots && k.device == Some(e.call.device))
  {
    SlotStepAt(w, e, k);
    if e.call.Forget? && k.device == Some(e.call.device) {
      assert InFlight(Advance(w, e).buckets, k) == 0 && Advance(w, e).slots == w.slots;
    }
  }

  lemma AfterPrefix(w: World, run: Run, n: nat)
    requires 0 < n <= |run|
    ensures After(w, run[..n]) == After(Advance(w, run[0]), run[1..][..n - 1])
  {
    assert run[..n][1..] == run[1..][..n - 1];
  }

  /** The counter of key `k` is exact after every beginning of the run. */
  predicate ExactThroughout(w: World, run: Run, k: Key) {
    forall n :: 0 <= n <= |run| ==> ExactAt(After(w, run[..n]), k)
  }

  lemma ExactFromThere(w: World, run: Run, k: Key)
    requires run != []
    ensures ExactThroughout(w, run, k) <==>
            ExactAt(w, k) && ExactThroughout(Advance(w, run[0]), run[1..], k)
  {
    var w', rest := Advance(w, run[0]), run[1..];
    assert run[..0] == [];
    forall n | 0 < n <= |run| ensures After(w, run[..n]) == After(w', rest[..n - 1]) {
      AfterPrefix(w, run, n);
    }
    forall n | 0 <= n <= |rest| ensures After(w', rest[..n]) == After(w, run[..n + 1]) {
      AfterPrefix(w, run, n + 1);
    }
  }

  /** A counter stays exact throughout a run exactly when no holder of that key is forgotten in it. */
  lemma {:induction false} SlotsExactExactly(w: World, run: Run, k: Key)
    requires ExactAt(w, k) && Lawful(w, run)
    ensures HolderKept(w, run, k) <==> ExactThroughout(w, run, k)
    decreases |run|
  {
    if run == [] {
      assert run[..0] == [];
    } else {
      SlotExactStep(w, run[0], k);
      ExactFromThere(w, run, k);
      if ExactAt(Advance(w, run[0]), k) {
        SlotsExactExactly(Advance(w, run[0]), run[1..], k);
      } else {
        assert run[1..][..0] == [];
      }
    }
  }

  lemma {:induction false} NobodyMeansNotThisKey(w: World, run: Run, k: Key)
    requires NoHolderForgotten(w, run)
    ensures HolderKept(w, run, k)
    decreases |run|
  {
    if run != [] {
      NobodyMeansNotThisKey(Advance(w, run[0]), run[1..], k);
    }
  }

  lemma {:induction false} SomebodyHeldSome(w: World, run: Run) returns (k: Key)
    requires !NoHolderForgotten(w, run)
    ensures !HolderKept(w, run, k)
    decreases |run|
  {
    if !NoHolderForgotten(Advance(w, run[0]), run[1..]) {
      k := SomebodyHeldSome(Advance(w, run[0]), run[1..]);
    } else {
      k :| k in w.slots && k.device == Some(run[0].call.device);
    }
  }

  /** All counters stay exact exactly when nobody is forgotten holding any slot. */
  lemma SlotsConserved(w: World, run: Run)
    requires SlotsExact(w) && Lawful(w, run)
    ensures NoHolderForgotten(w, run) <==> forall k: Key :: ExactThroughout(w, run, k)
  {
    if NoHolderForgotten(w, run) {
      forall k: Key
        ensures ExactThroughout(w, run, k)
      {
        assert InFlight(w.buckets, k) == w.slots[k];
        NobodyMeansNotThisKey(w, run, k);
        SlotsExactExactly(w, run, k);
      }
    } else {
      var k := SomebodyHeldSome(w, run);
      assert InFlight(w.buckets, k) == w.slots[k];
      SlotsExactExactly(w, run, k);
    }
  }

  /** Where no holder of a key is forgotten, its ceiling bounds the slots really outstanding. */
  lemma CeilingHolds(w: World, run: Run, k: Key)
    requires SlotsBounded(w) && ExactAt(w, k) && Lawful(w, run) && HolderKept(w, run, k)
    ensures ExactAt(After(w, run), k)
    ensures Limits(k.cls).maxConcurrent.Some? ==> After(w, run).slots[k] <= Limits(k.cls).maxConcurrent.value
  {
    SlotsExactExactly(w, run, k);
    SlotsNeverOvercounted(w, run);
    assert run[..|run|] == run && ExactAt(After(w, run[..|run|]), k);
    assert InFlight(After(w, run).buckets, k) <= After(w, run).slots[k];
  }

  /** From an empty limiter, whatever is called: bytes balance, counters stay within what is out and their ceilings. */
  lemma LedgerBalances(run: Run)
    requires Lawful(FRESH, run)
    ensures BytesBalanced(After(FRESH, run)) && SlotsBounded(After(FRESH, run))
    ensures NoHolderForgotten(FRESH, run) ==> SlotsExact(After(FRESH, run))
  {
    BytesConserved(FRESH, run);
    SlotsNeverOvercounted(FRESH, run);
    forall k: Key | NoHolderForgotten(FRESH, run)
      ensures InFlight(After(FRESH, run).buckets, k) == After(FRESH, run).slots[k]
    {
      NobodyMeansNotThisKey(FRESH, run, k);
      CeilingHolds(FRESH, run, k);
    }
  }
}
