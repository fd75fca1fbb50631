/** Times of deferred commands: is_deferred_current and the truncation to
    milliseconds in process_command_queue (src/reactor.rs), in 64-bit words. */
module Scheduling {
  import opened FlatStorages

  const I64_LIMIT: int := 0x8000_0000_0000_0000

  /** The value of an integer that is cut to 64 bits and read as signed. */
  function AsI64(x: int): (r: int)
    ensures -I64_LIMIT <= r < I64_LIMIT
  {
    (x + I64_LIMIT) % (2 * I64_LIMIT) - I64_LIMIT
  }

  datatype Deferred = Immediate | UntilTime(nanos: nat) // since the epoch

  /** `as_millis() as i64`. */
  function Millis(nanos: nat): int { AsI64(nanos / 1_000_000) }

  /** is_deferred_current: with half a millisecond added, wrapping. */
  predicate IsDeferredCurrent(millis: int, now: int) {
    AsI64(millis * 1_000_000 + 5 * 100_000) <= now
  }

  /** Whether a command may run when the clock shows `now`. */
  predicate Runnable(deferred: Deferred, now: int) {
    match deferred
    case Immediate => true
    case UntilTime(nanos) => IsDeferredCurrent(Millis(nanos), now)
  }

  /** What the clock shows at each reading, and how many readings there have been. */
  datatype Readings = Readings(time: nat -> int, count: nat)

  /** The clock. Nothing is known about `time`: it may jump, and go backwards. */
  class Clock {
    const time: nat -> int
    var count: nat

    function View(): Readings
      reads this
    {
      Readings(time, count)
    }

    constructor (time: nat -> int)
      ensures View() == Readings(time, 0)
    {
      this.time, count := time, 0;
    }

    method Read() returns (now: int)
      modifies this
      ensures now == time(old(count)) && count == old(count) + 1
    {
      now := time(count);
      count := count + 1;
    }
  }

  /** Whether a command may have started after this reading, or after none. */
  predicate MayStart(deferred: Deferred, reading: Option<nat>, c: Readings) {
    match deferred
    case Immediate => reading == None
    case UntilTime(_) => reading.Some? && reading.value < c.count && Runnable(deferred, c.time(reading.value))
  }

  /** The last millisecond whose nanoseconds plus the tolerance fit into i64. */
  const MAX_MILLIS: int := (I64_LIMIT - 1 - 500_000) / 1_000_000

  lemma AsI64IsExact(x: int)
    ensures AsI64(x) == x <==> -I64_LIMIT <= x < I64_LIMIT
  {}

  /** The multiplication overflows exactly for later milliseconds than that. */
  lemma OverflowLimit(millis: nat)
    ensures AsI64(millis * 1_000_000 + 500_000) == millis * 1_000_000 + 500_000 <==> millis <= MAX_MILLIS
  {
    AsI64IsExact(millis * 1_000_000 + 500_000);
  }

  /** Up to the limit, a command for time t runs exactly from half a millisecond
      after the start of t's millisecond on: never before t - 499999 ns, and at
      the latest at t + 500000 ns. */
  lemma SchedulingBound(t: nat, now: int)
    ensures t / 1_000_000 <= MAX_MILLIS ==>
      && (Runnable(UntilTime(t), now) <==> now >= t - t % 1_000_000 + 500_000)
      && (Runnable(UntilTime(t), now) ==> now >= t - 499_999)
      && (now >= t + 500_000 ==> Runnable(UntilTime(t), now))
  {
    if t / 1_000_000 <= MAX_MILLIS {
      AsI64IsExact(t / 1_000_000);
      OverflowLimit(t / 1_000_000);
    }
  }

  /** A time at whose wrapped due time a command may run too early. */
  lemma PastTheLimitRunsEarly(t: nat)
    requires t / 1_000_000 > MAX_MILLIS
    ensures var now := AsI64(Millis(t) * 1_000_000 + 500_000);
      -I64_LIMIT <= now < I64_LIMIT && Runnable(UntilTime(t), now) && now < t - 499_999
  {
    var millis := t / 1_000_000;
    assert t >= millis * 1_000_000;
    if millis == MAX_MILLIS + 1 {
      AsI64IsExact(millis);
      var x := millis * 1_000_000 + 500_000;
      assert AsI64(x) == x - 2 * I64_LIMIT;
    } else {
      assert t >= (MAX_MILLIS + 2) * 1_000_000;
    }
  }

  /** Whatever the clock can show, a command for time t never runs before t - 499999
      ns if and only if its millisecond is up to the limit. */
  lemma NeverEarlyExactly(t: nat)
    ensures (forall now :: -I64_LIMIT <= now < I64_LIMIT && Runnable(UntilTime(t), now) ==> now >= t - 499_999)
      <==> t / 1_000_000 <= MAX_MILLIS
  {
    if t / 1_000_000 <= MAX_MILLIS {
      forall now | -I64_LIMIT <= now < I64_LIMIT && Runnable(UntilTime(t), now) ensures now >= t - 499_999 {
        SchedulingBound(t, now);
      }
    } else {
      PastTheLimitRunsEarly(t);
    }
  }

  /** The bound is reached by a time at the end of its millisecond. */
  lemma SchedulingBoundIsTight(ms: nat)
    requires ms <= MAX_MILLIS
    ensures var t := ms * 1_000_000 + 999_999;
      Runnable(UntilTime(t), t - 499_999) && !Runnable(UntilTime(t), t - 500_000)
  {
    var t := ms * 1_000_000 + 999_999;
    assert t / 1_000_000 == ms && t % 1_000_000 == 999_999;
    SchedulingBound(t, t - 499_999);
    SchedulingBound(t, t - 500_000);
  }

  /** The first millisecond past the limit wraps around: its commands count as
      due at every clock reading since the epoch. */
  lemma PastTheLimitIsDueAtOnce(now: nat)
    ensures Runnable(UntilTime((MAX_MILLIS + 1) * 1_000_000), now)
  {
    var t := (MAX_MILLIS + 1) * 1_000_000;
    assert t / 1_000_000 == MAX_MILLIS + 1;
    AsI64IsExact(MAX_MILLIS + 1);
    var x := (MAX_MILLIS + 1) * 1_000_000 + 500_000;
    assert AsI64(x) == x - 2 * I64_LIMIT;
  }

  /** Without overflow, later milliseconds are not due earlier. */
  lemma DueIsMonotone(earlier: int, later: int, now: int)
    requires 0 <= earlier <= later <= MAX_MILLIS && !IsDeferredCurrent(earlier, now)
    ensures !IsDeferredCurrent(later, now)
  {
    OverflowLimit(earlier);
    OverflowLimit(later);
  }
}
