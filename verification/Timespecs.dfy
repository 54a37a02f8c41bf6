/** struct timespec as src/ap_utils.c handles it. */
module Timespecs {

  const MAX_NSEC := 1_000_000_000

  datatype Timespec = Timespec(sec: int, nsec: int)

  /** The time in nanoseconds. */
  function Total(t: Timespec): int
  {
    t.sec * MAX_NSEC + t.nsec
  }

  predicate Normal(t: Timespec)
  {
    0 <= t.nsec < MAX_NSEC
  }

  /** A point on the monotonic clock, or a time computed from one. */
  predicate OnClock(t: Timespec)
  {
    0 <= t.sec && Normal(t)
  }

  /** Whole seconds move from tv_nsec to tv_sec. */
  function Carried(sec: int, nsec: int): Timespec
  {
    if nsec >= MAX_NSEC then
      var tmp := nsec / MAX_NSEC;
      Timespec(sec + tmp, nsec - tmp * MAX_NSEC)
    else Timespec(sec, nsec)
  }

  /** ap_utils_timespec_add */
  function Add(a: Timespec, b: Timespec): Timespec
  {
    Carried(a.sec + b.sec, a.nsec + b.nsec)
  }

  /** ap_utils_timespec_set, AP_UTILS_TIME_SET_FROM_NOW */
  function FromNow(now: Timespec, msec: nat): Timespec
  {
    Carried(now.sec, now.nsec + msec * 1_000_000)
  }

  /** ap_utils_timespec_set, AP_UTILS_TIME_SET_FROMZERO */
  function FromZero(msec: nat): Timespec
  {
    Timespec(msec / 1000, MAX_NSEC * (msec % 1000))
  }

  predicate IsSet(t: Timespec)
  {
    t.sec > 0 || t.nsec > 0
  }

  /** ap_utils_timespec_cmp_to_now */
  function CmpToNow(t: Timespec, now: Timespec): int
  {
    if t.sec > now.sec then 1
    else if t.sec < now.sec then -1
    else if t.nsec > now.nsec then 1
    else if t.nsec < now.nsec then -1
    else 0
  }

  lemma CarriedExact(sec: int, nsec: int)
    ensures Total(Carried(sec, nsec)) == sec * MAX_NSEC + nsec
    ensures 0 <= nsec ==> Normal(Carried(sec, nsec))
    ensures 0 <= nsec && 0 <= sec ==> OnClock(Carried(sec, nsec))
  {
  }

  /** Sums are exact and normalised, even when an operand is not normalised. */
  lemma AddExact(a: Timespec, b: Timespec)
    requires 0 <= a.nsec && 0 <= b.nsec
    ensures Total(Add(a, b)) == Total(a) + Total(b) && Normal(Add(a, b))
  {
    CarriedExact(a.sec + b.sec, a.nsec + b.nsec);
  }

  lemma FromNowExact(now: Timespec, msec: nat)
    requires OnClock(now)
    ensures Total(FromNow(now, msec)) == Total(now) + msec * 1_000_000 && OnClock(FromNow(now, msec))
    ensures msec > 0 ==> IsSet(FromNow(now, msec))
  {
    CarriedExact(now.sec, now.nsec + msec * 1_000_000);
  }

  /** Comparing seconds and then nanoseconds compares normalised times. */
  lemma CmpIsOrder(t: Timespec, now: Timespec)
    requires Normal(t) && Normal(now)
    ensures CmpToNow(t, now) > 0 <==> Total(t) > Total(now)
    ensures CmpToNow(t, now) == 0 <==> t == now
  {
  }

  /** SET_FROMZERO is documented to set exactly msec milliseconds. It does, and leaves a
      normalised time, exactly for whole seconds: the remainder is scaled by 10^9
      instead of 10^6. */
  lemma FromZeroExactIff(msec: nat)
    ensures Total(FromZero(msec)) == msec * 1_000_000 <==> msec % 1000 == 0
    ensures Normal(FromZero(msec)) <==> msec % 1000 == 0
  {
    var q, r := msec / 1000, msec % 1000;
    assert msec == 1000 * q + r;
    assert Total(FromZero(msec)) == MAX_NSEC * q + MAX_NSEC * r;
  }

  /** Only the argument 0 leaves a timeout unset. */
  lemma FromZeroSetIff(msec: nat)
    ensures IsSet(FromZero(msec)) <==> msec > 0
  {
    if msec > 0 {
      assert msec / 1000 > 0 || msec % 1000 > 0;
    }
  }

  /** A timeout of 1.5 seconds becomes 501 seconds. */
  lemma FromZeroFails()
    ensures Total(FromZero(1500)) == 501 * MAX_NSEC
  {
  }
}
