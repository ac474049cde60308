/**
 * `struct timespec` arithmetic of EazyStart/src/time/clock.c.
 *
 * A timespec is a pair (sec, nsec). It is normalised when nsec lies in
 * [0, 1_000_000_000). Seconds are unbounded integers here: the 64-bit
 * `time_t` overflow of a sum is not modelled.
 */
module Clock {

  const NanosPerSec: int := 1_000_000_000

  datatype Timespec = Timespec(sec: int, nsec: int)

  const Zero: Timespec := Timespec(0, 0)

  /** nsec within [0, NANOS_PER_SEC): the form every operation keeps. */
  predicate Normalised(t: Timespec) {
    0 <= t.nsec < NanosPerSec
  }

  /** The time span a timespec denotes, in nanoseconds. */
  function TotalNanos(t: Timespec): int {
    t.sec * NanosPerSec + t.nsec
  }

  /** A normalised timespec is the quotient and remainder of its span by
      NANOS_PER_SEC. */
  lemma NormalisedDivMod(t: Timespec)
    requires Normalised(t)
    ensures TotalNanos(t) / NanosPerSec == t.sec
    ensures TotalNanos(t) % NanosPerSec == t.nsec
  {
  }

  /** Two normalised timespecs denoting the same span are equal. */
  lemma NormalisedUnique(a: Timespec, b: Timespec)
    requires Normalised(a) && Normalised(b)
    requires TotalNanos(a) == TotalNanos(b)
    ensures a == b
  {
    NormalisedDivMod(a);
    NormalisedDivMod(b);
  }

  /** ezs_clock_timespec_add: one carry of a second when the nanoseconds
      reach NANOS_PER_SEC. */
  function Add(ts1: Timespec, ts2: Timespec): (r: Timespec)
    requires Normalised(ts1) && Normalised(ts2)
    ensures Normalised(r)
    ensures TotalNanos(r) == TotalNanos(ts1) + TotalNanos(ts2)
    ensures r.sec == ts1.sec + ts2.sec + (if ts1.nsec + ts2.nsec >= NanosPerSec then 1 else 0)
  {
    var result := Timespec(ts1.sec + ts2.sec, ts1.nsec + ts2.nsec);
    if result.nsec >= NanosPerSec then
      Timespec(result.sec + 1, result.nsec - NanosPerSec)
    else
      result
  }

  /** ezs_clock_timespec_sub: one borrow of a second when the nanoseconds
      go negative; the seconds of the result may be negative. */
  function Sub(ts1: Timespec, ts2: Timespec): (r: Timespec)
    requires Normalised(ts1) && Normalised(ts2)
    ensures Normalised(r)
    ensures TotalNanos(r) == TotalNanos(ts1) - TotalNanos(ts2)
    ensures r.sec == ts1.sec - ts2.sec - (if ts1.nsec < ts2.nsec then 1 else 0)
  {
    var result := Timespec(ts1.sec - ts2.sec, ts1.nsec - ts2.nsec);
    if result.nsec < 0 then
      Timespec(result.sec - 1, result.nsec + NanosPerSec)
    else
      result
  }

  /** Subtraction undoes addition. */
  lemma SubAddCancel(a: Timespec, b: Timespec)
    requires Normalised(a) && Normalised(b)
    ensures Sub(Add(a, b), b) == a
  {
    NormalisedUnique(Sub(Add(a, b), b), a);
  }

  /** Addition undoes subtraction. */
  lemma AddSubCancel(a: Timespec, b: Timespec)
    requires Normalised(a) && Normalised(b)
    ensures Add(Sub(a, b), b) == a
  {
    NormalisedUnique(Add(Sub(a, b), b), a);
  }

  /** Adding the zero timespec changes nothing. */
  lemma AddZero(a: Timespec)
    requires Normalised(a)
    ensures Add(Zero, a) == a && Add(a, Zero) == a
  {
  }

  /** ezs_clock_timespec_compare (clock.h:70-72): -1, 0 or 1 as ts1 is
      before, equal to or after ts2, seconds first, then nanoseconds. */
  function Compare(ts1: Timespec, ts2: Timespec): (c: int)
    ensures -1 <= c <= 1
    ensures c == 0 <==> ts1 == ts2
  {
    if ts1.sec < ts2.sec then -1
    else if ts1.sec > ts2.sec then 1
    else if ts1.nsec < ts2.nsec then -1
    else if ts1.nsec > ts2.nsec then 1
    else 0
  }

  /** On normalised timespecs the comparison orders them by the span they
      denote, and reports 0 only for equal timespecs. */
  lemma CompareMatchesNanos(a: Timespec, b: Timespec)
    requires Normalised(a) && Normalised(b)
    ensures Compare(a, b) < 0 <==> TotalNanos(a) < TotalNanos(b)
    ensures Compare(a, b) > 0 <==> TotalNanos(a) > TotalNanos(b)
    ensures Compare(a, b) == 0 <==> a == b
  {
    if a.sec < b.sec {
      assert TotalNanos(a) < (a.sec + 1) * NanosPerSec <= TotalNanos(b);
    } else if b.sec < a.sec {
      assert TotalNanos(b) < (b.sec + 1) * NanosPerSec <= TotalNanos(a);
    }
  }

  /** `struct timespec *ts1` of the in-place operators: a timespec whose
      fields are updated where it lives. */
  class TimespecCell {
    var sec: int
    var nsec: int

    function Value(): Timespec
      reads this
    {
      Timespec(sec, nsec)
    }

    constructor (t: Timespec)
      ensures Value() == t
    {
      sec, nsec := t.sec, t.nsec;
    }

    /** ezs_clock_timespec_add_eq: *ts1 becomes ts1 + ts2. */
    method AddEq(ts2: Timespec)
      requires Normalised(Value()) && Normalised(ts2)
      modifies this
      ensures Value() == Add(old(Value()), ts2)
    {
      sec := sec + ts2.sec;
      nsec := nsec + ts2.nsec;
      if nsec >= NanosPerSec {
        sec := sec + 1;
        nsec := nsec - NanosPerSec;
      }
    }

    /** ezs_clock_timespec_sub_eq: *ts1 becomes ts1 - ts2. */
    method SubEq(ts2: Timespec)
      requires Normalised(Value()) && Normalised(ts2)
      modifies this
      ensures Value() == Sub(old(Value()), ts2)
    {
      sec := sec - ts2.sec;
      nsec := nsec - ts2.nsec;
      if nsec < 0 {
        sec := sec - 1;
        nsec := nsec + NanosPerSec;
      }
    }
  }
}
