/**
Normalised `struct timeval` values and the three operations TCP's timers use:
timersub, timercmp with `>`, and timeval_add_usec.
 */
module Clock {
  import opened Words

  const MILLION := 1_000_000

  datatype Timeval = Timeval(sec: int, usec: int)

  predicate Normal(t: Timeval) {
    0 <= t.usec < MILLION
  }

  /** A clock reading: what gettimeofday returns. */
  type Time = t: Timeval | Normal(t) witness Timeval(0, 0)

  /** The instant a time value denotes, in microseconds. */
  function Micros(t: Timeval): int {
    t.sec * MILLION + t.usec
  }

  function TimerSub(a: Time, b: Time): Time {
    if a.usec < b.usec
    then Timeval(a.sec - b.sec - 1, a.usec - b.usec + MILLION)
    else Timeval(a.sec - b.sec, a.usec - b.usec)
  }

  predicate Later(a: Time, b: Time) {
    if a.sec == b.sec then a.usec > b.usec else a.sec > b.sec
  }

  function AddUsec(t: Time, us: U32): Time {
    var usec := t.usec + us % MILLION;
    if usec >= MILLION
    then Timeval(t.sec + us / MILLION + 1, usec - MILLION)
    else Timeval(t.sec + us / MILLION, usec)
  }

  /** The carry in timeval_add_usec is exact: the macro adds `us` microseconds. */
  lemma AddUsecIsAddition(t: Time, us: U32)
    ensures Micros(AddUsec(t, us)) == Micros(t) + us
  {
    assert us == us / MILLION * MILLION + us % MILLION;
  }

  /** Comparing and subtracting field by field agrees with comparing and subtracting instants. */
  lemma FieldwiseIsInstant(a: Time, b: Time)
    ensures Later(a, b) <==> Micros(a) > Micros(b)
    ensures Micros(TimerSub(a, b)) == Micros(a) - Micros(b)
    ensures forall n: int :: TimerSub(a, b).sec >= n <==> Micros(a) - Micros(b) >= n * MILLION
  {
  }
}
