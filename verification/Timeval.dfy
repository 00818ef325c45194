/** struct timeval with the <sys/time.h> macros the reorder buffer compares ages with. */
module Timeval {
  datatype Timeval = Timeval(sec: int, usec: int)

  predicate Normal(t: Timeval) {
    0 <= t.usec < 1_000_000
  }

  function Micros(t: Timeval): int {
    t.sec * 1_000_000 + t.usec
  }

  /** timersub(a, b, &result) */
  function Sub(a: Timeval, b: Timeval): Timeval {
    var sec, usec := a.sec - b.sec, a.usec - b.usec;
    if usec < 0 then Timeval(sec - 1, usec + 1_000_000) else Timeval(sec, usec)
  }

  /** timercmp(a, b, >=) */
  predicate AtLeast(a: Timeval, b: Timeval) {
    if a.sec == b.sec then a.usec >= b.usec else a.sec >= b.sec
  }

  /** The reorder buffer timeout as the configuration file gives it, in milliseconds; C division truncates. */
  function FromMillis(ms: int): (t: Timeval)
    ensures Micros(t) == ms * 1000 && -1_000_000 < t.usec < 1_000_000
    ensures ms >= 0 ==> Normal(t)
    ensures ms < 0 ==> t.sec <= 0 && t.usec <= 0
  {
    if ms >= 0 then Timeval(ms / 1000, ms % 1000 * 1000)
    else Timeval(-(-ms / 1000), -(-ms % 1000 * 1000))
  }

  /** The two-field subtraction and comparison decide exactly the age in microseconds. */
  lemma AgeTest(now: Timeval, stamp: Timeval, timeout: Timeval)
    requires Normal(now) && Normal(stamp) && Normal(timeout)
    ensures AtLeast(Sub(now, stamp), timeout) <==> Micros(now) - Micros(stamp) >= Micros(timeout)
  {
    var age := Sub(now, stamp);
    assert Normal(age) && Micros(age) == Micros(now) - Micros(stamp);
  }
}
