/** `struct timeval` and the `timersub` macro of <sys/time.h>. */
module Timeval {

  datatype Timeval = Timeval(sec: int, usec: int) {
    /** The microseconds field is within its range. */
    predicate Normal() {
      0 <= usec < 1_000_000
    }

    function Micros(): int {
      sec * 1_000_000 + usec
    }
  }

  function TimerSub(a: Timeval, b: Timeval): (d: Timeval)
    ensures d.Micros() == a.Micros() - b.Micros()
    ensures a.Normal() && b.Normal() ==> d.Normal()
  {
    if a.usec - b.usec < 0 then Timeval(a.sec - b.sec - 1, a.usec - b.usec + 1_000_000)
    else Timeval(a.sec - b.sec, a.usec - b.usec)
  }
}
