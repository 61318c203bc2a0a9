/** Wall-clock arithmetic of the producer: the POSIX `struct timeval`, the
    `timersub` macro, and the conversion of the difference into unsigned
    64-bit microseconds. */
module SysTime {

  const TWO_64: int := 0x1_0000_0000_0000_0000

  /** `uint64_t`. */
  type uint64 = x: int | 0 <= x < TWO_64

  /** Conversion of a (signed) integer to `uint64_t`: reduction modulo 2^64. */
  function Wrap64(x: int): (r: uint64)
    ensures 0 <= x < TWO_64 ==> r == x
  {
    x % TWO_64
  }

  /** `struct timeval`: seconds and microseconds. `gettimeofday` delivers it
      normalized, with `0 <= usec < 1000000`. */
  datatype TimeVal = TimeVal(sec: int, usec: int) {
    predicate Normalized() {
      0 <= usec < 1000000
    }

    /** The instant in microseconds. */
    function Micros(): int {
      sec * 1000000 + usec
    }
  }

  /** `timersub(a, b, r)`: subtract field by field and borrow one second when
      the microsecond difference is negative. */
  function TimerSub(a: TimeVal, b: TimeVal): (r: TimeVal)
    ensures r.Micros() == a.Micros() - b.Micros()
    ensures a.Normalized() && b.Normalized() ==> r.Normalized()
  {
    var sec := a.sec - b.sec;
    var usec := a.usec - b.usec;
    if usec < 0 then TimeVal(sec - 1, usec + 1000000) else TimeVal(sec, usec)
  }

  /** The producer's elapsed wall time: `timersub` of the current time and
      the epoch, converted to microseconds and stored as `uint64_t`. */
  method ElapsedMicros(now: TimeVal, epoch: TimeVal) returns (us: uint64)
    ensures us == Wrap64(now.Micros() - epoch.Micros())
    ensures now == epoch ==> us == 0
  {
    var timeDiff := TimerSub(now, epoch);
    us := Wrap64(timeDiff.Micros());
  }
}
