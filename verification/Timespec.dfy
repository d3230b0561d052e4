/** The deadlines of the event loop: `struct timespec` values, how an interval is
    added to one in place, and how two of them are compared through 64-bit
    nanosecond counts. */
module Timespec {

  const NANOS_PER_SECOND := 1_000_000_000
  const NANOS_PER_MILLI := 1_000_000
  const MAX_INT32 := 0x7fff_ffff
  const MAX_INT64 := 0x7fff_ffff_ffff_ffff

  /** The largest `tv_sec` for which every normalised timespec fits 64 bits. */
  const MAX_SECONDS := 9_223_372_035

  /** An `unsigned int` number of milliseconds. */
  type Millis = n: int | 0 <= n < 0x1_0000_0000

  datatype Timespec = Timespec(sec: int, nsec: int)

  predicate Normal(ts: Timespec) {
    0 <= ts.nsec < NANOS_PER_SECOND
  }

  function Nanos(ts: Timespec): int {
    ts.sec * NANOS_PER_SECOND + ts.nsec
  }

  function NanosOf(interval: Millis): int {
    interval * NANOS_PER_MILLI
  }

  /** A deadline the comparison can handle. */
  type Deadline = ts: Timespec | Normal(ts) && 0 <= ts.sec <= MAX_SECONDS
    witness Timespec(0, 0)

  /** A reading of the monotonic clock that leaves room for the longest interval. */
  type Reading = ts: Timespec | Normal(ts) && 0 <= ts.sec <= MAX_SECONDS - 4_294_968
    witness Timespec(0, 0)

  /** The deadline `interval` milliseconds after a reading: the only normalised
      timespec with that many nanoseconds. */
  function After(now: Reading, interval: Millis): (ts: Deadline)
    ensures Nanos(ts) == Nanos(now) + NanosOf(interval)
  {
    var n := Nanos(now) + NanosOf(interval);
    assert n / NANOS_PER_SECOND <= MAX_SECONDS;
    Timespec(n / NANOS_PER_SECOND, n % NANOS_PER_SECOND)
  }

  lemma NanosInjective(a: Timespec, b: Timespec)
    requires Normal(a) && Normal(b)
    ensures Nanos(a) == Nanos(b) <==> a == b
  {
  }

  /** The largest `tv_nsec` on the way, for every normalised timespec and interval,
      fits a 32-bit `long`, and it is reached. */
  lemma NanosFitLong(ts: Timespec, interval: Millis)
    requires Normal(ts)
    ensures ts.nsec + (interval % 1000) * 1000 * 1000 <= 1_998_999_999 <= MAX_INT32
    ensures ts.nsec + (interval % 1000) * 1000 * 1000 == 1_998_999_999 <==>
              ts.nsec == 999_999_999 && interval % 1000 == 999
  {
  }

  /** The in-place addition, as a sequence of updates of the two fields. */
  method Plus(ts: Timespec, interval: Millis) returns (r: Timespec)
    requires Normal(ts)
    ensures Normal(r)
    ensures Nanos(r) == Nanos(ts) + NanosOf(interval)
  {
    var sec, nsec := ts.sec, ts.nsec;
    sec := sec + interval / 1000;
    nsec := nsec + (interval % 1000) * 1000 * 1000;
    NanosFitLong(ts, interval);
    assert nsec <= MAX_INT32;
    if nsec >= NANOS_PER_SECOND {
      sec := sec + nsec / NANOS_PER_SECOND;
      nsec := nsec % NANOS_PER_SECOND;
    }
    r := Timespec(sec, nsec);
  }

  // ----- comparison -----

  /** Two's complement wrap-around to 64 bits. */
  function Wrap64(n: int): int {
    (n + MAX_INT64 + 1) % (2 * (MAX_INT64 + 1)) - (MAX_INT64 + 1)
  }

  predicate InRange64(n: int) {
    -MAX_INT64 - 1 <= n <= MAX_INT64
  }

  function Compare(a: Timespec, b: Timespec): int {
    var t1, t2 := Wrap64(Nanos(a)), Wrap64(Nanos(b));
    if t1 < t2 then -1 else if t1 > t2 then 1 else 0
  }

  predicate LexLess(a: Timespec, b: Timespec) {
    a.sec < b.sec || (a.sec == b.sec && a.nsec < b.nsec)
  }

  /** A nanosecond count survives the 64-bit arithmetic exactly when it is in range. */
  lemma WrapIsExactInRange(n: int)
    ensures Wrap64(n) == n <==> InRange64(n)
  {
  }

  /** On deadlines the comparison is the order of the nanosecond counts, which is
      the lexicographic order of the fields. */
  lemma CompareIsLexicographic(a: Deadline, b: Deadline)
    ensures Compare(a, b) < 0 <==> LexLess(a, b)
    ensures Compare(a, b) > 0 <==> LexLess(b, a)
    ensures Compare(a, b) == 0 <==> a == b
    ensures Compare(a, b) < 0 <==> Nanos(a) < Nanos(b)
    ensures Compare(a, b) > 0 <==> Nanos(a) > Nanos(b)
  {
    assert Wrap64(Nanos(a)) == Nanos(a) by { WrapIsExactInRange(Nanos(a)); }
    assert Wrap64(Nanos(b)) == Nanos(b) by { WrapIsExactInRange(Nanos(b)); }
  }

  /** The comparison has the sign of the difference of the nanosecond counts. */
  predicate ComparesAs(a: Timespec, b: Timespec) {
    (Compare(a, b) < 0 <==> Nanos(a) < Nanos(b)) && (Compare(a, b) > 0 <==> Nanos(a) > Nanos(b))
  }

  /** The normalised timespec of a nanosecond count. */
  function OfNanos(n: int): (ts: Timespec)
    ensures Normal(ts) && Nanos(ts) == n
  {
    Timespec(n / NANOS_PER_SECOND, n % NANOS_PER_SECOND)
  }

  /** A timespec compares correctly with every one in range exactly when it is in range
      itself. */
  lemma CompareIsExactInRange(a: Timespec)
    requires Normal(a)
    ensures (forall b :: Normal(b) && InRange64(Nanos(b)) ==> ComparesAs(a, b)) <==> InRange64(Nanos(a))
  {
    var n := Nanos(a);
    WrapIsExactInRange(n);
    if InRange64(n) {
      forall b | Normal(b) && InRange64(Nanos(b))
        ensures ComparesAs(a, b)
      {
        WrapIsExactInRange(Nanos(b));
      }
    } else {
      var b := OfNanos(Wrap64(n));
      WrapIsExactInRange(Wrap64(n));
      assert Wrap64(Nanos(b)) == Wrap64(n) && !ComparesAs(a, b);
    }
  }

  /** One second beyond the largest supported `tv_sec` the product can wrap, and
      a later deadline then compares as earlier. */
  lemma CompareWrapsBeyondRange()
    ensures Compare(Timespec(MAX_SECONDS + 1, NANOS_PER_SECOND - 1), Timespec(0, 0)) < 0
  {
  }
}
