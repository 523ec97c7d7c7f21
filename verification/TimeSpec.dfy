/** runtime/c11-threads.c: from the absolute time of a timed wait to the nanoseconds the
    kernel is given.  `time_t` and `long` have 64 bits and `int` has 32; an int product
    that does not fit is taken modulo 2^32, as the processor computes it. */
module TimeSpec {

  const BILLION := 1_000_000_000
  const TWO32 := 0x1_0000_0000
  const TWO64 := 0x1_0000_0000_0000_0000

  /** A value stored in an `int`. */
  function Int32(v: int): int { if v % TWO32 < 0x8000_0000 then v % TWO32 else v % TWO32 - TWO32 }

  /** A point in time or a difference; tv_nsec need not be normalised. */
  datatype Time = Time(sec: int, nsec: int) {
    function Total(): int { sec * BILLION + nsec }

    predicate Normalised() { 0 <= nsec < BILLION }

    /** The values whose differences do not overflow 64 bits. */
    predicate Moderate() {
      -0x3000_0000_0000_0000 <= sec < 0x3000_0000_0000_0000 && -0x3000_0000_0000_0000 <= nsec < 0x3000_0000_0000_0000
    }
  }

  /** y after `seconds` have been moved from its nanoseconds to its seconds; both
      `seconds` and the product are ints. */
  function Carried(y: Time, seconds: int): Time {
    Time(y.sec + Int32(seconds), y.nsec - Int32(BILLION * Int32(seconds)))
  }

  function Adjusted(x: Time, y: Time): Time {
    var y1 := if x.nsec < y.nsec then Carried(y, (y.nsec - x.nsec) / BILLION + 1) else y;
    if x.nsec - y1.nsec > BILLION then
      var seconds := (x.nsec - y1.nsec) / BILLION;
      Time(y1.sec - Int32(seconds), y1.nsec + Int32(BILLION * Int32(seconds)))
    else y1
  }

  /** What timespec_subtract leaves in its result, and whether it returns true. */
  function Difference(x: Time, y: Time): Time { Time(x.sec - Adjusted(x, y).sec, x.nsec - Adjusted(x, y).nsec) }
  predicate Negative(x: Time, y: Time) { x.sec < Adjusted(x, y).sec }

  /** The products that occur fit an int: at most two seconds are moved. */
  predicate FewSeconds(x: Time, y: Time) { y.nsec - x.nsec < 2 * BILLION && x.nsec - y.nsec < 3 * BILLION }

  /** The result is the exact difference with its nanoseconds between 0 and one second. */
  predicate Exact(x: Time, y: Time) {
    Difference(x, y).Total() == x.Total() - y.Total() && 0 <= Difference(x, y).nsec <= BILLION
  }

  lemma Int32Bounds(v: int)
    ensures -0x8000_0000 <= Int32(v) < 0x8000_0000
    ensures -0x8000_0000 <= v < 0x8000_0000 ==> Int32(v) == v
  {
  }

  lemma ThreeSeconds()
    ensures Int32(3 * BILLION) < 0 && Int32(2 * BILLION) == 2 * BILLION && Int32(BILLION) == BILLION
  {
  }

  /** The subtraction is exact iff the nanoseconds of the two times are that close, as
      those of normalised times are. */
  lemma ExactIff(x: Time, y: Time)
    ensures Exact(x, y) <==> FewSeconds(x, y)
    ensures x.Normalised() && y.Normalised() ==> FewSeconds(x, y)
  {
    var d := y.nsec - x.nsec;
    hide Int32;
    ThreeSeconds();
    if d > 0 {
      var s := d / BILLION + 1;
      Int32Bounds(s);
      Int32Bounds(BILLION * Int32(s));
      assert d >= 3 * BILLION || s <= 3;
    } else if -d > BILLION {
      var s := -d / BILLION;
      Int32Bounds(s);
      Int32Bounds(BILLION * Int32(s));
    }
  }

  /** The flag is right wherever the subtraction is exact, except that a difference of 0
      may have it. */
  lemma SignOfExact(x: Time, y: Time)
    requires FewSeconds(x, y)
    ensures x.Total() < y.Total() ==> Negative(x, y)
    ensures Negative(x, y) ==> x.Total() <= y.Total()
  {
    ExactIff(x, y);
  }

  /** timespec_subtract */
  method Subtract(x: Time, y0: Time) returns (negative: bool, result: Time)
    requires x.Moderate() && y0.Moderate()
    ensures result == Difference(x, y0) && negative == Negative(x, y0)
    ensures result.Total() == x.Total() - y0.Total() && 0 <= result.nsec <= BILLION <==> FewSeconds(x, y0)
    ensures FewSeconds(x, y0) && x.Total() < y0.Total() ==> negative
    ensures FewSeconds(x, y0) && negative ==> x.Total() <= y0.Total()
  {
    ExactIff(x, y0);
    if FewSeconds(x, y0) {
      SignOfExact(x, y0);
    }
    var y := y0;
    if x.nsec < y.nsec {
      var seconds := Int32((y.nsec - x.nsec) / BILLION + 1);
      y := y.(nsec := y.nsec - Int32(BILLION * seconds));
      y := y.(sec := y.sec + seconds);
    }
    if x.nsec - y.nsec > BILLION {
      var seconds := Int32((x.nsec - y.nsec) / BILLION);
      y := y.(nsec := y.nsec + Int32(BILLION * seconds));
      y := y.(sec := y.sec - seconds);
    }
    result := Time(x.sec - y.sec, x.nsec - y.nsec);
    negative := x.sec < y.sec;
  }

  /** Two seconds of nanoseconds to subtract from none: the product for three seconds
      wraps around, and the result has negative nanoseconds and the wrong total. */
  lemma TwoSecondsAreLost()
    ensures var x, y := Time(0, 0), Time(0, 2 * BILLION);
      Difference(x, y) == Time(-3, -3_294_967_296) && Difference(x, y).Total() != x.Total() - y.Total()
  {
    assert Int32(3 * BILLION) == -1_294_967_296;
  }

  /** impl_timespec2nsec, in u64 arithmetic */
  function ToNanoseconds(t: Time): nat { t.Total() % TWO64 }

  /** impl_abstimespec2nsec, with the time of the clock as a parameter: the nanoseconds
      that are left until a point in time, and 0 if it has passed. */
  method NanosecondsUntil(time: Time, now: Time) returns (ns: nat)
    requires time.Moderate() && now.Moderate()
    ensures ns == if Negative(time, now) then 0 else ToNanoseconds(Difference(time, now))
    ensures FewSeconds(time, now) && time.Total() - now.Total() < TWO64 ==>
              ns == if time.Total() < now.Total() then 0 else time.Total() - now.Total()
  {
    hide Difference, Negative;
    var negative, diff := Subtract(time, now);
    if negative {
      return 0;
    }
    ns := ToNanoseconds(diff);
  }

  /** A point three seconds ahead, given in nanoseconds, is waited for more than seven. */
  lemma ThreeSecondsBecomeSeven()
    ensures var time, now := Time(0, 3 * BILLION), Time(0, 0);
      !Negative(time, now) && ToNanoseconds(Difference(time, now)) == 7_294_967_296
  {
    assert Int32(3 * BILLION) == -1_294_967_296;
  }
}
