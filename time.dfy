/** System.DateTime and System.TimeSpan as far as the notification descriptor
    uses them, and its two conversions between a DateTime and the number of
    milliseconds since the Unix epoch that it stores. */
module Time {
  import opened Integers
  import opened Wrappers

  const TicksPerMillisecond: int := 10_000
  /** DateTime.MaxValue.Ticks, the last tick of 9999-12-31. */
  const MaxTicks: int := 3_155_378_975_999_999_999
  /** The ticks of 1970-01-01T00:00:00 UTC. */
  const EpochTicks: int := 621_355_968_000_000_000
  /** long.MaxValue / TicksPerMillisecond: the longest TimeSpan in whole milliseconds. */
  const MaxSpanMilliseconds: int := 922_337_203_685_477

  /** A DateTime is a count of 100-nanosecond ticks since 0001-01-01. */
  type Ticks = t: int | 0 <= t <= MaxTicks

  datatype DateTime = DateTime(ticks: Ticks)

  /** A TimeSpan, in whole milliseconds. */
  type SpanMilliseconds = m: int | -MaxSpanMilliseconds <= m <= MaxSpanMilliseconds

  datatype TimeSpan = TimeSpan(milliseconds: SpanMilliseconds)

  /** `DatetimeToLong`: the milliseconds since the epoch, rounded down. */
  function DatetimeToLong(value: DateTime): Int64
  {
    (value.ticks - EpochTicks) / TicksPerMillisecond
  }

  /** `LongToDatetime`: the epoch plus `value` milliseconds; None where
      AddMilliseconds throws because the result lies outside DateTime's range. */
  function LongToDatetime(value: Int64): Option<DateTime>
  {
    var t := EpochTicks + value * TicksPerMillisecond;
    if 0 <= t <= MaxTicks then Some(DateTime(t)) else None
  }

  /** `TimeSpan.FromMilliseconds` as the .NET Framework class library, and
      Mono's with it, computes it: the value is rounded half away from zero
      (value ± 0.5), and OverflowException is thrown when that lies above
      long.MaxValue / TicksPerMillisecond or below long.MinValue /
      TicksPerMillisecond, both of which C# truncates to ±MaxSpanMilliseconds.
      The rounded value is kept doubled here so that it stays an integer; the
      `(long)` cast of value ± 0.5 truncates back to value. None where it throws. */
  function FromMilliseconds(value: Int64): Option<TimeSpan>
  {
    var twiceRounded := 2 * value + (if value >= 0 then 1 else -1);
    if twiceRounded > 2 * MaxSpanMilliseconds || twiceRounded < -2 * MaxSpanMilliseconds then None
    else Some(TimeSpan(value))
  }

  /** A stored timestamp reads back as the DateTime it came from, truncated to
      the millisecond: never later, less than a millisecond earlier, and never
      outside DateTime's range. */
  lemma {:induction false} DatetimeRoundTrip(value: DateTime)
    ensures LongToDatetime(DatetimeToLong(value)).Some?
    ensures var back := LongToDatetime(DatetimeToLong(value)).value;
            back.ticks <= value.ticks < back.ticks + TicksPerMillisecond
    ensures var back := LongToDatetime(DatetimeToLong(value)).value;
            back.ticks % TicksPerMillisecond == 0
  {
    var d := value.ticks - EpochTicks;
    var ms, rest := d / TicksPerMillisecond, d % TicksPerMillisecond;
    assert d == TicksPerMillisecond * ms + rest;
    var t := EpochTicks + ms * TicksPerMillisecond;
    assert t == value.ticks - rest;
    DivModUnique(t, TicksPerMillisecond, EpochTicks / TicksPerMillisecond + ms, 0);
  }

  /** A millisecond count that names a DateTime is recovered from it exactly. */
  lemma {:induction false} MillisecondsRoundTrip(value: Int64)
    requires LongToDatetime(value).Some?
    ensures DatetimeToLong(LongToDatetime(value).value) == value
  {
    DivModUnique(value * TicksPerMillisecond, TicksPerMillisecond, value, 0);
  }

  /** Which millisecond counts LongToDatetime accepts: -1, the descriptor's
      "unset" sentinel, is among them. */
  lemma LongToDatetimeRange(value: Int64)
    ensures LongToDatetime(value).Some? <==>
            -EpochTicks / TicksPerMillisecond <= value <= (MaxTicks - EpochTicks) / TicksPerMillisecond
  {
  }

  /** Which millisecond counts FromMilliseconds accepts: because of the
      rounding, the two extreme whole-millisecond spans ±MaxSpanMilliseconds
      (TimeSpan.MaxValue's TotalMilliseconds among them) are refused, and
      every count strictly inside converts to a span of that many
      milliseconds. */
  lemma FromMillisecondsRange(value: Int64)
    ensures FromMilliseconds(value).Some? <==> -MaxSpanMilliseconds < value < MaxSpanMilliseconds
    ensures FromMilliseconds(value).Some? ==> FromMilliseconds(value).value.milliseconds == value
  {
  }
}
