/** The date-of-birth calendar's `disabled` callback, with dates as day numbers
    (days since 1970-01-01) and instants as millisecond timestamps. */
module Calendar {

  const MsPerMinute: int := 60000
  const MsPerDay: int := 86400000

  /** 1900-01-01 as a day number: 70 years before 1970-01-01, 17 of them leap years. */
  const Day1900: int := -(70 * 365 + 17)

  /** The instant at which local day `day` begins, where `offsetMinutes` is
      how far ahead of UTC the time zone is at that midnight (+480 in the
      Philippines on any date; +60 in London on a summer date but +0 on
      1900-01-01). The calendar hands its `disabled` callback each cell's
      date at local midnight, so each cell is judged with its own date's
      offset. */
  function LocalMidnight(day: int, offsetMinutes: int): int {
    day * MsPerDay - offsetMinutes * MsPerMinute
  }

  /** The local calendar day containing instant `now`. */
  function Today(now: int, offsetMinutes: int): (d: int)
    ensures LocalMidnight(d, offsetMinutes) <= now < LocalMidnight(d + 1, offsetMinutes)
  {
    (now + offsetMinutes * MsPerMinute) / MsPerDay
  }

  /** `new Date("1900-01-01")`: a date-only ISO string is parsed as UTC
      midnight, not local midnight. */
  const LowerBoundAsWritten: int := Day1900 * MsPerDay

  /** The callback as written: `date > new Date() || date < new Date("1900-01-01")`. */
  predicate DisabledAsWritten(day: int, offsetMinutes: int, now: int) {
    LocalMidnight(day, offsetMinutes) > now || LocalMidnight(day, offsetMinutes) < LowerBoundAsWritten
  }

  /** The callback with the lower bound taken at local midnight of 1900-01-01,
      the way every other calendar date is compared. */
  predicate Disabled(day: int, offsetMinutes: int, now: int) {
    LocalMidnight(day, offsetMinutes) > now || LocalMidnight(day, offsetMinutes) < LocalMidnight(Day1900, offsetMinutes)
  }

  lemma {:induction false} MidnightMonotone(a: int, b: int, offsetMinutes: int)
    ensures a <= b <==> LocalMidnight(a, offsetMinutes) <= LocalMidnight(b, offsetMinutes)
  {
    if a <= b {
      assert (b - a) * MsPerDay >= 0;
    } else {
      assert (a - b) * MsPerDay > 0;
    }
    assert LocalMidnight(b, offsetMinutes) - LocalMidnight(a, offsetMinutes) == (b - a) * MsPerDay;
  }

  /** A date can be picked exactly when it lies between 1900-01-01 and
      today, both included. */
  lemma SelectableRange(day: int, offsetMinutes: int, now: int)
    ensures !Disabled(day, offsetMinutes, now) <==> Day1900 <= day <= Today(now, offsetMinutes)
  {
    var t := Today(now, offsetMinutes);
    MidnightMonotone(day, t, offsetMinutes);
    MidnightMonotone(day, t + 1, offsetMinutes);
    MidnightMonotone(Day1900, day, offsetMinutes);
  }

  /** Which cells the callback as written leaves selectable, judging cell
      `day` with the offset in force at its own local midnight (any real
      offset, less than a day either way). A cell is selectable when it is
      not after the day containing `now` at that offset, and when it is not
      before 1900-01-01. The cell 1900-01-01 itself is selectable only if the
      zone was at or west of UTC on 1900-01-01. */
  lemma {:induction false} AsWrittenRange(day: int, offsetMinutes: int, now: int)
    ensures 0 < offsetMinutes < 1440 ==>
      (!DisabledAsWritten(day, offsetMinutes, now) <==> Day1900 < day <= Today(now, offsetMinutes))
    ensures -1440 < offsetMinutes <= 0 ==>
      (!DisabledAsWritten(day, offsetMinutes, now) <==> Day1900 <= day <= Today(now, offsetMinutes))
  {
    if -1440 < offsetMinutes < 1440 {
      InRangeOffset(day, offsetMinutes, now);
    }
  }

  lemma {:induction false} InRangeOffset(day: int, offsetMinutes: int, now: int)
    requires -1440 < offsetMinutes < 1440
    ensures offsetMinutes > 0 ==>
      (!DisabledAsWritten(day, offsetMinutes, now) <==> Day1900 < day <= Today(now, offsetMinutes))
    ensures offsetMinutes <= 0 ==>
      (!DisabledAsWritten(day, offsetMinutes, now) <==> Day1900 <= day <= Today(now, offsetMinutes))
  {
    var t := Today(now, offsetMinutes);
    MidnightMonotone(day, t, offsetMinutes);
    MidnightMonotone(day, t + 1, offsetMinutes);
    var d := day - Day1900;
    var shift := offsetMinutes * MsPerMinute;
    assert -MsPerDay < shift < MsPerDay;
    assert LocalMidnight(day, offsetMinutes) - LowerBoundAsWritten == d * MsPerDay - shift;
    if d >= 1 {
      assert d * MsPerDay >= MsPerDay;
    } else if d == 0 {
      assert d * MsPerDay == 0;
    } else {
      assert d * MsPerDay <= -MsPerDay;
    }
  }

  /** A cell whose date is in UTC or west of it agrees with the intended callback. */
  lemma AsWrittenAgreesWestOfUtc(day: int, offsetMinutes: int, now: int)
    requires -1440 < offsetMinutes <= 0
    ensures DisabledAsWritten(day, offsetMinutes, now) <==> Disabled(day, offsetMinutes, now)
  {
    MidnightMonotone(Day1900, day, offsetMinutes);
    MidnightMonotone(day, Day1900 - 1, 0);
    if day < Day1900 {
      assert day * MsPerDay <= (Day1900 - 1) * MsPerDay;
    }
  }

  /** In a zone east of UTC on 1900-01-01 the callback as written disables
      that date itself: its local midnight comes before UTC midnight of the
      same date. */
  lemma AsWrittenDisablesFirstDayEastOfUtc(offsetMinutes: int, now: int)
    requires offsetMinutes > 0
    ensures DisabledAsWritten(Day1900, offsetMinutes, now)
    ensures now >= LocalMidnight(Day1900, offsetMinutes) ==> !Disabled(Day1900, offsetMinutes, now)
  {
  }
}
