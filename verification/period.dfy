/**
 * The fishing day: a noon-to-noon window in local time, as `getPeriodBoundaries`
 * computes it, and the time stamp the archive screens give to records of a day.
 * Times are epoch milliseconds; the local zone is a fixed offset `zone` (no DST),
 * so every day is `DayMs` long.
 */
module Period {
  import opened Common

  const HourMs: int := 3_600_000
  const DayMs: int := 24 * HourMs
  const NoonMs: int := 12 * HourMs

  /** A period `[start, finish)`, the `Pair<Date, Date>` of the source. */
  datatype Day = Day(start: int, finish: int)

  /** The number of the local calendar day holding instant `t` (days since the local epoch day). */
  function LocalDay(t: int, zone: int): int {
    (t + zone) / DayMs
  }

  /** Milliseconds since local midnight. */
  function TimeOfDay(t: int, zone: int): (ms: int)
    ensures 0 <= ms < DayMs
  {
    (t + zone) % DayMs
  }

  /** `Calendar.AM_PM == Calendar.PM`: the local hour is 12 or later. */
  predicate IsPm(t: int, zone: int) {
    TimeOfDay(t, zone) >= NoonMs
  }

  /**
   * `getPeriodBoundaries(timestamp)`: from local noon of `t`'s day when `t` is in the
   * afternoon, else from local noon of the day before, to local noon one day later.
   */
  function PeriodBoundaries(t: int, zone: int): (day: Day)
    ensures day.finish == day.start + DayMs
    ensures day.start <= t < day.finish
    ensures TimeOfDay(day.start, zone) == NoonMs
    ensures IsPm(t, zone) ==> LocalDay(day.start, zone) == LocalDay(t, zone)
    ensures !IsPm(t, zone) ==> LocalDay(day.start, zone) == LocalDay(t, zone) - 1
  {
    var local := t + zone;
    var midnight := local - local % DayMs;
    var noon := if local % DayMs >= NoonMs then midnight + NoonMs else midnight - DayMs + NoonMs;
    Day(noon - zone, noon - zone + DayMs)
  }

  /** The optional argument of `getPeriodBoundaries`: no timestamp means the current time `now`. */
  function GetPeriodBoundaries(timestamp: Option<int>, now: int, zone: int): (day: Day)
    ensures timestamp.Some? ==> day.start <= timestamp.value < day.finish
    ensures timestamp.None? ==> day.start <= now < day.finish
    ensures day.finish == day.start + DayMs && TimeOfDay(day.start, zone) == NoonMs
  {
    PeriodBoundaries(if timestamp.Some? then timestamp.value else now, zone)
  }

  /** Two instants 0 <= d < DayMs apart with the same time of day are the same instant. */
  lemma SameTimeOfDay(a: int, b: int, zone: int)
    requires a <= b < a + DayMs
    requires TimeOfDay(a, zone) == TimeOfDay(b, zone)
    ensures a == b
  {
    var x, y := a + zone, b + zone;
    assert x == (x / DayMs) * DayMs + x % DayMs;
    assert y == (y / DayMs) * DayMs + y % DayMs;
    var q := y / DayMs - x / DayMs;
    assert y - x == q * DayMs;
  }

  /** There is exactly one window that starts at local noon, lasts a day and holds `t`. */
  lemma {:induction false} PeriodUnique(t: int, zone: int, s: int)
    requires s <= t < s + DayMs && TimeOfDay(s, zone) == NoonMs
    ensures PeriodBoundaries(t, zone) == Day(s, s + DayMs)
  {
    var day := PeriodBoundaries(t, zone);
    if s <= day.start {
      SameTimeOfDay(s, day.start, zone);
    } else {
      SameTimeOfDay(day.start, s, zone);
    }
  }

  /** Every instant of a period maps back to that period; in particular its start does. */
  lemma PeriodStable(t: int, zone: int, u: int)
    requires PeriodBoundaries(t, zone).start <= u < PeriodBoundaries(t, zone).finish
    ensures PeriodBoundaries(u, zone) == PeriodBoundaries(t, zone)
  {
    PeriodUnique(u, zone, PeriodBoundaries(t, zone).start);
  }

  /** `setDayAndTime`: the stamp of a period is its start plus 12 hours. */
  function Stamp(day: Day): (t: int)
    ensures day.finish == day.start + DayMs ==> day.start <= t < day.finish
  {
    day.start + NoonMs
  }

  /**
   * The stamp falls inside its own period, and it is local midnight: the start of the
   * calendar day on which the period ends.
   */
  lemma StampInPeriod(t: int, zone: int)
    ensures PeriodBoundaries(t, zone).start <= Stamp(PeriodBoundaries(t, zone)) < PeriodBoundaries(t, zone).finish
    ensures TimeOfDay(Stamp(PeriodBoundaries(t, zone)), zone) == 0
    ensures PeriodBoundaries(Stamp(PeriodBoundaries(t, zone)), zone) == PeriodBoundaries(t, zone)
  {
    var day := PeriodBoundaries(t, zone);
    var s := Stamp(day);
    assert (s + zone) == (day.start + zone) + NoonMs;
    var x := day.start + zone;
    assert x == (x / DayMs) * DayMs + NoonMs;
    assert s + zone == (x / DayMs + 1) * DayMs;
    PeriodStable(t, zone, s);
  }

  /**
   * The archive screen is opened with the local midnight of a picked date: its period
   * runs from noon of the day before to noon of that date, and its stamp is that midnight.
   */
  lemma PickedMidnight(t: int, zone: int)
    requires TimeOfDay(t, zone) == 0
    ensures PeriodBoundaries(t, zone) == Day(t - NoonMs, t + NoonMs)
    ensures Stamp(PeriodBoundaries(t, zone)) == t
  {
    var s := t - NoonMs;
    var x := t + zone;
    assert x == (x / DayMs) * DayMs;
    assert s + zone == (x / DayMs - 1) * DayMs + NoonMs;
    assert TimeOfDay(s, zone) == NoonMs;
    PeriodUnique(t, zone, s);
  }
}
