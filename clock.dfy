/** Calendar arithmetic on timestamps.

    A timestamp is an integer number of milliseconds of local wall-clock
    time counted from 1970-01-01 00:00. Days are counted from that date,
    which was a Thursday, and weeks start on Monday, as the dashboard's
    `isSameWeek(a, b, { weekStartsOn: 1 })` asks. */
module Clock {

  const MillisPerMinute: int := 60 * 1000
  const MillisPerDay: int := 24 * 60 * MillisPerMinute

  /** The calendar day holding `t`: days since 1970-01-01 (negative before). */
  function DayIndex(t: int): int {
    t / MillisPerDay
  }

  /** The day of the week of a day index: 0 is Monday, 6 is Sunday. */
  function Weekday(day: int): int {
    (day + 3) % 7
  }

  /** The Monday-started week holding a day index. */
  function WeekOfDay(day: int): int {
    (day + 3) / 7
  }

  function WeekIndex(t: int): int {
    WeekOfDay(DayIndex(t))
  }

  /** `isSameDay(a, b)`: two times on the same day are less than a day
      apart. */
  function SameDay(a: int, b: int): (r: bool)
    ensures r ==> -MillisPerDay < a - b < MillisPerDay
  {
    DayIndex(a) == DayIndex(b)
  }

  /** `isSameWeek(a, b, { weekStartsOn: 1 })`: two times in the same week
      are less than seven days apart, and two times on the same day are in
      the same week. */
  function SameWeek(a: int, b: int): (r: bool)
    ensures r ==> -7 * MillisPerDay < a - b < 7 * MillisPerDay
    ensures SameDay(a, b) ==> r
  {
    WeekIndex(a) == WeekIndex(b)
  }

  /** `addMinutes(t, m)`: never earlier for a non-negative `m`, and a full
      day of minutes lands on the next calendar day. */
  function AddMinutes(t: int, m: int): (r: int)
    ensures m >= 0 ==> r >= t
    ensures m == 24 * 60 ==> DayIndex(r) == DayIndex(t) + 1
  {
    t + m * MillisPerMinute
  }

  /** A week ends exactly when the next day is a Monday. */
  lemma WeekStartsOnMonday(day: int)
    ensures WeekOfDay(day + 1) == WeekOfDay(day) <==> Weekday(day + 1) != 0
    ensures WeekOfDay(day + 1) == WeekOfDay(day) || WeekOfDay(day + 1) == WeekOfDay(day) + 1
  {
  }

  /** Two times in the same week lie on days less than seven apart. */
  lemma SameWeekIsNear(a: int, b: int)
    ensures SameWeek(a, b) ==> -7 < DayIndex(a) - DayIndex(b) < 7
  {
  }
}
