/** The parts of a JavaScript `Date` the widget reads and writes: calendar fields only.
    Every `Date` the widget builds is `new Date(y, m, d, h, min, s)` from fields of other
    Dates, so a record of those fields is enough; no epoch, time zone or normalisation. */
module JsDate {

  /** A time of day; the only parts of a slot's `Date` the widget ever reads
      (`getHours()` and `getMinutes()`). */
  datatype Time = Time(hour: int, minute: int)

  /** A calendar day: `getFullYear()`, `getMonth()` (0-based) and `getDate()`. */
  datatype Day = Day(year: int, month0: int, day: int)

  /** A timestamp as its getters see it; `second` stands for seconds and milliseconds. */
  datatype DateTime = DateTime(year: int, month0: int, day: int, hour: int, minute: int, second: int)

  /** The ranges the getters of a valid `Date` return. */
  predicate ValidTime(t: Time) {
    0 <= t.hour < 24 && 0 <= t.minute < 60
  }

  predicate ValidDateTime(d: DateTime) {
    0 <= d.month0 < 12 && 1 <= d.day <= 31 &&
    0 <= d.hour < 24 && 0 <= d.minute < 60 && 0 <= d.second < 60
  }

  function MinuteOfDay(t: Time): int {
    t.hour * 60 + t.minute
  }

  function TimeOf(d: DateTime): Time {
    Time(d.hour, d.minute)
  }

  function DayOf(d: DateTime): Day {
    Day(d.year, d.month0, d.day)
  }

  /** `new Date(d.getFullYear(), d.getMonth(), d.getDate(), t.getHours(), t.getMinutes(), 0)`:
      the day of `d` at the time `t`, seconds cleared. */
  function WithTime(d: DateTime, t: Time): (r: DateTime)
    ensures DayOf(r) == DayOf(d) && TimeOf(r) == t && r.second == 0
    ensures ValidDateTime(d) && ValidTime(t) ==> ValidDateTime(r)
  {
    DateTime(d.year, d.month0, d.day, t.hour, t.minute, 0)
  }

  /** `new Date(day.getFullYear(), day.getMonth(), day.getDate(), d.getHours(), d.getMinutes(), 0)`:
      the time of `d` moved onto the day of `day`, seconds cleared. */
  function WithDay(d: DateTime, day: DateTime): (r: DateTime)
    ensures DayOf(r) == DayOf(day) && TimeOf(r) == TimeOf(d) && r.second == 0
    ensures ValidDateTime(d) && ValidDateTime(day) ==> ValidDateTime(r)
  {
    DateTime(day.year, day.month0, day.day, d.hour, d.minute, 0)
  }

  /** `new Date(d.getFullYear(), d.getMonth(), d.getDate(), 0, 0, 0)`. */
  function StartOfDay(d: DateTime): (r: DateTime)
    ensures DayOf(r) == DayOf(d) && TimeOf(r) == Time(0, 0) && r.second == 0
    ensures ValidDateTime(d) ==> ValidDateTime(r)
  {
    WithTime(d, Time(0, 0))
  }

  /** Setting the same time twice is setting it once. */
  lemma WithTimeIdempotent(d: DateTime, t: Time)
    ensures WithTime(WithTime(d, t), t) == WithTime(d, t)
  {
  }

  /** Editing the day and editing the time act on disjoint fields, so their order does not matter. */
  lemma WithTimeWithDayCommute(d: DateTime, t: Time, day: DateTime)
    ensures WithDay(WithTime(d, t), day) == WithTime(WithDay(d, day), t)
  {
  }

  /** A timestamp whose seconds are clear is its day at its own time. */
  lemma WithTimeOfSelf(d: DateTime)
    requires d.second == 0
    ensures WithTime(d, TimeOf(d)) == d
  {
  }

  /** Chronological order of two Dates (`a < b` on their time values), field by field. */
  predicate Before(a: DateTime, b: DateTime) {
    a.year < b.year || (a.year == b.year &&
    (a.month0 < b.month0 || (a.month0 == b.month0 &&
    (a.day < b.day || (a.day == b.day &&
    (a.hour < b.hour || (a.hour == b.hour &&
    (a.minute < b.minute || (a.minute == b.minute && a.second < b.second)))))))))
  }

  /** Calendar-day order. */
  predicate DayBefore(a: Day, b: Day) {
    a.year < b.year || (a.year == b.year &&
    (a.month0 < b.month0 || (a.month0 == b.month0 && a.day < b.day)))
  }
}
