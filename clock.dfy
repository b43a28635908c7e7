/** Wall-clock values as Python's `datetime` holds them: a calendar date
    and a local date-time with microseconds. Calendar arithmetic is not
    modelled; only the fields are. */
module Clock {

  /** `datetime.date`. */
  datatype Date = Date(year: nat, month: nat, day: nat)

  /** `datetime.datetime` (naive, local time). */
  datatype DateTime = DateTime(year: nat, month: nat, day: nat,
                               hour: nat, minute: nat, second: nat, microsecond: nat)
  {
    /** The range `datetime` enforces on each field (the day is only
        bounded by 31; month lengths are not modelled). */
    predicate Valid() {
      && 1 <= year <= 9999 && 1 <= month <= 12 && 1 <= day <= 31
      && hour < 24 && minute < 60 && second < 60 && microsecond < 1000000
    }

    /** `now.date()`. */
    function Day(): Date
    {
      Date(year, month, day)
    }
  }
}
