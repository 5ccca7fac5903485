/** Instants, the local-time calendar and the "current time", all of which
    the source takes from the runtime (`new Date(...)`, `getFullYear()`,
    `getHours()`, ...). Here they are parameters. */
module LocalClock {
  import opened Wrappers

  const SecondMs: nat := 1000
  const MinuteMs: nat := 60 * SecondMs
  const HourMs: nat := 60 * MinuteMs
  const DayMs: nat := 24 * HourMs

  /** The largest magnitude of a valid `Date` time value, in milliseconds. */
  const MaxTimeMs: nat := 8640000000000000

  /** Calendar fields in local time, with the month counted from 0 as
      `Date` does. */
  datatype LocalFields = LocalFields(
    year: int, month0: int, day: int, hours: int, minutes: int, seconds: int)

  /** The local-time behaviour of the runtime:
      `makeLocal` is `new Date(y, m0, d, h, mi, s)` (None for an invalid
      `Date`; out-of-range fields roll over as the runtime decides), and
      `fieldsOf` is `getFullYear()`, `getMonth()`, ... of an instant. */
  datatype Calendar = Calendar(
    makeLocal: LocalFields -> Option<int>,
    fieldsOf: int -> LocalFields)

  /** The calendar reads back the fields it was built from; this is the case
      for in-range fields outside a daylight-saving gap. */
  ghost predicate ReadsBack(cal: Calendar, f: LocalFields) {
    match cal.makeLocal(f)
    case Some(t) => cal.fieldsOf(t) == f
    case None => true
  }

  function YearOf(cal: Calendar, t: int): int {
    cal.fieldsOf(t).year
  }

  /** `new Date(ms)`: a time value beyond the representable range gives an
      invalid `Date`. */
  function FromEpochMs(ms: int): (r: Option<int>)
    ensures r.Some? <==> -(MaxTimeMs as int) <= ms <= MaxTimeMs
    ensures r.Some? ==> r.value == ms
  {
    if -(MaxTimeMs as int) <= ms <= MaxTimeMs then Some(ms) else None
  }

  function AbsDiff(a: int, b: int): (d: nat)
    ensures a - b <= d && b - a <= d
    ensures d == a - b || d == b - a
  {
    if a >= b then a - b else b - a
  }
}
