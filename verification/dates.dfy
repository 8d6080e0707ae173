/** Date-range primitives of src/common/date-utils.ts.

    The services receive dates as `YYYY-MM-DD` strings, which `new Date(..)`
    reads as UTC midnight. A date is therefore modelled by its day ordinal
    (days since 1970-01-01); `getTime()` of that date is the ordinal times the
    number of milliseconds in a day. */
module Dates {

  type Day = int

  const MsPerDay: int := 24 * 60 * 60 * 1000

  /** `new Date(d).getTime()` for a date-only value at UTC midnight. */
  function EpochMillis(d: Day): int {
    d * MsPerDay
  }

  /** JavaScript's `Math.round` on a finite value: halves round up. */
  function MathRound(x: real): int {
    (x + 0.5).Floor
  }

  /** `rangesOverlap`: the millisecond comparison of the source. The contract
      says that it is exactly closed-interval overlap on days. */
  predicate RangesOverlap(startA: Day, endA: Day, startB: Day, endB: Day)
    ensures RangesOverlap(startA, endA, startB, endB) <==> startA <= endB && startB <= endA
  {
    EpochMillis(startA) <= EpochMillis(endB) && EpochMillis(startB) <= EpochMillis(endA)
  }

  /** `diffInDays`: the rounded quotient of the millisecond difference. The
      contract says that it is the exact number of days from `start` to `end`. */
  function DiffInDays(start: Day, end: Day): (r: int)
    ensures start + r == end
  {
    var delta := (EpochMillis(end) - EpochMillis(start)) as real / MsPerDay as real;
    assert delta == (end - start) as real by {
      assert EpochMillis(end) - EpochMillis(start) == (end - start) * MsPerDay;
    }
    MathRound(delta)
  }

  /** The range check every service performs before reading the store. */
  lemma DiffPositiveIffBefore(start: Day, end: Day)
    ensures DiffInDays(start, end) > 0 <==> start < end
  {
  }

  lemma DiffInDaysAntisymmetric(a: Day, b: Day)
    ensures DiffInDays(a, a) == 0
    ensures DiffInDays(a, b) == -DiffInDays(b, a)
  {
  }

  lemma OverlapSymmetric(startA: Day, endA: Day, startB: Day, endB: Day)
    ensures RangesOverlap(startA, endA, startB, endB) == RangesOverlap(startB, endB, startA, endA)
  {
  }

  /** Closed intervals: a range ending on the day another starts overlaps it. */
  lemma TouchingRangesOverlap(startA: Day, endA: Day, endB: Day)
    requires startA <= endA <= endB
    ensures RangesOverlap(startA, endA, endA, endB)
  {
  }

  lemma NonEmptyRangeOverlapsItself(start: Day, end: Day)
    requires start <= end
    ensures RangesOverlap(start, end, start, end)
  {
  }

  /** Two ranges are disjoint exactly when one ends strictly before the other starts. */
  lemma DisjointIffSeparated(startA: Day, endA: Day, startB: Day, endB: Day)
    ensures !RangesOverlap(startA, endA, startB, endB) <==> endA < startB || endB < startA
  {
  }

  /** Ordinal of a proleptic Gregorian calendar date, 1970-01-01 being day 0.
      It stands for what `new Date('YYYY-MM-DD')` denotes, so that the
      repository's examples can be stated with calendar dates. */
  function DayNumber(year: int, month: int, day: int): (r: Day)
    requires 1 <= month <= 12 && 1 <= day <= 31
  {
    var y := if month <= 2 then year - 1 else year;
    var era := y / 400;
    var yoe := y - era * 400;
    var mp := if month > 2 then month - 3 else month + 9;
    var doy := (153 * mp + 2) / 5 + day - 1;
    var doe := yoe * 365 + yoe / 4 - yoe / 100 + doy;
    era * 146097 + doe - 719468
  }

  /** Within a month, consecutive calendar days have consecutive ordinals. */
  lemma NextDayInMonth(year: int, month: int, day: int)
    requires 1 <= month <= 12 && 1 <= day < 31
    ensures DayNumber(year, month, day + 1) == DayNumber(year, month, day) + 1
  {
  }

  /** The examples of the date-utils tests, on calendar dates. */
  lemma DateExamples()
    ensures DayNumber(1970, 1, 1) == 0
    ensures DayNumber(2024, 2, 1) == DayNumber(2024, 1, 31) + 1
    ensures DayNumber(2024, 3, 1) == DayNumber(2024, 2, 29) + 1
    ensures RangesOverlap(DayNumber(2024, 1, 1), DayNumber(2024, 1, 5), DayNumber(2024, 1, 4), DayNumber(2024, 1, 10))
    ensures !RangesOverlap(DayNumber(2024, 1, 1), DayNumber(2024, 1, 5), DayNumber(2024, 1, 6), DayNumber(2024, 1, 10))
    ensures RangesOverlap(DayNumber(2024, 1, 1), DayNumber(2024, 1, 5), DayNumber(2024, 1, 5), DayNumber(2024, 1, 10))
    ensures DiffInDays(DayNumber(2024, 1, 1), DayNumber(2024, 1, 2)) == 1
    ensures DiffInDays(DayNumber(2024, 1, 1), DayNumber(2024, 1, 5)) == 4
  {
  }
}
