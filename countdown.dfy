/**
 * The countdown's arithmetic: the milliseconds left until the target instant,
 * clamped at zero, shown as whole days and the hours left over.
 * `now` and the target are integer milliseconds since the Unix epoch.
 */
module Countdown {

  /** 2025-12-31T20:00:00+05:30, in milliseconds since the Unix epoch. */
  const TargetDate: int := 1767191400000

  const MsPerMinute: nat := 1000 * 60
  const MsPerHour: nat := 1000 * 60 * 60
  const MsPerDay: nat := 1000 * 60 * 60 * 24

  /**
   * The target is 14:30 UTC (20:00 at +05:30) on day 20453 after the epoch,
   * which is 2025-12-31: 55 years from 1970 with 14 leap days, then 364 days.
   */
  lemma TargetDateIsNewYearsEve()
    ensures TargetDate == (55 * 365 + 14 + 364) * MsPerDay + 14 * MsPerHour + 30 * MsPerMinute
    ensures TargetDate / MsPerDay == 20453 && TargetDate % MsPerDay == 14 * MsPerHour + 30 * MsPerMinute
  {
  }

  /** A day before the app's target the countdown shows one day and zero hours. */
  lemma OneDayBeforeTarget()
    ensures Days(Remaining(TargetDate, TargetDate - MsPerDay)) == 1
    ensures Hours(Remaining(TargetDate, TargetDate - MsPerDay)) == 0
  {
  }

  /** `diff`: `target - now`, but never below zero. */
  function Remaining(target: int, now: int): (diff: nat)
    ensures diff >= target - now
    ensures diff == 0 || diff == target - now
  {
    if target - now < 0 then 0 else target - now
  }

  /** `days`: the number of whole days in `diff`. */
  function Days(diff: nat): (d: nat)
    ensures d * MsPerDay <= diff < (d + 1) * MsPerDay
  {
    diff / MsPerDay
  }

  /** `hours`: the number of whole hours in what is left of `diff` after the whole days. */
  function Hours(diff: nat): (h: nat)
    ensures h < 24
    ensures h * MsPerHour <= diff % MsPerDay < (h + 1) * MsPerHour
  {
    HourSplit(diff);
    (diff / MsPerHour) % 24
  }

  /** Splitting `diff` into hours and then the hours into days is splitting it into days directly. */
  lemma HourSplit(diff: nat)
    ensures diff / MsPerHour / 24 == diff / MsPerDay
    ensures diff % MsPerDay == (diff / MsPerHour % 24) * MsPerHour + diff % MsPerHour
  {
  }

  /** The days and the hours on display add up to the whole hours left. */
  lemma DaysAndHours(diff: nat)
    ensures Days(diff) * 24 + Hours(diff) == diff / MsPerHour
  {
    HourSplit(diff);
  }

  /** Once the target has passed, the countdown shows zero days and zero hours. */
  lemma PastTarget(target: int, now: int)
    requires now >= target
    ensures Days(Remaining(target, now)) == 0 && Hours(Remaining(target, now)) == 0
  {
  }

  /** As time goes on, the number of days shown never grows. */
  lemma DaysNonIncreasing(target: int, earlier: int, later: int)
    requires earlier <= later
    ensures Days(Remaining(target, later)) <= Days(Remaining(target, earlier))
  {
  }
}
