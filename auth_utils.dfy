/** Password rotation (src/utils/authUtils.js): a three-way classification of the
    last password change against "six months ago" and "five days ago". */
module AuthUtils {
  import opened Base

  /** The warning window: a change older than five days before now is warned about. */
  const WarningPeriodMs: int := 5 * DayMs

  /** `requiereCambio` and `warning` of the returned record; a record without
      `warning` reads as false. */
  datatype RotationStatus = RotationStatus(requiereCambio: bool, warning: bool)

  /** How pressing a status is: 2 must change, 1 warned, 0 neither. */
  function Severity(r: RotationStatus): nat {
    if r.requiereCambio then 2 else if r.warning then 1 else 0
  }

  /** `checkPasswordRotation`. `sixMonthsAgo` is the calendar instant six months
      before `now` (computed with `setMonth`), assumed to lie before `now` minus
      five days; a missing last change date is `None`. */
  function CheckPasswordRotation(lastChange: Option<Time>, now: Time, sixMonthsAgo: Time): (r: RotationStatus)
    requires sixMonthsAgo < now - WarningPeriodMs
    ensures r.requiereCambio <==> lastChange.None? || lastChange.value < sixMonthsAgo
    ensures r.warning <==> lastChange.Some? && sixMonthsAgo <= lastChange.value < now - WarningPeriodMs
  {
    if lastChange.None? || lastChange.value < sixMonthsAgo then RotationStatus(true, false)
    else if lastChange.value < now - WarningPeriodMs then RotationStatus(false, true)
    else RotationStatus(false, false)
  }

  /** A change required comes without a warning. */
  lemma RequiredChangeIsNotWarned(lastChange: Option<Time>, now: Time, sixMonthsAgo: Time)
    requires sixMonthsAgo < now - WarningPeriodMs
    ensures var r := CheckPasswordRotation(lastChange, now, sixMonthsAgo);
      r.requiereCambio ==> !r.warning
  {
  }

  /** The comparison is strict: a change made exactly six months ago is only warned about. */
  lemma ExactlySixMonthsIsOnlyWarned(now: Time, sixMonthsAgo: Time)
    requires sixMonthsAgo < now - WarningPeriodMs
    ensures CheckPasswordRotation(Some(sixMonthsAgo), now, sixMonthsAgo) == RotationStatus(false, true)
  {
  }

  /** A change within the last five days yields neither a change nor a warning. */
  lemma RecentChangeIsQuiet(t: Time, now: Time, sixMonthsAgo: Time)
    requires sixMonthsAgo < now - WarningPeriodMs
    requires now - WarningPeriodMs <= t
    ensures CheckPasswordRotation(Some(t), now, sixMonthsAgo) == RotationStatus(false, false)
  {
  }

  /** Outcomes are monotone in age: an older change never yields a weaker status,
      and a missing date is the strongest. */
  lemma RotationIsMonotone(older: Time, newer: Time, now: Time, sixMonthsAgo: Time)
    requires sixMonthsAgo < now - WarningPeriodMs
    requires older <= newer
    ensures Severity(CheckPasswordRotation(Some(older), now, sixMonthsAgo))
         >= Severity(CheckPasswordRotation(Some(newer), now, sixMonthsAgo))
    ensures Severity(CheckPasswordRotation(None, now, sixMonthsAgo))
         >= Severity(CheckPasswordRotation(Some(older), now, sixMonthsAgo))
  {
  }
}
