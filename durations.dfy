/**
 * Elapsed treatment months, `calculateMonths`, in its three copies:
 * Reports.tsx (undeterminable shown as `'-'`), Dashboard.tsx (undeterminable
 * counted as 0) and CaseList.tsx (a discharged case without a discharge date
 * is measured up to "now"). "Now" is a parameter.
 */
module Durations {
  import opened Options
  import opened Strings
  import opened Dates
  import Cases

  /** A duration cell: a whole number of months, or `'-'` when it cannot be computed. */
  datatype Duration = Months(count: nat) | Undetermined

  /** A month counted from year zero, so that month differences are index differences. */
  function MonthIndex(ym: YearMonth): int {
    ym.year * 12 + ym.month
  }

  /** `months < 0 ? 0 : months` with `months = (ey - sy) * 12 + (em - sm)`. */
  function MonthsBetween(start: YearMonth, end: YearMonth): (n: nat)
    ensures MonthIndex(start) <= MonthIndex(end) ==> n == MonthIndex(end) - MonthIndex(start)
    ensures MonthIndex(end) <= MonthIndex(start) ==> n == 0
  {
    var months := (end.year - start.year) * 12 + (end.month - start.month);
    if months < 0 then 0 else months
  }

  /** The same month, however written, is zero months apart. */
  lemma MonthsBetweenSameMonth(a: YearMonth, b: YearMonth)
    requires MonthIndex(a) == MonthIndex(b)
    ensures MonthsBetween(a, b) == 0
  {
  }

  /** Durations add up across an intermediate month, and never decrease as the end moves later. */
  lemma MonthsBetweenAdditive(a: YearMonth, b: YearMonth, c: YearMonth)
    requires MonthIndex(a) <= MonthIndex(b) <= MonthIndex(c)
    ensures MonthsBetween(a, c) == MonthsBetween(a, b) + MonthsBetween(b, c)
    ensures MonthsBetween(a, b) <= MonthsBetween(a, c)
  {
  }

  /** `status === CaseStatus.BAJA && endStr`: discharged and a non-empty end date is given. */
  predicate HasEnd(endStr: Option<string>) {
    endStr.Some? && endStr.value != ""
  }

  /** Reports.tsx `calculateMonths`. */
  function ReportsMonths(startStr: string, endStr: Option<string>, status: string, now: CalendarMonth,
                         parse: DateParser): (r: Duration)
    ensures r.Undetermined? <==>
      || startStr == ""
      || YearMonthOf(startStr, parse).None?
      || (status == Cases.BAJA && (!HasEnd(endStr) || YearMonthOf(endStr.value, parse).None?))
    ensures r.Months? && status == Cases.BAJA ==>
      r.count == MonthsBetween(YearMonthOf(startStr, parse).value, YearMonthOf(endStr.value, parse).value)
    ensures r.Months? && status != Cases.BAJA ==>
      r.count == MonthsBetween(YearMonthOf(startStr, parse).value, now)
  {
    if startStr == "" then Undetermined
    else
      match YearMonthOf(startStr, parse)
      case None => Undetermined
      case Some(start) =>
        var end: Option<YearMonth> :=
          if status == Cases.BAJA && HasEnd(endStr) then YearMonthOf(endStr.value, parse)
          else if status != Cases.BAJA then Some(now)
          else None;
        match end
        case None => Undetermined
        case Some(e) => Months(MonthsBetween(start, e))
  }

  /** Dashboard.tsx `calculateMonths`: the Reports computation with every `'-'` replaced by 0. */
  function DashboardMonths(startStr: string, endStr: Option<string>, status: string, now: CalendarMonth,
                           parse: DateParser): (n: nat)
    ensures ReportsMonths(startStr, endStr, status, now, parse).Undetermined? ==> n == 0
    ensures ReportsMonths(startStr, endStr, status, now, parse).Months? ==>
      n == ReportsMonths(startStr, endStr, status, now, parse).count
  {
    match ReportsMonths(startStr, endStr, status, now, parse)
    case Months(k) => k
    case Undetermined => 0
  }

  /** CaseList.tsx `calculateMonths`: no empty-start check, and the end is "now" unless a discharge date is given. */
  function CaseListMonths(start: string, end: Option<string>, status: string, now: CalendarMonth,
                          parse: DateParser): (r: Duration)
    ensures r.Undetermined? <==>
      YearMonthOf(start, parse).None? || (status == Cases.BAJA && HasEnd(end) && YearMonthOf(end.value, parse).None?)
    ensures r.Months? && status == Cases.BAJA && HasEnd(end) ==>
      r.count == MonthsBetween(YearMonthOf(start, parse).value, YearMonthOf(end.value, parse).value)
    ensures r.Months? && !(status == Cases.BAJA && HasEnd(end)) ==>
      r.count == MonthsBetween(YearMonthOf(start, parse).value, now)
  {
    match YearMonthOf(start, parse)
    case None => Undetermined
    case Some(s) =>
      var e := if status == Cases.BAJA && HasEnd(end) then YearMonthOf(end.value, parse) else Some(now);
      match e
      case None => Undetermined
      case Some(e) => Months(MonthsBetween(s, e))
  }

  /**
   * Where the Reports and CaseList copies disagree: a discharged case with no
   * discharge date is `'-'` in Reports and runs up to "now" in CaseList.
   * Everywhere else (start given, not that case) they agree.
   */
  lemma ReportsAndCaseListDiverge(start: string, end: Option<string>, status: string, now: CalendarMonth,
                                  parse: DateParser)
    ensures status == Cases.BAJA && !HasEnd(end) && YearMonthOf(start, parse).Some? ==>
      && ReportsMonths(start, end, status, now, parse) == Undetermined
      && CaseListMonths(start, end, status, now, parse) == Months(MonthsBetween(YearMonthOf(start, parse).value, now))
    ensures start != "" && !(status == Cases.BAJA && !HasEnd(end)) ==>
      ReportsMonths(start, end, status, now, parse) == CaseListMonths(start, end, status, now, parse)
  {
  }

  /** An active case measured against "now" in the same month as its start is zero months old. */
  lemma ActiveCaseSameMonth(start: string, end: Option<string>, status: string, now: CalendarMonth, parse: DateParser)
    requires status != Cases.BAJA && start != ""
    requires YearMonthOf(start, parse).Some? && MonthIndex(YearMonthOf(start, parse).value) == MonthIndex(now)
    ensures ReportsMonths(start, end, status, now, parse) == Months(0)
    ensures CaseListMonths(start, end, status, now, parse) == Months(0)
    ensures DashboardMonths(start, end, status, now, parse) == 0
  {
  }

  /**
   * CaseList.tsx has no empty-start check of its own; an empty start is
   * still `'-'` there because `new Date('')` is an invalid date.
   */
  lemma CaseListEmptyStartUndetermined(end: Option<string>, status: string, now: CalendarMonth, parse: DateParser)
    requires parse("") == None
    ensures CaseListMonths("", end, status, now, parse) == Undetermined
    ensures ReportsMonths("", end, status, now, parse) == Undetermined
  {
  }
}
