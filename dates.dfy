/**
 * Year-month date normalisation. Four components carry their own copy of
 * the same normaliser (Reports and Dashboard `normalizeDate`, CaseList
 * `normalizeDateForDisplay`, CaseForm `cleanDate`); they share the anchored
 * pattern `^(\d{4})[-/](\d{1,2})` and a fallback through `new Date(str)`, and
 * differ only in what they return when there is no date to show.
 */
module Dates {
  import opened Options
  import opened Strings

  /** A year and a month number; the month is whatever the text said, so `2025/13` has month 13. */
  datatype YearMonth = YearMonth(year: int, month: int)

  /** What a valid JavaScript `Date` reports: `getFullYear()` and `getMonth() + 1`. */
  type CalendarMonth = ym: YearMonth | 1 <= ym.month <= 12 witness YearMonth(1970, 1)

  /**
   * `new Date(str)` read back as a calendar month, `None` when the date is
   * invalid (`isNaN(d.getTime())`). JavaScript's date parsing is a parameter
   * of the model.
   */
  type DateParser = string -> Option<CalendarMonth>

  /** The two groups captured by `/^(\d{4})[-/](\d{1,2})/`. */
  datatype YearMonthMatch = YearMonthMatch(year: string, month: string)

  /** `str.match(/^(\d{4})[-/](\d{1,2})/)`: anchored at the start, greedy on the month, trailing text ignored. */
  function MatchYearMonth(s: string): (m: Option<YearMonthMatch>)
    ensures m.Some? <==> |s| >= 6 && AllDigits(s[..4]) && (s[4] == '-' || s[4] == '/') && IsDigit(s[5])
    ensures m.Some? ==> |m.value.year| == 4 && AllDigits(m.value.year) && 1 <= |m.value.month| <= 2 && AllDigits(m.value.month)
    ensures m.Some? ==>
      && m.value.year == s[..4]
      && 5 + |m.value.month| <= |s| && m.value.month == s[5..5 + |m.value.month|]
      && (|m.value.month| == 1 <==> (|s| == 6 || !IsDigit(s[6])))
  {
    if |s| >= 6 && AllDigits(s[..4]) && (s[4] == '-' || s[4] == '/') && IsDigit(s[5]) then
      Some(YearMonthMatch(s[..4], if |s| >= 7 && IsDigit(s[6]) then s[5..7] else s[5..6]))
    else None
  }

  /** `${year}/${month.padStart(2, '0')}` for a pattern match. */
  function Canonical(m: YearMonthMatch): string {
    m.year + "/" + PadStart2(m.month)
  }

  /** `${d.getFullYear()}/${String(d.getMonth() + 1).padStart(2, '0')}` for the fallback. */
  function RenderCalendar(d: CalendarMonth): string {
    IntToString(d.year) + "/" + PadStart2(NatToString(d.month))
  }

  /** The canonical token `YYYY/MM`: four digits, a slash, two digits. */
  predicate IsCanonical(t: string) {
    |t| == 7 && AllDigits(t[..4]) && t[4] == '/' && AllDigits(t[5..])
  }

  function CanonicalYear(t: string): nat
    requires IsCanonical(t)
  {
    DigitsValue(t[..4])
  }

  function CanonicalMonth(t: string): nat
    requires IsCanonical(t)
  {
    DigitsValue(t[5..])
  }

  /** The pattern, then the `Date` fallback, on an already trimmed string. */
  function Recognize(str: string, parse: DateParser): Option<string> {
    match MatchYearMonth(str)
    case Some(m) => Some(Canonical(m))
    case None =>
      match parse(str)
      case Some(d) => Some(RenderCalendar(d))
      case None => None
  }

  /** `!dateStr || dateStr === '-'`: absent, empty or the placeholder dash. */
  predicate IsBlank(raw: Option<string>) {
    raw.None? || raw.value == "" || raw.value == "-"
  }

  /** Neither the pattern nor the `Date` fallback recognises the trimmed text. */
  predicate Unrecognised(raw: Option<string>, parse: DateParser)
    requires raw.Some?
  {
    MatchYearMonth(Trim(raw.value)).None? && parse(Trim(raw.value)).None?
  }

  /** Zero-padding a one- or two-digit month does not change its number. */
  lemma PaddedMonthValue(m: string)
    requires 1 <= |m| <= 2 && AllDigits(m)
    ensures |PadStart2(m)| == 2 && AllDigits(PadStart2(m))
    ensures DigitsValue(PadStart2(m)) == DigitsValue(m)
  {
    if |m| == 1 {
      assert ("0" + m)[1..] == m;
    }
  }

  /** A pattern match renders as a canonical token carrying the captured year and month numbers. */
  lemma CanonicalOfMatch(m: YearMonthMatch)
    requires |m.year| == 4 && AllDigits(m.year) && 1 <= |m.month| <= 2 && AllDigits(m.month)
    ensures IsCanonical(Canonical(m))
    ensures CanonicalYear(Canonical(m)) == DigitsValue(m.year)
    ensures CanonicalMonth(Canonical(m)) == DigitsValue(m.month)
  {
    PaddedMonthValue(m.month);
    var t := Canonical(m);
    assert t[..4] == m.year;
    assert t[5..] == PadStart2(m.month);
  }

  /**
   * Reports.tsx and Dashboard.tsx `normalizeDate`: `''` when there is no
   * date, the canonical token of a pattern match, the fallback's month, and
   * `''` again when nothing recognises the text.
   */
  function NormalizeDate(raw: Option<string>, parse: DateParser): (r: string)
    ensures IsBlank(raw) ==> r == ""
    ensures r == "" <==> IsBlank(raw) || Unrecognised(raw, parse)
    ensures !IsBlank(raw) && MatchYearMonth(Trim(raw.value)).Some? ==>
      var m := MatchYearMonth(Trim(raw.value)).value;
      IsCanonical(r) && CanonicalYear(r) == DigitsValue(m.year) && CanonicalMonth(r) == DigitsValue(m.month)
    ensures !IsBlank(raw) && MatchYearMonth(Trim(raw.value)).None? && parse(Trim(raw.value)).Some? ==>
      r == RenderCalendar(parse(Trim(raw.value)).value)
  {
    if IsBlank(raw) then ""
    else
      var str := Trim(raw.value);
      if MatchYearMonth(str).Some? then
        CanonicalOfMatch(MatchYearMonth(str).value);
        Canonical(MatchYearMonth(str).value)
      else Recognize(str, parse).GetOr("")
  }

  /** CaseList.tsx `normalizeDateForDisplay`: `'-'` when there is no date, the trimmed text when nothing recognises it. */
  function NormalizeDateForDisplay(raw: Option<string>, parse: DateParser): string {
    if IsBlank(raw) then "-"
    else
      var str := Trim(raw.value);
      Recognize(str, parse).GetOr(str)
  }

  /**
   * CaseForm.tsx `cleanDate`: `''` when there is no date; the pattern is
   * tried on the trimmed text, but the `Date` fallback reads the original
   * text, and the original text is also what comes back when neither works.
   */
  function CleanDate(raw: Option<string>, parse: DateParser): string {
    if IsBlank(raw) then ""
    else
      var str := Trim(raw.value);
      match MatchYearMonth(str)
      case Some(m) => Canonical(m)
      case None =>
        match parse(raw.value)
        case Some(d) => RenderCalendar(d)
        case None => raw.value
  }

  /**
   * The four copies agree on every recognised date. The display copy agrees
   * with `normalizeDate` on all text, and so does `cleanDate` whenever the
   * pattern matches; on trimmed text `cleanDate` agrees everywhere.
   */
  lemma {:induction false} CopiesDifferOnlyWhenUnrecognised(raw: Option<string>, parse: DateParser)
    ensures NormalizeDate(raw, parse) != "" ==> NormalizeDateForDisplay(raw, parse) == NormalizeDate(raw, parse)
    ensures IsBlank(raw) ==> NormalizeDateForDisplay(raw, parse) == "-" && CleanDate(raw, parse) == ""
    ensures !IsBlank(raw) && NormalizeDate(raw, parse) == "" ==> NormalizeDateForDisplay(raw, parse) == Trim(raw.value)
    ensures !IsBlank(raw) && MatchYearMonth(Trim(raw.value)).Some? ==> CleanDate(raw, parse) == NormalizeDate(raw, parse)
    ensures raw.Some? && Trim(raw.value) == raw.value ==>
      && (NormalizeDate(raw, parse) != "" ==> CleanDate(raw, parse) == NormalizeDate(raw, parse))
      && (!IsBlank(raw) && NormalizeDate(raw, parse) == "" ==> CleanDate(raw, parse) == raw.value)
  {
    if !IsBlank(raw) {
      var str := Trim(raw.value);
      var n := NormalizeDate(raw, parse);
      if MatchYearMonth(str).Some? {
        assert n == Canonical(MatchYearMonth(str).value);
      } else if parse(str).Some? {
        assert n == RenderCalendar(parse(str).value);
      } else {
        assert n == "";
      }
    }
  }

  /**
   * Where `cleanDate` parts from `normalizeDate`: text with white space
   * around it that only the `Date` fallback recognises, and only once
   * trimmed, is normalised to its month but loaded into the form as typed.
   */
  lemma CleanDateFallbackDiverges(s: string, parse: DateParser)
    requires !IsBlank(Some(s)) && MatchYearMonth(Trim(s)).None?
    requires parse(Trim(s)).Some? && parse(s).None?
    ensures NormalizeDate(Some(s), parse) == RenderCalendar(parse(Trim(s)).value)
    ensures CleanDate(Some(s), parse) == s
    ensures NormalizeDateForDisplay(Some(s), parse) == NormalizeDate(Some(s), parse)
  {
  }

  /** Parsing a canonical token with the pattern gives back its two halves. */
  lemma MatchOfCanonical(t: string)
    requires IsCanonical(t)
    ensures Trim(t) == t
    ensures MatchYearMonth(t) == Some(YearMonthMatch(t[..4], t[5..]))
    ensures Canonical(YearMonthMatch(t[..4], t[5..])) == t
  {
    TrimOfTrimmed(t);
    assert t[5..7] == t[5..];
    assert t == t[..4] + "/" + t[5..];
  }

  /** Normalising a canonical token returns it unchanged, whatever the `Date` fallback does. */
  lemma NormalizeCanonical(t: string, parse: DateParser)
    requires IsCanonical(t)
    ensures NormalizeDate(Some(t), parse) == t
    ensures NormalizeDateForDisplay(Some(t), parse) == t
    ensures CleanDate(Some(t), parse) == t
  {
    MatchOfCanonical(t);
  }

  /** `normalizeDate` is idempotent on every output that is empty or canonical (every pattern-path output is). */
  lemma NormalizeIdempotent(raw: Option<string>, parse: DateParser)
    requires var r := NormalizeDate(raw, parse); r == "" || IsCanonical(r)
    ensures NormalizeDate(Some(NormalizeDate(raw, parse)), parse) == NormalizeDate(raw, parse)
  {
    var r := NormalizeDate(raw, parse);
    if r != "" { NormalizeCanonical(r, parse); }
  }

  /** A fallback date in a four-digit year also renders canonically. */
  lemma RenderCalendarCanonical(d: CalendarMonth)
    requires 1000 <= d.year <= 9999
    ensures IsCanonical(RenderCalendar(d))
    ensures CanonicalYear(RenderCalendar(d)) == d.year && CanonicalMonth(RenderCalendar(d)) == d.month
  {
    var y, m := NatToString(d.year), NatToString(d.month);
    NatToStringLength4(d.year);
    NatToStringValue(d.year);
    NatToStringValue(d.month);
    assert |m| <= 2 by { if d.month >= 10 { assert m == NatToString(d.month / 10) + [DigitChar(d.month % 10)]; } }
    PaddedMonthValue(m);
    var t := RenderCalendar(d);
    assert t[..4] == y && t[5..] == PadStart2(m);
  }

  lemma NatToStringLength4(n: nat)
    requires 1000 <= n <= 9999
    ensures |NatToString(n)| == 4
  {
    assert NatToString(n) == NatToString(n / 10) + [DigitChar(n % 10)];
    assert NatToString(n / 10) == NatToString(n / 100) + [DigitChar(n / 10 % 10)];
    assert NatToString(n / 100) == NatToString(n / 1000) + [DigitChar(n / 100 % 10)];
  }

  // ---------------------------------------------------------------------
  // getYearMonth / getYM, the parser inside each `calculateMonths`
  // ---------------------------------------------------------------------

  /** `getYearMonth(str)`: the pattern on the text as given (not trimmed), then the `Date` fallback. */
  function YearMonthOf(str: string, parse: DateParser): Option<YearMonth> {
    match MatchYearMonth(str)
    case Some(m) => Some(YearMonth(DigitsValue(m.year), DigitsValue(m.month)))
    case None =>
      match parse(str)
      case Some(d) => Some(d)
      case None => None
  }

  /** A canonical token reads back as the year and month it spells. */
  lemma YearMonthOfCanonical(t: string, parse: DateParser)
    requires IsCanonical(t)
    ensures YearMonthOf(t, parse) == Some(YearMonth(CanonicalYear(t), CanonicalMonth(t)))
  {
    MatchOfCanonical(t);
  }

  /** Normalising a pattern-matching date before computing durations does not move it to another month. */
  lemma NormalizeKeepsYearMonth(s: string, parse: DateParser)
    requires !IsBlank(Some(s)) && MatchYearMonth(Trim(s)).Some?
    ensures YearMonthOf(NormalizeDate(Some(s), parse), parse) == YearMonthOf(Trim(s), parse)
  {
    YearMonthOfCanonical(NormalizeDate(Some(s), parse), parse);
  }

  // ---------------------------------------------------------------------
  // Date-range comparison on canonical tokens
  // ---------------------------------------------------------------------

  lemma DigitsLtIff(a: string, b: string)
    requires |a| == |b| && AllDigits(a) && AllDigits(b)
    ensures Lt(a, b) <==> DigitsValue(a) < DigitsValue(b)
  {
    DigitsOrder(a, b);
    DigitsOrder(b, a);
    if Le(a, b) && Le(b, a) { LeAntisymmetric(a, b); }
  }

  /** String order on canonical tokens is chronological order of (year, month). */
  lemma {:induction false} CanonicalOrderIsChronological(a: string, b: string)
    requires IsCanonical(a) && IsCanonical(b)
    ensures Le(a, b) <==>
      CanonicalYear(a) < CanonicalYear(b) || (CanonicalYear(a) == CanonicalYear(b) && CanonicalMonth(a) <= CanonicalMonth(b))
  {
    assert a == a[..4] + a[4..] && b == b[..4] + b[4..];
    LeConcat(a[..4], a[4..], b[..4], b[4..]);
    DigitsLtIff(a[..4], b[..4]);
    DigitsOrder(a[5..], b[5..]);
    assert a[4..][1..] == a[5..] && b[4..][1..] == b[5..];
    assert Le(a[4..], b[4..]) <==> Le(a[5..], b[5..]);
    if CanonicalYear(a) == CanonicalYear(b) {
      DigitsOrder(a[..4], b[..4]);
      DigitsOrder(b[..4], a[..4]);
      LeAntisymmetric(a[..4], b[..4]);
    }
  }
}
