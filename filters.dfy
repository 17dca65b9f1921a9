/**
 * The three filter engines: Reports.tsx `filteredData`, Dashboard.tsx
 * `filteredCases` and CaseList.tsx `filteredCases`. Each keeps, in order,
 * the cases that satisfy a conjunction of optional predicates.
 */
module Filters {
  import opened Options
  import opened Strings
  import opened Seqs
  import opened Cases
  import opened Dates

  /** The wildcard values of the select boxes. */
  const TODOS: string := "Todos"
  const TODAS: string := "Todas"

  /** `(!filterStart || caseDate >= filterStart) && (!filterEnd || caseDate <= filterEnd)` on strings. */
  predicate InDateRange(caseDate: string, filterStart: string, filterEnd: string) {
    (filterStart == "" || Le(filterStart, caseDate)) && (filterEnd == "" || Le(caseDate, filterEnd))
  }

  /** A case without a usable enrolment date fails every range with a start bound. */
  lemma UndatedFailsStartBound(filterStart: string, filterEnd: string)
    requires filterStart != ""
    ensures !InDateRange("", filterStart, filterEnd)
  {
  }

  /** A case without a usable enrolment date passes every range with only an end bound. */
  lemma UndatedPassesEndBound(filterEnd: string)
    ensures InDateRange("", "", filterEnd)
  {
  }

  /** On canonical tokens the range test is the chronological test on (year, month). */
  lemma InDateRangeIsChronological(caseDate: string, filterStart: string, filterEnd: string)
    requires IsCanonical(caseDate) && IsCanonical(filterStart) && IsCanonical(filterEnd)
    ensures InDateRange(caseDate, filterStart, filterEnd) <==>
      && (CanonicalYear(filterStart) < CanonicalYear(caseDate)
          || (CanonicalYear(filterStart) == CanonicalYear(caseDate) && CanonicalMonth(filterStart) <= CanonicalMonth(caseDate)))
      && (CanonicalYear(caseDate) < CanonicalYear(filterEnd)
          || (CanonicalYear(caseDate) == CanonicalYear(filterEnd) && CanonicalMonth(caseDate) <= CanonicalMonth(filterEnd)))
  {
    CanonicalOrderIsChronological(filterStart, caseDate);
    CanonicalOrderIsChronological(caseDate, filterEnd);
  }

  // ---------------------------------------------------------------------
  // Reports.tsx
  // ---------------------------------------------------------------------

  /** The `filters` state of the report generator. */
  datatype ReportFilters = ReportFilters(
    startDate: string, endDate: string, status: string, ciudad: string,
    institucion: string, medico: string, aseguradora: string)

  /** `(value || '').toLowerCase().trim() === wanted.toLowerCase().trim()`. */
  predicate LooseEquals(value: string, wanted: string) {
    Trim(Lower(value)) == Trim(Lower(wanted))
  }

  /** The six conjuncts of Reports.tsx `filteredData`. */
  predicate ReportKeeps(c: PatientCase, f: ReportFilters, parse: DateParser) {
    && InDateRange(NormalizeDate(Some(c.fechaIngreso), parse),
                   NormalizeDate(Some(f.startDate), parse), NormalizeDate(Some(f.endDate), parse))
    && (f.status == TODOS || c.status == f.status)
    && (f.ciudad == TODAS || LooseEquals(c.ciudad, f.ciudad))
    && (f.institucion == TODAS || LooseEquals(c.institucion, f.institucion))
    && (f.medico == TODOS || LooseEquals(c.medico, f.medico))
    && (f.aseguradora == TODAS || LooseEquals(c.aseguradora, f.aseguradora))
  }

  /** Reports.tsx `filteredData`. */
  function ReportFilter(cases: seq<PatientCase>, f: ReportFilters, parse: DateParser): (r: seq<PatientCase>)
    ensures IsSubsequence(r, cases)
    ensures forall c :: c in r <==> c in cases && ReportKeeps(c, f, parse)
    ensures forall c :: multiset(r)[c] == if ReportKeeps(c, f, parse) then multiset(cases)[c] else 0
  {
    Filter(c => ReportKeeps(c, f, parse), cases)
  }

  /** The initial report filters (no dates, every select on its wildcard) keep every case. */
  lemma ReportWildcardsKeepAll(cases: seq<PatientCase>, parse: DateParser)
    ensures ReportFilter(cases, ReportFilters("", "", TODOS, TODAS, TODAS, TODOS, TODAS), parse) == cases
  {
    FilterKeepsAll(c => ReportKeeps(c, ReportFilters("", "", TODOS, TODAS, TODAS, TODOS, TODAS), parse), cases);
  }

  /** City, institution, doctor and insurer are compared up to case and surrounding white space. */
  lemma ReportCityIgnoresCaseAndSpace(c: PatientCase, f: ReportFilters, parse: DateParser, city: string)
    requires f.ciudad != TODAS && LooseEquals(city, c.ciudad)
    ensures ReportKeeps(c, f, parse) == ReportKeeps(c.(ciudad := city), f, parse)
  {
  }

  // ---------------------------------------------------------------------
  // Dashboard.tsx
  // ---------------------------------------------------------------------

  /** The `filters` state of the dashboard. */
  datatype DashboardFilters = DashboardFilters(
    startDate: string, endDate: string, sector: string, status: string, pjs: string, aseguradora: string)

  /** The five conjuncts of Dashboard.tsx `filteredCases`: exact, case-sensitive equality or the wildcard. */
  predicate DashboardKeeps(c: PatientCase, f: DashboardFilters, parse: DateParser) {
    && InDateRange(NormalizeDate(Some(c.fechaIngreso), parse),
                   NormalizeDate(Some(f.startDate), parse), NormalizeDate(Some(f.endDate), parse))
    && (f.sector == TODOS || c.sector == f.sector)
    && (f.status == TODOS || c.status == f.status)
    && (f.pjs == TODOS || c.pjs == f.pjs)
    && (f.aseguradora == TODAS || c.aseguradora == f.aseguradora)
  }

  /** Dashboard.tsx `filteredCases`. */
  function DashboardFilter(cases: seq<PatientCase>, f: DashboardFilters, parse: DateParser): (r: seq<PatientCase>)
    ensures IsSubsequence(r, cases)
    ensures forall c :: c in r <==> c in cases && DashboardKeeps(c, f, parse)
    ensures forall c :: multiset(r)[c] == if DashboardKeeps(c, f, parse) then multiset(cases)[c] else 0
  {
    Filter(c => DashboardKeeps(c, f, parse), cases)
  }

  /** The initial dashboard filters keep every case. */
  lemma DashboardWildcardsKeepAll(cases: seq<PatientCase>, parse: DateParser)
    ensures DashboardFilter(cases, DashboardFilters("", "", TODOS, TODOS, TODOS, TODAS), parse) == cases
  {
    FilterKeepsAll(c => DashboardKeeps(c, DashboardFilters("", "", TODOS, TODOS, TODOS, TODAS), parse), cases);
  }

  /** Narrowing one select and then another gives the same cases in either order. */
  lemma DashboardSelectsCommute(cases: seq<PatientCase>, f: DashboardFilters, parse: DateParser)
    ensures
      var bySector := (c: PatientCase) => f.sector == TODOS || c.sector == f.sector;
      var byStatus := (c: PatientCase) => f.status == TODOS || c.status == f.status;
      Filter(bySector, Filter(byStatus, cases)) == Filter(byStatus, Filter(bySector, cases))
  {
    var bySector := (c: PatientCase) => f.sector == TODOS || c.sector == f.sector;
    var byStatus := (c: PatientCase) => f.status == TODOS || c.status == f.status;
    FilterCommutes(bySector, byStatus, cases);
  }

  // ---------------------------------------------------------------------
  // CaseList.tsx
  // ---------------------------------------------------------------------

  /** `(c.pjs || '').toLowerCase().includes(term.toLowerCase()) || (c.medico || '')... || c.id.includes(term)`. */
  predicate MatchesSearch(c: PatientCase, term: string) {
    || Contains(Lower(c.pjs), Lower(term))
    || Contains(Lower(c.medico), Lower(term))
    || Contains(c.id, term)
  }

  /** `String(c[key] || '')`: the text of a column, `''` for an absent field or an unknown key. */
  function ColumnText(c: PatientCase, key: string): string {
    match FieldNamed(key)
    case None => ""
    case Some(f) => FieldOf(c, f).GetOr("")
  }

  /** `Object.entries(filters).every(([key, value]) => !value || String(c[key] || '') === value)`. */
  predicate MatchesColumns(c: PatientCase, filters: map<string, string>) {
    forall key | key in filters :: filters[key] == "" || ColumnText(c, key) == filters[key]
  }

  predicate CaseListKeeps(c: PatientCase, term: string, filters: map<string, string>) {
    MatchesSearch(c, term) && MatchesColumns(c, filters)
  }

  /** CaseList.tsx `filteredCases`. */
  function CaseListFilter(cases: seq<PatientCase>, term: string, filters: map<string, string>): (r: seq<PatientCase>)
    ensures IsSubsequence(r, cases)
    ensures forall c :: c in r <==> c in cases && CaseListKeeps(c, term, filters)
    ensures forall c :: multiset(r)[c] == if CaseListKeeps(c, term, filters) then multiset(cases)[c] else 0
  {
    Filter(c => CaseListKeeps(c, term, filters), cases)
  }

  /** The search matches exactly when the term occurs in the lower-cased PJS or doctor, or in the id as typed. */
  lemma MatchesSearchIff(c: PatientCase, term: string)
    ensures MatchesSearch(c, term) <==>
      ((exists i :: OccursAt(Lower(c.pjs), Lower(term), i))
       || (exists i :: OccursAt(Lower(c.medico), Lower(term), i))
       || (exists i :: OccursAt(c.id, term, i)))
  {
    ContainsIff(Lower(c.pjs), Lower(term));
    ContainsIff(Lower(c.medico), Lower(term));
    ContainsIff(c.id, term);
    assert MatchesSearch(c, term) <==>
      Contains(Lower(c.pjs), Lower(term)) || Contains(Lower(c.medico), Lower(term)) || Contains(c.id, term);
  }

  /** Filter values left empty impose nothing. */
  lemma EmptyColumnFiltersImposeNothing(c: PatientCase, filters: map<string, string>)
    requires forall key | key in filters :: filters[key] == ""
    ensures MatchesColumns(c, filters)
  {
  }

  /** A non-empty filter on a key that names no field rejects every case. */
  lemma UnknownColumnRejects(c: PatientCase, filters: map<string, string>, key: string)
    requires key in filters && filters[key] != "" && FieldNamed(key).None?
    ensures !MatchesColumns(c, filters)
  {
  }

  /** An empty search and no column filters show every case. */
  lemma CaseListInitialKeepsAll(cases: seq<PatientCase>)
    ensures CaseListFilter(cases, "", map[]) == cases
  {
    forall c | c in cases ensures CaseListKeeps(c, "", map[]) {
      ContainsEmpty(c.id);
    }
    FilterKeepsAll(c => CaseListKeeps(c, "", map[]), cases);
  }
}
