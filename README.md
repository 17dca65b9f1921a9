# OncoTrack case engine in Dafny

OncoTrack is a single-page dashboard that oncology Patient Journey
Specialists use to follow patients' treatment episodes ("cases"). A case has
an id, an enrolment month (`fechaIngreso`), an optional discharge month
(`fechaBaja`), a status (`ACTIVO` or `BAJA`) and eleven free-text
categorical fields: PJS, city, doctor, insurer, sector, institution,
dispensing site, distributor, indication and dose. Nine of the categorical
fields are backed by managed category lists.

This project models the logic of the application component and of the five
screens in Dafny and proves properties about it. The screens are the
dashboard, the case list, the case form, the report generator and the list
settings.

- `Options`: the optional value that stands for `undefined`.
- `Strings`: the JavaScript string primitives the code relies on. These are
  `trim`, `toLowerCase`, `includes`, `padStart`, string comparison,
  `String(n)` and `parseInt`.
- `Seqs`: `filter`, sums over a sequence, and insertion sort by a string key.
- `Cases`: the `PatientCase` record and access to its fields by key.
- `Dates`: the year-month normaliser. Four components carry near-identical
  copies of it; they differ only in what they return when there is no date.
- `Durations`: the three copies of `calculateMonths`.
- `Filters`: the filter engines of the report generator, the dashboard and
  the case list.
- `Aggregates` — the dashboard statistics and the report groupings. These
  are count tables, the KPIs, the average duration, the monthly trend, the
  top five values and the distinct-value lists.
- `CategoryLists`: the Settings list manager, and the fold that syncs the
  category lists with a saved case.
- `AppState`: class `App`, holding the case collection, the lists and the
  modal state. Its handlers load data, add, update and delete cases, and
  update lists. They update state optimistically and roll back when the
  store call fails.
- `FormState`: class `CaseForm`, holding `formData`. Its operations are the
  default state, loading a case for editing, the status rule, the date-input
  formatter and the clean-up on submit.

Three things the code calls are parameters of the model:

- the JavaScript `Date` parser, as `parse: string -> Option<CalendarMonth>`, where `None` is an invalid date;
- the current month, as `now` or `today`;
- the outcome of each store call, as a boolean or a `FetchResult`.

A handler returns the reload it asks for instead of performing it.

The code differs from the system's written design in several places. The
model follows the code each time:

- **Average duration.** The design averages durations only over the cases
  where a duration can be determined. The dashboard divides by every
  filtered case, and a case whose duration cannot be determined adds 0
  (`Aggregates.UndeterminedDilutesAverage`).
- **Discharged case without a discharge date.** The design calls this
  duration undeterminable. That holds in Reports, and the Dashboard counts
  it as 0. CaseList measures such a case up to "now"
  (`Durations.ReportsAndCaseListDiverge`).
- **Discharge date and status.** The design says a discharge date exists
  exactly when the status is `BAJA`. The form only sets `fechaBaja` when the
  status select changes: today's month for `BAJA`, `''` otherwise
  (`FormState.ChangedTouchesOnlyItsFields`). Loaded data is not checked.
- **Categorical filters.** The design compares every categorical filter up
  to case and white space. Only the report generator does that; the
  dashboard compares exactly (`Filters.DashboardKeeps`).
- **Submitting a form.** `handleSubmit` tries the date pattern before it
  trims. On a form value whose date starts with a space, such as
  `" 2024/3"`, it therefore saves `"2024/3"` without the zero pad, and
  submitting the result once more gives `"2024/03"`: the submit step alone is
  not idempotent (`FormState.LeadingSpaceSkipsDateCleanUp`). The form itself
  never holds such a value. The date inputs only go through the formatter,
  which yields digits and `/` alone (`FormState.FormatDateInputUnspaced`);
  `cleanDate` trims before it matches; and the default is this month's
  canonical token.
- **Loading a case into the form.** `cleanDate` tries the pattern on the
  trimmed text. Its `Date` fallback reads the untrimmed text, and so does
  the value it returns when neither works (`Dates.CleanDate`).

## Model

| member | source | states |
|---|---|---|
| Cases.FieldIndex | types.ts:7-22 | every key of `PatientCase` has a position in the key order, and that position holds the key |
| Cases.FieldNamed | types.ts:7-22 | a key string maps back only to the field of that name |
| Cases.FieldNamedOfName | types.ts:7-22 | reading a field's name back gives the same field (round trip) |
| Cases.WithField | components/CaseForm.tsx:45 | `{ ...prev, [name]: value }` sets that one field and leaves every other field as it was |
| Cases.SameFieldsSameCase | types.ts:7-22 | two cases that agree on every key are the same record |
| Strings.Trim | components/Reports.tsx:31 | the result is no longer than the input, and it neither starts nor ends with white space |
| Strings.TrimSlice | components/Reports.tsx:31 | the trimmed text is a slice of the input, and everything cut off on either side is white space |
| Strings.TrimIdempotent | components/Reports.tsx:31 | trimming twice is trimming once |
| Strings.Lower | components/Reports.tsx:76 | `toLowerCase` keeps the length and lower-cases each character independently |
| Strings.ContainsIff | components/CaseList.tsx:71 | `includes` holds exactly when the term occurs at some position |
| Strings.PadStart2 | components/Reports.tsx:35 | `padStart(2, '0')` keeps strings of two or more characters, and puts zeros in front of shorter ones up to length 2 |
| Strings.DigitsOrder | components/Dashboard.tsx:81 | on digit strings of equal length, string order is numeric order |
| Dates.CanonicalOrderIsChronological | components/Dashboard.tsx:81 | on `YYYY/MM` tokens, string `<=` is chronological order on (year, month) |
| Strings.ParseIntOfIntToString | App.tsx:157-159 | `parseInt(String(i), 10)` gives back `i` for every integer, negative ones included |
| Seqs.Filter | components/Reports.tsx:70-81 | `filter` keeps, in order, exactly the elements satisfying the predicate, each as often as it occurred |
| Seqs.FilterCommutes | components/Dashboard.tsx:77-87 | two filters applied one after the other give the same result in either order |
| Seqs.SortBy | components/Settings.tsx:29 | the sort returns a permutation of its input, ordered by the key |
| Dates.MatchYearMonth | components/Reports.tsx:32 | the anchored pattern matches exactly when the text begins with four digits, `-` or `/`, and a digit; the year group is the first four characters, the month group is the one or two digits after the separator, and it takes two exactly when a second digit follows |
| Dates.NormalizeDate | components/Reports.tsx:29-45 | `''` exactly when the date is blank or nothing recognises it; a pattern match gives a canonical token with the matched year and month; otherwise the fallback's month |
| Dates.CopiesDifferOnlyWhenUnrecognised | components/CaseList.tsx:46-67 | on every input, the display copy agrees with `normalizeDate` where that recognises the date and shows the trimmed text where it does not; with no date the copies give `'-'` and `''`; the form copy agrees with `normalizeDate` whenever the pattern matches, and on text without outer white space wherever `normalizeDate` recognises the date, returning the text itself otherwise |
| Dates.CleanDateFallbackDiverges | components/CaseForm.tsx:22-33 | when the pattern misses and only the trimmed text is a readable date, `normalizeDate` and the display copy give that date's month, while `cleanDate` reads the untrimmed text, fails, and returns it unchanged |
| Dates.NormalizeCanonical | components/Dashboard.tsx:27-42 | every copy of the normaliser returns a canonical `YYYY/MM` token unchanged |
| Dates.NormalizeIdempotent | components/Dashboard.tsx:27-42 | applying `normalizeDate` to its own result changes nothing |
| Dates.RenderCalendarCanonical | components/Reports.tsx:38-43 | the `Date` fallback renders a four-digit year as a canonical token with that year and month |
| Dates.NormalizeKeepsYearMonth | components/Reports.tsx:49-51 | normalising a matched date keeps the (year, month) that `getYearMonth` reads from it |
| Durations.MonthsBetween | components/Reports.tsx:65-66 | the month difference, clamped at 0 when the end precedes the start |
| Durations.MonthsBetweenAdditive | components/Reports.tsx:65-66 | durations add up along ordered months, and a later end never gives fewer months |
| Durations.ReportsMonths | components/Reports.tsx:47-67 | `'-'` exactly when there is no start, the start cannot be read, or a `BAJA` case has no readable end. Otherwise the months from start to end (`BAJA`) or to now |
| Durations.DashboardMonths | components/Dashboard.tsx:44-64 | the Reports duration, with every undeterminable case counted as 0 |
| Durations.CaseListMonths | components/CaseList.tsx:77-89 | undeterminable exactly when the start cannot be read or a given `BAJA` end cannot be read. Otherwise the months up to that end, or up to now |
| Durations.CaseListEmptyStartUndetermined | components/CaseList.tsx:77-89 | CaseList has no empty-start guard, yet an empty start is `'-'` there as in Reports, provided the `Date` parser rejects `''` |
| Durations.ReportsAndCaseListDiverge | components/CaseList.tsx:86 | the copies disagree only on a `BAJA` case without an end, which Reports leaves at `'-'` and CaseList measures up to now |
| Durations.ActiveCaseSameMonth | components/Dashboard.tsx:56-63 | an active case enrolled this month is 0 months old in all three copies |
| Filters.UndatedPassesEndBound | components/Reports.tsx:73-74 | a case without a usable enrolment date passes every range that has only an end bound |
| Filters.UndatedFailsStartBound | components/Reports.tsx:73-74 | a case without a usable enrolment date fails every range that has a start bound |
| Filters.InDateRangeIsChronological | components/Dashboard.tsx:81 | on canonical tokens the range test is the chronological test |
| Filters.ReportFilter | components/Reports.tsx:69-82 | keeps, in order and with their multiplicities, exactly the cases that pass the date range, the status and the four loose text filters |
| Filters.ReportWildcardsKeepAll | components/Reports.tsx:19-27 | the initial report filters keep every case |
| Filters.ReportCityIgnoresCaseAndSpace | components/Reports.tsx:76 | the city filter does not see case or surrounding white space |
| Filters.DashboardFilter | components/Dashboard.tsx:76-88 | keeps, in order and with their multiplicities, exactly the cases that pass the date range and the four exact selects |
| Filters.DashboardWildcardsKeepAll | components/Dashboard.tsx:18-25 | the initial dashboard filters keep every case |
| Filters.DashboardSelectsCommute | components/Dashboard.tsx:82-83 | narrowing by sector and then by status gives the same cases as the other order |
| Filters.CaseListFilter | components/CaseList.tsx:69-75 | keeps, in order, exactly the cases that match the search and every column filter |
| Filters.MatchesSearchIff | components/CaseList.tsx:71 | the search matches exactly when the term occurs in the lower-cased PJS or doctor, or in the id as typed |
| Filters.EmptyColumnFiltersImposeNothing | components/CaseList.tsx:72 | column filters left empty impose nothing |
| Filters.UnknownColumnRejects | components/CaseList.tsx:72 | a non-empty filter on a key that names no field rejects every case |
| Filters.CaseListInitialKeepsAll | components/CaseList.tsx:33-34 | an empty search with no column filters shows every case |
| Aggregates.Bump | components/Dashboard.tsx:126-129 | the count update `acc[val] = ... + 1` adds one to that key's count and nothing else. A new key goes at the end of the table |
| Aggregates.Tally | components/Dashboard.tsx:126-130 | the count table has distinct keys and positive counts, holds exactly the values met, counts each one's occurrences, and sums to the input length |
| Aggregates.SortDescPermutes | components/Reports.tsx:90 | sorting by descending count permutes the entries |
| Aggregates.SortDescIsCountTable | components/Reports.tsx:90 | sorting by descending count keeps a valid count table |
| Aggregates.GroupedData | components/Reports.tsx:84-91 | `getGroupedData` is a count table of the trimmed values, with `'Sin Dato'` for blanks, in non-increasing count order |
| Aggregates.BlankGroupsAsSinDato | components/Reports.tsx:86 | an absent or empty value is counted under `'Sin Dato'` |
| Aggregates.SpacesGroupAsEmpty | components/Reports.tsx:86 | a value made only of white space is counted under `''` |
| Aggregates.GroupLabelsTrimmed | components/Reports.tsx:86 | group labels are trimmed, and values that trim alike share a group |
| Aggregates.TopStatsAreTop | components/Dashboard.tsx:125-132 | `topStats` gives at most five distinct values, each with its true count, in non-increasing order. Every value left out counts no more than any value kept, and with fewer than five every value occurs |
| Aggregates.CityData | components/Dashboard.tsx:134-137 | cases per city, counted exactly, in non-increasing order |
| Aggregates.StatusData | components/Dashboard.tsx:139-142 | cases per status, counted exactly |
| Aggregates.ComputeKpis | components/Dashboard.tsx:90-93 | the total is the number of filtered cases; active, public plus private, and active plus discharged are each at most the total |
| Aggregates.ActiveCountsStatus | components/Dashboard.tsx:91 | the active KPI equals the `ACTIVO` count of the status chart |
| Aggregates.PublicCountsSector | components/Dashboard.tsx:92 | the public-sector KPI equals the count of `Público` among sectors |
| Aggregates.PrivateCountsSector | components/Dashboard.tsx:93 | the private-sector KPI equals the count of `Privado` among sectors |
| Aggregates.AvgDuration | components/Dashboard.tsx:95-99 | 0 without cases; otherwise a total over the number of filtered cases; the total is the sum of the Dashboard durations of the filtered cases, and it is bounded by the longest duration times the count |
| Aggregates.UndeterminedDilutesAverage | components/Dashboard.tsx:97 | a case whose duration cannot be determined raises the divisor and adds nothing to the total |
| Aggregates.TrendMonthsAscending | components/Dashboard.tsx:107 | trend points are in strictly ascending month order |
| Aggregates.TrendCountsExact | components/Dashboard.tsx:102-107 | each trend point is a non-empty month with a positive count, and the count is exactly that month's number of enrolments |
| Aggregates.TrendComplete | components/Dashboard.tsx:104 | every month with an enrolment has a trend point |
| Aggregates.TrendLine | components/Dashboard.tsx:108-122 | with one month or none, the trend value is the count itself; with several months, it is the fitted line |
| Aggregates.TrendRegistrosSum | components/Dashboard.tsx:102-107 | the trend counts plus the cases without a usable enrolment date add up to the number of filtered cases |
| Aggregates.UniqueValues | components/Dashboard.tsx:66-74 | the distinct non-empty values of the field, in strictly ascending order, and no others |
| CategoryLists.Set | App.tsx:152 | `{ ...prev, [key]: newList }` replaces that one list and leaves the other eight unchanged |
| CategoryLists.Inserted | components/Settings.tsx:29 | appending and re-sorting gives a sorted permutation of the old list plus the new active item |
| CategoryLists.InsertedUniqueCI | App.tsx:138-142 | inserting a value that is absent up to case keeps the list's values distinct up to case |
| CategoryLists.HandleAdd | components/Settings.tsx:24-35 | blank input does nothing. A duplicate up to case raises the alert and clears the box. Otherwise the trimmed value is added active, the list re-sorted and the box cleared |
| CategoryLists.HandleAddKeepsUniqueCI | components/Settings.tsx:28-29 | adding keeps values distinct up to case and makes the new value present |
| CategoryLists.ToggleActive | components/Settings.tsx:37-42 | flips `active` on exactly the items with that value and changes nothing else |
| CategoryLists.ToggleActiveTwice | components/Settings.tsx:37-42 | toggling twice restores the list |
| CategoryLists.ToggleActiveAbsent | components/Settings.tsx:37-42 | toggling an absent value leaves the list unchanged |
| CategoryLists.RemovePermanently | components/Settings.tsx:44-48 | nothing without confirmation. With it, the list minus exactly the items of that value, in order |
| CategoryLists.MappingCoversEachListOnce | App.tsx:126-130 | each of the nine lists appears in the field-to-list mapping exactly once |
| CategoryLists.ChangesListIff | App.tsx:134-139 | a list changes exactly when its field holds a non-blank value that the list lacks up to case |
| CategoryLists.SyncUpToChanges | App.tsx:132-147 | after any number of loop turns, `hasChanges` is set exactly when some list visited so far changed |
| CategoryLists.SyncClosedForm | App.tsx:125-149 | each list ends as its one-field update, `hasChanges` means that some list changed and that some store write was issued, and without changes the lists are untouched |
| CategoryLists.SyncUpToWrites | App.tsx:142-144 | every store write issued is for a list already visited, and carries that list's final value |
| CategoryLists.SyncCoversData | App.tsx:125-149 | after the sync, every non-blank mapped value is present, up to case, in its list |
| CategoryLists.SyncKeepsAndAdds | App.tsx:137-143 | no item is lost, and a changed list is the sorted old list plus the new active item. A blank field leaves its list alone |
| CategoryLists.SyncIdempotent | App.tsx:125-149 | syncing the same case a second time changes nothing |
| CategoryLists.SyncOfBlankData | App.tsx:135 | a case with every mapped field blank changes nothing and writes nothing |
| AppState.MaxId | App.tsx:158 | the largest parsed id: one of them and no smaller than any, and 0 when no id parses |
| AppState.NumericIdsMembers | App.tsx:157 | the numeric ids are exactly the parsed values of the ids that parse |
| AppState.NextIdIsFresh | App.tsx:156-160 | the next id parses, exceeds every parsed id, and equals no existing id |
| AppState.NextIdWithoutNumericIds | App.tsx:158-159 | with no numeric id, the next id is `"1"` |
| AppState.ReplaceById | App.tsx:173 | each case with the edited id is replaced by the update, and the other positions are kept |
| AppState.ReplaceByIdKeepsIds | App.tsx:170-173 | the update keeps every position's id. No foreign case appears, and no case with another id is lost |
| AppState.RemoveById | App.tsx:182 | keeps, in order, exactly the cases with another id |
| AppState.RemoveAbsentId | App.tsx:182 | deleting an id nobody has changes nothing |
| AppState.SyncEntry | App.tsx:134-145 | one loop turn is one step of the sync fold |
| AppState.SyncLoop | App.tsx:131-147 | the loop computes the sync fold; without changes the lists are as they were |
| AppState.App.constructor | App.tsx:24-40 | no cases, nine empty lists, no modal, no error, no editing case |
| AppState.App.LoadData | App.tsx:87-107 | a successful fetch replaces the cases, and the lists when any are returned; no lists means setup is needed. A failed fetch keeps the data. Only a spinner load shows the error, and it opens the URL dialog on a fetch or API message |
| AppState.App.SyncListsWithData | App.tsx:125-149 | the lists become the sync fold's result, the writes are the fold's writes, and nothing else changes |
| AppState.App.HandleUpdateList | App.tsx:151-154 | replaces that one list. A successful store write reloads quietly; a failed one reloads with the spinner |
| AppState.App.HandleAddCase | App.tsx:156-166 | the case gets the next id and its lists are synced, then it is appended and the modal closed. A failed save rolls the cases back |
| AppState.App.HandleUpdateCase | App.tsx:168-177 | without a case being edited, nothing changes. Otherwise the edited id is kept, the lists synced and the case replaced, and the modal closed and editing cleared. A failed save rolls the cases back |
| AppState.App.HandleDeleteCase | App.tsx:179-185 | with confirmation the case is removed; a failed delete rolls back; without confirmation nothing changes |
| AppState.App.OpenAddModal | App.tsx:187 | the modal opens with no case being edited, and the data is untouched |
| AppState.App.OpenEditModal | App.tsx:188 | the modal opens on that case, and the data is untouched |
| FormState.KeepDigits | components/CaseForm.tsx:52 | `replace(/[^0-9]/g, '')` leaves only digits and never lengthens the text |
| FormState.KeepDigitsIsFilter | components/CaseForm.tsx:52 | digit stripping keeps exactly the digits of the text, in order and with their multiplicities |
| FormState.KeepDigitsConcat | components/CaseForm.tsx:52 | digit stripping distributes over concatenation |
| FormState.FormatDateInputShape | components/CaseForm.tsx:51-59 | at most 7 characters. Up to 4 digits come back unchanged. Otherwise the first six digits at most, with a `/` after the fourth |
| FormState.FormatDateInputIdempotent | components/CaseForm.tsx:51-59 | formatting an already formatted input changes nothing |
| FormState.FormatDateInputUnspaced | components/CaseForm.tsx:51-59 | a formatted date input holds no white space |
| FormState.SixDigitsFormatCanonical | components/CaseForm.tsx:53-57 | six or more digits make a canonical `YYYY/MM` token |
| FormState.DefaultForm | components/CaseForm.tsx:14-18 | a new form is `ACTIVO`, `Público`, enrolled this month, with an empty discharge date, and every other field `''` |
| FormState.LoadedFormKeepsFields | components/CaseForm.tsx:34-38 | loading a case changes only its two dates, always gives a discharge date, and turns a blank one into `''` |
| FormState.ChangedTouchesOnlyItsFields | components/CaseForm.tsx:42-49 | a change sets that field. A status change also sets the discharge date: this month for `BAJA`, `''` otherwise. Nothing else changes |
| FormState.DatedFormFieldOf | components/CaseForm.tsx:65-74 | the date clean-up touches only `fechaIngreso` and `fechaBaja` |
| FormState.TrimmedFormFieldOf | components/CaseForm.tsx:76 | the final pass trims every string field and keeps an absent one absent |
| FormState.SubmittedIsTrimmed | components/CaseForm.tsx:61-78 | every submitted field is trimmed, and a field is present after submit exactly when it was before |
| FormState.SubmittedDateCanonical | components/CaseForm.tsx:68-72 | a date that matches the pattern is submitted as the canonical token of its year and month |
| FormState.LeadingSpaceSkipsDateCleanUp | components/CaseForm.tsx:68-76 | on a form value whose date starts with a space, submit saves it without the zero pad and a second submit pads it: the submit step is not idempotent. The form's handlers never produce such a value |
| FormState.CaseForm.constructor | components/CaseForm.tsx:14-18 | the form starts in the default state for this month |
| FormState.CaseForm.LoadInitial | components/CaseForm.tsx:20-40 | a case to edit is loaded with both dates cleaned. With none, the state is kept |
| FormState.CaseForm.HandleChange | components/CaseForm.tsx:42-49 | for the fields wired to it (the comboboxes and the sector and status selects), the state becomes the changed form |
| FormState.CaseForm.HandleDateChange | components/CaseForm.tsx:51-59 | for the two date inputs wired to it, the named field becomes the formatted input, and nothing else changes |
| FormState.CaseForm.HandleSubmit | components/CaseForm.tsx:61-78 | returns the submitted form: dates cleaned first, then every field trimmed |

## Left out

- Rendering (JSX, charts, icons, PDF export): these are presentation only.
- The login check and `localStorage` (theme, session flag): these hold no case logic.
- The store client `api.ts`: only the outcome of each call is modelled.
- Polling every 15 seconds, the loading flags, and the interleaving of asynchronous calls: concurrency is not modelled. Each handler is one atomic step.
- JavaScript `Date`: both the current month and `new Date(str)` are parameters.
- The trend line's least-squares fit, `toFixed(1)` and the average's division: floating point is not modelled. `Aggregates.TrendLine` only says which points are fitted, and `Aggregates.AvgDuration` returns the total and the divisor.
- `localeCompare` and the default `sort()`: both are modelled as code-point order, since locale collation is outside the model.
- `toLowerCase`: modelled for ASCII and Latin-1 capitals only, since full Unicode case mapping is outside the model.
- The key order of a count table: `Object.keys` lists integer-like keys first, in ascending numeric order, then the rest in insertion order. The model keeps every key in first-appearance order, so the order among equal counts after the stable sort can differ; no contract depends on it.
- The `Date` parser parameter is not required to reject `''`. CaseList's duration of an empty start is `'-'` only under that condition (`Durations.CaseListEmptyStartUndetermined`), which a real `Date` meets.
- `Math.max(...numericIds)` on very large collections, and ids past 2^53: integers are unbounded here.
- AppState.App.HandleAddCase: its contract does not say that the new id is fresh. `AppState.NextIdIsFresh` proves that separately.
- The `id` of form data is optional in the source. Here a form is a `PatientCase` whose `id` is ignored until the handler sets it.
- The alert and confirm dialogs: a confirmation is a boolean input, and alert texts are not modelled.
- UI-only setters (tab, sidebar, dark mode, the URL dialog's text, the case-list filter menu): these hold no case logic.
- `handleAutoSetup` and `handleSaveUrl`: these only call the store and reload.
