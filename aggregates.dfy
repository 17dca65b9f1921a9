/**
 * Count tables and the statistics built on them: Reports.tsx
 * `getGroupedData` and Dashboard.tsx `uniquePJS`, `uniqueAseguradoras`, the
 * KPI counts, `avgDuration`, `trendData`, `topStats`, `cityData` and
 * `statusData`.
 *
 * A count table `acc[val] = (acc[val] || 0) + 1` is a sequence of entries in
 * the order their keys were first met. `Object.keys` and `Object.entries`
 * list keys in that order except that integer-like keys (`"7"`, `"2024"`)
 * come first, in ascending numeric order; no property here depends on the
 * order of a table's keys.
 */
module Aggregates {
  import opened Options
  import opened Strings
  import opened Seqs
  import opened Cases
  import opened Dates
  import opened Durations

  // ---------------------------------------------------------------------
  // Count tables
  // ---------------------------------------------------------------------

  /** One `[key, count]` pair. */
  datatype Entry = Entry(key: string, count: nat)

  function Keys(t: seq<Entry>): (ks: seq<string>)
    ensures |ks| == |t|
    ensures forall i :: 0 <= i < |t| ==> ks[i] == t[i].key
  {
    if t == [] then [] else [t[0].key] + Keys(t[1..])
  }

  predicate DistinctKeys(t: seq<Entry>) {
    forall i, j :: 0 <= i < j < |t| ==> t[i].key != t[j].key
  }

  predicate Positive(t: seq<Entry>) {
    forall i :: 0 <= i < |t| ==> t[i].count > 0
  }

  /** `acc[k] || 0`: the count recorded for `k`, summed over entries so that it needs no distinctness. */
  function CountOf(t: seq<Entry>, k: string): nat {
    if t == [] then 0 else (if t[0].key == k then t[0].count else 0) + CountOf(t[1..], k)
  }

  function SumCounts(t: seq<Entry>): nat {
    if t == [] then 0 else t[0].count + SumCounts(t[1..])
  }

  lemma {:induction false} CountOfAbsent(t: seq<Entry>, k: string)
    requires k !in Keys(t)
    ensures CountOf(t, k) == 0
  {
    if t != [] {
      assert Keys(t)[0] == t[0].key;
      assert Keys(t[1..]) == Keys(t)[1..];
      CountOfAbsent(t[1..], k);
    }
  }

  /** In a table with distinct keys, the count of an entry's key is that entry's count. */
  lemma {:induction false} CountOfAt(t: seq<Entry>, i: int)
    requires DistinctKeys(t) && 0 <= i < |t|
    ensures CountOf(t, t[i].key) == t[i].count
  {
    if i == 0 {
      forall j | 0 <= j < |t[1..]| ensures Keys(t[1..])[j] != t[0].key {
        assert t[1..][j] == t[j + 1];
      }
      CountOfAbsent(t[1..], t[0].key);
    } else {
      assert t[1..][i - 1] == t[i];
      CountOfAt(t[1..], i - 1);
    }
  }

  /** `acc[k] = (acc[k] || 0) + 1`: an existing key is incremented in place, a new one is appended with count 1. */
  function Bump(t: seq<Entry>, k: string): (r: seq<Entry>)
    ensures forall j :: CountOf(r, j) == CountOf(t, j) + (if j == k then 1 else 0)
    ensures SumCounts(r) == SumCounts(t) + 1
    ensures k in Keys(t) ==> Keys(r) == Keys(t)
    ensures k !in Keys(t) ==> Keys(r) == Keys(t) + [k]
  {
    if t == [] then [Entry(k, 1)]
    else if t[0].key == k then
      var r := [Entry(k, t[0].count + 1)] + t[1..];
      assert r[1..] == t[1..];
      r
    else
      var rest := Bump(t[1..], k);
      var r := [t[0]] + rest;
      assert r[1..] == rest;
      assert Keys(t) == [t[0].key] + Keys(t[1..]);
      r
  }

  /** Bumping keeps the keys distinct and every count positive. */
  lemma {:induction false} BumpKeepsShape(t: seq<Entry>, k: string)
    requires DistinctKeys(t) && Positive(t)
    ensures DistinctKeys(Bump(t, k)) && Positive(Bump(t, k))
  {
    var r := Bump(t, k);
    if t == [] {
    } else if t[0].key == k {
      forall i | 0 < i < |r| ensures r[i] == t[i] { assert r[1..] == t[1..]; }
    } else {
      var rest := Bump(t[1..], k);
      TailDistinct(t);
      assert Positive(t[1..]) by {
        forall i | 0 <= i < |t[1..]| ensures t[1..][i].count > 0 { assert t[1..][i] == t[i + 1]; }
      }
      BumpKeepsShape(t[1..], k);
      assert r == [t[0]] + rest;
      forall j | 0 <= j < |rest| ensures t[0].key != rest[j].key {
        assert Keys(rest)[j] == rest[j].key;
      }
    }
  }

  /** The count table of `labels`, folded from the left as `reduce` does. */
  function Tally(labels: seq<string>): (r: seq<Entry>)
    ensures DistinctKeys(r) && Positive(r)
    ensures forall k :: CountOf(r, k) == multiset(labels)[k]
    ensures forall k :: k in Keys(r) <==> k in labels
    ensures SumCounts(r) == |labels|
  {
    if labels == [] then []
    else
      var init := labels[..|labels| - 1];
      assert labels == init + [labels[|labels| - 1]];
      BumpKeepsShape(Tally(init), labels[|labels| - 1]);
      Bump(Tally(init), labels[|labels| - 1])
  }

  // ---------------------------------------------------------------------
  // Sorting a table by descending count: `.sort(([, a], [, b]) => b - a)`
  // ---------------------------------------------------------------------

  predicate NonIncreasing(t: seq<Entry>) {
    forall i, j :: 0 <= i < j < |t| ==> t[i].count >= t[j].count
  }

  /** Insert `e` before the first entry whose count is not larger, so that equal counts keep their order. */
  function InsertDesc(e: Entry, t: seq<Entry>): (r: seq<Entry>)
    ensures multiset(r) == multiset(t) + multiset{e}
    ensures |r| == |t| + 1
  {
    if t == [] || e.count >= t[0].count then
      var r := [e] + t;
      r
    else
      var rest := InsertDesc(e, t[1..]);
      var r := [t[0]] + rest;
      assert t == [t[0]] + t[1..];
      r
  }

  /** Inserting adds `e`'s count to its key, `e`'s count to the total and `e`'s key to the keys. */
  lemma {:induction false} InsertDescCounts(e: Entry, t: seq<Entry>)
    ensures forall k :: CountOf(InsertDesc(e, t), k) == CountOf(t, k) + (if e.key == k then e.count else 0)
    ensures SumCounts(InsertDesc(e, t)) == SumCounts(t) + e.count
    ensures forall k :: k in Keys(InsertDesc(e, t)) <==> k in Keys(t) || k == e.key
  {
    var r := InsertDesc(e, t);
    if t == [] || e.count >= t[0].count {
      assert r[1..] == t;
      assert Keys(r) == [e.key] + Keys(t);
    } else {
      var rest := InsertDesc(e, t[1..]);
      InsertDescCounts(e, t[1..]);
      assert r[1..] == rest;
      assert Keys(t) == [t[0].key] + Keys(t[1..]);
      assert Keys(r) == [t[0].key] + Keys(rest);
    }
  }

  lemma {:induction false} InsertDescSorted(e: Entry, t: seq<Entry>)
    requires NonIncreasing(t)
    ensures NonIncreasing(InsertDesc(e, t))
  {
    var r := InsertDesc(e, t);
    if t == [] {
    } else if e.count >= t[0].count {
    } else {
      var rest := InsertDesc(e, t[1..]);
      InsertDescSorted(e, t[1..]);
      forall j | 0 <= j < |rest| ensures t[0].count >= rest[j].count {
        assert rest[j] in multiset(rest);
        if rest[j] != e {
          assert rest[j] in multiset(t[1..]);
          var m :| 0 <= m < |t[1..]| && t[1..][m] == rest[j];
          assert t[m + 1] == rest[j];
        }
      }
      assert r == [t[0]] + rest;
    }
  }

  lemma {:induction false} InsertDescKeys(e: Entry, t: seq<Entry>)
    requires DistinctKeys(t) && e.key !in Keys(t)
    requires Positive(t) && e.count > 0
    ensures DistinctKeys(InsertDesc(e, t)) && Positive(InsertDesc(e, t))
  {
    var r := InsertDesc(e, t);
    if t == [] {
    } else if e.count >= t[0].count {
      assert r == [e] + t;
      forall j | 0 <= j < |t| ensures e.key != t[j].key {
        assert Keys(t)[j] == t[j].key;
      }
    } else {
      var rest := InsertDesc(e, t[1..]);
      assert Keys(t) == [t[0].key] + Keys(t[1..]);
      TailDistinct(t);
      assert Positive(t[1..]) by {
        forall i | 0 <= i < |t[1..]| ensures t[1..][i].count > 0 { assert t[1..][i] == t[i + 1]; }
      }
      InsertDescKeys(e, t[1..]);
      InsertDescCounts(e, t[1..]);
      assert r == [t[0]] + rest;
      forall j | 0 <= j < |rest| ensures t[0].key != rest[j].key {
        assert Keys(rest)[j] == rest[j].key;
        if rest[j].key != e.key {
          assert rest[j].key in Keys(t[1..]);
          var m :| 0 <= m < |t[1..]| && Keys(t[1..])[m] == rest[j].key;
          assert t[m + 1].key == rest[j].key;
        }
      }
    }
  }

  /** A stable insertion sort by descending count. */
  function SortDesc(t: seq<Entry>): (r: seq<Entry>)
    ensures |r| == |t|
    ensures NonIncreasing(r)
  {
    if t == [] then []
    else
      var rest := SortDesc(t[1..]);
      InsertDescSorted(t[0], rest);
      InsertDesc(t[0], rest)
  }

  /** Sorting only reorders the entries. */
  lemma {:induction false} SortDescPermutes(t: seq<Entry>)
    ensures multiset(SortDesc(t)) == multiset(t)
  {
    if t != [] {
      SortDescPermutes(t[1..]);
      assert t == [t[0]] + t[1..];
    }
  }

  /** Sorting keeps every key's count, the total and the set of keys. */
  lemma {:induction false} SortDescCounts(t: seq<Entry>)
    ensures forall k :: CountOf(SortDesc(t), k) == CountOf(t, k)
    ensures SumCounts(SortDesc(t)) == SumCounts(t)
    ensures forall k :: k in Keys(SortDesc(t)) <==> k in Keys(t)
  {
    if t != [] {
      SortDescCounts(t[1..]);
      InsertDescCounts(t[0], SortDesc(t[1..]));
      assert Keys(t) == [t[0].key] + Keys(t[1..]);
    }
  }

  /** The tail of a table with distinct keys has distinct keys, none of them the head's. */
  lemma TailDistinct(t: seq<Entry>)
    requires t != [] && DistinctKeys(t)
    ensures DistinctKeys(t[1..]) && t[0].key !in Keys(t[1..])
  {
    forall i, j | 0 <= i < j < |t[1..]| ensures t[1..][i].key != t[1..][j].key {
      assert t[1..][i] == t[i + 1] && t[1..][j] == t[j + 1];
    }
    forall m | 0 <= m < |t[1..]| ensures Keys(t[1..])[m] != t[0].key {
      assert t[1..][m] == t[m + 1];
    }
  }

  lemma {:induction false} SortDescDistinct(t: seq<Entry>)
    requires DistinctKeys(t) && Positive(t)
    ensures DistinctKeys(SortDesc(t)) && Positive(SortDesc(t))
  {
    if t != [] {
      TailDistinct(t);
      assert Positive(t[1..]) by {
        forall i | 0 <= i < |t[1..]| ensures t[1..][i].count > 0 { assert t[1..][i] == t[i + 1]; }
      }
      SortDescDistinct(t[1..]);
      SortDescCounts(t[1..]);
      InsertDescKeys(t[0], SortDesc(t[1..]));
    }
  }

  // ---------------------------------------------------------------------
  // Labelling cases
  // ---------------------------------------------------------------------

  /** The placeholder of an empty value in the report groupings. */
  const SIN_DATO: string := "Sin Dato"

  /** How a case is turned into the key it is counted under. */
  datatype Labeling =
    | Raw(field: Field)            // `String(c[key])`
    | Grouped(field: Field)        // `String(c[key] || 'Sin Dato').trim()`
    | Present(field: Field)        // `c[key]`, with `undefined` as `''` for `.filter(Boolean)`
    | Enrolment(parse: DateParser) // `normalizeDate(c.fechaIngreso)`

  function Label(c: PatientCase, l: Labeling): string {
    match l
    case Raw(f) => FieldOf(c, f).GetOr("undefined")
    case Grouped(f) =>
      var v := FieldOf(c, f).GetOr("");
      Trim(if v == "" then SIN_DATO else v)
    case Present(f) => FieldOf(c, f).GetOr("")
    case Enrolment(parse) => NormalizeDate(Some(c.fechaIngreso), parse)
  }

  /** `cases.map(c => label(c))`. */
  function Labels(cases: seq<PatientCase>, l: Labeling): (r: seq<string>)
    ensures |r| == |cases|
  {
    if cases == [] then [] else [Label(cases[0], l)] + Labels(cases[1..], l)
  }

  /** The number of cases whose label is `k`, defined independently of any table. */
  function CountLabelled(cases: seq<PatientCase>, l: Labeling, k: string): nat {
    if cases == [] then 0 else (if Label(cases[0], l) == k then 1 else 0) + CountLabelled(cases[1..], l, k)
  }

  lemma {:induction false} LabelsCount(cases: seq<PatientCase>, l: Labeling, k: string)
    ensures multiset(Labels(cases, l))[k] == CountLabelled(cases, l, k)
  {
    if cases != [] {
      LabelsCount(cases[1..], l, k);
      assert Labels(cases, l) == [Label(cases[0], l)] + Labels(cases[1..], l);
    }
  }

  /** `t` counts every label of `cases` exactly, once per distinct label. */
  ghost predicate IsCountTable(t: seq<Entry>, cases: seq<PatientCase>, l: Labeling) {
    && DistinctKeys(t)
    && Positive(t)
    && (forall k :: CountOf(t, k) == CountLabelled(cases, l, k))
    && (forall i :: 0 <= i < |t| ==> t[i].count == CountLabelled(cases, l, t[i].key))
    && (forall k :: CountLabelled(cases, l, k) > 0 <==> k in Keys(t))
    && SumCounts(t) == |cases|
  }

  /** Counting the labels of the cases gives a count table of the cases. */
  lemma TallyIsCountTable(cases: seq<PatientCase>, l: Labeling)
    ensures IsCountTable(Tally(Labels(cases, l)), cases, l)
  {
    var labels := Labels(cases, l);
    var t := Tally(labels);
    forall k ensures CountOf(t, k) == CountLabelled(cases, l, k) {
      LabelsCount(cases, l, k);
    }
    forall i | 0 <= i < |t| ensures t[i].count == CountLabelled(cases, l, t[i].key) {
      CountOfAt(t, i);
    }
    forall k ensures CountLabelled(cases, l, k) > 0 <==> k in Keys(t) {
      assert k in labels <==> multiset(labels)[k] > 0;
    }
  }

  /** Reordering a count table by descending count keeps it a count table of the same cases. */
  lemma SortDescIsCountTable(t: seq<Entry>, cases: seq<PatientCase>, l: Labeling)
    requires IsCountTable(t, cases, l)
    ensures IsCountTable(SortDesc(t), cases, l)
  {
    var r := SortDesc(t);
    SortDescDistinct(t);
    SortDescCounts(t);
    forall i | 0 <= i < |r| ensures r[i].count == CountLabelled(cases, l, r[i].key) {
      CountOfAt(r, i);
      assert r[i].key in Keys(r) by { assert Keys(r)[i] == r[i].key; }
      var m :| 0 <= m < |t| && Keys(t)[m] == r[i].key;
      CountOfAt(t, m);
    }
  }

  // ---------------------------------------------------------------------
  // Reports.tsx getGroupedData
  // ---------------------------------------------------------------------

  /** `getGroupedData(key)`: the report groupings, most frequent first. */
  function GroupedData(cases: seq<PatientCase>, f: Field): (r: seq<Entry>)
    ensures IsCountTable(r, cases, Grouped(f))
    ensures NonIncreasing(r)
  {
    TallyIsCountTable(cases, Grouped(f));
    SortDescIsCountTable(Tally(Labels(cases, Grouped(f))), cases, Grouped(f));
    SortDesc(Tally(Labels(cases, Grouped(f))))
  }

  /** An absent or empty value is grouped under "Sin Dato". */
  lemma BlankGroupsAsSinDato(c: PatientCase, f: Field)
    requires FieldOf(c, f).None? || FieldOf(c, f) == Some("")
    ensures Label(c, Grouped(f)) == SIN_DATO
  {
    assert Trim(SIN_DATO) == SIN_DATO by {
      assert !IsSpace(SIN_DATO[0]) && !IsSpace(SIN_DATO[|SIN_DATO| - 1]);
    }
  }

  /** A value made only of white space is truthy, so it is grouped under the empty label, not "Sin Dato". */
  lemma SpacesGroupAsEmpty(c: PatientCase, f: Field)
    requires FieldOf(c, f).Some? && FieldOf(c, f).value != "" && Trim(FieldOf(c, f).value) == ""
    ensures Label(c, Grouped(f)) == ""
  {
  }

  /** Group labels never start or end with white space, and values differing only in surrounding space share a group. */
  lemma GroupLabelsTrimmed(c: PatientCase, d: PatientCase, f: Field)
    ensures var g := Label(c, Grouped(f)); g == [] || (!IsSpace(g[0]) && !IsSpace(g[|g| - 1]))
    ensures FieldOf(c, f).Some? && FieldOf(d, f).Some? && FieldOf(c, f).value != "" && FieldOf(d, f).value != ""
            && Trim(FieldOf(c, f).value) == Trim(FieldOf(d, f).value)
            ==> Label(c, Grouped(f)) == Label(d, Grouped(f))
  {
    var v := FieldOf(c, f).GetOr("");
    assert Label(c, Grouped(f)) == Trim(if v == "" then SIN_DATO else v);
  }

  // ---------------------------------------------------------------------
  // Dashboard.tsx topStats, cityData, statusData
  // ---------------------------------------------------------------------

  const TOP_K: nat := 5

  /** `.slice(0, n)`. */
  function Take(t: seq<Entry>, n: nat): seq<Entry> {
    if |t| <= n then t else t[..n]
  }

  /** `topStats(key)`: the five most frequent values of `String(c[key])` and their counts. */
  function TopStats(cases: seq<PatientCase>, f: Field): (r: seq<Entry>)
    ensures |r| <= TOP_K
  {
    Take(SortDesc(Tally(Labels(cases, Raw(f)))), TOP_K)
  }

  /** A prefix of a table sorted by descending count holds counts at least as large as any key it leaves out. */
  lemma TakeKeepsLargest(t: seq<Entry>, n: nat)
    requires NonIncreasing(t) && DistinctKeys(t)
    ensures var r := Take(t, n);
      && |r| <= n && (|r| < n ==> r == t)
      && (forall i :: 0 <= i < |r| ==> r[i] == t[i])
      && (forall k :: k in Keys(r) ==> k in Keys(t))
      && (forall i, k :: 0 <= i < |r| && k !in Keys(r) ==> r[i].count >= CountOf(t, k))
  {
    var r := Take(t, n);
    assert forall i :: 0 <= i < |r| ==> r[i] == t[i];
    forall k | k in Keys(r) ensures k in Keys(t) {
      var i :| 0 <= i < |r| && Keys(r)[i] == k;
      assert Keys(t)[i] == k;
    }
    forall i, k | 0 <= i < |r| && k !in Keys(r) ensures r[i].count >= CountOf(t, k) {
      if k in Keys(t) {
        var j :| 0 <= j < |t| && Keys(t)[j] == k;
        CountOfAt(t, j);
      } else {
        CountOfAbsent(t, k);
      }
    }
  }

  /** A prefix of a table with distinct, positive keys has distinct, positive, non-increasing keys. */
  lemma TakeKeepsShape(t: seq<Entry>, n: nat)
    requires NonIncreasing(t) && DistinctKeys(t) && Positive(t)
    ensures DistinctKeys(Take(t, n)) && Positive(Take(t, n)) && NonIncreasing(Take(t, n))
  {
    assert forall i :: 0 <= i < |Take(t, n)| ==> Take(t, n)[i] == t[i];
  }

  /**
   * The top list is a prefix of the full count table: exact counts, most
   * frequent first, complete when shorter than five, and no value left out
   * is more frequent than any value shown.
   */
  lemma TopStatsAreTop(cases: seq<PatientCase>, f: Field)
    ensures var r := TopStats(cases, f);
      && DistinctKeys(r) && Positive(r) && NonIncreasing(r)
      && (forall i :: 0 <= i < |r| ==> r[i].count == CountLabelled(cases, Raw(f), r[i].key))
      && (forall k :: k in Keys(r) ==> CountLabelled(cases, Raw(f), k) > 0)
      && (|r| < TOP_K ==> forall k :: CountLabelled(cases, Raw(f), k) > 0 ==> k in Keys(r))
      && (forall i, k :: 0 <= i < |r| && k !in Keys(r) ==> r[i].count >= CountLabelled(cases, Raw(f), k))
  {
    var t := Tally(Labels(cases, Raw(f)));
    TallyIsCountTable(cases, Raw(f));
    SortDescIsCountTable(t, cases, Raw(f));
    TakeOfCountTable(SortDesc(t), cases, Raw(f), TOP_K);
  }

  /** The first `n` entries of a sorted count table, described in terms of the cases. */
  lemma TakeOfCountTable(t: seq<Entry>, cases: seq<PatientCase>, l: Labeling, n: nat)
    requires IsCountTable(t, cases, l) && NonIncreasing(t)
    ensures var r := Take(t, n);
      && DistinctKeys(r) && Positive(r) && NonIncreasing(r)
      && (forall i :: 0 <= i < |r| ==> r[i].count == CountLabelled(cases, l, r[i].key))
      && (forall k :: k in Keys(r) ==> CountLabelled(cases, l, k) > 0)
      && (|r| < n ==> forall k :: CountLabelled(cases, l, k) > 0 ==> k in Keys(r))
      && (forall i, k :: 0 <= i < |r| && k !in Keys(r) ==> r[i].count >= CountLabelled(cases, l, k))
  {
    TakeKeepsLargest(t, n);
    TakeKeepsShape(t, n);
  }

  /** `cityData`: cases per city, most frequent first. */
  function CityData(cases: seq<PatientCase>): (r: seq<Entry>)
    ensures IsCountTable(r, cases, Raw(Ciudad))
    ensures NonIncreasing(r)
  {
    TallyIsCountTable(cases, Raw(Ciudad));
    SortDescIsCountTable(Tally(Labels(cases, Raw(Ciudad))), cases, Raw(Ciudad));
    SortDesc(Tally(Labels(cases, Raw(Ciudad))))
  }

  /** `statusData`: cases per status (entries in first-appearance order; see the note on key order above). */
  function StatusData(cases: seq<PatientCase>): (r: seq<Entry>)
    ensures IsCountTable(r, cases, Raw(Status))
  {
    TallyIsCountTable(cases, Raw(Status));
    Tally(Labels(cases, Raw(Status)))
  }

  // ---------------------------------------------------------------------
  // Dashboard.tsx KPIs and avgDuration
  // ---------------------------------------------------------------------

  predicate IsActive(c: PatientCase) { c.status == ACTIVO }
  predicate IsDischarged(c: PatientCase) { c.status == BAJA }
  predicate IsPublic(c: PatientCase) { c.sector == "Público" }
  predicate IsPrivate(c: PatientCase) { c.sector == "Privado" }

  datatype Kpis = Kpis(total: nat, active: nat, publicSector: nat, privateSector: nat)

  /** `totalCases`, `activeCases`, `publicSector`, `privateSector`. */
  function ComputeKpis(filtered: seq<PatientCase>): (k: Kpis)
    ensures k.total == |filtered|
    ensures k.active <= k.total
    ensures k.publicSector + k.privateSector <= k.total
    ensures k.active + |Filter(IsDischarged, filtered)| <= k.total
  {
    DisjointFiltersBound(IsPublic, IsPrivate, filtered);
    DisjointFiltersBound(IsActive, IsDischarged, filtered);
    Kpis(|filtered|, |Filter(IsActive, filtered)|, |Filter(IsPublic, filtered)|, |Filter(IsPrivate, filtered)|)
  }

  /** A filter that selects the cases whose field `f` reads `k` keeps as many cases as are labelled `k`. */
  lemma {:induction false} SelectionCountsLabel(p: PatientCase -> bool, filtered: seq<PatientCase>, f: Field, k: string)
    requires forall c :: p(c) <==> FieldOf(c, f).GetOr("undefined") == k
    ensures |Filter(p, filtered)| == CountLabelled(filtered, Raw(f), k)
  {
    if filtered != [] {
      SelectionCountsLabel(p, filtered[1..], f, k);
      RawLabelledStep(filtered, f, k);
      FilterLengthStep(p, filtered);
    }
  }

  /** Each counter counts exactly the cases in its class. */
  lemma ActiveCountsStatus(filtered: seq<PatientCase>)
    ensures |Filter(IsActive, filtered)| == CountLabelled(filtered, Raw(Status), ACTIVO)
  {
    assert forall c :: FieldOf(c, Status).GetOr("undefined") == c.status;
    SelectionCountsLabel(IsActive, filtered, Status, ACTIVO);
  }

  lemma PublicCountsSector(filtered: seq<PatientCase>)
    ensures |Filter(IsPublic, filtered)| == CountLabelled(filtered, Raw(Sector), "Público")
  {
    assert forall c :: FieldOf(c, Sector).GetOr("undefined") == c.sector;
    SelectionCountsLabel(IsPublic, filtered, Sector, "Público");
  }

  lemma PrivateCountsSector(filtered: seq<PatientCase>)
    ensures |Filter(IsPrivate, filtered)| == CountLabelled(filtered, Raw(Sector), "Privado")
  {
    assert forall c :: FieldOf(c, Sector).GetOr("undefined") == c.sector;
    SelectionCountsLabel(IsPrivate, filtered, Sector, "Privado");
  }

  lemma RawLabelledStep(cases: seq<PatientCase>, f: Field, k: string)
    requires cases != []
    ensures CountLabelled(cases, Raw(f), k) ==
      (if FieldOf(cases[0], f).GetOr("undefined") == k then 1 else 0) + CountLabelled(cases[1..], Raw(f), k)
  {
  }

  /** The months a case contributes to the dashboard average. */
  function CaseMonths(c: PatientCase, now: CalendarMonth, parse: DateParser): nat {
    DashboardMonths(c.fechaIngreso, c.fechaBaja, c.status, now, parse)
  }

  function SumMonths(cases: seq<PatientCase>, now: CalendarMonth, parse: DateParser): nat {
    if cases == [] then 0 else CaseMonths(cases[0], now, parse) + SumMonths(cases[1..], now, parse)
  }

  lemma {:induction false} SumMonthsAppend(xs: seq<PatientCase>, ys: seq<PatientCase>, now: CalendarMonth, parse: DateParser)
    ensures SumMonths(xs + ys, now, parse) == SumMonths(xs, now, parse) + SumMonths(ys, now, parse)
  {
    if xs == [] {
      assert xs + ys == ys;
    } else {
      assert (xs + ys)[1..] == xs[1..] + ys;
      SumMonthsAppend(xs[1..], ys, now, parse);
    }
  }

  /** Kept apart so that the solver meets the distributive step as a plain fact. */
  lemma MulSucc(a: nat, n: nat)
    ensures a * (n + 1) == a * n + a
  {
  }

  lemma {:induction false} SumMonthsBound(cases: seq<PatientCase>, now: CalendarMonth, parse: DateParser, longest: nat)
    requires forall c :: c in cases ==> CaseMonths(c, now, parse) <= longest
    ensures SumMonths(cases, now, parse) <= longest * |cases|
  {
    if cases != [] {
      assert forall c :: c in cases[1..] ==> c in cases;
      SumMonthsBound(cases[1..], now, parse, longest);
      assert CaseMonths(cases[0], now, parse) <= longest by { assert cases[0] in cases; }
      MulSucc(longest, |cases[1..]|);
    }
  }

  /** The dashboard average before `toFixed(1)`: no cases, or a total over a count. */
  datatype Average = NoCases | Mean(totalMonths: nat, caseCount: nat)

  /** `avgDuration`: the total of the case durations over the number of filtered cases. */
  function AvgDuration(filtered: seq<PatientCase>, now: CalendarMonth, parse: DateParser): (a: Average)
    ensures a.NoCases? <==> filtered == []
    ensures a.Mean? ==> a.caseCount == |filtered| > 0
    ensures a.Mean? ==> a.totalMonths == SumMonths(filtered, now, parse)
    ensures a.Mean? ==> forall longest: nat ::
      (forall c :: c in filtered ==> CaseMonths(c, now, parse) <= longest) ==> a.totalMonths <= longest * a.caseCount
  {
    if filtered == [] then NoCases
    else
      assert forall longest: nat ::
        (forall c :: c in filtered ==> CaseMonths(c, now, parse) <= longest) ==> SumMonths(filtered, now, parse) <= longest * |filtered| by {
        forall longest: nat | forall c :: c in filtered ==> CaseMonths(c, now, parse) <= longest
          ensures SumMonths(filtered, now, parse) <= longest * |filtered| {
          SumMonthsBound(filtered, now, parse, longest);
        }
      }
      Mean(SumMonths(filtered, now, parse), |filtered|)
  }

  /** A case whose duration cannot be determined counts in the divisor but adds nothing to the total. */
  lemma UndeterminedDilutesAverage(filtered: seq<PatientCase>, c: PatientCase, now: CalendarMonth, parse: DateParser)
    requires ReportsMonths(c.fechaIngreso, c.fechaBaja, c.status, now, parse).Undetermined?
    ensures AvgDuration(filtered + [c], now, parse) ==
      Mean(SumMonths(filtered, now, parse), |filtered| + 1)
  {
    SumMonthsAppend(filtered, [c], now, parse);
    assert [c][1..] == [];
  }

  // ---------------------------------------------------------------------
  // Dashboard.tsx trendData
  // ---------------------------------------------------------------------

  predicate NonEmpty(s: string) { s != "" }

  function Identity(s: string): string { s }

  /** The trend line of a point: the least-squares fit when there are several months, else the count itself. */
  datatype Trend = Exact(value: nat) | Fitted

  datatype TrendPoint = TrendPoint(name: string, registros: nat, tendencia: Trend)

  function Names(r: seq<TrendPoint>): seq<string> {
    if r == [] then [] else [r[0].name] + Names(r[1..])
  }

  /** `trendData`: registrations per enrolment month, months in ascending order. */
  function TrendData(filtered: seq<PatientCase>, parse: DateParser): (r: seq<TrendPoint>)
  {
    var dates := Filter(NonEmpty, Labels(filtered, Enrolment(parse)));
    var grouped := Tally(dates);
    var names := SortBy(Keys(grouped), Identity);
    var n := |names|;
    seq(n, i requires 0 <= i < n =>
      TrendPoint(names[i], CountOf(grouped, names[i]), if n > 1 then Fitted else Exact(CountOf(grouped, names[i]))))
  }

  lemma {:induction false} NamesMembers(r: seq<TrendPoint>, d: string)
    ensures d in Names(r) <==> exists i :: 0 <= i < |r| && r[i].name == d
  {
    if r != [] {
      NamesMembers(r[1..], d);
      if d in Names(r[1..]) {
        var i :| 0 <= i < |r[1..]| && r[1..][i].name == d;
        assert r[i + 1].name == d;
      }
      if exists i :: 0 <= i < |r| && r[i].name == d {
        var i :| 0 <= i < |r| && r[i].name == d;
        if i > 0 { assert r[1..][i - 1].name == d; }
      }
    }
  }

  /** The months of the trend are strictly ascending. */
  lemma TrendMonthsAscending(filtered: seq<PatientCase>, parse: DateParser)
    ensures var r := TrendData(filtered, parse);
      forall i, j :: 0 <= i < j < |r| ==> Lt(r[i].name, r[j].name)
  {
    var grouped := Tally(Filter(NonEmpty, Labels(filtered, Enrolment(parse))));
    var names := SortBy(Keys(grouped), Identity);
    var r := TrendData(filtered, parse);
    assert DistinctBy(Keys(grouped), Identity);
    SortByDistinct(Keys(grouped), Identity, Identity);
    forall i, j | 0 <= i < j < |r| ensures Lt(r[i].name, r[j].name) {
      assert r[i].name == names[i] && r[j].name == names[j];
    }
  }

  /** Each month of the trend is a non-empty normalised date that counts exactly the cases enrolled that month. */
  lemma TrendCountsExact(filtered: seq<PatientCase>, parse: DateParser)
    ensures var r := TrendData(filtered, parse);
      forall i :: 0 <= i < |r| ==>
        r[i].name != "" && r[i].registros == CountLabelled(filtered, Enrolment(parse), r[i].name) && r[i].registros > 0
  {
    var dates := Filter(NonEmpty, Labels(filtered, Enrolment(parse)));
    var grouped := Tally(dates);
    var names := SortBy(Keys(grouped), Identity);
    var r := TrendData(filtered, parse);
    SortByMembers(Keys(grouped), Identity);
    forall i | 0 <= i < |r|
      ensures r[i].name != "" && r[i].registros == CountLabelled(filtered, Enrolment(parse), r[i].name) && r[i].registros > 0
    {
      var d := names[i];
      assert d in names;
      assert d in dates;
      LabelsCount(filtered, Enrolment(parse), d);
      assert r[i].registros == CountOf(grouped, d) == multiset(dates)[d];
    }
  }

  /** Every month in which some case enrolled appears in the trend. */
  lemma TrendComplete(filtered: seq<PatientCase>, parse: DateParser, d: string)
    requires d != "" && CountLabelled(filtered, Enrolment(parse), d) > 0
    ensures d in Names(TrendData(filtered, parse))
  {
    var labels := Labels(filtered, Enrolment(parse));
    var dates := Filter(NonEmpty, labels);
    var grouped := Tally(dates);
    var names := SortBy(Keys(grouped), Identity);
    var r := TrendData(filtered, parse);
    SortByMembers(Keys(grouped), Identity);
    LabelsCount(filtered, Enrolment(parse), d);
    assert d in labels;
    assert d in dates;
    assert d in names;
    var i :| 0 <= i < |names| && names[i] == d;
    assert r[i].name == d;
    NamesMembers(r, d);
  }

  /** With at most one month the trend line is the count itself; with more it is the fitted line. */
  lemma TrendLine(filtered: seq<PatientCase>, parse: DateParser)
    ensures var r := TrendData(filtered, parse);
      && (|r| <= 1 ==> forall i :: 0 <= i < |r| ==> r[i].tendencia == Exact(r[i].registros))
      && (|r| > 1 ==> forall i :: 0 <= i < |r| ==> r[i].tendencia == Fitted)
  {
  }

  /** The count `t` records for a key, as a function to sum over keys. */
  function CountIn(t: seq<Entry>): string -> nat {
    k => CountOf(t, k)
  }

  /** Keys other than the head entry's do not see it. */
  lemma {:induction false} SumOverDropHead(t: seq<Entry>, ks: seq<string>)
    requires t != [] && t[0].key !in ks
    ensures SumOf(CountIn(t), ks) == SumOf(CountIn(t[1..]), ks)
  {
    if ks != [] {
      SumOverDropHead(t, ks[1..]);
    }
  }

  /** Over its own distinct keys, a table sums to its total. */
  lemma {:induction false} SumOverOwnKeys(t: seq<Entry>)
    requires DistinctKeys(t)
    ensures SumOf(CountIn(t), Keys(t)) == SumCounts(t)
  {
    if t != [] {
      var ks := Keys(t);
      assert ks[1..] == Keys(t[1..]);
      CountOfAt(t, 0);
      assert t[0].key !in Keys(t[1..]) by {
        forall j | 0 <= j < |t[1..]| ensures Keys(t[1..])[j] != t[0].key {
          assert t[1..][j] == t[j + 1];
        }
      }
      TailDistinct(t);
      SumOverDropHead(t, Keys(t[1..]));
      SumOverOwnKeys(t[1..]);
    }
  }

  /** The registrations of the trend points, added up. */
  function Registros(r: seq<TrendPoint>): nat {
    if r == [] then 0 else r[0].registros + Registros(r[1..])
  }

  lemma {:induction false} RegistrosAsSumOver(r: seq<TrendPoint>, t: seq<Entry>, ks: seq<string>)
    requires |r| == |ks| && forall i :: 0 <= i < |r| ==> r[i].registros == CountOf(t, ks[i])
    ensures Registros(r) == SumOf(CountIn(t), ks)
  {
    if r != [] {
      RegistrosAsSumOver(r[1..], t, ks[1..]);
    }
  }

  lemma {:induction false} NonEmptyCount(labels: seq<string>)
    ensures |Filter(NonEmpty, labels)| + multiset(labels)[""] == |labels|
  {
    if labels != [] {
      assert labels == [labels[0]] + labels[1..];
      NonEmptyCount(labels[1..]);
    }
  }

  /** Each non-empty enrolment date is registered once. */
  lemma TrendRegistrosTotal(filtered: seq<PatientCase>, parse: DateParser)
    ensures Registros(TrendData(filtered, parse)) == |Filter(NonEmpty, Labels(filtered, Enrolment(parse)))|
  {
    var dates := Filter(NonEmpty, Labels(filtered, Enrolment(parse)));
    var grouped := Tally(dates);
    var names := SortBy(Keys(grouped), Identity);
    RegistrosAsSumOver(TrendData(filtered, parse), grouped, names);
    assert SumOf(CountIn(grouped), names) == |dates| by {
      SumOfPermutation(CountIn(grouped), names, Keys(grouped));
      SumOverOwnKeys(grouped);
    }
  }

  /** The months' registrations add up to the cases whose enrolment date normalises to a month. */
  lemma TrendRegistrosSum(filtered: seq<PatientCase>, parse: DateParser)
    ensures Registros(TrendData(filtered, parse)) + CountLabelled(filtered, Enrolment(parse), "") == |filtered|
  {
    TrendRegistrosTotal(filtered, parse);
    NonEmptyCount(Labels(filtered, Enrolment(parse)));
    LabelsCount(filtered, Enrolment(parse), "");
  }

  // ---------------------------------------------------------------------
  // Dashboard.tsx uniquePJS and uniqueAseguradoras
  // ---------------------------------------------------------------------

  /**
   * `Array.from(new Set(cases.map(c => c[key]).filter(Boolean))).sort()`.
   * A `Set` iterates in insertion order, as the keys of a count table do.
   */
  function UniqueValues(cases: seq<PatientCase>, f: Field): (r: seq<string>)
    ensures forall i, j :: 0 <= i < j < |r| ==> Lt(r[i], r[j])
    ensures forall v :: v in r <==> v != "" && CountLabelled(cases, Present(f), v) > 0
  {
    var values := Filter(NonEmpty, Labels(cases, Present(f)));
    var distinct := Keys(Tally(values));
    assert DistinctBy(distinct, Identity);
    SortByDistinct(distinct, Identity, Identity);
    SortByMembers(distinct, Identity);
    forall v ensures v in values <==> v != "" && CountLabelled(cases, Present(f), v) > 0 {
      LabelsCount(cases, Present(f), v);
    }
    SortBy(distinct, Identity)
  }
}
