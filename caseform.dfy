/**
 * The case form of CaseForm.tsx: its `formData` state, the date-input
 * formatter, the status rule, loading a case for editing, and the clean-up
 * on submit. The current month, rendered `YYYY/MM` as the form's
 * `new Date().toISOString().slice(0, 7).replace('-', '/')` does, is a
 * parameter `today`.
 */
module FormState {
  import opened Options
  import opened Strings
  import opened Seqs
  import opened Cases
  import opened Dates

  // ---------------------------------------------------------------------
  // handleDateChange
  // ---------------------------------------------------------------------

  /** `value.replace(/[^0-9]/g, '')`. */
  function KeepDigits(s: string): (r: string)
    ensures AllDigits(r) && |r| <= |s|
  {
    if s == [] then []
    else if IsDigit(s[0]) then [s[0]] + KeepDigits(s[1..])
    else KeepDigits(s[1..])
  }

  /** The digits of `s` survive, in their order and with their multiplicities, and nothing else does. */
  lemma {:induction false} KeepDigitsIsFilter(s: string)
    ensures KeepDigits(s) == Filter(IsDigit, s)
  {
    if s != [] {
      KeepDigitsIsFilter(s[1..]);
    }
  }

  lemma {:induction false} KeepDigitsOfDigits(s: string)
    requires AllDigits(s)
    ensures KeepDigits(s) == s
  {
    if s != [] {
      KeepDigitsOfDigits(s[1..]);
      assert s == [s[0]] + s[1..];
    }
  }

  lemma {:induction false} KeepDigitsConcat(s: string, t: string)
    ensures KeepDigits(s + t) == KeepDigits(s) + KeepDigits(t)
  {
    if s == [] {
      assert s + t == t;
    } else {
      assert (s + t)[0] == s[0] && (s + t)[1..] == s[1..] + t;
      KeepDigitsConcat(s[1..], t);
    }
  }

  /** At most six digits, with a slash after the fourth when there are more than four. */
  function FormatDateInput(input: string): string {
    var digits := KeepDigits(input);
    var val := if |digits| > 6 then digits[..6] else digits;
    if |val| > 4 then val[..4] + "/" + val[4..] else val
  }

  /**
   * The formatted value keeps the first six digits typed, drops everything
   * else, and has a slash exactly at position 4 when more than four digits
   * were typed: at most seven characters.
   */
  lemma FormatDateInputShape(input: string)
    ensures var r := FormatDateInput(input);
      var n := |KeepDigits(input)|;
      && |r| <= 7
      && (n <= 4 ==> r == KeepDigits(input))
      && (n > 4 ==> |r| == (if n > 6 then 6 else n) + 1 && r[4] == '/'
                    && AllDigits(r[..4]) && AllDigits(r[5..])
                    && r[..4] + r[5..] == KeepDigits(input)[..|r| - 1])
  {
    var digits := KeepDigits(input);
    var val := if |digits| > 6 then digits[..6] else digits;
    if |val| > 4 {
      var r := val[..4] + "/" + val[4..];
      assert r[..4] == val[..4] && r[5..] == val[4..];
      assert val[..4] + val[4..] == val;
    }
  }

  /** Re-formatting a formatted value changes nothing: typing into the field never drifts. */
  lemma FormatDateInputIdempotent(input: string)
    ensures FormatDateInput(FormatDateInput(input)) == FormatDateInput(input)
  {
    var digits := KeepDigits(input);
    var val := if |digits| > 6 then digits[..6] else digits;
    assert AllDigits(val);
    if |val| > 4 {
      KeepDigitsOfDigits(val[..4]);
      KeepDigitsOfDigits(val[4..]);
      assert KeepDigits("/") == [];
      KeepDigitsConcat(val[..4], "/");
      KeepDigitsConcat(val[..4] + "/", val[4..]);
      assert val[..4] + val[4..] == val;
    } else {
      KeepDigitsOfDigits(val);
    }
  }

  /** Six digits typed in any way become a canonical `YYYY/MM` token. */
  lemma SixDigitsFormatCanonical(input: string)
    requires |KeepDigits(input)| >= 6
    ensures IsCanonical(FormatDateInput(input))
  {
    FormatDateInputShape(input);
  }

  /**
   * The formatter's output holds only digits and `/`, so a date field the
   * form itself fills never carries white space.
   */
  lemma FormatDateInputUnspaced(input: string)
    ensures var r := FormatDateInput(input);
      forall k :: 0 <= k < |r| ==> !IsSpace(r[k])
  {
    FormatDateInputShape(input);
    var r := FormatDateInput(input);
    forall k | 0 <= k < |r| ensures !IsSpace(r[k]) {
      if |KeepDigits(input)| > 4 {
        if k < 4 {
          assert r[k] == r[..4][k];
        } else if k > 4 {
          assert r[k] == r[5..][k - 5];
        }
      }
    }
  }

  // ---------------------------------------------------------------------
  // handleSubmit
  // ---------------------------------------------------------------------

  /** The date fields the submit handler revisits, in its order. */
  const DateFields: seq<Field> := [FechaIngreso, FechaBaja]

  /**
   * The date clean-up of one field: a non-empty value other than `'-'` that
   * matches the pattern is rewritten to `YYYY/MM`. The pattern runs on the
   * value as typed, before the trim below.
   */
  function SubmitDate(v: Option<string>): Option<string> {
    if v.Some? && v.value != "" && v.value != "-" && MatchYearMonth(v.value).Some? then
      Some(Canonical(MatchYearMonth(v.value).value))
    else v
  }

  /** `if (typeof v === 'string') v = v.trim()`: an absent field stays absent. */
  function TrimValue(v: Option<string>): Option<string> {
    match v
    case None => None
    case Some(s) => Some(Trim(s))
  }

  /** A date field's value after the date clean-up; other fields as they are. */
  function Dated(f: Field, v: Option<string>): Option<string> {
    if f in DateFields then SubmitDate(v) else v
  }

  /** The record after the date loop of `handleSubmit`. */
  function DatedForm(form: PatientCase): PatientCase {
    form.(fechaIngreso := SubmitDate(Some(form.fechaIngreso)).value, fechaBaja := SubmitDate(form.fechaBaja))
  }

  lemma DatedFormFieldOf(form: PatientCase, f: Field)
    ensures FieldOf(DatedForm(form), f) == Dated(f, FieldOf(form, f))
  {
  }

  /** A record whose every field is the date clean-up of the form's is the dated form. */
  lemma DatedFormByFields(form: PatientCase, c: PatientCase)
    requires forall g :: FieldOf(c, g) == Dated(g, FieldOf(form, g))
    ensures c == DatedForm(form)
  {
    forall g ensures FieldOf(c, g) == FieldOf(DatedForm(form), g) {
      DatedFormFieldOf(form, g);
    }
    SameFieldsSameCase(c, DatedForm(form));
  }

  /** The record after the trim loop of `handleSubmit`: every text field trimmed. */
  function TrimmedForm(c: PatientCase): PatientCase {
    PatientCase(
      Trim(c.id), Trim(c.pjs), Trim(c.ciudad), Trim(c.fechaIngreso),
      TrimValue(c.fechaBaja), Trim(c.medico), Trim(c.aseguradora),
      Trim(c.sector), Trim(c.institucion), Trim(c.dispensacion),
      Trim(c.distribuidor), Trim(c.indicacion), Trim(c.dosis), Trim(c.status))
  }

  lemma TrimmedFormFieldOf(c: PatientCase, f: Field)
    ensures FieldOf(TrimmedForm(c), f) == TrimValue(FieldOf(c, f))
  {
  }

  /** A record whose every field is the trim of the matching field of `c` is the trimmed form. */
  lemma TrimmedFormByFields(c: PatientCase, d: PatientCase)
    requires forall g :: FieldOf(d, g) == TrimValue(FieldOf(c, g))
    ensures d == TrimmedForm(c)
  {
    forall g ensures FieldOf(d, g) == FieldOf(TrimmedForm(c), g) {
      TrimmedFormFieldOf(c, g);
    }
    SameFieldsSameCase(d, TrimmedForm(c));
  }

  /** One turn of the trim loop: the field at position `j` joins the trimmed ones. */
  lemma TrimLoopStep(dated: PatientCase, before: PatientCase, after: PatientCase, j: nat)
    requires j < |AllFields|
    requires forall g ::
      FieldOf(before, g) == (if FieldIndex(g) < j then TrimValue(FieldOf(dated, g)) else FieldOf(dated, g))
    requires forall g ::
      FieldOf(after, g) == (if g == AllFields[j] then TrimValue(FieldOf(before, g)) else FieldOf(before, g))
    ensures forall g ::
      FieldOf(after, g) == (if FieldIndex(g) < j + 1 then TrimValue(FieldOf(dated, g)) else FieldOf(dated, g))
  {
    FieldIndexOfAllFields(j);
  }

  /** What `TrimValue` yields: presence kept, and no white space at either end. */
  lemma TrimValueIsTrimmed(v: Option<string>)
    ensures TrimValue(v).Some? <==> v.Some?
    ensures TrimValue(v).Some? ==> var t := TrimValue(v).value;
      t == [] || (!IsSpace(t[0]) && !IsSpace(t[|t| - 1]))
  {
  }

  /** The record `handleSubmit` hands to `onSubmit`. */
  function Submitted(form: PatientCase): PatientCase {
    TrimmedForm(DatedForm(form))
  }

  /** Field by field, the submitted record is the date clean-up followed by the trim. */
  lemma SubmittedFieldOf(form: PatientCase, f: Field)
    ensures FieldOf(Submitted(form), f) == TrimValue(Dated(f, FieldOf(form, f)))
  {
    TrimmedFormFieldOf(DatedForm(form), f);
    DatedFormFieldOf(form, f);
  }

  /** No submitted text starts or ends with white space, and only an absent field is absent. */
  lemma SubmittedIsTrimmed(form: PatientCase, f: Field)
    ensures var v := FieldOf(Submitted(form), f);
      && (v.Some? <==> FieldOf(form, f).Some?)
      && (v.Some? ==> v.value == [] || (!IsSpace(v.value[0]) && !IsSpace(v.value[|v.value| - 1])))
  {
    SubmittedFieldOf(form, f);
    TrimValueIsTrimmed(Dated(f, FieldOf(form, f)));
  }

  /** A value the pattern recognises is cleaned to its canonical token, which the trim leaves alone. */
  lemma CleanedMatch(v: string)
    requires MatchYearMonth(v).Some?
    ensures TrimValue(SubmitDate(Some(v))) == Some(Canonical(MatchYearMonth(v).value))
  {
    var m := MatchYearMonth(v).value;
    var t := Canonical(m);
    assert t[0] == m.year[0];
    assert !IsSpace(t[0]) by { assert IsDigit(m.year[0]); }
    assert !IsSpace(t[|t| - 1]) by {
      assert t[|t| - 1] == PadStart2(m.month)[1];
    }
    TrimOfTrimmed(t);
  }

  /** A date typed as `YYYY-M`, `YYYY/MM` and the like is submitted as the canonical token of its year and month. */
  lemma SubmittedDateCanonical(form: PatientCase, f: Field)
    requires f in DateFields && FieldOf(form, f).Some?
    requires MatchYearMonth(FieldOf(form, f).value).Some?
    ensures var m := MatchYearMonth(FieldOf(form, f).value).value;
      var v := FieldOf(Submitted(form), f);
      && v.Some? && IsCanonical(v.value)
      && CanonicalYear(v.value) == DigitsValue(m.year)
      && CanonicalMonth(v.value) == DigitsValue(m.month)
  {
    SubmittedFieldOf(form, f);
    CleanedMatch(FieldOf(form, f).value);
    CanonicalOfMatch(MatchYearMonth(FieldOf(form, f).value).value);
  }

  /** `" YYYY/M"` misses the pattern, which wants a digit first, and is only trimmed. */
  lemma LeadingSpaceCleansToUnpadded(year: string, d: char)
    requires |year| == 4 && AllDigits(year) && IsDigit(d)
    ensures TrimValue(SubmitDate(Some([' '] + year + "/" + [d]))) == Some(year + "/" + [d])
  {
    var t := year + "/" + [d];
    var v := [' '] + t;
    assert v == [' '] + year + "/" + [d];
    assert MatchYearMonth(v).None? by { assert v[..4][0] == ' '; }
    assert t[0] == year[0] && t[|t| - 1] == d;
    TrimOfPadded(t);
  }

  lemma TrimOfPadded(t: string)
    requires t != [] && !IsSpace(t[0]) && !IsSpace(t[|t| - 1])
    ensures Trim([' '] + t) == t
  {
    assert ([' '] + t)[1..] == t;
    TrimOfTrimmed(t);
  }

  /** `"YYYY/M"` matches and has its month padded. */
  lemma UnpaddedCleansToCanonical(year: string, d: char)
    requires |year| == 4 && AllDigits(year) && IsDigit(d)
    ensures TrimValue(SubmitDate(Some(year + "/" + [d]))) == Some(year + "/0" + [d])
  {
    var t := year + "/" + [d];
    assert MatchYearMonth(t) == Some(YearMonthMatch(year, [d])) by {
      assert t[..4] == year && t[4] == '/' && t[5] == d && t[5..6] == [d];
    }
    CleanedMatch(t);
    assert Canonical(YearMonthMatch(year, [d])) == year + "/0" + [d] by {
      assert PadStart2([d]) == "0" + [d];
      assert year + "/" + ("0" + [d]) == year + "/0" + [d];
    }
  }

  /**
   * `handleSubmit` runs the pattern before the trim, so on a form value whose
   * date starts with a space it is not idempotent: `" 2024/1"` is sent as
   * `"2024/1"`, and submitting that again would give `"2024/01"`. The form's
   * own handlers never build such a value (see `FormatDateInputUnspaced`);
   * this is a property of the submit step alone.
   */
  lemma LeadingSpaceSkipsDateCleanUp(form: PatientCase, year: string, d: char)
    requires |year| == 4 && AllDigits(year) && IsDigit(d)
    requires form.fechaIngreso == [' '] + year + "/" + [d]
    ensures Submitted(form).fechaIngreso == year + "/" + [d]
    ensures Submitted(Submitted(form)).fechaIngreso == year + "/0" + [d]
  {
    SubmittedFieldOf(form, FechaIngreso);
    LeadingSpaceCleansToUnpadded(year, d);
    SubmittedFieldOf(Submitted(form), FechaIngreso);
    UnpaddedCleansToCanonical(year, d);
  }

  // ---------------------------------------------------------------------
  // The form
  // ---------------------------------------------------------------------

  /** The record a new form starts from; the form of a new case has no id, written `""`. */
  function DefaultForm(today: string): (r: PatientCase)
    ensures r.status == ACTIVO && r.sector == "Público" && r.fechaIngreso == today && r.fechaBaja == Some("")
    ensures forall f :: f !in {FechaIngreso, FechaBaja, Sector, Status} ==> FieldOf(r, f) == Some("")
  {
    PatientCase("", "", "", today, Some(""), "", "", "Público", "", "", "", "", "", ACTIVO)
  }

  /** The form of a case being edited: its two dates passed through `cleanDate`. */
  function LoadedForm(initial: PatientCase, parse: DateParser): PatientCase {
    initial.(fechaIngreso := CleanDate(Some(initial.fechaIngreso), parse),
             fechaBaja := Some(CleanDate(initial.fechaBaja, parse)))
  }

  /** Loading keeps every field but the dates, and both dates become text: `cleanDate` never yields `undefined`. */
  lemma LoadedFormKeepsFields(initial: PatientCase, parse: DateParser)
    ensures forall f :: f != FechaIngreso && f != FechaBaja ==> FieldOf(LoadedForm(initial, parse), f) == FieldOf(initial, f)
    ensures FieldOf(LoadedForm(initial, parse), FechaBaja).Some?
    ensures IsBlank(initial.fechaBaja) ==> LoadedForm(initial, parse).fechaBaja == Some("")
  {
    DatesReplacedKeepFields(initial, CleanDate(Some(initial.fechaIngreso), parse), CleanDate(initial.fechaBaja, parse));
  }

  lemma DatesReplacedKeepFields(c: PatientCase, ingreso: string, baja: string)
    ensures forall f :: f != FechaIngreso && f != FechaBaja ==>
      FieldOf(c.(fechaIngreso := ingreso, fechaBaja := Some(baja)), f) == FieldOf(c, f)
  {
  }

  /** `handleChange`: set the named field; a status change also resets the discharge date. */
  function Changed(form: PatientCase, name: Field, value: string, today: string): PatientCase {
    var newData := WithField(form, name, value);
    if name == Status then newData.(fechaBaja := Some(if value == BAJA then today else "")) else newData
  }

  /**
   * The status rule: choosing `BAJA` dates the discharge today, choosing
   * anything else clears it; any other change touches only its own field.
   */
  lemma ChangedTouchesOnlyItsFields(form: PatientCase, name: Field, value: string, today: string)
    ensures var r := Changed(form, name, value, today);
      && FieldOf(r, name) == Some(value)
      && (name == Status ==> r.fechaBaja == Some(if value == BAJA then today else ""))
      && (forall g :: g != name && (name != Status || g != FechaBaja) ==> FieldOf(r, g) == FieldOf(form, g))
  {
  }

  /** The fields whose inputs call `handleChange`: the nine comboboxes and the sector and status selects. */
  const ChangeFields: set<Field> := {
    Pjs, Ciudad, Medico, Aseguradora, Institucion, Dispensacion, Distribuidor, Indicacion, Dosis, Sector, Status}

  class CaseForm {
    var formData: PatientCase

    /** `useState` with the default record. */
    constructor (today: string)
      ensures formData == DefaultForm(today)
    {
      formData := DefaultForm(today);
    }

    /** The `useEffect` on `initialData`: load the case being edited, if any. */
    method LoadInitial(initialData: Option<PatientCase>, parse: DateParser)
      modifies this
      ensures initialData.Some? ==> formData == LoadedForm(initialData.value, parse)
      ensures initialData.None? ==> formData == old(formData)
    {
      if initialData.Some? {
        var initial := initialData.value;
        formData := initial.(fechaIngreso := CleanDate(Some(initial.fechaIngreso), parse),
                             fechaBaja := Some(CleanDate(initial.fechaBaja, parse)));
      }
    }

    /** `handleChange`. */
    method HandleChange(name: Field, value: string, today: string)
      requires name in ChangeFields
      modifies this
      ensures formData == Changed(old(formData), name, value, today)
    {
      var newData := WithField(formData, name, value);
      if name == Status {
        newData := newData.(fechaBaja := Some(if value == BAJA then today else ""));
      }
      formData := newData;
    }

    /** `handleDateChange`: store the formatted digits in the named date field. */
    method HandleDateChange(name: Field, input: string)
      requires name in DateFields
      modifies this
      ensures formData == WithField(old(formData), name, FormatDateInput(input))
    {
      var val := KeepDigits(input);
      if |val| > 6 {
        val := val[..6];
      }
      var fmt := val;
      if |val| > 4 {
        fmt := val[..4] + "/" + val[4..];
      }
      formData := WithField(formData, name, fmt);
    }

    /**
     * `handleSubmit`: rewrite the date fields that match the pattern, then
     * trim every text field; the form itself is left as it is.
     */
    method HandleSubmit() returns (cleanData: PatientCase)
      ensures cleanData == Submitted(formData)
    {
      cleanData := formData;
      var i := 0;
      while i < |DateFields|
        invariant 0 <= i <= |DateFields|
        invariant forall g ::
          FieldOf(cleanData, g) == (if g in DateFields[..i] then SubmitDate(FieldOf(formData, g)) else FieldOf(formData, g))
      {
        var field := DateFields[i];
        var val := FieldOf(cleanData, field);
        assert val == FieldOf(formData, field);
        if val.Some? && val.value != "" && val.value != "-" {
          var match_ := MatchYearMonth(val.value);
          if match_.Some? {
            cleanData := WithField(cleanData, field, Canonical(match_.value));
          }
        }
        i := i + 1;
      }
      assert DateFields[..i] == DateFields;
      DatedFormByFields(formData, cleanData);
      ghost var dated := cleanData;
      var j := 0;
      while j < |AllFields|
        invariant 0 <= j <= |AllFields|
        invariant forall g ::
          FieldOf(cleanData, g) == (if FieldIndex(g) < j then TrimValue(FieldOf(dated, g)) else FieldOf(dated, g))
      {
        var k := AllFields[j];
        var val := FieldOf(cleanData, k);
        ghost var before := cleanData;
        if val.Some? {
          cleanData := WithField(cleanData, k, Trim(val.value));
        }
        TrimLoopStep(dated, before, cleanData, j);
        j := j + 1;
      }
      TrimmedFormByFields(dated, cleanData);
    }
  }
}
