/**
 * The JavaScript string primitives the dashboard relies on: `trim`,
 * `toLowerCase`, `includes`, `padStart`, the relational operators on
 * strings, `String(n)` for integers and `parseInt(s, 10)`.
 */
module Strings {
  import opened Options

  // ---------------------------------------------------------------------
  // Character classes
  // ---------------------------------------------------------------------

  /** An ASCII decimal digit: what `\d` and `[0-9]` match in a non-unicode regular expression. */
  predicate IsDigit(c: char) {
    '0' <= c <= '9'
  }

  predicate AllDigits(s: string) {
    forall i :: 0 <= i < |s| ==> IsDigit(s[i])
  }

  /** The WhiteSpace and LineTerminator code points that `trim` and `parseInt` skip. */
  predicate IsSpace(c: char) {
    || c == '\t' || c == '\n' || c == '\U{000B}' || c == '\U{000C}' || c == '\r' || c == ' '
    || c == '\U{00A0}' || c == '\U{1680}' || ('\U{2000}' <= c <= '\U{200A}')
    || c == '\U{2028}' || c == '\U{2029}' || c == '\U{202F}' || c == '\U{205F}'
    || c == '\U{3000}' || c == '\U{FEFF}'
  }

  // ---------------------------------------------------------------------
  // trim
  // ---------------------------------------------------------------------

  /** `s` without its leading white space. */
  function TrimStart(s: string): (r: string)
    ensures |r| <= |s| && r == s[|s| - |r|..]
    ensures r == [] || !IsSpace(r[0])
    ensures forall i :: 0 <= i < |s| - |r| ==> IsSpace(s[i])
  {
    if |s| > 0 && IsSpace(s[0]) then
      var r := TrimStart(s[1..]);
      assert s[1..][|s[1..]| - |r|..] == s[|s| - |r|..];
      assert forall i :: 1 <= i < |s| ==> s[i] == s[1..][i - 1];
      r
    else s
  }

  /** `s` without its trailing white space. */
  function TrimEnd(s: string): (r: string)
    ensures |r| <= |s| && r == s[..|r|]
    ensures r == [] || !IsSpace(r[|r| - 1])
    ensures forall i :: |r| <= i < |s| ==> IsSpace(s[i])
  {
    if |s| > 0 && IsSpace(s[|s| - 1]) then
      var r := TrimEnd(s[..|s| - 1]);
      assert s[..|s| - 1][..|r|] == s[..|r|];
      assert forall i :: 0 <= i < |s| - 1 ==> s[i] == s[..|s| - 1][i];
      r
    else s
  }

  /** JavaScript's `s.trim()`. */
  function Trim(s: string): (r: string)
    ensures |r| <= |s|
    ensures r == [] || (!IsSpace(r[0]) && !IsSpace(r[|r| - 1]))
  {
    TrimEnd(TrimStart(s))
  }

  /** `trim` removes white space at the two ends and nothing else: the result is a slice of `s` with only white space around it. */
  lemma TrimSlice(s: string)
    ensures exists i, j ::
      && 0 <= i <= j <= |s| && Trim(s) == s[i..j]
      && (forall k :: 0 <= k < i ==> IsSpace(s[k]))
      && (forall k :: j <= k < |s| ==> IsSpace(s[k]))
  {
    var t := TrimStart(s);
    var r := TrimEnd(t);
    var i := |s| - |t|;
    assert r == s[i..i + |r|];
    assert forall k :: i + |r| <= k < |s| ==> s[k] == t[k - i];
  }

  /** A string with no white space at either end is its own trim. */
  lemma TrimOfTrimmed(s: string)
    requires s == [] || (!IsSpace(s[0]) && !IsSpace(s[|s| - 1]))
    ensures Trim(s) == s
  {
  }

  /** Trimming twice is trimming once. */
  lemma TrimIdempotent(s: string)
    ensures Trim(Trim(s)) == Trim(s)
  {
    TrimOfTrimmed(Trim(s));
  }

  // ---------------------------------------------------------------------
  // toLowerCase
  // ---------------------------------------------------------------------

  predicate IsUpper(c: char) {
    'A' <= c <= 'Z' || ('\U{00C0}' <= c <= '\U{00DE}' && c != '\U{00D7}')
  }

  /** Lower-case mapping of the ASCII and Latin-1 capital letters; every other character maps to itself. */
  function LowerChar(c: char): (r: char)
    ensures IsUpper(c) ==> r as int == c as int + 32
    ensures !IsUpper(c) ==> r == c
  {
    if IsUpper(c) then (c as int + 32) as char else c
  }

  /** `s.toLowerCase()`. */
  function Lower(s: string): (r: string)
    ensures |r| == |s|
    ensures forall i :: 0 <= i < |s| ==> r[i] == LowerChar(s[i])
  {
    if s == [] then [] else [LowerChar(s[0])] + Lower(s[1..])
  }

  /** Lower-casing leaves white space alone, so trimming and lower-casing commute. */
  lemma LowerChangesNoSpace(c: char)
    ensures IsSpace(LowerChar(c)) == IsSpace(c)
  {
  }

  // ---------------------------------------------------------------------
  // String order (`<`, `<=`, `>=` on strings, and `Array.prototype.sort`)
  // ---------------------------------------------------------------------

  /** Lexicographic order on code points: a prefix comes first, otherwise the first differing character decides. */
  predicate Le(a: string, b: string) {
    a == [] || (b != [] && (a[0] < b[0] || (a[0] == b[0] && Le(a[1..], b[1..]))))
  }

  predicate Lt(a: string, b: string) {
    Le(a, b) && a != b
  }

  lemma {:induction false} LeReflexive(a: string)
    ensures Le(a, a)
  {
    if a != [] { LeReflexive(a[1..]); }
  }

  lemma {:induction false} LeAntisymmetric(a: string, b: string)
    requires Le(a, b) && Le(b, a)
    ensures a == b
  {
    if a != [] && b != [] {
      LeAntisymmetric(a[1..], b[1..]);
      assert a == [a[0]] + a[1..] && b == [b[0]] + b[1..];
    }
  }

  lemma {:induction false} LeTransitive(a: string, b: string, c: string)
    requires Le(a, b) && Le(b, c)
    ensures Le(a, c)
  {
    if a != [] && b != [] && c != [] && a[0] == b[0] == c[0] {
      LeTransitive(a[1..], b[1..], c[1..]);
    }
  }

  lemma {:induction false} LeTotal(a: string, b: string)
    ensures Le(a, b) || Le(b, a)
  {
    if a != [] && b != [] && a[0] == b[0] {
      LeTotal(a[1..], b[1..]);
    }
  }

  /** For equal-length heads, the heads decide the order unless they are equal. */
  lemma {:induction false} LeConcat(x: string, u: string, y: string, v: string)
    requires |x| == |y|
    ensures Le(x + u, y + v) <==> Lt(x, y) || (x == y && Le(u, v))
  {
    if x == [] {
      assert x + u == u && y + v == v;
    } else {
      assert (x + u)[0] == x[0] && (y + v)[0] == y[0];
      assert (x + u)[1..] == x[1..] + u && (y + v)[1..] == y[1..] + v;
      LeConcat(x[1..], u, y[1..], v);
      if x[0] == y[0] && x[1..] == y[1..] {
        assert x == y by { assert x == [x[0]] + x[1..] && y == [y[0]] + y[1..]; }
      }
      if x == y {
        LeReflexive(x[1..]);
      }
    }
  }

  // ---------------------------------------------------------------------
  // includes
  // ---------------------------------------------------------------------

  predicate StartsWith(s: string, t: string) {
    |t| <= |s| && s[..|t|] == t
  }

  /** `s.includes(t)`. */
  predicate Contains(s: string, t: string)
    decreases |s|
  {
    StartsWith(s, t) || (|s| > 0 && Contains(s[1..], t))
  }

  /** `t` occurs in `s` starting at index `i`. */
  predicate OccursAt(s: string, t: string, i: int) {
    0 <= i && i + |t| <= |s| && s[i..i + |t|] == t
  }

  /** `Contains` finds exactly the occurrences of `t` as a contiguous slice of `s`. */
  lemma {:induction false} ContainsIff(s: string, t: string)
    ensures Contains(s, t) <==> exists i :: OccursAt(s, t, i)
    decreases |s|
  {
    if Contains(s, t) {
      if StartsWith(s, t) {
        assert OccursAt(s, t, 0);
      } else {
        ContainsIff(s[1..], t);
        var j :| OccursAt(s[1..], t, j);
        assert s[j + 1..j + 1 + |t|] == s[1..][j..j + |t|];
        assert OccursAt(s, t, j + 1);
      }
    }
    if exists i :: OccursAt(s, t, i) {
      var i :| OccursAt(s, t, i);
      if i > 0 {
        assert s[1..][i - 1..i - 1 + |t|] == s[i..i + |t|];
        assert OccursAt(s[1..], t, i - 1);
        ContainsIff(s[1..], t);
      } else {
        assert StartsWith(s, t);
      }
    }
  }

  /** Every string includes the empty string. */
  lemma ContainsEmpty(s: string)
    ensures Contains(s, "")
  {
  }

  // ---------------------------------------------------------------------
  // padStart(2, '0')
  // ---------------------------------------------------------------------

  /** `s.padStart(2, '0')`. */
  function PadStart2(s: string): (r: string)
    ensures |s| >= 2 ==> r == s
    ensures |s| < 2 ==> |r| == 2 && r[2 - |s|..] == s && forall i :: 0 <= i < 2 - |s| ==> r[i] == '0'
  {
    if |s| >= 2 then s else if |s| == 1 then "0" + s else "00"
  }

  // ---------------------------------------------------------------------
  // Decimal numerals
  // ---------------------------------------------------------------------

  function DigitValue(c: char): nat
    requires IsDigit(c)
  {
    c as int - '0' as int
  }

  function DigitChar(d: nat): (c: char)
    requires d < 10
    ensures IsDigit(c) && DigitValue(c) == d
  {
    ('0' as int + d) as char
  }

  function Pow10(n: nat): (p: nat)
    ensures p >= 1
  {
    if n == 0 then 1 else 10 * Pow10(n - 1)
  }

  /** The value of a decimal numeral: ten times the value of all but the last digit, plus the last digit. */
  function DigitsValue(s: string): nat
    requires AllDigits(s)
  {
    if s == [] then 0 else 10 * DigitsValue(s[..|s| - 1]) + DigitValue(s[|s| - 1])
  }

  lemma {:induction false} DigitsValueBound(s: string)
    requires AllDigits(s)
    ensures DigitsValue(s) < Pow10(|s|)
  {
    if s != [] {
      DigitsValueBound(s[..|s| - 1]);
    }
  }

  lemma AllDigitsConcat(s: string, t: string)
    requires AllDigits(s) && AllDigits(t)
    ensures AllDigits(s + t)
  {
    forall i | 0 <= i < |s + t| ensures IsDigit((s + t)[i]) {
      if i < |s| { assert (s + t)[i] == s[i]; } else { assert (s + t)[i] == t[i - |s|]; }
    }
  }

  /** Appending a digit multiplies the value by ten and adds the digit. */
  lemma DigitsValueSnoc(s: string, c: char)
    requires AllDigits(s) && IsDigit(c)
    ensures AllDigits(s + [c])
    ensures DigitsValue(s + [c]) == DigitsValue(s) * 10 + DigitValue(c)
  {
    AllDigitsConcat(s, [c]);
    assert (s + [c])[..|s|] == s;
  }

  lemma ShiftDigit(d: int, p: int, r: int, e: int)
    ensures 10 * (d * p + r) + e == d * (10 * p) + (10 * r + e)
  {
  }

  /** Read from the front: the first digit weighs `10^(|s| - 1)`. */
  lemma {:induction false} DigitsValueCons(s: string)
    requires AllDigits(s) && s != []
    ensures DigitsValue(s) == DigitValue(s[0]) * Pow10(|s| - 1) + DigitsValue(s[1..])
  {
    if |s| == 1 {
      assert s[..0] == [] && s[1..] == [];
    } else {
      var init := s[..|s| - 1];
      DigitsValueCons(init);
      assert init[0] == s[0] && init[1..] == s[1..][..|s| - 2];
      var p := Pow10(|s| - 2);
      ShiftDigit(DigitValue(s[0]), p, DigitsValue(init[1..]), DigitValue(s[|s| - 1]));
    }
  }

  lemma StepBelow(x: int, y: int, p: int)
    requires x < y && p >= 1
    ensures x * p + p <= y * p
  {
    var k := y - x;
    assert y * p == x * p + k * p;
    assert k * p == p + (k - 1) * p;
    assert (k - 1) * p >= 0;
  }

  /** Between numerals of the same length, string order is numeric order. */
  lemma {:induction false} DigitsOrder(a: string, b: string)
    requires |a| == |b| && AllDigits(a) && AllDigits(b)
    ensures Le(a, b) <==> DigitsValue(a) <= DigitsValue(b)
  {
    if a != [] {
      DigitsValueBound(a[1..]);
      DigitsValueBound(b[1..]);
      var p := Pow10(|a| - 1);
      var da, db := DigitValue(a[0]), DigitValue(b[0]);
      DigitsValueCons(a);
      DigitsValueCons(b);
      if da < db {
        StepBelow(da, db, p);
      } else if db < da {
        StepBelow(db, da, p);
      } else {
        DigitsOrder(a[1..], b[1..]);
      }
    }
  }

  /** `String(n)` for a natural number: its decimal numeral without leading zeros. */
  function NatToString(n: nat): (r: string)
    ensures |r| > 0 && AllDigits(r)
    ensures r[0] != '-'
    ensures n >= 10 ==> |r| >= 2
  {
    if n < 10 then [DigitChar(n)] else NatToString(n / 10) + [DigitChar(n % 10)]
  }

  lemma {:induction false} NatToStringValue(n: nat)
    ensures DigitsValue(NatToString(n)) == n
  {
    if n < 10 {
      assert NatToString(n)[..0] == [];
    } else {
      NatToStringValue(n / 10);
      DigitsValueSnoc(NatToString(n / 10), DigitChar(n % 10));
    }
  }

  /** `String(i)` for an integer. */
  function IntToString(i: int): (r: string)
    ensures |r| > 0
  {
    if i < 0 then "-" + NatToString(-i) else NatToString(i)
  }

  /** The longest prefix of `s` made of digits. */
  function LeadingDigits(s: string): (r: string)
    ensures AllDigits(r) && |r| <= |s| && r == s[..|r|]
    ensures |r| == |s| || !IsDigit(s[|r|])
  {
    if s != [] && IsDigit(s[0]) then [s[0]] + LeadingDigits(s[1..]) else []
  }

  /** The value of the leading run of digits of `b`, `None` when `b` does not start with a digit. */
  function ParseUnsigned(b: string): Option<nat> {
    var digits := LeadingDigits(b);
    if digits == [] then None else Some(DigitsValue(digits))
  }

  /** An optional sign, then `ParseUnsigned`. */
  function ParseSigned(t: string): Option<int> {
    if |t| > 0 && t[0] == '-' then
      match ParseUnsigned(t[1..])
      case None => None
      case Some(m) => Some(-(m as int))
    else if |t| > 0 && t[0] == '+' then
      match ParseUnsigned(t[1..])
      case None => None
      case Some(m) => Some(m)
    else
      match ParseUnsigned(t)
      case None => None
      case Some(m) => Some(m)
  }

  /**
   * `parseInt(s, 10)`: skip leading white space, read an optional sign, then
   * the longest run of digits; `None` stands for NaN (no digit at all).
   */
  function ParseInt(s: string): Option<int> {
    ParseSigned(TrimStart(s))
  }

  lemma LeadingDigitsOfDigits(s: string)
    requires AllDigits(s)
    ensures LeadingDigits(s) == s
  {
  }

  lemma TrimStartOfUnspaced(s: string)
    requires s != [] && (IsDigit(s[0]) || s[0] == '-')
    ensures TrimStart(s) == s
  {
  }

  lemma ParseUnsignedOfDigits(digits: string)
    requires digits != [] && AllDigits(digits)
    ensures ParseUnsigned(digits) == Some(DigitsValue(digits))
  {
    LeadingDigitsOfDigits(digits);
  }

  /** A non-empty numeral parses to its value. */
  lemma ParseIntOfDigits(digits: string)
    requires digits != [] && AllDigits(digits)
    ensures ParseInt(digits) == Some(DigitsValue(digits))
  {
    assert IsDigit(digits[0]);
    TrimStartOfUnspaced(digits);
    ParseUnsignedOfDigits(digits);
  }

  lemma ParseSignedMinus(body: string)
    ensures ParseSigned(['-'] + body) == match ParseUnsigned(body) case None => None case Some(m) => Some(-(m as int))
  {
    assert (['-'] + body)[1..] == body;
  }

  /** A minus sign before a non-empty numeral parses to the negated value. */
  lemma ParseIntOfNegatedDigits(digits: string)
    requires digits != [] && AllDigits(digits)
    ensures ParseInt(['-'] + digits) == Some(-(DigitsValue(digits) as int))
  {
    TrimStartOfUnspaced(['-'] + digits);
    ParseSignedMinus(digits);
    ParseUnsignedOfDigits(digits);
  }

  /** `parseInt(String(i), 10) === i`: the two conversions are inverse. */
  lemma ParseIntOfIntToString(i: int)
    ensures ParseInt(IntToString(i)) == Some(i)
  {
    var n: nat := if i < 0 then -i else i;
    var digits := NatToString(n);
    NatToStringValue(n);
    if i < 0 {
      assert IntToString(i) == ['-'] + digits;
      ParseIntOfNegatedDigits(digits);
    } else {
      assert IntToString(i) == digits;
      ParseIntOfDigits(digits);
    }
  }
}
