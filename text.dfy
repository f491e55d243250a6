/** String helpers of the record layer: C-locale lower-casing, the integer
    parser `std::stoi`, the integer printer `ss << n`, and the two syntactic
    validators for event dates and times. */
module Text {
  import opened Wrappers

  const INT_MIN: int := -0x8000_0000
  const INT_MAX: int := 0x7fff_ffff

  /** The range of a C++ `int` on the platforms the program targets. */
  predicate IsInt32(n: int) {
    INT_MIN <= n <= INT_MAX
  }

  predicate IsDigit(c: char) {
    '0' <= c <= '9'
  }

  /** The characters `isspace` accepts in the "C" locale. */
  predicate IsSpace(c: char) {
    c == ' ' || c == '\t' || c == '\n' || c == '\U{000B}' || c == '\U{000C}' || c == '\r'
  }

  predicate AllDigits(s: string) {
    forall i :: 0 <= i < |s| ==> IsDigit(s[i])
  }

  /** Text that `ss << n` can produce: an optional minus sign, then digits. */
  predicate IsNumeral(s: string) {
    s != [] && (s[0] == '-' || IsDigit(s[0])) && forall i :: 0 < i < |s| ==> IsDigit(s[i])
  }

  function DigitValue(c: char): (d: nat)
    requires IsDigit(c)
    ensures d < 10
  {
    c as int - '0' as int
  }

  function DigitChar(d: nat): (c: char)
    requires d < 10
    ensures IsDigit(c) && DigitValue(c) == d
  {
    ('0' as int + d) as char
  }

  /** The value of a run of decimal digits, most significant digit first. */
  function DigitsValue(s: string): nat
    requires AllDigits(s)
  {
    if s == [] then 0 else DigitsValue(s[..|s| - 1]) * 10 + DigitValue(s[|s| - 1])
  }

  function Pow10(n: nat): (p: nat)
    ensures p >= 1
  {
    if n == 0 then 1 else 10 * Pow10(n - 1)
  }

  /** `n` digits never exceed 10^n - 1. */
  lemma {:induction false} DigitsValueBound(s: string)
    requires AllDigits(s)
    ensures DigitsValue(s) < Pow10(|s|)
  {
    if s != [] {
      DigitsValueBound(s[..|s| - 1]);
    }
  }

  /** The decimal text of a non-negative number, as `ss << n` writes it. */
  function NatToString(n: nat): (r: string)
    ensures r != [] && AllDigits(r) && DigitsValue(r) == n
    decreases n
  {
    if n < 10 then [DigitChar(n)]
    else
      var prefix := NatToString(n / 10);
      var r := prefix + [DigitChar(n % 10)];
      assert r[..|r| - 1] == prefix;
      r
  }

  /** The decimal text of an int, with a leading '-' when it is negative. */
  function IntToString(n: int): (r: string)
    ensures IsNumeral(r)
    ensures (r[0] == '-') == (n < 0)
  {
    if n < 0 then "-" + NatToString(-n) else NatToString(n)
  }

  /** The first index at or after `i` that does not hold a space. */
  function SkipSpaces(s: string, i: nat): (k: nat)
    requires i <= |s|
    ensures i <= k <= |s|
    ensures forall j :: i <= j < k ==> IsSpace(s[j])
    ensures k < |s| ==> !IsSpace(s[k])
    decreases |s| - i
  {
    if i < |s| && IsSpace(s[i]) then SkipSpaces(s, i + 1) else i
  }

  /** The first index at or after `i` that does not hold a digit. */
  function DigitRunEnd(s: string, i: nat): (k: nat)
    requires i <= |s|
    ensures i <= k <= |s|
    ensures AllDigits(s[i..k])
    ensures k < |s| ==> !IsDigit(s[k])
    decreases |s| - i
  {
    if i < |s| && IsDigit(s[i]) then
      var k := DigitRunEnd(s, i + 1);
      assert s[i..k] == [s[i]] + s[i + 1..k];
      k
    else i
  }

  /** `std::stoi(s)`: skips leading spaces, reads an optional sign and then
      decimal digits up to the first non-digit. It fails (None, where the C++
      throws) when no digit follows the sign, or when the value is outside
      the range of an int. */
  function Stoi(s: string): (r: Option<int>)
    ensures r.Some? ==> IsInt32(r.value)
    ensures r.Some? ==> exists k :: 0 <= k < |s| && IsDigit(s[k])
  {
    var i := SkipSpaces(s, 0);
    var signed := i < |s| && (s[i] == '-' || s[i] == '+');
    var j := if signed then i + 1 else i;
    var k := DigitRunEnd(s, j);
    if k == j then None
    else
      assert IsDigit(s[j]) by { assert s[j..k][0] == s[j]; }
      var magnitude: int := DigitsValue(s[j..k]);
      var n := if signed && s[i] == '-' then -magnitude else magnitude;
      if IsInt32(n) then Some(n) else None
  }

  lemma {:induction false} DigitRunEndOver(s: string, i: nat, d: nat)
    requires i + d <= |s|
    requires AllDigits(s[i..i + d])
    requires i + d == |s| || !IsDigit(s[i + d])
    ensures DigitRunEnd(s, i) == i + d
    decreases d
  {
    if d > 0 {
      assert s[i] == s[i..i + d][0];
      assert s[i + 1..i + d] == s[i..i + d][1..];
      DigitRunEndOver(s, i + 1, d - 1);
    }
  }

  /** Parsing what the printer wrote gives the number back, whatever follows
      it, as long as it does not start with a digit: `stoi` stops at the first
      non-digit. */
  lemma StoiOfNumeral(n: int, rest: string)
    requires IsInt32(n)
    requires rest == [] || !IsDigit(rest[0])
    ensures Stoi(IntToString(n) + rest) == Some(n)
  {
    var digits := NatToString(if n < 0 then -n else n);
    var s := IntToString(n) + rest;
    var j := if n < 0 then 1 else 0;
    assert s[j..j + |digits|] == digits;
    assert SkipSpaces(s, 0) == 0;
    DigitRunEndOver(s, j, |digits|);
  }

  /** On a plain run of digits `stoi` returns its value when it fits. */
  lemma StoiOfDigits(s: string)
    requires s != [] && AllDigits(s)
    requires DigitsValue(s) <= INT_MAX
    ensures Stoi(s) == Some(DigitsValue(s))
  {
    assert SkipSpaces(s, 0) == 0;
    DigitRunEndOver(s, 0, |s|);
    assert s[0..|s|] == s;
  }

  /** `stoi` fails on a text with no digit at all, such as "", "ERROR" or "-". */
  lemma StoiWithoutDigits(s: string)
    requires forall k :: 0 <= k < |s| ==> !IsDigit(s[k])
    ensures Stoi(s) == None
  {
  }

  function LowerChar(c: char): char {
    if 'A' <= c <= 'Z' then (c as int + 32) as char else c
  }

  /** `toLower`: maps each of 'A'..'Z' to its lower-case letter and keeps
      everything else, as `tolower` does in the "C" locale. */
  function ToLower(s: string): (r: string)
    ensures |r| == |s|
    ensures forall i :: 0 <= i < |s| ==> r[i] == LowerChar(s[i])
  {
    if s == [] then [] else ToLower(s[..|s| - 1]) + [LowerChar(s[|s| - 1])]
  }

  /** Lower-casing twice is lower-casing once, so the case-insensitive name
      comparison used for attendee matching is an equivalence. */
  lemma ToLowerIdempotent(s: string)
    ensures ToLower(ToLower(s)) == ToLower(s)
  {
  }

  /** `isValidDate`: length 10, '-' at positions 4 and 7, and the three
      fields, each read by `stoi`, in [1900,2100], [1,12] and [1,31]. A field
      `stoi` rejects makes the date invalid. */
  predicate IsValidDate(date: string) {
    && |date| == 10
    && date[4] == '-' && date[7] == '-'
    && var year, month, day := Stoi(date[0..4]), Stoi(date[5..7]), Stoi(date[8..10]);
       && year.Some? && month.Some? && day.Some?
       && 1900 <= year.value <= 2100
       && 1 <= month.value <= 12
       && 1 <= day.value <= 31
  }

  /** `isValidTime`: length 5, ':' at position 2, hour in [0,23] and minute
      in [0,59], each read by `stoi`. */
  predicate IsValidTime(time: string) {
    && |time| == 5
    && time[2] == ':'
    && var hour, minute := Stoi(time[0..2]), Stoi(time[3..5]);
       && hour.Some? && minute.Some?
       && 0 <= hour.value <= 23
       && 0 <= minute.value <= 59
  }

  /** A date written strictly as YYYY-MM-DD with digits. */
  predicate IsDigitDate(date: string) {
    && |date| == 10 && date[4] == '-' && date[7] == '-'
    && AllDigits(date[0..4]) && AllDigits(date[5..7]) && AllDigits(date[8..10])
  }

  /** For a strictly written date, `isValidDate` is exactly the range check
      on the three numbers. */
  lemma DigitDateValidity(date: string)
    requires IsDigitDate(date)
    ensures IsValidDate(date) <==>
      && 1900 <= DigitsValue(date[0..4]) <= 2100
      && 1 <= DigitsValue(date[5..7]) <= 12
      && 1 <= DigitsValue(date[8..10]) <= 31
  {
    DigitsValueBound(date[0..4]);
    DigitsValueBound(date[5..7]);
    DigitsValueBound(date[8..10]);
    assert Pow10(4) == 10000;
    StoiOfDigits(date[0..4]);
    StoiOfDigits(date[5..7]);
    StoiOfDigits(date[8..10]);
  }

  /** A time written strictly as HH:MM with digits. */
  predicate IsDigitTime(time: string) {
    |time| == 5 && time[2] == ':' && AllDigits(time[0..2]) && AllDigits(time[3..5])
  }

  /** For a strictly written time, `isValidTime` is exactly the range check. */
  lemma DigitTimeValidity(time: string)
    requires IsDigitTime(time)
    ensures IsValidTime(time) <==>
      0 <= DigitsValue(time[0..2]) <= 23 && 0 <= DigitsValue(time[3..5]) <= 59
  {
    DigitsValueBound(time[0..2]);
    DigitsValueBound(time[3..5]);
    StoiOfDigits(time[0..2]);
    StoiOfDigits(time[3..5]);
  }

  lemma DigitsValueOf2025()
    ensures AllDigits("2025") && DigitsValue("2025") == 2025
  {
    assert "2025"[..3] == "202" && "202"[..2] == "20" && "20"[..1] == "2" && "2"[..0] == "";
  }

  /** `stoi` on a text that starts with `k` digits followed by something
      that is not a digit. */
  lemma StoiOfDigitPrefix(s: string, k: nat)
    requires 0 < k <= |s| && AllDigits(s[..k]) && (k == |s| || !IsDigit(s[k]))
    requires DigitsValue(s[..k]) <= INT_MAX
    ensures Stoi(s) == Some(DigitsValue(s[..k]))
  {
    assert IsDigit(s[..k][0]);
    assert SkipSpaces(s, 0) == 0;
    assert s[0..k] == s[..k];
    DigitRunEndOver(s, 0, k);
  }

  /** The same after a '+' sign. */
  lemma StoiOfPlusPrefix(s: string, k: nat)
    requires 1 < k <= |s| && s[0] == '+' && AllDigits(s[1..k]) && (k == |s| || !IsDigit(s[k]))
    requires DigitsValue(s[1..k]) <= INT_MAX
    ensures Stoi(s) == Some(DigitsValue(s[1..k]))
  {
    assert SkipSpaces(s, 0) == 0;
    DigitRunEndOver(s, 1, k - 1);
  }

  /** `isValidDate` on a date whose three fields convert. */
  lemma DateOfFields(date: string, year: int, month: int, day: int)
    requires |date| == 10 && date[4] == '-' && date[7] == '-'
    requires Stoi(date[0..4]) == Some(year) && Stoi(date[5..7]) == Some(month) && Stoi(date[8..10]) == Some(day)
    ensures IsValidDate(date) <==> 1900 <= year <= 2100 && 1 <= month <= 12 && 1 <= day <= 31
  {
  }

  lemma StoiOf2025()
    ensures Stoi("2025") == Some(2025)
  {
    DigitsValueOf2025();
    StoiOfDigits("2025");
  }

  lemma StoiOf05()
    ensures Stoi("05") == Some(5)
  {
    assert "05"[..1] == "0" && "0"[..0] == "";
    assert DigitsValue("0") == 0 && DigitsValue("05") == 5;
    StoiOfDigits("05");
  }

  lemma StoiOf1x()
    ensures Stoi("1x") == Some(1)
  {
    assert "1x"[..1] == "1" && "1"[..0] == "";
    assert DigitsValue("1") == 1;
    StoiOfDigitPrefix("1x", 1);
  }

  /** The checks are only syntactic: a field that starts with a digit and
      goes on with something else passes, because `stoi` stops at the first
      non-digit. */
  lemma DateFieldMayEndInJunk()
    ensures IsValidDate("2025-1x-05")
  {
    var d := "2025-1x-05";
    assert |d| == 10 && d[4] == '-' && d[7] == '-';
    assert d[0..4] == "2025";
    assert d[5..7] == "1x";
    assert d[8..10] == "05";
    StoiOf2025();
    StoiOf1x();
    StoiOf05();
    DateOfFields(d, 2025, 1, 5);
  }

  lemma StoiOf02()
    ensures Stoi("02") == Some(2)
  {
    assert "02"[..1] == "0" && "0"[..0] == "";
    assert DigitsValue("0") == 0 && DigitsValue("02") == 2;
    StoiOfDigits("02");
  }

  lemma StoiOf31()
    ensures Stoi("31") == Some(31)
  {
    assert "31"[..1] == "3" && "3"[..0] == "";
    assert DigitsValue("3") == 3 && DigitsValue("31") == 31;
    StoiOfDigits("31");
  }

  /** There is no month-length check: 31 February passes. */
  lemma NoMonthLengthCheck()
    ensures IsValidDate("2025-02-31")
  {
    var d := "2025-02-31";
    assert |d| == 10 && d[4] == '-' && d[7] == '-';
    assert d[0..4] == "2025";
    assert d[5..7] == "02";
    assert d[8..10] == "31";
    StoiOf2025();
    StoiOf02();
    StoiOf31();
    DateOfFields(d, 2025, 2, 31);
  }

  /** A signed one-digit field and a digit followed by junk pass as a time. */
  lemma TimeFieldsMayBeSignedOrEndInJunk()
    ensures IsValidTime("9a:+5")
  {
    var t := "9a:+5";
    assert t[0..2] == "9a" && t[3..5] == "+5";
    assert "9a"[..1] == "9" && "9"[..0] == "";
    assert DigitsValue("9") == 9;
    StoiOfDigitPrefix("9a", 1);
    assert "+5"[1..2] == "5" && "5"[..0] == "";
    assert DigitsValue("5") == 5;
    StoiOfPlusPrefix("+5", 2);
  }
}
