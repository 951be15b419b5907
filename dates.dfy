/** Dates in the manifest: the search for the first `YYYY/MM/DD` substring of a
    line (`re.search(r"\d\d\d\d/\d\d/\d\d", line)`) and its conversion by
    `pd.to_datetime(..., format="%Y/%m/%d")`, which fails on an impossible
    calendar date or on a day outside the range of a pandas Timestamp.
    A parsed date is represented by the integer key y*10000 + m*100 + d, which
    orders valid dates exactly as the calendar does (DateKeyOrder). */
module Dates {
  import opened Wrappers

  predicate IsDigit(c: char)
  {
    '0' <= c <= '9'
  }

  function DigitValue(c: char): nat
    requires IsDigit(c)
  {
    c as int - '0' as int
  }

  /** The pattern `\d\d\d\d/\d\d/\d\d` matches `s` at position `i`. */
  predicate DateAt(s: string, i: nat)
  {
    i + 10 <= |s| &&
    IsDigit(s[i]) && IsDigit(s[i + 1]) && IsDigit(s[i + 2]) && IsDigit(s[i + 3]) && s[i + 4] == '/' &&
    IsDigit(s[i + 5]) && IsDigit(s[i + 6]) && s[i + 7] == '/' &&
    IsDigit(s[i + 8]) && IsDigit(s[i + 9])
  }

  /** The leftmost match at or after `from`, as `re.search` finds it. */
  function FindDateFrom(s: string, from: nat): (r: Option<nat>)
    ensures r.Some? ==> from <= r.value && DateAt(s, r.value)
    ensures r.Some? ==> forall j: nat :: from <= j < r.value ==> !DateAt(s, j)
    ensures r.None? ==> forall j: nat :: from <= j ==> !DateAt(s, j)
    decreases |s| - from
  {
    if |s| < from + 10 then None
    else if DateAt(s, from) then Some(from)
    else FindDateFrom(s, from + 1)
  }

  /** `re.search` over the whole line: the position of the first date, if any. */
  function FindDate(s: string): (r: Option<nat>)
  {
    FindDateFrom(s, 0)
  }

  predicate LeapYear(y: int)
  {
    y % 4 == 0 && (y % 100 != 0 || y % 400 == 0)
  }

  function DaysInMonth(y: int, m: int): int
    requires 1 <= m <= 12
  {
    if m == 2 then (if LeapYear(y) then 29 else 28)
    else if m == 4 || m == 6 || m == 9 || m == 11 then 30
    else 31
  }

  predicate ValidCalendarDate(y: int, m: int, d: int)
  {
    1 <= y && 1 <= m <= 12 && 1 <= d <= DaysInMonth(y, m)
  }

  function DateKey(y: int, m: int, d: int): int
  {
    y * 10000 + m * 100 + d
  }

  /** 1677-09-22 and 2262-04-11: the first and the last midnight a pandas
      Timestamp (nanoseconds in a signed 64-bit integer) can hold. */
  const FirstTimestampDay: int := 16770922
  const LastTimestampDay: int := 22620411

  /** The number a string of decimal digits spells, most significant digit first. */
  function Decimal(ds: string): (r: nat)
    requires forall k :: 0 <= k < |ds| ==> IsDigit(ds[k])
    ensures |ds| == 0 ==> r == 0
  {
    if |ds| == 0 then 0 else 10 * Decimal(ds[..|ds| - 1]) + DigitValue(ds[|ds| - 1])
  }

  /** The two-digit and four-digit readings of a date match, digit by digit. */
  lemma {:induction false} DecimalOfTwo(s: string, i: nat)
    requires i + 2 <= |s| && IsDigit(s[i]) && IsDigit(s[i + 1])
    ensures Decimal(s[i..i + 2]) == 10 * DigitValue(s[i]) + DigitValue(s[i + 1])
  {
    var ds := s[i..i + 2];
    assert ds[..1][..0] == [];
  }

  lemma {:induction false} DecimalOfFour(s: string, i: nat)
    requires i + 4 <= |s| && IsDigit(s[i]) && IsDigit(s[i + 1]) && IsDigit(s[i + 2]) && IsDigit(s[i + 3])
    ensures Decimal(s[i..i + 4]) ==
            1000 * DigitValue(s[i]) + 100 * DigitValue(s[i + 1]) + 10 * DigitValue(s[i + 2]) + DigitValue(s[i + 3])
  {
    var ds := s[i..i + 4];
    assert ds[..3] == s[i..i + 3];
    assert ds[..3][..2] == s[i..i + 2];
    DecimalOfTwo(s, i);
  }

  /** The date written at a match, or None when `pd.to_datetime` would raise. */
  function DateValue(s: string, i: nat): (r: Option<int>)
    requires DateAt(s, i)
    ensures var y, m, d := Decimal(s[i..i + 4]), Decimal(s[i + 5..i + 7]), Decimal(s[i + 8..i + 10]);
      && (r.Some? <==> ValidCalendarDate(y, m, d) && FirstTimestampDay <= DateKey(y, m, d) <= LastTimestampDay)
      && (r.Some? ==> r.value == DateKey(y, m, d))
  {
    var y := 1000 * DigitValue(s[i]) + 100 * DigitValue(s[i + 1]) + 10 * DigitValue(s[i + 2]) + DigitValue(s[i + 3]);
    var m := 10 * DigitValue(s[i + 5]) + DigitValue(s[i + 6]);
    var d := 10 * DigitValue(s[i + 8]) + DigitValue(s[i + 9]);
    DecimalOfFour(s, i);
    DecimalOfTwo(s, i + 5);
    DecimalOfTwo(s, i + 8);
    assert y == Decimal(s[i..i + 4]) && m == Decimal(s[i + 5..i + 7]) && d == Decimal(s[i + 8..i + 10]);
    if ValidCalendarDate(y, m, d) && FirstTimestampDay <= DateKey(y, m, d) <= LastTimestampDay then
      Some(DateKey(y, m, d))
    else None
  }

  /** A date that converts lies within the Timestamp range and decodes back to
      the year, month and day written at the match. */
  lemma {:induction false} DateValueFields(s: string, i: nat)
    requires DateAt(s, i) && DateValue(s, i).Some?
    ensures var k := DateValue(s, i).value;
      && FirstTimestampDay <= k <= LastTimestampDay
      && k / 10000 == Decimal(s[i..i + 4]) && k / 100 % 100 == Decimal(s[i + 5..i + 7])
      && k % 100 == Decimal(s[i + 8..i + 10])
  {
    DateKeyFields(Decimal(s[i..i + 4]), Decimal(s[i + 5..i + 7]), Decimal(s[i + 8..i + 10]));
  }

  /** The key decodes back to the year, month and day it was built from. */
  lemma DateKeyFields(y: int, m: int, d: int)
    requires ValidCalendarDate(y, m, d)
    ensures DateKey(y, m, d) / 10000 == y && DateKey(y, m, d) / 100 % 100 == m && DateKey(y, m, d) % 100 == d
  {
    var k := DateKey(y, m, d);
    assert k == (y * 100 + m) * 100 + d;
    assert k / 100 == y * 100 + m;
  }

  /** The key orders valid dates as the calendar does: by year, then month, then day. */
  lemma DateKeyOrder(y1: int, m1: int, d1: int, y2: int, m2: int, d2: int)
    requires ValidCalendarDate(y1, m1, d1) && ValidCalendarDate(y2, m2, d2)
    ensures DateKey(y1, m1, d1) <= DateKey(y2, m2, d2) <==>
            (y1 < y2 || (y1 == y2 && (m1 < m2 || (m1 == m2 && d1 <= d2))))
    ensures DateKey(y1, m1, d1) == DateKey(y2, m2, d2) <==> (y1 == y2 && m1 == m2 && d1 == d2)
  {
  }
}
