/**
 * The date keys of the event store: the calendar names each day column, and looks up the
 * store, with the text `format(date, 'yyyy-MM-dd')` (src/app/components/Calendar.tsx lines
 * 117 and 123). A date is modelled as a (year, month, day) triple of the proleptic
 * Gregorian calendar with a year from 1 to 9999.
 */
module DateKeys {

  predicate IsDigit(c: char) {
    '0' <= c <= '9'
  }

  function DigitValue(c: char): (n: nat)
    requires IsDigit(c)
    ensures n < 10
  {
    (c as int) - ('0' as int)
  }

  function DigitChar(n: nat): (c: char)
    requires n < 10
    ensures IsDigit(c) && DigitValue(c) == n
  {
    ((('0' as int) + n) as char)
  }

  predicate IsLeapYear(year: nat) {
    (year % 4 == 0 && year % 100 != 0) || year % 400 == 0
  }

  /** Number of days in `month` (1 to 12) of `year`. */
  function DaysInMonth(year: nat, month: nat): nat
    requires 1 <= month <= 12
  {
    if month == 2 then (if IsLeapYear(year) then 29 else 28)
    else if month == 4 || month == 6 || month == 9 || month == 11 then 30
    else 31
  }

  /**
   * A real calendar day of the years 1 to 9999. `yyyy` prints the era year, so a year 0
   * would print as `0001`, the same as year 1; it is not a date here.
   */
  predicate IsDate(year: nat, month: nat, day: nat) {
    1 <= year <= 9999 && 1 <= month <= 12 && 1 <= day <= DaysInMonth(year, month)
  }

  /** Ten characters laid out as `yyyy-MM-dd`: digits everywhere but the two dashes. */
  predicate IsDateKeyShape(k: string) {
    && |k| == 10
    && IsDigit(k[0]) && IsDigit(k[1]) && IsDigit(k[2]) && IsDigit(k[3]) && k[4] == '-'
    && IsDigit(k[5]) && IsDigit(k[6]) && k[7] == '-'
    && IsDigit(k[8]) && IsDigit(k[9])
  }

  function Year(k: string): nat
    requires IsDateKeyShape(k)
  {
    1000 * DigitValue(k[0]) + 100 * DigitValue(k[1]) + 10 * DigitValue(k[2]) + DigitValue(k[3])
  }

  function Month(k: string): nat
    requires IsDateKeyShape(k)
  {
    10 * DigitValue(k[5]) + DigitValue(k[6])
  }

  function Day(k: string): nat
    requires IsDateKeyShape(k)
  {
    10 * DigitValue(k[8]) + DigitValue(k[9])
  }

  /** A key the calendar can produce: the `yyyy-MM-dd` shape naming a real date. */
  predicate IsDateKey(k: string) {
    IsDateKeyShape(k) && IsDate(Year(k), Month(k), Day(k))
  }

  /** Digits of `n` (below 10^width), most significant first, padded with zeros to `width`. */
  function Padded(n: nat, width: nat): (s: string)
    decreases width
  {
    if width == 0 then [] else Padded(n / 10, width - 1) + [DigitChar(n % 10)]
  }

  /** The value of a string of decimal digits. */
  function DigitsValue(s: string): nat
    requires forall i :: 0 <= i < |s| ==> IsDigit(s[i])
  {
    if s == [] then 0 else 10 * DigitsValue(s[..|s| - 1]) + DigitValue(s[|s| - 1])
  }

  function Pow10(width: nat): (p: nat)
    ensures p >= 1
  {
    if width == 0 then 1 else 10 * Pow10(width - 1)
  }

  lemma {:induction false} PaddedDigits(n: nat, width: nat)
    requires n < Pow10(width)
    ensures |Padded(n, width)| == width
    ensures forall i :: 0 <= i < width ==> IsDigit(Padded(n, width)[i])
    ensures DigitsValue(Padded(n, width)) == n
  {
    if width > 0 {
      PaddedDigits(n / 10, width - 1);
      var s := Padded(n, width);
      assert s[..width - 1] == Padded(n / 10, width - 1);
    }
  }

  lemma {:induction false} DigitsPadded(s: string)
    requires forall i :: 0 <= i < |s| ==> IsDigit(s[i])
    ensures DigitsValue(s) < Pow10(|s|)
    ensures Padded(DigitsValue(s), |s|) == s
  {
    if s != [] {
      var init := s[..|s| - 1];
      DigitsPadded(init);
      var n := DigitsValue(s);
      var d := DigitValue(s[|s| - 1]);
      assert n / 10 == DigitsValue(init) && n % 10 == d;
      assert DigitChar(d) == s[|s| - 1];
      assert s == init + [s[|s| - 1]];
    }
  }

  /** `format(date, 'yyyy-MM-dd')` for the date `year`-`month`-`day`. */
  function DateKey(year: nat, month: nat, day: nat): (k: string)
    requires IsDate(year, month, day)
    ensures IsDateKeyShape(k)
  {
    PaddedDigits(year, 4);
    PaddedDigits(month, 2);
    PaddedDigits(day, 2);
    Joined(Padded(year, 4), Padded(month, 2), Padded(day, 2));
    Padded(year, 4) + "-" + Padded(month, 2) + "-" + Padded(day, 2)
  }

  /** Every formatted date is a date key that reads back as the same date. */
  lemma DateKeyParses(year: nat, month: nat, day: nat)
    requires IsDate(year, month, day)
    ensures IsDateKey(DateKey(year, month, day))
    ensures var k := DateKey(year, month, day); Year(k) == year && Month(k) == month && Day(k) == day
  {
    var y, m, d := Padded(year, 4), Padded(month, 2), Padded(day, 2);
    PaddedDigits(year, 4);
    PaddedDigits(month, 2);
    PaddedDigits(day, 2);
    var k := DateKey(year, month, day);
    Joined(y, m, d);
    YearValue(k);
    TwoDigitsValue(k, 5);
    TwoDigitsValue(k, 8);
  }

  /** The parts of `yyyy-MM-dd` put together from its three fields. */
  lemma Joined(y: string, m: string, d: string)
    requires |y| == 4 && |m| == 2 && |d| == 2
    requires forall i :: 0 <= i < 4 ==> IsDigit(y[i])
    requires forall i :: 0 <= i < 2 ==> IsDigit(m[i]) && IsDigit(d[i])
    ensures var k := y + "-" + m + "-" + d;
      IsDateKeyShape(k) && k[..4] == y && k[5..7] == m && k[8..10] == d
  {
    var k := y + "-" + m + "-" + d;
    assert k[..4] == y && k[5..7] == m && k[8..10] == d;
    assert k[0] == y[0] && k[1] == y[1] && k[2] == y[2] && k[3] == y[3];
    assert k[5] == m[0] && k[6] == m[1] && k[8] == d[0] && k[9] == d[1];
  }

  lemma YearValue(k: string)
    requires IsDateKeyShape(k)
    ensures Year(k) == DigitsValue(k[..4])
  {
    var y := k[..4];
    assert y[0] == k[0] && y[1] == k[1] && y[2] == k[2] && y[3] == k[3];
    DigitsOfFour(y);
  }

  lemma TwoDigitsValue(k: string, at: nat)
    requires IsDateKeyShape(k) && (at == 5 || at == 8)
    ensures 10 * DigitValue(k[at]) + DigitValue(k[at + 1]) == DigitsValue(k[at..at + 2])
  {
    var f := k[at..at + 2];
    assert f[0] == k[at] && f[1] == k[at + 1];
    DigitsOfTwo(f);
  }

  /** Every date key is the formatting of the date it names. */
  lemma KeyIsFormatted(k: string)
    requires IsDateKey(k)
    ensures DateKey(Year(k), Month(k), Day(k)) == k
  {
    FieldsRejoined(k);
  }

  /** The three fields of a `yyyy-MM-dd` shaped key, padded again, give back the key. */
  lemma FieldsRejoined(k: string)
    requires IsDateKeyShape(k)
    ensures Padded(Year(k), 4) + "-" + Padded(Month(k), 2) + "-" + Padded(Day(k), 2) == k
  {
    YearPadded(k);
    TwoDigitsPadded(k, 5);
    TwoDigitsPadded(k, 8);
    Split(k);
  }

  lemma Split(k: string)
    requires |k| == 10 && k[4] == '-' && k[7] == '-'
    ensures k == k[..4] + "-" + k[5..7] + "-" + k[8..10]
  {
  }

  lemma YearPadded(k: string)
    requires IsDateKeyShape(k)
    ensures Padded(Year(k), 4) == k[..4]
  {
    YearValue(k);
    DigitsPadded(k[..4]);
  }

  lemma TwoDigitsPadded(k: string, at: nat)
    requires IsDateKeyShape(k) && (at == 5 || at == 8)
    ensures at == 5 ==> Padded(Month(k), 2) == k[5..7]
    ensures at == 8 ==> Padded(Day(k), 2) == k[8..10]
  {
    var f := k[at..at + 2];
    assert f[0] == k[at] && f[1] == k[at + 1];
    PairPadded(f);
  }

  lemma PairPadded(f: string)
    requires |f| == 2 && IsDigit(f[0]) && IsDigit(f[1])
    ensures Padded(10 * DigitValue(f[0]) + DigitValue(f[1]), 2) == f
  {
    DigitsOfTwo(f);
    DigitsPadded(f);
  }

  lemma DigitsOfFour(s: string)
    requires |s| == 4 && forall i :: 0 <= i < 4 ==> IsDigit(s[i])
    ensures DigitsValue(s)
      == 1000 * DigitValue(s[0]) + 100 * DigitValue(s[1]) + 10 * DigitValue(s[2]) + DigitValue(s[3])
  {
    DigitsOfTwo(s[..2]);
    assert DigitsValue(s[..3]) == 10 * DigitsValue(s[..3][..2]) + DigitValue(s[2]);
    assert s[..3][..2] == s[..2];
  }

  lemma DigitsOfTwo(s: string)
    requires |s| == 2 && forall i :: 0 <= i < 2 ==> IsDigit(s[i])
    ensures DigitsValue(s) == 10 * DigitValue(s[0]) + DigitValue(s[1])
  {
    var first := s[..1];
    assert first[..0] == [] && first[0] == s[0];
    assert DigitsValue(first) == DigitValue(s[0]);
  }
}
