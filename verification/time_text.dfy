/**
  The broker stores every timestamp as text and lets SQLite compare the text
  byte by byte. This module prints a timestamp the way `formatTime` does and
  shows when that comparison agrees with the order of the instants.
  */
module TimeText {
  import opened Decimals

  /** A UTC timestamp by its calendar fields, down to the microsecond. */
  datatype Civil = Civil(year: nat, month: nat, day: nat, hour: nat, minute: nat, second: nat, micro: nat)

  predicate IsLeap(year: nat) {
    year % 4 == 0 && (year % 100 != 0 || year % 400 == 0)
  }

  function DaysInMonth(year: nat, month: nat): (d: nat)
    requires 1 <= month <= 12
    ensures 28 <= d <= 31
  {
    if month == 2 then (if IsLeap(year) then 29 else 28)
    else if month in {4, 6, 9, 11} then 30
    else 31
  }

  predicate Valid(c: Civil) {
    && 1 <= c.month <= 12
    && 1 <= c.day <= DaysInMonth(c.year, c.month)
    && c.hour < 24 && c.minute < 60 && c.second < 60 && c.micro < 1_000_000
  }

  // ----- Instants -----

  function DaysBeforeYear(year: nat): nat {
    if year == 0 then 0 else DaysBeforeYear(year - 1) + (if IsLeap(year - 1) then 366 else 365)
  }

  function DaysBeforeMonth(year: nat, month: nat): nat
    requires 1 <= month <= 13
  {
    if month == 1 then 0 else DaysBeforeMonth(year, month - 1) + DaysInMonth(year, month - 1)
  }

  function DayNumber(c: Civil): int
    requires Valid(c)
  {
    DaysBeforeYear(c.year) + DaysBeforeMonth(c.year, c.month) + c.day - 1
  }

  function MicroOfDay(c: Civil): nat {
    ((c.hour * 60 + c.minute) * 60 + c.second) * 1_000_000 + c.micro
  }

  /** Microseconds since the start of year 0. */
  function Micros(c: Civil): int
    requires Valid(c)
  {
    DayNumber(c) * 86_400_000_000 + MicroOfDay(c)
  }

  // ----- Text -----

  /** Go pads a year to four digits and prints longer years in full. */
  function YearText(year: nat): string {
    if year <= 9999 then Digits(year, 4) else Decimal(year)
  }

  /** The layout "2006-01-02 15:04:05.000000". */
  function Format(c: Civil): string {
    YearText(c.year) + (['-'] + (Digits(c.month, 2) + (['-'] + (Digits(c.day, 2) + ([' '] +
    (Digits(c.hour, 2) + ([':'] + (Digits(c.minute, 2) + ([':'] + (Digits(c.second, 2) + (['.'] +
    Digits(c.micro, 6))))))))))))
  }

  /** SQLite's default text comparison: byte by byte, a proper prefix first. */
  predicate TextLess(a: string, b: string) {
    if b == "" then false
    else if a == "" then true
    else a[0] < b[0] || (a[0] == b[0] && TextLess(a[1..], b[1..]))
  }

  // ----- Order of the instants, field by field -----

  predicate FieldsLess(a: Civil, b: Civil) {
    a.year < b.year || (a.year == b.year && (
    a.month < b.month || (a.month == b.month && (
    a.day < b.day || (a.day == b.day && (
    a.hour < b.hour || (a.hour == b.hour && (
    a.minute < b.minute || (a.minute == b.minute && (
    a.second < b.second || (a.second == b.second && a.micro < b.micro)))))))))))
  }

  lemma {:induction false} DaysBeforeMonthGrows(year: nat, m: nat, n: nat)
    requires 1 <= m < n <= 13
    ensures DaysBeforeMonth(year, m) + DaysInMonth(year, m) <= DaysBeforeMonth(year, n)
  {
    if m + 1 < n { DaysBeforeMonthGrows(year, m, n - 1); }
  }

  lemma YearLength(year: nat)
    ensures DaysBeforeYear(year) + DaysBeforeMonth(year, 13) == DaysBeforeYear(year + 1)
  {
    assert DaysBeforeMonth(year, 2) == 31;
    assert DaysBeforeMonth(year, 3) == 31 + DaysInMonth(year, 2);
    assert DaysBeforeMonth(year, 5) == DaysBeforeMonth(year, 3) + 61;
    assert DaysBeforeMonth(year, 7) == DaysBeforeMonth(year, 5) + 61;
    assert DaysBeforeMonth(year, 9) == DaysBeforeMonth(year, 7) + 62;
    assert DaysBeforeMonth(year, 11) == DaysBeforeMonth(year, 9) + 61;
    assert DaysBeforeMonth(year, 13) == DaysBeforeMonth(year, 11) + 61;
  }

  lemma {:induction false} DaysBeforeYearGrows(y: nat, z: nat)
    requires y < z
    ensures DaysBeforeYear(y + 1) <= DaysBeforeYear(z)
  {
    if y + 1 < z { DaysBeforeYearGrows(y, z - 1); }
  }

  lemma DayNumberOrder(a: Civil, b: Civil)
    requires Valid(a) && Valid(b)
    requires a.year < b.year || (a.year == b.year && (a.month < b.month || (a.month == b.month && a.day < b.day)))
    ensures DayNumber(a) < DayNumber(b)
  {
    if a.year < b.year {
      DaysBeforeMonthGrows(a.year, a.month, 13);
      YearLength(a.year);
      DaysBeforeYearGrows(a.year, b.year);
    } else if a.month < b.month {
      DaysBeforeMonthGrows(a.year, a.month, b.month);
    }
  }

  /** Fields in calendar order are instants in time order. */
  lemma MicrosOrder(a: Civil, b: Civil)
    requires Valid(a) && Valid(b)
    ensures FieldsLess(a, b) <==> Micros(a) < Micros(b)
    ensures a == b <==> Micros(a) == Micros(b)
  {
    if FieldsLess(a, b) { MicrosStrict(a, b); }
    if FieldsLess(b, a) { MicrosStrict(b, a); }
  }

  lemma MicrosStrict(a: Civil, b: Civil)
    requires Valid(a) && Valid(b) && FieldsLess(a, b)
    ensures Micros(a) < Micros(b)
  {
    if (a.year, a.month, a.day) != (b.year, b.month, b.day) {
      DayNumberOrder(a, b);
      assert MicroOfDay(a) < 86_400_000_000;
    }
  }

  // ----- Order of the text -----

  lemma {:induction false} TextLessConcat(a: string, b: string, x: string, y: string)
    requires |a| == |b|
    ensures TextLess(a + x, b + y) <==> TextLess(a, b) || (a == b && TextLess(x, y))
  {
    if a == "" {
      assert a + x == x && b + y == y;
    } else {
      assert (a + x)[1..] == a[1..] + x && (b + y)[1..] == b[1..] + y;
      TextLessConcat(a[1..], b[1..], x, y);
      assert a == [a[0]] + a[1..] && b == [b[0]] + b[1..];
    }
  }

  function Pow10(w: nat): nat {
    if w == 0 then 1 else 10 * Pow10(w - 1)
  }

  lemma DigitOrder(d: nat, e: nat)
    requires d < 10 && e < 10
    ensures TextLess([DigitChar(d)], [DigitChar(e)]) <==> d < e
    ensures DigitChar(d) == DigitChar(e) <==> d == e
  {
    assert [DigitChar(d)][1..] == "" == [DigitChar(e)][1..];
  }

  /** Zero-padded numbers of one width compare as numbers. */
  lemma {:induction false} DigitsOrder(n: nat, m: nat, w: nat)
    requires n < Pow10(w) && m < Pow10(w)
    ensures TextLess(Digits(n, w), Digits(m, w)) <==> n < m
    ensures Digits(n, w) == Digits(m, w) <==> n == m
  {
    if w > 0 {
      DigitsOrder(n / 10, m / 10, w - 1);
      TextLessConcat(Digits(n / 10, w - 1), Digits(m / 10, w - 1), [DigitChar(n % 10)], [DigitChar(m % 10)]);
      DigitOrder(n % 10, m % 10);
      var s, t := Digits(n, w), Digits(m, w);
      assert s[..w - 1] == Digits(n / 10, w - 1) && t[..w - 1] == Digits(m / 10, w - 1);
      assert s[w - 1] == DigitChar(n % 10) && t[w - 1] == DigitChar(m % 10);
    }
  }

  lemma FieldStep(n: nat, m: nat, w: nat, sep: char, x: string, y: string)
    requires n < Pow10(w) && m < Pow10(w)
    ensures TextLess(Digits(n, w) + ([sep] + x), Digits(m, w) + ([sep] + y))
            <==> n < m || (n == m && TextLess(x, y))
  {
    DigitsOrder(n, m, w);
    TextLessConcat(Digits(n, w), Digits(m, w), [sep] + x, [sep] + y);
    assert ([sep] + x)[1..] == x && ([sep] + y)[1..] == y;
  }

  /**
    For four-digit years SQLite's text comparison of two stored timestamps is
    the comparison of the instants, so the tables can be modelled with integers.
    */
  lemma TextOrderIsTimeOrder(a: Civil, b: Civil)
    requires Valid(a) && Valid(b) && a.year <= 9999 && b.year <= 9999
    ensures TextLess(Format(a), Format(b)) <==> Micros(a) < Micros(b)
    ensures Format(a) == Format(b) <==> Micros(a) == Micros(b)
  {
    assert Pow10(2) == 100 && Pow10(4) == 10_000;
    assert Pow10(6) == 100 * Pow10(4);
    var a6, b6 := Digits(a.micro, 6), Digits(b.micro, 6);
    DigitsOrder(a.micro, b.micro, 6);
    var a5, b5 := Digits(a.second, 2) + (['.'] + a6), Digits(b.second, 2) + (['.'] + b6);
    FieldStep(a.second, b.second, 2, '.', a6, b6);
    var a4, b4 := Digits(a.minute, 2) + ([':'] + a5), Digits(b.minute, 2) + ([':'] + b5);
    FieldStep(a.minute, b.minute, 2, ':', a5, b5);
    var a3, b3 := Digits(a.hour, 2) + ([':'] + a4), Digits(b.hour, 2) + ([':'] + b4);
    FieldStep(a.hour, b.hour, 2, ':', a4, b4);
    var a2, b2 := Digits(a.day, 2) + ([' '] + a3), Digits(b.day, 2) + ([' '] + b3);
    FieldStep(a.day, b.day, 2, ' ', a3, b3);
    var a1, b1 := Digits(a.month, 2) + (['-'] + a2), Digits(b.month, 2) + (['-'] + b2);
    FieldStep(a.month, b.month, 2, '-', a2, b2);
    FieldStep(a.year, b.year, 4, '-', a1, b1);
    FieldStep(b.year, a.year, 4, '-', b1, a1);
    FieldStep(b.month, a.month, 2, '-', b2, a2);
    FieldStep(b.day, a.day, 2, ' ', b3, a3);
    FieldStep(b.hour, a.hour, 2, ':', b4, a4);
    FieldStep(b.minute, a.minute, 2, ':', b5, a5);
    FieldStep(b.second, a.second, 2, '.', b6, a6);
    DigitsOrder(b.micro, a.micro, 6);
    assert TextLess(Format(a), Format(b)) <==> FieldsLess(a, b);
    assert TextLess(Format(b), Format(a)) <==> FieldsLess(b, a);
    MicrosOrder(a, b);
    NotLessThanItself(Format(a));
  }

  lemma {:induction false} NotLessThanItself(s: string)
    ensures !TextLess(s, s)
  {
    if s != "" { NotLessThanItself(s[1..]); }
  }

  /** A five-digit year is later in time, but sorts before every four-digit year with a greater first digit. */
  lemma FiveDigitYearSortsFirst(a: Civil, b: Civil)
    requires Valid(a) && Valid(b) && a.year <= 9999 < b.year
    requires 10 <= b.year / 10 / 10 / 10 < 100 && b.year / 10 / 10 / 10 / 10 < a.year / 10 / 10 / 10 < 10
    ensures Micros(a) < Micros(b) && !TextLess(Format(a), Format(b))
  {
    MicrosOrder(a, b);
    FourDigitYear(a);
    FiveDigitYear(b);
    DigitsOfText(b.year / 10 / 10 / 10 / 10, a.year / 10 / 10 / 10);
    FirstCharacterDecides(Format(a), Format(b));
  }

  lemma DigitsOfText(low: nat, high: nat)
    requires low < high < 10
    ensures DigitChar(low) < DigitChar(high)
  {
  }

  lemma YearComesFirst(c: Civil)
    ensures Format(c) != "" && YearText(c.year) != "" && Format(c)[0] == YearText(c.year)[0]
  {
  }

  lemma FourDigitYear(c: Civil)
    requires c.year <= 9999 && c.year / 10 / 10 / 10 < 10
    ensures Format(c) != "" && Format(c)[0] == DigitChar(c.year / 10 / 10 / 10)
  {
    YearComesFirst(c);
    FourDigits(c.year);
  }

  lemma FiveDigitYear(c: Civil)
    requires 9999 < c.year && 10 <= c.year / 10 / 10 / 10 < 100
    ensures Format(c) != "" && Format(c)[0] == DigitChar(c.year / 10 / 10 / 10 / 10)
  {
    YearComesFirst(c);
    FiveDigits(c.year);
  }

  lemma FirstCharacterDecides(s: string, t: string)
    requires s != "" && t != "" && t[0] < s[0]
    ensures !TextLess(s, t)
  {
  }

  lemma DigitsHead(n: nat, w: nat)
    requires w > 1
    ensures Digits(n, w)[0] == Digits(n / 10, w - 1)[0]
  {
  }

  lemma DecimalHead(n: nat)
    requires n >= 10
    ensures Decimal(n)[0] == Decimal(n / 10)[0]
  {
  }

  lemma FourDigits(year: nat)
    ensures Digits(year, 4)[0] == DigitChar(year / 10 / 10 / 10 % 10)
  {
    DigitsHead(year, 4);
    DigitsHead(year / 10, 3);
    DigitsHead(year / 10 / 10, 2);
    OneDigit(year / 10 / 10 / 10);
  }

  lemma OneDigit(n: nat)
    ensures Digits(n, 1)[0] == DigitChar(n % 10) && (n < 10 ==> Decimal(n)[0] == DigitChar(n))
  {
  }

  lemma FiveDigits(year: nat)
    requires 10 <= year / 10 / 10 / 10 < 100
    ensures Decimal(year)[0] == DigitChar(year / 10 / 10 / 10 / 10)
  {
    DecimalHead(year);
    DecimalHead(year / 10);
    DecimalHead(year / 10 / 10);
    DecimalHead(year / 10 / 10 / 10);
    OneDigit(year / 10 / 10 / 10 / 10);
  }

  ghost predicate AgreesUpToYear(limit: nat) {
    forall a: Civil, b: Civil | Valid(a) && Valid(b) && a.year <= limit && b.year <= limit ::
      TextLess(Format(a), Format(b)) <==> Micros(a) < Micros(b)
  }

  /** Year 9999 is the exact limit: a five-digit year sorts before it. */
  lemma AgreesExactlyUpToYear9999(limit: nat)
    ensures AgreesUpToYear(limit) <==> limit <= 9999
  {
    if limit <= 9999 {
      AgreesBelow(limit);
    } else {
      LimitPair(Civil(9999, 1, 1, 0, 0, 0, 0), Civil(10_000, 1, 1, 0, 0, 0, 0), limit);
    }
  }

  lemma AgreesBelow(limit: nat)
    requires limit <= 9999
    ensures AgreesUpToYear(limit)
  {
    forall a: Civil, b: Civil | Valid(a) && Valid(b) && a.year <= limit && b.year <= limit
      ensures TextLess(Format(a), Format(b)) <==> Micros(a) < Micros(b)
    {
      TextOrderIsTimeOrder(a, b);
    }
  }

  lemma LimitPair(a: Civil, b: Civil, limit: nat)
    requires Valid(a) && Valid(b) && a.year == 9999 && b.year == 10_000 <= limit
    ensures !AgreesUpToYear(limit)
  {
    FiveDigitYearSortsFirst(a, b);
  }

  // ----- The calendar and the layout -----

  function LeapYearsBefore(year: nat): int {
    (year + 3) / 4 - (year + 99) / 100 + (year + 399) / 400
  }

  /** Leap years every four years, but not in three of four centuries. */
  lemma {:induction false} YearsAreGregorian(year: nat)
    ensures DaysBeforeYear(year) == 365 * year + LeapYearsBefore(year)
  {
    if year > 0 {
      YearsAreGregorian(year - 1);
      OneMoreYear(year - 1);
    }
  }

  lemma OneMoreYear(y: nat)
    ensures LeapYearsBefore(y + 1) == LeapYearsBefore(y) + if IsLeap(y) then 1 else 0
  {
    FourthYear(y);
    HundredthYear(y);
    FourHundredthYear(y);
    LeapByFours(y % 4 == 0, y % 100 == 0, y % 400 == 0, y);
  }

  lemma FourthYear(y: nat)
    ensures (y + 4) / 4 - (y + 3) / 4 == if y % 4 == 0 then 1 else 0
  {
  }

  lemma HundredthYear(y: nat)
    ensures (y + 100) / 100 - (y + 99) / 100 == if y % 100 == 0 then 1 else 0
  {
  }

  lemma FourHundredthYear(y: nat)
    ensures (y + 400) / 400 - (y + 399) / 400 == if y % 400 == 0 then 1 else 0
  {
  }

  lemma LeapByFours(four: bool, hundred: bool, fourHundred: bool, y: nat)
    requires four == (y % 4 == 0) && hundred == (y % 100 == 0) && fourHundred == (y % 400 == 0)
    ensures (if IsLeap(y) then 1 else 0) == (if four then 1 else 0) - (if hundred then 1 else 0) + (if fourHundred then 1 else 0)
  {
    if hundred { HundredsAreFours(y / 100, y); }
    if fourHundred { FourHundredsAreHundreds(y / 400, y); }
  }

  lemma HundredsAreFours(q: nat, y: nat)
    requires y == 100 * q
    ensures y % 4 == 0
  {
    var k := 25 * q;
    assert y == 4 * k;
  }

  lemma FourHundredsAreHundreds(q: nat, y: nat)
    requires y == 400 * q
    ensures y % 100 == 0
  {
    var k := 4 * q;
    assert y == 100 * k;
  }

  const MONTH_STARTS := [0, 31, 59, 90, 120, 151, 181, 212, 243, 273, 304, 334, 365]

  lemma {:induction false} MonthsStartAsTheyShould(year: nat, month: nat)
    requires 1 <= month <= 13
    ensures DaysBeforeMonth(year, month) == MONTH_STARTS[month - 1] + if month > 2 && IsLeap(year) then 1 else 0
  {
    if month > 1 { MonthsStartAsTheyShould(year, month - 1); }
  }

  /** The layout's own example: two digits, but four for the year and six for the fraction. */
  lemma LayoutPrintsItself()
    ensures Format(Civil(2006, 1, 2, 15, 4, 5, 0)) == "2006-01-02 " + "15:04:05.000000"
  {
    YearDigits();
    TwoDigits(1);
    TwoDigits(2);
    TimeOfTheLayout();
    DateOfTheLayout("15:04:05.000000");
  }

  lemma DateOfTheLayout(time: string)
    ensures "2006" + (['-'] + ("01" + (['-'] + ("02" + ([' '] + time))))) == "2006-01-02 " + time
  {
  }

  lemma YearDigits()
    ensures Digits(2006, 4) == "2006"
  {
    TwoDigits(20);
    assert Digits(200, 3) == "200";
  }

  lemma TimeOfTheLayout()
    ensures Digits(15, 2) + ([':'] + (Digits(4, 2) + ([':'] + (Digits(5, 2) + (['.'] + Digits(0, 6)))))) == "15:04:05.000000"
  {
    TwoDigits(15);
    TwoDigits(4);
    TwoDigits(5);
    SixZeros();
    TimeParts("000000");
  }

  lemma TimeParts(micros: string)
    ensures "15" + ([':'] + ("04" + ([':'] + ("05" + (['.'] + micros))))) == "15:04:05." + micros
  {
  }

  lemma TwoDigits(n: nat)
    requires n < 100
    ensures Digits(n, 2) == [DigitChar(n / 10), DigitChar(n % 10)]
  {
    assert Digits(n / 100, 0) == "";
    assert Digits(n / 10, 1) == "" + [DigitChar(n / 10)];
  }

  lemma SixZeros()
    ensures Digits(0, 6) == "000000"
  {
    TwoDigits(0);
    assert Digits(0, 3) == "000";
    assert Digits(0, 4) == "0000";
    assert Digits(0, 5) == "00000";
  }
}
