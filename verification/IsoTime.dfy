/** UTC timestamps as text, and why comparing the texts compares the instants. */
module IsoTime {

  datatype DateTime = DateTime(
    year: nat, month: nat, day: nat, hour: nat, minute: nat, second: nat, micro: nat)
  {
    predicate Valid() {
      && 1 <= year <= 9999 && 1 <= month <= 12 && 1 <= day <= DaysIn(year, month)
      && hour < 24 && minute < 60 && second < 60 && micro < 1000000
    }
  }

  type Time = t: DateTime | t.Valid() witness DateTime(1, 1, 1, 0, 0, 0, 0)

  // ----- instants

  predicate IsLeap(year: nat) {
    year % 4 == 0 && (year % 100 != 0 || year % 400 == 0)
  }

  function DaysIn(year: nat, month: nat): nat {
    if month == 2 then if IsLeap(year) then 29 else 28
    else if month in {4, 6, 9, 11} then 30
    else 31
  }

  /** Days of the year before a month. */
  function DaysBeforeMonth(year: nat, month: nat): nat {
    if month <= 1 then 0 else DaysBeforeMonth(year, month - 1) + DaysIn(year, month - 1)
  }

  /** Days of the calendar before a year. */
  function DaysBeforeYear(year: nat): nat {
    if year <= 1 then 0 else DaysBeforeYear(year - 1) + DaysBeforeMonth(year - 1, 13)
  }

  function Days(t: DateTime): int {
    DaysBeforeYear(t.year) + DaysBeforeMonth(t.year, t.month) + t.day
  }

  /** Microseconds since midnight. */
  function Clock(t: DateTime): int {
    ((t.hour * 60 + t.minute) * 60 + t.second) * 1000000 + t.micro
  }

  /** Microseconds since the start of the calendar. */
  function Instant(t: DateTime): int {
    Days(t) * 86400000000 + Clock(t)
  }

  // ----- texts

  function Digit(d: nat): char
    requires d < 10
  {
    '0' + d as char
  }

  /** A number in a fixed number of digits. */
  function Digits(n: nat, width: nat): (s: string)
    ensures |s| == width
  {
    if width == 0 then "" else Digits(n / 10, width - 1) + [Digit(n % 10)]
  }

  /** The fraction, left out when it is zero, and the offset. */
  function Fraction(micro: nat): string {
    (if micro == 0 then "" else "." + Digits(micro, 6)) + "+00:00"
  }

  function ClockText(t: DateTime): string {
    Digits(t.hour, 2) + (":" + (Digits(t.minute, 2) + (":" + (Digits(t.second, 2) + Fraction(t.micro)))))
  }

  function Iso(t: DateTime): string {
    Digits(t.year, 4) + ("-" + (Digits(t.month, 2) + ("-" + (Digits(t.day, 2) + ("T" + ClockText(t))))))
  }

  /** The order of texts in the database: by the first character that differs, else by length. */
  predicate TextLess(a: string, b: string) {
    if a == "" || b == "" then a == "" && b != ""
    else a[0] < b[0] || (a[0] == b[0] && TextLess(a[1..], b[1..]))
  }

  predicate TextLe(a: string, b: string) {
    a == b || TextLess(a, b)
  }

  // ----- texts compare as their fields

  /** Texts that start with pieces of the same length compare by these first. */
  lemma {:induction false} TextLessSplit(a: string, b: string, x: string, y: string)
    requires |a| == |b|
    ensures TextLess(a + x, b + y) <==> TextLess(a, b) || (a == b && TextLess(x, y))
    decreases |a|
  {
    if a == "" {
      assert a + x == x && b + y == y;
    } else {
      assert (a + x)[0] == a[0] && (b + y)[0] == b[0];
      assert (a + x)[1..] == a[1..] + x && (b + y)[1..] == b[1..] + y;
      TextLessSplit(a[1..], b[1..], x, y);
      assert a == b <==> a[0] == b[0] && a[1..] == b[1..];
    }
  }

  function Power(width: nat): nat {
    if width == 0 then 1 else 10 * Power(width - 1)
  }

  lemma DivisionBound(n: nat, p: nat)
    requires n < 10 * p
    ensures n / 10 < p
  {
  }

  /** Numbers in the same number of digits compare as their digits. */
  lemma {:induction false} DigitsCompare(m: nat, n: nat, width: nat)
    requires m < Power(width) && n < Power(width)
    ensures TextLess(Digits(m, width), Digits(n, width)) <==> m < n
    ensures Digits(m, width) == Digits(n, width) <==> m == n
    decreases width
  {
    if width > 0 {
      DivisionBound(m, Power(width - 1));
      DivisionBound(n, Power(width - 1));
      DigitsCompare(m / 10, n / 10, width - 1);
      var a, b := Digits(m / 10, width - 1), Digits(n / 10, width - 1);
      TextLessSplit(a, b, [Digit(m % 10)], [Digit(n % 10)]);
      assert Digits(m, width)[..width - 1] == a && Digits(n, width)[..width - 1] == b;
      assert Digits(m, width)[width - 1] == Digit(m % 10) && Digits(n, width)[width - 1] == Digit(n % 10);
      OneDigit(m % 10, n % 10);
    }
  }

  lemma OneDigit(c: nat, d: nat)
    requires c < 10 && d < 10
    ensures TextLess([Digit(c)], [Digit(d)]) <==> c < d
    ensures Digit(c) == Digit(d) <==> c == d
  {
    assert [Digit(c)][1..] == "" && [Digit(d)][1..] == "";
  }

  /** A separator in front changes nothing. */
  lemma {:induction false} SeparatorCompares(c: char, x: string, y: string)
    ensures TextLess([c] + x, [c] + y) <==> TextLess(x, y)
    ensures [c] + x == [c] + y <==> x == y
  {
    assert ([c] + x)[1..] == x && ([c] + y)[1..] == y;
  }

  lemma {:induction false} FieldCompares(m: nat, n: nat, width: nat, x: string, y: string)
    requires m < Power(width) && n < Power(width)
    ensures TextLess(Digits(m, width) + x, Digits(n, width) + y) <==> m < n || (m == n && TextLess(x, y))
    ensures Digits(m, width) + x == Digits(n, width) + y <==> m == n && x == y
  {
    DigitsCompare(m, n, width);
    TextLessSplit(Digits(m, width), Digits(n, width), x, y);
    assert (Digits(m, width) + x)[..width] == Digits(m, width) && (Digits(m, width) + x)[width..] == x;
    assert (Digits(n, width) + y)[..width] == Digits(n, width) && (Digits(n, width) + y)[width..] == y;
  }

  lemma FractionCompares(m: nat, n: nat)
    requires m < 1000000 && n < 1000000
    ensures TextLess(Fraction(m), Fraction(n)) <==> m < n
    ensures Fraction(m) == Fraction(n) <==> m == n
  {
    var offset := "+00:00";
    assert Power(6) == 1000000;
    assert "" + offset == offset;
    if m > 0 && n > 0 {
      var x, y := Digits(m, 6) + offset, Digits(n, 6) + offset;
      assert Fraction(m) == ['.'] + x && Fraction(n) == ['.'] + y;
      SeparatorCompares('.', x, y);
      FieldCompares(m, n, 6, offset, offset);
      NotLess(offset);
    } else if m > 0 {
      assert Fraction(m)[0] == '.' && Fraction(n)[0] == '+';
    } else if n > 0 {
      assert Fraction(m)[0] == '+' && Fraction(n)[0] == '.';
    } else {
      NotLess(offset);
    }
  }

  lemma {:induction false} NotLess(s: string)
    ensures !TextLess(s, s)
    decreases |s|
  {
    if s != "" {
      NotLess(s[1..]);
    }
  }

  // ----- the order of the fields

  predicate ClockBefore(a: DateTime, b: DateTime) {
    || a.hour < b.hour
    || (a.hour == b.hour
        && (|| a.minute < b.minute
            || (a.minute == b.minute
                && (a.second < b.second || (a.second == b.second && a.micro < b.micro)))))
  }

  predicate DateBefore(a: DateTime, b: DateTime) {
    || a.year < b.year
    || (a.year == b.year && (a.month < b.month || (a.month == b.month && a.day < b.day)))
  }

  predicate SameDate(a: DateTime, b: DateTime) {
    a.year == b.year && a.month == b.month && a.day == b.day
  }

  lemma ClockTextCompares(a: Time, b: Time)
    ensures TextLess(ClockText(a), ClockText(b)) <==> ClockBefore(a, b)
  {
    assert Power(2) == 100;
    var x2, y2 := Digits(a.second, 2) + Fraction(a.micro), Digits(b.second, 2) + Fraction(b.micro);
    var x1, y1 := Digits(a.minute, 2) + (":" + x2), Digits(b.minute, 2) + (":" + y2);
    FractionCompares(a.micro, b.micro);
    FieldCompares(a.second, b.second, 2, Fraction(a.micro), Fraction(b.micro));
    SeparatorCompares(':', x2, y2);
    FieldCompares(a.minute, b.minute, 2, ":" + x2, ":" + y2);
    SeparatorCompares(':', x1, y1);
    FieldCompares(a.hour, b.hour, 2, ":" + x1, ":" + y1);
  }

  lemma IsoCompares(a: Time, b: Time)
    ensures TextLess(Iso(a), Iso(b)) <==> DateBefore(a, b) || (SameDate(a, b) && ClockBefore(a, b))
  {
    assert Power(2) == 100 && Power(4) == 10000;
    var x2, y2 := Digits(a.day, 2) + ("T" + ClockText(a)), Digits(b.day, 2) + ("T" + ClockText(b));
    var x1, y1 := Digits(a.month, 2) + ("-" + x2), Digits(b.month, 2) + ("-" + y2);
    ClockTextCompares(a, b);
    SeparatorCompares('T', ClockText(a), ClockText(b));
    FieldCompares(a.day, b.day, 2, "T" + ClockText(a), "T" + ClockText(b));
    SeparatorCompares('-', x2, y2);
    FieldCompares(a.month, b.month, 2, "-" + x2, "-" + y2);
    SeparatorCompares('-', x1, y1);
    FieldCompares(a.year, b.year, 4, "-" + x1, "-" + y1);
  }

  // ----- fields compare as instants

  lemma {:induction false} MonthsAdvance(year: nat, m: nat, n: nat)
    requires 1 <= m < n <= 13
    ensures DaysBeforeMonth(year, m) + DaysIn(year, m) <= DaysBeforeMonth(year, n)
    decreases n
  {
    if m < n - 1 {
      MonthsAdvance(year, m, n - 1);
    }
  }

  lemma {:induction false} YearsAdvance(m: nat, n: nat)
    requires 1 <= m < n
    ensures DaysBeforeYear(m) + DaysBeforeMonth(m, 13) <= DaysBeforeYear(n)
    decreases n
  {
    if m < n - 1 {
      YearsAdvance(m, n - 1);
    }
  }

  lemma DatesAdvance(a: Time, b: Time)
    requires DateBefore(a, b)
    ensures Days(a) < Days(b)
  {
    if a.year < b.year {
      YearsAdvance(a.year, b.year);
      MonthsAdvance(a.year, a.month, 13);
    } else if a.month < b.month {
      MonthsAdvance(a.year, a.month, b.month);
    }
  }

  lemma ClocksAdvance(a: Time, b: Time)
    ensures ClockBefore(a, b) <==> Clock(a) < Clock(b)
    ensures 0 <= Clock(a) < 86400000000
  {
  }

  /** Main result. The texts of two timestamps compare as the instants they stand for, with or without
      a fraction. */
  lemma {:induction false} TextOrderIsTimeOrder(a: Time, b: Time)
    ensures TextLess(Iso(a), Iso(b)) <==> Instant(a) < Instant(b)
    ensures TextLe(Iso(a), Iso(b)) <==> Instant(a) <= Instant(b)
    ensures Iso(a) == Iso(b) <==> Instant(a) == Instant(b)
  {
    OneWay(a, b);
    OneWay(b, a);
    assert DateBefore(a, b) || DateBefore(b, a) || SameDate(a, b);
    ClocksAdvance(a, b);
    ClocksAdvance(b, a);
    if !TextLess(Iso(a), Iso(b)) && !TextLess(Iso(b), Iso(a)) {
      assert a == b;
    }
    NotLess(Iso(a));
  }

  lemma {:induction false} OneWay(a: Time, b: Time)
    ensures TextLess(Iso(a), Iso(b)) <==> DateBefore(a, b) || (SameDate(a, b) && ClockBefore(a, b))
    ensures TextLess(Iso(a), Iso(b)) ==> Instant(a) < Instant(b)
  {
    IsoCompares(a, b);
    ClocksAdvance(a, b);
    ClocksAdvance(b, a);
    if DateBefore(a, b) {
      DatesAdvance(a, b);
    }
  }
}
