/** Timestamps.  Instants are integers: nanoseconds since the start of year 0, UTC, proleptic
    Gregorian calendar, no leap seconds.  The operator stores them as the strings chrono's
    `to_rfc3339` prints and compares those strings; this module shows that the comparison is
    chronological, which is why the other modules may work on the integers. */
module Rfc3339 {
  import opened Basics

  type Instant = int

  const SECOND: int := 1_000_000_000
  const DAY_SECONDS: int := 86_400
  const LAST_YEAR: nat := 9999

  /** A completion time as the Kubernetes API stores it: whole seconds. */
  function FloorSecond(t: Instant): (r: Instant)
    ensures r <= t < r + SECOND && r % SECOND == 0
  {
    t - t % SECOND
  }

  // ---------------------------------------------------------------------------------------------
  // The calendar.
  // ---------------------------------------------------------------------------------------------

  predicate IsLeap(y: nat) { y % 4 == 0 && (y % 100 != 0 || y % 400 == 0) }

  function YearLength(y: nat): nat { if IsLeap(y) then 366 else 365 }

  function MonthLength(y: nat, m: nat): nat {
    if m == 2 then (if IsLeap(y) then 29 else 28)
    else if m == 4 || m == 6 || m == 9 || m == 11 then 30
    else 31
  }

  function DaysBeforeYear(y: nat): nat {
    if y == 0 then 0 else DaysBeforeYear(y - 1) + YearLength(y - 1)
  }

  function DaysBeforeMonth(y: nat, m: nat): nat {
    if m <= 1 then 0 else DaysBeforeMonth(y, m - 1) + MonthLength(y, m - 1)
  }

  datatype Civil = Civil(year: nat, month: nat, day: nat, second: nat, nano: nat) {
    predicate Valid() {
      && year <= LAST_YEAR && 1 <= month <= 12 && 1 <= day <= MonthLength(year, month)
      && second < DAY_SECONDS && nano < SECOND
    }

    function DayNumber(): int { DaysBeforeYear(year) + DaysBeforeMonth(year, month) + day - 1 }

    function ToInstant(): Instant { (DayNumber() * DAY_SECONDS + second) * SECOND + nano }
  }

  /** Lexicographic order on the fields. */
  predicate Earlier(a: Civil, b: Civil) {
    || a.year < b.year
    || (a.year == b.year && (a.month < b.month || (a.month == b.month && (a.day < b.day ||
        (a.day == b.day && (a.second < b.second || (a.second == b.second && a.nano < b.nano)))))))
  }

  lemma {:induction false} YearsAddUp(y: nat, z: nat)
    requires y < z
    ensures DaysBeforeYear(y) + YearLength(y) <= DaysBeforeYear(z)
    decreases z - y
  {
    if y + 1 < z {
      YearsAddUp(y + 1, z);
    }
  }

  lemma {:induction false} MonthsAddUp(y: nat, m: nat, n: nat)
    requires 1 <= m < n
    ensures DaysBeforeMonth(y, m) + MonthLength(y, m) <= DaysBeforeMonth(y, n)
    decreases n - m
  {
    if m + 1 < n {
      MonthsAddUp(y, m + 1, n);
    }
  }

  lemma YearIsItsMonths(y: nat)
    ensures DaysBeforeMonth(y, 13) == YearLength(y)
  {
    assert DaysBeforeMonth(y, 2) == 31;
    assert DaysBeforeMonth(y, 3) == 31 + MonthLength(y, 2);
    assert DaysBeforeMonth(y, 5) == DaysBeforeMonth(y, 3) + 61;
    assert DaysBeforeMonth(y, 7) == DaysBeforeMonth(y, 5) + 61;
    assert DaysBeforeMonth(y, 9) == DaysBeforeMonth(y, 7) + 62;
    assert DaysBeforeMonth(y, 11) == DaysBeforeMonth(y, 9) + 61;
    assert DaysBeforeMonth(y, 13) == DaysBeforeMonth(y, 11) + 61;
  }

  lemma DayWithinYear(c: Civil)
    requires c.Valid()
    ensures DaysBeforeMonth(c.year, c.month) + c.day <= YearLength(c.year)
  {
    YearIsItsMonths(c.year);
    MonthsAddUp(c.year, c.month, 13);
  }

  lemma EarlierDay(a: Civil, b: Civil)
    requires a.Valid() && b.Valid()
    requires a.year < b.year || (a.year == b.year && (a.month < b.month || (a.month == b.month && a.day < b.day)))
    ensures a.DayNumber() < b.DayNumber()
  {
    if a.year < b.year {
      YearsAddUp(a.year, b.year);
      DayWithinYear(a);
    } else if a.month < b.month {
      MonthsAddUp(a.year, a.month, b.month);
    }
  }

  /** The calendar order is the order of instants. */
  lemma EarlierIsLess(a: Civil, b: Civil)
    requires a.Valid() && b.Valid() && Earlier(a, b)
    ensures a.ToInstant() < b.ToInstant()
  {
    if a.year == b.year && a.month == b.month && a.day == b.day {
    } else {
      EarlierDay(a, b);
    }
  }

  // Every instant of the years 0 to 9999 has a civil form.

  function YearOf(day: nat, y: nat): (r: (nat, nat))
    ensures r.1 < YearLength(r.0) && r.0 >= y
    ensures DaysBeforeYear(y) + day == DaysBeforeYear(r.0) + r.1
    decreases day
  {
    if day < YearLength(y) then (y, day) else YearOf(day - YearLength(y), y + 1)
  }

  function MonthOf(y: nat, day: nat, m: nat): (r: (nat, nat))
    requires 1 <= m <= 12 && DaysBeforeMonth(y, m) + day < DaysBeforeMonth(y, 13)
    ensures m <= r.0 <= 12 && r.1 < MonthLength(y, r.0)
    ensures DaysBeforeMonth(y, m) + day == DaysBeforeMonth(y, r.0) + r.1
    decreases 12 - m
  {
    if day < MonthLength(y, m) then (m, day) else MonthOf(y, day - MonthLength(y, m), m + 1)
  }

  predicate Representable(t: Instant) {
    0 <= t < DaysBeforeYear(LAST_YEAR + 1) * DAY_SECONDS * SECOND
  }

  lemma RepresentableDay(t: Instant)
    requires Representable(t)
    ensures 0 <= t / SECOND / DAY_SECONDS < DaysBeforeYear(LAST_YEAR + 1)
  {
  }

  function CivilOf(t: Instant): (c: Civil)
    requires Representable(t)
    ensures c.Valid() && c.ToInstant() == t
  {
    RepresentableDay(t);
    var seconds := t / SECOND;
    var days: nat := seconds / DAY_SECONDS;
    var (y, inYear) := YearOf(days, 0);
    YearIsItsMonths(y);
    var (m, inMonth) := MonthOf(y, inYear, 1);
    assert y <= LAST_YEAR by { if y > LAST_YEAR + 1 { YearsAddUp(LAST_YEAR + 1, y); } }
    Civil(y, m, inMonth + 1, seconds % DAY_SECONDS, t % SECOND)
  }

  // ---------------------------------------------------------------------------------------------
  // Rendering.
  // ---------------------------------------------------------------------------------------------

  function Digit(n: int): char
    requires 0 <= n < 10
  {
    (n + 48) as char
  }

  /** `n` in exactly `width` decimal digits (its low digits). */
  function Digits(n: nat, width: nat): (r: string)
    ensures |r| == width
  {
    if width == 0 then "" else Digits(n / 10, width - 1) + [Digit(n % 10)]
  }

  /** Nanoseconds with 0, 3, 6 or 9 digits, the fewest that are exact. */
  function Fraction(nano: nat): string {
    if nano == 0 then ""
    else if nano % 1_000_000 == 0 then "." + Digits(nano / 1_000_000, 3)
    else if nano % 1_000 == 0 then "." + Digits(nano / 1_000, 6)
    else "." + Digits(nano, 9)
  }

  const UTC_OFFSET := "+00:00"

  function Date(c: Civil): string {
    Digits(c.year, 4) + ("-" + (Digits(c.month, 2) + ("-" + (Digits(c.day, 2) + "T"))))
  }

  function Clock(h: nat, m: nat, s: nat): string {
    Digits(h, 2) + (":" + (Digits(m, 2) + (":" + Digits(s, 2))))
  }

  function Time(second: nat): string {
    Clock(second / 3600, second / 60 % 60, second % 60)
  }

  function Render(c: Civil): string {
    Date(c) + (Time(c.second) + (Fraction(c.nano) + UTC_OFFSET))
  }

  function ToRfc3339(t: Instant): string
    requires Representable(t)
  {
    Render(CivilOf(t))
  }

  // ---------------------------------------------------------------------------------------------
  // String order is time order.
  // ---------------------------------------------------------------------------------------------

  lemma {:induction false} LessSamePrefix(p: string, a: string, b: string)
    requires Less(a, b)
    ensures Less(p + a, p + b)
  {
    if p == [] {
      assert p + a == a && p + b == b;
    } else {
      LessSamePrefix(p[1..], a, b);
      assert (p + a)[1..] == p[1..] + a && (p + b)[1..] == p[1..] + b;
    }
  }

  lemma LessThenAnything(a: string, b: string, x: string, y: string)
    requires |a| == |b| && Less(a, b)
    ensures Less(a + x, b + y)
  {
    var p := FirstDifference(a, b);
    assert (a + x)[..p] == a[..p] && (b + y)[..p] == b[..p];
    LessAt(a + x, b + y, p);
  }

  function Power10(k: nat): nat { if k == 0 then 1 else 10 * Power10(k - 1) }

  lemma {:induction false} DigitsOrdered(m: nat, n: nat, width: nat)
    requires m < n < Power10(width)
    ensures Less(Digits(m, width), Digits(n, width))
  {
    if m / 10 < n / 10 {
      DigitsOrdered(m / 10, n / 10, width - 1);
      LessThenAnything(Digits(m / 10, width - 1), Digits(n / 10, width - 1), [Digit(m % 10)], [Digit(n % 10)]);
    } else {
      assert m / 10 == n / 10 && m % 10 < n % 10;
      LessSamePrefix(Digits(m / 10, width - 1), [Digit(m % 10)], [Digit(n % 10)]);
    }
  }

  lemma SplitThousands(n: nat, width: nat)
    requires width >= 3
    ensures Digits(n, width) == Digits(n / 1000, width - 3) + Digits(n % 1000, 3)
  {
    var rest := Digits(n / 1000, width - 3);
    DecimalShift(n);
    assert Digits(n, width) == Digits(n / 10, width - 1) + [Digit(n % 10)];
    assert Digits(n / 10, width - 1) == Digits(n / 100, width - 2) + [Digit(n / 10 % 10)];
    assert Digits(n / 100, width - 2) == rest + [Digit(n / 100 % 10)];
    ThreeDigits(n % 1000);
  }

  lemma DecimalShift(n: nat)
    ensures n / 10 / 10 == n / 100 && n / 100 / 10 == n / 1000
    ensures n % 1000 / 100 == n / 100 % 10 && n % 1000 / 10 % 10 == n / 10 % 10 && n % 1000 % 10 == n % 10
  {
  }

  lemma ThreeDigits(r: nat)
    requires r < 1000
    ensures Digits(r, 3) == [Digit(r / 100), Digit(r / 10 % 10), Digit(r % 10)]
  {
    DecimalShift(r);
    assert r / 100 % 10 == r / 100;
    assert Digits(r / 100, 1) == Digits(r / 100 / 10, 0) + [Digit(r / 100 % 10)];
    assert Digits(r / 10, 2) == Digits(r / 100, 1) + [Digit(r / 10 % 10)];
    assert Digits(r, 3) == Digits(r / 10, 2) + [Digit(r % 10)];
  }

  /** Number of fraction digits printed. */
  function FractionWidth(nano: nat): nat {
    if nano == 0 then 0 else if nano % 1_000_000 == 0 then 3 else if nano % 1_000 == 0 then 6 else 9
  }

  /** The fraction is the nine-digit form without its trailing groups of zeros. */
  lemma FractionIsTruncation(nano: nat)
    requires nano < SECOND
    ensures var w, nine := FractionWidth(nano), Digits(nano, 9);
            && Fraction(nano) == (if w == 0 then "" else "." + nine[..w])
            && forall i | w <= i < 9 :: nine[i] == '0'
  {
    var six := Digits(nano / 1000, 6);
    SplitThousands(nano, 9);
    SplitThousands(nano / 1000, 6);
    ThreeZeros();
    MillionthsAreThousandths(nano);
    if nano == 0 { SplitThousands(0, 3); }
    assert Digits(nano, 9)[..9] == Digits(nano, 9);
  }

  lemma ThreeZeros()
    ensures Digits(0, 3) == "000"
  {
    ThreeDigits(0);
  }

  lemma MillionthsAreThousandths(nano: nat)
    ensures nano / 1000 / 1000 == nano / 1_000_000
    ensures nano % 1_000_000 == 0 <==> nano % 1000 == 0 && nano / 1000 % 1000 == 0
  {
  }

  lemma {:induction false} DigitsAreDigits(n: nat, width: nat)
    ensures forall i | 0 <= i < width :: '0' <= Digits(n, width)[i] <= '9'
  {
    if width > 0 {
      DigitsAreDigits(n / 10, width - 1);
    }
  }

  lemma FractionsOrdered(m: nat, n: nat)
    requires m < n < SECOND
    ensures Less(Fraction(m) + UTC_OFFSET, Fraction(n) + UTC_OFFSET)
  {
    var a, b, wa, wb := Digits(m, 9), Digits(n, 9), FractionWidth(m), FractionWidth(n);
    FractionIsTruncation(m);
    FractionIsTruncation(n);
    DigitsAreDigits(m, 9);
    DigitsAreDigits(n, 9);
    assert Power10(9) == SECOND by { assert Power10(3) == 1_000 && Power10(6) == 1_000_000; }
    DigitsOrdered(m, n, 9);
    var p := FirstDifference(a, b);
    assert b[p] != '0';
    MixedWidths(a, b, wa, wb, p);
  }

  function Fractional(nine: string, width: nat): string
    requires width <= |nine|
  {
    (if width == 0 then "" else "." + nine[..width]) + UTC_OFFSET
  }

  /** Fractions cut to different widths keep the order of the nine-digit forms: where the shorter
      one ends, its `+` sorts before any digit and before the decimal point. */
  lemma MixedWidths(a: string, b: string, wa: nat, wb: nat, p: nat)
    requires |a| == |b| == 9 && wa <= 9 && p < wb <= 9
    requires a[..p] == b[..p] && a[p] < b[p]
    requires forall i | 0 <= i < 9 :: '0' <= b[i] <= '9'
    ensures Less(Fractional(a, wa), Fractional(b, wb))
  {
    var x, y := Fractional(a, wa), Fractional(b, wb);
    if wa == 0 {
      assert x[0] == '+' && y[0] == '.';
      LessAt(x, y, 0);
    } else {
      var k := if p < wa then p else wa;
      assert x == "." + (a[..wa] + UTC_OFFSET) && y == "." + (b[..wb] + UTC_OFFSET);
      var x', y' := a[..wa] + UTC_OFFSET, b[..wb] + UTC_OFFSET;
      assert x'[..k] == a[..p][..k] == b[..p][..k] == y'[..k];
      LessAt(x', y', k);
      LessSamePrefix(".", x', y');
    }
  }

  lemma DatesOrdered(a: Civil, b: Civil)
    requires a.Valid() && b.Valid()
    requires a.year < b.year || (a.year == b.year && (a.month < b.month || (a.month == b.month && a.day < b.day)))
    ensures |Date(a)| == |Date(b)| && Less(Date(a), Date(b))
  {
    assert Power10(2) == 100 && Power10(4) == 10_000;
    var x2, y2 := Digits(a.day, 2) + "T", Digits(b.day, 2) + "T";
    var x1, y1 := Digits(a.month, 2) + ("-" + x2), Digits(b.month, 2) + ("-" + y2);
    if a.year < b.year {
      DigitsOrdered(a.year, b.year, 4);
      LessThenAnything(Digits(a.year, 4), Digits(b.year, 4), "-" + x1, "-" + y1);
    } else {
      if a.month < b.month {
        DigitsOrdered(a.month, b.month, 2);
        LessThenAnything(Digits(a.month, 2), Digits(b.month, 2), "-" + x2, "-" + y2);
      } else {
        DigitsOrdered(a.day, b.day, 2);
        LessThenAnything(Digits(a.day, 2), Digits(b.day, 2), "T", "T");
        LessAfterField(Digits(a.month, 2), "-", x2, y2);
      }
      LessAfterField(Digits(a.year, 4), "-", x1, y1);
    }
  }

  lemma LessAfterField(field: string, separator: string, x: string, y: string)
    requires Less(x, y)
    ensures Less(field + (separator + x), field + (separator + y))
  {
    LessSamePrefix(separator, x, y);
    LessSamePrefix(field, separator + x, separator + y);
  }

  lemma ClocksOrdered(h: nat, m: nat, s: nat, h': nat, m': nat, s': nat)
    requires h < 100 && m < 100 && s < 100 && h' < 100 && m' < 100 && s' < 100
    requires h < h' || (h == h' && (m < m' || (m == m' && s < s')))
    ensures |Clock(h, m, s)| == |Clock(h', m', s')| && Less(Clock(h, m, s), Clock(h', m', s'))
  {
    assert Power10(2) == 100;
    var x2, y2 := Digits(s, 2), Digits(s', 2);
    var x1, y1 := Digits(m, 2) + (":" + x2), Digits(m', 2) + (":" + y2);
    if h < h' {
      DigitsOrdered(h, h', 2);
      LessThenAnything(Digits(h, 2), Digits(h', 2), ":" + x1, ":" + y1);
    } else {
      if m < m' {
        DigitsOrdered(m, m', 2);
        LessThenAnything(Digits(m, 2), Digits(m', 2), ":" + x2, ":" + y2);
      } else {
        DigitsOrdered(s, s', 2);
        LessAfterField(Digits(m, 2), ":", x2, y2);
      }
      LessAfterField(Digits(h, 2), ":", x1, y1);
    }
  }

  lemma TimesOrdered(s: nat, t: nat)
    requires s < t < DAY_SECONDS
    ensures |Time(s)| == |Time(t)| && Less(Time(s), Time(t))
  {
    ClockFields(s);
    ClockFields(t);
    FieldsOrdered(s / 3600, s / 60 % 60, s % 60, t / 3600, t / 60 % 60, t % 60);
    ClocksOrdered(s / 3600, s / 60 % 60, s % 60, t / 3600, t / 60 % 60, t % 60);
  }

  lemma ClockFields(s: nat)
    requires s < DAY_SECONDS
    ensures s == s / 3600 * 3600 + s / 60 % 60 * 60 + s % 60
    ensures s / 3600 < 24 && s / 60 % 60 < 60 && s % 60 < 60
  {
    assert s / 60 / 60 == s / 3600;
  }

  lemma FieldsOrdered(h: nat, m: nat, s: nat, h': nat, m': nat, s': nat)
    requires m < 60 && s < 60 && m' < 60 && s' < 60
    requires h * 3600 + m * 60 + s < h' * 3600 + m' * 60 + s'
    ensures h < h' || (h == h' && (m < m' || (m == m' && s < s')))
  {
  }

  lemma RenderOrdered(a: Civil, b: Civil)
    requires a.Valid() && b.Valid() && Earlier(a, b)
    ensures Less(Render(a), Render(b))
  {
    var ta, tb := Time(a.second), Time(b.second);
    var fa, fb := Fraction(a.nano) + UTC_OFFSET, Fraction(b.nano) + UTC_OFFSET;
    if a.year == b.year && a.month == b.month && a.day == b.day {
      if a.second < b.second {
        TimesOrdered(a.second, b.second);
        LessThenAnything(ta, tb, fa, fb);
      } else {
        FractionsOrdered(a.nano, b.nano);
        LessSamePrefix(ta, fa, fb);
      }
      LessSamePrefix(Date(a), ta + fa, tb + fb);
    } else {
      DatesOrdered(a, b);
      LessThenAnything(Date(a), Date(b), ta + fa, tb + fb);
    }
  }

  lemma EarlierTotal(a: Civil, b: Civil)
    ensures a == b || Earlier(a, b) || Earlier(b, a)
  {
  }

  /** Comparing two rendered timestamps as strings compares the instants, for every mix of
      fraction widths; in particular rendering is injective, so parsing it back is well defined. */
  lemma StringOrderIsTimeOrder(t: Instant, u: Instant)
    requires Representable(t) && Representable(u)
    ensures Less(ToRfc3339(t), ToRfc3339(u)) <==> t < u
    ensures ToRfc3339(t) == ToRfc3339(u) <==> t == u
  {
    var a, b := CivilOf(t), CivilOf(u);
    EarlierTotal(a, b);
    if Earlier(a, b) {
      EarlierIsLess(a, b);
      RenderOrdered(a, b);
      LessAsymmetric(Render(a), Render(b));
    } else if Earlier(b, a) {
      EarlierIsLess(b, a);
      RenderOrdered(b, a);
      LessAsymmetric(Render(b), Render(a));
    } else {
      LessIrreflexive(Render(a));
    }
  }

  // ---------------------------------------------------------------------------------------------
  // A rendered instant reads back.
  // ---------------------------------------------------------------------------------------------

  /** The number a string of decimal digits stands for. */
  function Decimal(s: string): nat {
    if s == [] then 0
    else Decimal(s[..|s| - 1]) * 10 + (var c := s[|s| - 1]; if '0' <= c <= '9' then c as int - 48 else 0)
  }

  lemma {:induction false} DigitsRead(n: nat, width: nat)
    requires n < Power10(width)
    ensures Decimal(Digits(n, width)) == n
  {
    if width > 0 {
      DigitsRead(n / 10, width - 1);
      assert Digits(n, width)[..width - 1] == Digits(n / 10, width - 1);
    }
  }

  lemma FieldsRead(c: Civil)
    requires c.Valid()
    ensures Decimal(Digits(c.year, 4)) == c.year && Decimal(Digits(c.month, 2)) == c.month
    ensures Decimal(Digits(c.day, 2)) == c.day
    ensures Decimal(Digits(c.second / 3600, 2)) == c.second / 3600
    ensures Decimal(Digits(c.second / 60 % 60, 2)) == c.second / 60 % 60
    ensures Decimal(Digits(c.second % 60, 2)) == c.second % 60
  {
    assert Power10(2) == 100 && Power10(4) == 10_000 by { assert Power10(1) == 10 && Power10(3) == 1_000; }
    DigitsRead(c.year, 4);
    DigitsRead(c.month, 2);
    DigitsRead(c.day, 2);
    DigitsRead(c.second / 3600, 2);
    DigitsRead(c.second / 60 % 60, 2);
    DigitsRead(c.second % 60, 2);
  }

  predicate ReadsBack(r: string, c: Civil) {
    && |r| >= 25
    && Decimal(r[..4]) == c.year && r[4] == '-' && Decimal(r[5..7]) == c.month && r[7] == '-'
    && Decimal(r[8..10]) == c.day && r[10] == 'T'
    && (Decimal(r[11..13]) * 60 + Decimal(r[14..16])) * 60 + Decimal(r[17..19]) == c.second
    && r[13] == ':' && r[16] == ':' && r[19..] == Fraction(c.nano) + "+00:00"
  }

  lemma RenderReadsBack(c: Civil)
    requires c.Valid()
    ensures ReadsBack(Render(c), c)
  {
    FieldsAt(c);
    FieldsRead(c);
    ClockFields(c.second);
  }

  /** Every field is where section 5.6 of RFC 3339 puts it and reads back, and the fields are those of the
      instant. */
  lemma RenderedReadsBack(t: Instant)
    requires Representable(t)
    ensures CivilOf(t).ToInstant() == t && ReadsBack(ToRfc3339(t), CivilOf(t))
  {
    RenderReadsBack(CivilOf(t));
  }

  lemma FieldsAt(c: Civil)
    ensures var r := Render(c);
            && |r| >= 25 && r[..4] == Digits(c.year, 4) && r[5..7] == Digits(c.month, 2)
            && r[8..10] == Digits(c.day, 2) && r[11..13] == Digits(c.second / 3600, 2)
            && r[14..16] == Digits(c.second / 60 % 60, 2) && r[17..19] == Digits(c.second % 60, 2)
            && r[4] == '-' && r[7] == '-' && r[10] == 'T' && r[13] == ':' && r[16] == ':'
            && r[19..] == Fraction(c.nano) + "+00:00"
  {
    var date, time := Date(c), Time(c.second);
    assert |date| == 11 && |time| == 8;
    DateFields(c);
    ClockFieldsAt(c.second / 3600, c.second / 60 % 60, c.second % 60);
    var r := Render(c);
    assert r[..11] == date && r[11..19] == time && r[19..] == Fraction(c.nano) + UTC_OFFSET;
    assert r[..4] == date[..4] && r[5..7] == date[5..7] && r[8..10] == date[8..10];
    assert r[11..13] == time[..2] && r[14..16] == time[3..5] && r[17..19] == time[6..8];
  }

  lemma DateFields(c: Civil)
    ensures var d := Date(c);
            && |d| == 11 && d[..4] == Digits(c.year, 4) && d[5..7] == Digits(c.month, 2)
            && d[8..10] == Digits(c.day, 2) && d[4] == '-' && d[7] == '-' && d[10] == 'T'
  {
  }

  lemma ClockFieldsAt(h: nat, m: nat, s: nat)
    ensures var k := Clock(h, m, s);
            && |k| == 8 && k[..2] == Digits(h, 2) && k[3..5] == Digits(m, 2) && k[6..8] == Digits(s, 2)
            && k[2] == ':' && k[5] == ':'
  {
  }
}
