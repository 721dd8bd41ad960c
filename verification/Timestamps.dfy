/** Stored timestamps (internal/gc/gc.go): instants in milliseconds since 0000-01-01T00:00Z,
    rendered as 2006-01-02T15:04:05.000Z (the profile of section 5.6 of RFC 3339 that both
    the Go layout and SQLite's strftime write). */
module Timestamps {
  import opened Text

  // ---------------------------------------------------------------- the calendar

  predicate IsLeap(y: int) { y % 4 == 0 && (y % 100 != 0 || y % 400 == 0) }

  function YearLength(y: int): int { if IsLeap(y) then 366 else 365 }

  function MonthLength(y: int, m: int): int
  {
    if m == 2 then (if IsLeap(y) then 29 else 28)
    else if m in {4, 6, 9, 11} then 30 else 31
  }

  datatype Date = Date(year: int, month: int, day: int)

  /** The date k days into month m of year y. */
  function InMonth(y: int, m: int, k: nat): Date
    requires 1 <= m <= 12
    decreases 12 - m
  {
    if m == 12 || k < MonthLength(y, m) then Date(y, m, k + 1)
    else InMonth(y, m + 1, k - MonthLength(y, m))
  }

  /** The date k days into year y. */
  function InYear(y: nat, k: nat): Date
    decreases k
  {
    if k < YearLength(y) then InMonth(y, 1, k) else InYear(y + 1, k - YearLength(y))
  }

  function DateOf(day: nat): Date { InYear(0, day) }

  /** Days before 1 January of year y. */
  function DaysBefore(y: nat): nat { 365 * y + (y + 3) / 4 - (y + 99) / 100 + (y + 399) / 400 }

  lemma FourStep(y: nat)
    ensures (y + 4) / 4 - (y + 3) / 4 == if y % 4 == 0 then 1 else 0
  {
  }

  lemma HundredStep(y: nat)
    ensures (y + 100) / 100 - (y + 99) / 100 == if y % 100 == 0 then 1 else 0
  {
  }

  lemma FourHundredStep(y: nat)
    ensures (y + 400) / 400 - (y + 399) / 400 == if y % 400 == 0 then 1 else 0
  {
  }

  lemma Divisors(y: nat)
    ensures y % 400 == 0 ==> y % 100 == 0
    ensures y % 100 == 0 ==> y % 4 == 0
  {
    assert y % 400 == 0 ==> y == 100 * (4 * (y / 400));
    assert y % 100 == 0 ==> y == 4 * (25 * (y / 100));
  }

  lemma DaysBeforeStep(y: nat)
    ensures DaysBefore(y + 1) == DaysBefore(y) + YearLength(y)
  {
    FourStep(y);
    HundredStep(y);
    FourHundredStep(y);
    Divisors(y);
  }

  const END_DAY: int := 3_652_425  // 10000-01-01
  const DAY_MS: int := 86_400_000
  const END_MS: int := END_DAY * DAY_MS

  /** Days left in year y from the first of month m. */
  function RestOfYear(y: int, m: int): int
    requires 1 <= m <= 12
    decreases 12 - m
  {
    if m == 12 then 31 else MonthLength(y, m) + RestOfYear(y, m + 1)
  }

  lemma WholeYear(y: int)
    ensures RestOfYear(y, 1) == YearLength(y)
  {
    assert RestOfYear(y, 8) == 31 + 30 + 31 + 30 + 31;
    assert RestOfYear(y, 4) == 30 + 31 + 30 + 31 + RestOfYear(y, 8);
    assert RestOfYear(y, 1) == 31 + MonthLength(y, 2) + 31 + RestOfYear(y, 4);
  }

  predicate ValidIn(d: Date, y: int)
  {
    d.year == y && 1 <= d.month <= 12 && 1 <= d.day <= 31
  }

  lemma {:induction false} InMonthValid(y: int, m: int, k: nat)
    requires 1 <= m <= 12 && k < RestOfYear(y, m)
    ensures ValidIn(InMonth(y, m, k), y) && InMonth(y, m, k).month >= m
    decreases 12 - m
  {
    if m < 12 && k >= MonthLength(y, m) {
      InMonthValid(y, m + 1, k - MonthLength(y, m));
    }
  }

  lemma {:induction false} InYearValid(y: nat, k: nat)
    requires y < 10000 && DaysBefore(y) + k < END_DAY
    ensures var d := InYear(y, k); y <= d.year <= 9999 && ValidIn(d, d.year)
    decreases k
  {
    DaysBeforeStep(y);
    if k < YearLength(y) {
      WholeYear(y);
      InMonthValid(y, 1, k);
    } else {
      assert y < 9999 by { assert DaysBefore(10000) == END_DAY; }
      InYearValid(y + 1, k - YearLength(y));
    }
  }

  // ---------------------------------------------------------------- dates are in order

  predicate DateLess(a: Date, b: Date)
  {
    a.year < b.year || (a.year == b.year && (a.month < b.month || (a.month == b.month && a.day < b.day)))
  }

  lemma {:induction false} InMonthMonotone(y: int, m: int, j: nat, k: nat)
    requires 1 <= m <= 12 && j < k < RestOfYear(y, m)
    ensures DateLess(InMonth(y, m, j), InMonth(y, m, k))
    decreases 12 - m
  {
    var n := MonthLength(y, m);
    if m == 12 || k < n {
      assert InMonth(y, m, j) == Date(y, m, j + 1) && InMonth(y, m, k) == Date(y, m, k + 1);
    } else {
      assert InMonth(y, m, k) == InMonth(y, m + 1, k - n);
      if j >= n {
        InMonthMonotone(y, m + 1, j - n, k - n);
        assert InMonth(y, m, j) == InMonth(y, m + 1, j - n);
      } else {
        InMonthValid(y, m + 1, k - n);
        assert InMonth(y, m, j) == Date(y, m, j + 1);
      }
    }
  }

  lemma {:induction false} InYearMonotone(y: nat, j: nat, k: nat)
    requires y < 10000 && j < k && DaysBefore(y) + k < END_DAY
    ensures DateLess(InYear(y, j), InYear(y, k))
    decreases k
  {
    DaysBeforeStep(y);
    WholeYear(y);
    var n := YearLength(y);
    if k < n {
      InMonthMonotone(y, 1, j, k);
    } else {
      assert y < 9999 by { assert DaysBefore(10000) == END_DAY; }
      InYearValid(y + 1, k - n);
      if j >= n {
        InYearMonotone(y + 1, j - n, k - n);
      } else {
        InMonthValid(y, 1, j);
      }
    }
  }

  // ---------------------------------------------------------------- fixed-width fields

  function Pad(n: nat, w: nat): (s: string)
    ensures |s| == w && AllDigits(s)
    decreases w
  {
    if w == 0 then "" else Pad(n / 10, w - 1) + [DigitChar(n % 10)]
  }

  function Pow10(w: nat): nat { if w == 0 then 1 else 10 * Pow10(w - 1) }

  lemma {:induction false} PadOrder(a: nat, b: nat, w: nat)
    requires a < Pow10(w) && b < Pow10(w)
    ensures Less(Pad(a, w), Pad(b, w)) <==> a < b
    ensures Pad(a, w) == Pad(b, w) ==> a == b
    decreases w
  {
    if w > 0 {
      PadOrder(a / 10, b / 10, w - 1);
      var x, y := [DigitChar(a % 10)], [DigitChar(b % 10)];
      LessFields(Pad(a / 10, w - 1), x, Pad(b / 10, w - 1), y);
      assert Pad(a, w)[..w - 1] == Pad(a / 10, w - 1) && Pad(a, w)[w - 1] == x[0];
      assert Pad(b, w)[..w - 1] == Pad(b / 10, w - 1) && Pad(b, w)[w - 1] == y[0];
      assert Less(x, y) <==> a % 10 < b % 10;
    }
  }

  /** A padded number, a separator, and the rest. */
  function Field(n: nat, w: nat, sep: char, rest: string): string { Pad(n, w) + ([sep] + rest) }

  lemma FieldOrder(a: nat, b: nat, w: nat, sep: char, x: string, y: string)
    requires a < Pow10(w) && b < Pow10(w)
    ensures Less(Field(a, w, sep, x), Field(b, w, sep, y)) <==> a < b || (a == b && Less(x, y))
  {
    PadOrder(a, b, w);
    LessFields(Pad(a, w), [sep] + x, Pad(b, w), [sep] + y);
    LessFields([sep], x, [sep], y);
    LessTotal([sep], [sep]);
  }

  // ---------------------------------------------------------------- rendering

  function RenderTime(t: nat): string
    requires t < DAY_MS
  {
    Field(t / 3_600_000, 2, ':', Field(t / 60_000 % 60, 2, ':', Field(t / 1000 % 60, 2, '.', Field(t % 1000, 3, 'Z', ""))))
  }

  function RenderDate(d: Date, time: string): string
    requires 0 <= d.year && 1 <= d.month && 1 <= d.day
  {
    Field(d.year, 4, '-', Field(d.month, 2, '-', Field(d.day, 2, 'T', time)))
  }

  lemma DateOfValid(day: nat)
    requires day < END_DAY
    ensures var d := DateOf(day); 0 <= d.year <= 9999 && 1 <= d.month <= 12 && 1 <= d.day <= 31
  {
    InYearValid(0, day);
  }

  predicate Representable(t: int) { 0 <= t < END_MS }

  function Render(t: int): string
    requires Representable(t)
  {
    DateOfValid(t / DAY_MS);
    RenderDate(DateOf(t / DAY_MS), RenderTime(t % DAY_MS))
  }

  lemma TimeOrder(a: nat, b: nat)
    requires a < b < DAY_MS
    ensures Less(RenderTime(a), RenderTime(b))
  {
    var h, h', m, m', s, s' := a / 3_600_000, b / 3_600_000, a / 60_000 % 60, b / 60_000 % 60,
                               a / 1000 % 60, b / 1000 % 60;
    assert Pow10(2) == 100 && Pow10(3) == 1000;
    TimeFields(a, b);
    var x4, y4 := Field(a % 1000, 3, 'Z', ""), Field(b % 1000, 3, 'Z', "");
    FieldOrder(a % 1000, b % 1000, 3, 'Z', "", "");
    var x3, y3 := Field(s, 2, '.', x4), Field(s', 2, '.', y4);
    FieldOrder(s, s', 2, '.', x4, y4);
    var x2, y2 := Field(m, 2, ':', x3), Field(m', 2, ':', y3);
    FieldOrder(m, m', 2, ':', x3, y3);
    FieldOrder(h, h', 2, ':', x2, y2);
  }

  lemma TimeFields(a: nat, b: nat)
    requires a < b < DAY_MS
    ensures a / 3_600_000 < 24 && b / 3_600_000 < 24
    ensures || a / 3_600_000 < b / 3_600_000
            || (a / 3_600_000 == b / 3_600_000
                && (|| a / 60_000 % 60 < b / 60_000 % 60
                    || (a / 60_000 % 60 == b / 60_000 % 60
                        && (|| a / 1000 % 60 < b / 1000 % 60
                            || (a / 1000 % 60 == b / 1000 % 60 && a % 1000 < b % 1000)))))
  {
  }

  lemma DateOrder(a: Date, b: Date, x: string, y: string)
    requires 0 <= a.year <= 9999 && 1 <= a.month <= 12 && 1 <= a.day <= 31
    requires 0 <= b.year <= 9999 && 1 <= b.month <= 12 && 1 <= b.day <= 31
    ensures Less(RenderDate(a, x), RenderDate(b, y)) <==> DateLess(a, b) || (a == b && Less(x, y))
  {
    assert Pow10(2) == 100 && Pow10(4) == 10000;
    var x2, y2 := Field(a.day, 2, 'T', x), Field(b.day, 2, 'T', y);
    FieldOrder(a.day, b.day, 2, 'T', x, y);
    var x1, y1 := Field(a.month, 2, '-', x2), Field(b.month, 2, '-', y2);
    FieldOrder(a.month, b.month, 2, '-', x2, y2);
    FieldOrder(a.year, b.year, 4, '-', x1, y1);
  }

  lemma RenderForward(a: int, b: int)
    requires Representable(a) && Representable(b) && a < b
    ensures Less(Render(a), Render(b))
  {
    var j, k := a / DAY_MS, b / DAY_MS;
    DateOfValid(j);
    DateOfValid(k);
    DayThenTime(a, b);
    DateOrder(DateOf(j), DateOf(k), RenderTime(a % DAY_MS), RenderTime(b % DAY_MS));
    if j < k {
      InYearMonotone(0, j, k);
      assert DateLess(DateOf(j), DateOf(k));
    } else {
      TimeOrder(a % DAY_MS, b % DAY_MS);
    }
  }

  lemma DayThenTime(a: int, b: int)
    requires 0 <= a < b
    ensures a / DAY_MS < b / DAY_MS || (a / DAY_MS == b / DAY_MS && a % DAY_MS < b % DAY_MS)
  {
  }

  /** Main result: byte order on rendered timestamps is time order. */
  lemma RenderOrder(a: int, b: int)
    requires Representable(a) && Representable(b)
    ensures Less(Render(a), Render(b)) <==> a < b
    ensures Render(a) == Render(b) <==> a == b
  {
    LessTotal(Render(a), Render(b));
    if a < b {
      RenderForward(a, b);
    } else if b < a {
      RenderForward(b, a);
    }
  }

  // ---------------------------------------------------------------- the last instant

  lemma NextYear(y: nat, k: nat)
    ensures InYear(y, YearLength(y) + k) == InYear(y + 1, k)
  {
  }

  /** Counting years one by one agrees with the closed form. */
  lemma {:induction false} YearStart(y: nat, k: nat)
    ensures InYear(0, DaysBefore(y) + k) == InYear(y, k)
    decreases y
  {
    if y == 0 {
      assert DaysBefore(0) == 0;
    } else {
      var before, days := y - 1, DaysBefore(y - 1);
      DaysBeforeStep(before);
      YearStart(before, YearLength(before) + k);
      NextYear(before, k);
      assert DaysBefore(y) + k == days + (YearLength(before) + k);
    }
  }

  lemma LastDayOfYear()
    ensures InMonth(9999, 1, 364) == Date(9999, 12, 31)
  {
    assert InMonth(9999, 12, 30) == Date(9999, 12, 31);
    assert InMonth(9999, 9, 121) == InMonth(9999, 12, 30);
    assert InMonth(9999, 6, 213) == InMonth(9999, 9, 121);
    assert InMonth(9999, 3, 305) == InMonth(9999, 6, 213);
    assert InMonth(9999, 1, 364) == InMonth(9999, 3, 305);
  }

  lemma LastYear()
    ensures DaysBefore(9999) + 364 == END_DAY - 1 && YearLength(9999) == 365
  {
  }

  lemma LastDay()
    ensures DateOf(END_DAY - 1) == Date(9999, 12, 31)
  {
    LastYear();
    YearStart(9999, 364);
    assert InYear(9999, 364) == InMonth(9999, 1, 364);
    LastDayOfYear();
  }

  lemma PadValues()
    ensures Pad(9999, 4) == "9999" && Pad(12, 2) == "12" && Pad(31, 2) == "31"
    ensures Pad(23, 2) == "23" && Pad(59, 2) == "59" && Pad(999, 3) == "999"
  {
    assert Pad(9, 1) == "9" && Pad(99, 2) == "99" && Pad(999, 3) == "999";
    assert Pad(1, 1) == "1" && Pad(3, 1) == "3" && Pad(2, 1) == "2" && Pad(5, 1) == "5";
  }

  const LAST_SECOND: string := "9999-12-31T23:59:59.999"

  lemma LastFields()
    ensures var t := DAY_MS - 1;
            t / 3_600_000 == 23 && t / 60_000 % 60 == 59 && t / 1000 % 60 == 59 && t % 1000 == 999
    ensures Representable(END_MS - 1)
    ensures (END_MS - 1) / DAY_MS == END_DAY - 1 && (END_MS - 1) % DAY_MS == DAY_MS - 1
  {
  }

  lemma LastTime()
    ensures RenderTime(DAY_MS - 1) == "23:59:59.999Z"
  {
    LastFields();
    assert RenderTime(DAY_MS - 1) == Field(23, 2, ':', Field(59, 2, ':', Field(59, 2, '.', Field(999, 3, 'Z', ""))));
    LastTimeText();
  }

  lemma LastTimeText()
    ensures Field(23, 2, ':', Field(59, 2, ':', Field(59, 2, '.', Field(999, 3, 'Z', "")))) == "23:59:59.999Z"
  {
    PadValues();
    assert Field(999, 3, 'Z', "") == "999Z";
    assert Field(59, 2, '.', "999Z") == "59.999Z";
    assert Field(59, 2, ':', "59.999Z") == "59:59.999Z";
  }

  lemma LastDate(time: string)
    ensures RenderDate(Date(9999, 12, 31), time) == "9999-12-31T" + time
  {
    PadValues();
    assert Field(31, 2, 'T', time) == "31T" + time;
    assert Field(12, 2, '-', "31T" + time) == "12-31T" + time;
    assert Field(9999, 4, '-', "12-31T" + time) == "9999-12-31T" + time;
  }

  lemma LastInstant()
    ensures Representable(END_MS - 1) && Render(END_MS - 1) == LAST_SECOND + "Z"
  {
    LastFields();
    LastDay();
    assert Render(END_MS - 1) == RenderDate(DateOf(END_DAY - 1), RenderTime(DAY_MS - 1));
    LastTime();
    LastDate("23:59:59.999Z");
    LastText();
  }

  lemma LastText()
    ensures "9999-12-31T" + "23:59:59.999Z" == LAST_SECOND + "Z"
  {
  }

  lemma RenderShape(t: int)
    requires Representable(t)
    ensures |Render(t)| == 24 && Render(t)[23] == 'Z'
  {
  }

  predicate Plain(s: string) { forall c | c in s :: IsDigit(c) || c in {'-', 'T', ':', '.', 'Z'} }

  lemma FieldPlain(n: nat, w: nat, sep: char, rest: string)
    requires sep in {'-', 'T', ':', '.', 'Z'} && Plain(rest)
    ensures Plain(Field(n, w, sep, rest))
  {
    assert forall c | c in Pad(n, w) :: IsDigit(c);
  }

  lemma TimePlain(t: nat)
    requires t < DAY_MS
    ensures Plain(RenderTime(t))
  {
    var ms := Field(t % 1000, 3, 'Z', "");
    FieldPlain(t % 1000, 3, 'Z', "");
    var s := Field(t / 1000 % 60, 2, '.', ms);
    FieldPlain(t / 1000 % 60, 2, '.', ms);
    FieldPlain(t / 60_000 % 60, 2, ':', s);
    FieldPlain(t / 3_600_000, 2, ':', Field(t / 60_000 % 60, 2, ':', s));
  }

  lemma RenderAlphabet(t: int)
    requires Representable(t)
    ensures Plain(Render(t))
  {
    DateOfValid(t / DAY_MS);
    var d, time := DateOf(t / DAY_MS), RenderTime(t % DAY_MS);
    TimePlain(t % DAY_MS);
    FieldPlain(d.day, 2, 'T', time);
    FieldPlain(d.month, 2, '-', Field(d.day, 2, 'T', time));
    FieldPlain(d.year, 4, '-', Field(d.month, 2, '-', Field(d.day, 2, 'T', time)));
  }

  /** The keyset start position: RFC 3339 with nine digits of fraction. */
  const SENTINEL: string := LAST_SECOND + "999999Z"

  /** Every stored instant but the very last millisecond of year 9999 sorts below it. */
  lemma BelowSentinelIff(t: int)
    requires Representable(t)
    ensures Less(Render(t), SENTINEL) <==> t != END_MS - 1
    ensures Render(t) != SENTINEL
  {
    LastInstant();
    RenderShape(t);
    var body := Render(t)[..23];
    assert Render(t) == body + "Z";
    LessFields(body, "Z", LAST_SECOND, "999999Z");
    LessFields(body, "Z", LAST_SECOND, "Z");
    LessTotal("Z", "Z");
    RenderOrder(t, END_MS - 1);
    assert !Less("Z", "999999Z");
    assert |SENTINEL| == 30;
  }

  // ---------------------------------------------------------------- what a rendering says

  /** Days of a common year before each month, and the length of each month. */
  const MONTH_STARTS: seq<nat> := [0, 31, 59, 90, 120, 151, 181, 212, 243, 273, 304, 334]
  const MONTH_DAYS: seq<nat> := [31, 28, 31, 30, 31, 30, 31, 31, 30, 31, 30, 31]

  /** Every fourth year but full centuries, of which every fourth. */
  predicate LeapYear(y: int) { if y % 100 == 0 then y % 400 == 0 else y % 4 == 0 }

  function DayInYear(y: int, m: int, d: int): int
    requires 1 <= m <= 12
  {
    MONTH_STARTS[m - 1] + (if m > 2 && LeapYear(y) then 1 else 0) + (d - 1)
  }

  predicate RealDate(y: int, m: int, d: int)
  {
    0 <= y <= 9999 && 1 <= m <= 12 && 1 <= d <= MONTH_DAYS[m - 1] + (if m == 2 && LeapYear(y) then 1 else 0)
  }

  lemma LeapIff(y: nat)
    ensures LeapYear(y) <==> IsLeap(y)
  {
    Divisors(y);
  }

  lemma MonthIs(y: nat, m: int)
    requires 1 <= m <= 12
    ensures MonthLength(y, m) == MONTH_DAYS[m - 1] + (if m == 2 && LeapYear(y) then 1 else 0)
    ensures m < 12 ==> DayInYear(y, m + 1, 1) == DayInYear(y, m, 1) + MonthLength(y, m)
  {
    LeapIff(y);
  }

  /** Counting months one by one agrees with the table. */
  lemma {:induction false} MonthStart(y: nat, m: int, k: nat)
    requires 1 <= m <= 12
    ensures DayInYear(y, m, 1) >= 0 && InMonth(y, 1, DayInYear(y, m, 1) + k) == InMonth(y, m, k)
    decreases m
  {
    if m > 1 {
      MonthIs(y, m - 1);
      MonthStart(y, m - 1, MonthLength(y, m - 1) + k);
      assert InMonth(y, m - 1, MonthLength(y, m - 1) + k) == InMonth(y, m, k);
    }
  }

  lemma DayFits(y: nat, m: int, d: int)
    requires RealDate(y, m, d)
    ensures 0 <= DayInYear(y, m, d) < YearLength(y)
  {
    LeapIff(y);
  }

  /** A day number stands for the Gregorian date it should. */
  lemma DateIs(y: nat, m: int, d: int)
    requires RealDate(y, m, d)
    ensures DayInYear(y, m, d) >= 0 && DateOf(DaysBefore(y) + DayInYear(y, m, d)) == Date(y, m, d)
  {
    DayFits(y, m, d);
    YearStart(y, DayInYear(y, m, d));
    MonthStart(y, m, d - 1);
    MonthIs(y, m);
  }

  lemma {:induction false} DaysBeforeGrows(y: nat, z: nat)
    requires y <= z
    ensures DaysBefore(y) <= DaysBefore(z)
    decreases z
  {
    if y < z {
      DaysBeforeGrows(y, z - 1);
      DaysBeforeStep(z - 1);
    }
  }

  lemma PadLast(n: nat, d: nat, w: nat)
    requires d < 10
    ensures Pad(10 * n + d, w + 1) == Pad(n, w) + [DigitChar(d)]
  {
  }

  lemma {:induction false} PadIs(digits: string)
    requires DecimalDigits(digits)
    ensures Pad(PlaceValue(digits), |digits|) == digits
  {
    if digits != "" {
      var n := |digits| - 1;
      assert digits == digits[..n] + [digits[n]];
      PlaceValueLast(digits[..n], digits[n]);
      PadIs(digits[..n]);
      PadLast(PlaceValue(digits[..n]), digits[n] as int - 48, n);
    }
  }

  predicate Number(digits: string, w: nat) { |digits| == w && DecimalDigits(digits) }

  /** Milliseconds since midnight. */
  function Clock(h: int, mi: int, s: int, ms: int): int { ((h * 60 + mi) * 60 + s) * 1000 + ms }

  lemma ClockFields(h: nat, mi: nat, s: nat, ms: nat)
    requires h < 24 && mi < 60 && s < 60 && ms < 1000
    ensures var t := Clock(h, mi, s, ms);
            && 0 <= t < DAY_MS && t / 3_600_000 == h && t / 60_000 % 60 == mi && t / 1000 % 60 == s && t % 1000 == ms
  {
    var t := Clock(h, mi, s, ms);
    assert t / 1000 == (h * 60 + mi) * 60 + s;
    assert t / 60_000 == h * 60 + mi;
  }

  /** The time of day in hours, minutes, seconds and milliseconds. */
  lemma TimeIs(h: string, mi: string, s: string, ms: string)
    requires Number(h, 2) && Number(mi, 2) && Number(s, 2) && Number(ms, 3)
    requires PlaceValue(h) < 24 && PlaceValue(mi) < 60 && PlaceValue(s) < 60 && PlaceValue(ms) < 1000
    ensures var t := Clock(PlaceValue(h), PlaceValue(mi), PlaceValue(s), PlaceValue(ms));
            0 <= t < DAY_MS && RenderTime(t) == h + (":" + (mi + (":" + (s + ("." + (ms + "Z"))))))
  {
    ClockFields(PlaceValue(h), PlaceValue(mi), PlaceValue(s), PlaceValue(ms));
    PadIs(h);
    PadIs(mi);
    PadIs(s);
    PadIs(ms);
    assert ['Z'] + "" == "Z";
  }

  lemma DayInRange(y: nat, m: int, d: int)
    requires RealDate(y, m, d)
    ensures 0 <= DaysBefore(y) + DayInYear(y, m, d) < END_DAY
  {
    DayFits(y, m, d);
    DaysBeforeStep(y);
    DaysBeforeGrows(y + 1, 10000);
    assert DaysBefore(10000) == END_DAY;
  }

  lemma RenderAt(t: int, day: int, clock: int)
    requires 0 <= day < END_DAY && 0 <= clock < DAY_MS && t == day * DAY_MS + clock
    ensures Representable(t) && t / DAY_MS == day && t % DAY_MS == clock
  {
  }

  lemma RenderOfDay(t: int, day: int, clock: int, date: Date)
    requires Representable(t) && t / DAY_MS == day && t % DAY_MS == clock && DateOf(day) == date
    requires 0 <= date.year && 1 <= date.month && 1 <= date.day
    ensures Render(t) == RenderDate(date, RenderTime(clock))
  {
  }

  /** The instant of a date and a time of day. */
  function InstantOf(y: nat, m: int, d: int, clock: int): int
    requires 1 <= m <= 12
  {
    (DaysBefore(y) + DayInYear(y, m, d)) * DAY_MS + clock
  }

  lemma InstantIs(y: nat, m: int, d: int, clock: int)
    requires RealDate(y, m, d) && 0 <= clock < DAY_MS
    ensures Representable(InstantOf(y, m, d, clock))
    ensures Render(InstantOf(y, m, d, clock)) == RenderDate(Date(y, m, d), RenderTime(clock))
  {
    var day, t := DaysBefore(y) + DayInYear(y, m, d), InstantOf(y, m, d, clock);
    DayInRange(y, m, d);
    DateIs(y, m, d);
    RenderAt(t, day, clock);
    RenderOfDay(t, day, clock, Date(y, m, d));
  }

  lemma InstantText(yn: nat, mn: int, dn: int, clock: int, y: string, m: string, d: string, time: string)
    requires RealDate(yn, mn, dn) && 0 <= clock < DAY_MS
    requires Pad(yn, 4) == y && Pad(mn, 2) == m && Pad(dn, 2) == d && RenderTime(clock) == time
    ensures Representable(InstantOf(yn, mn, dn, clock))
    ensures Render(InstantOf(yn, mn, dn, clock)) == y + ("-" + (m + ("-" + (d + ("T" + time)))))
  {
    InstantIs(yn, mn, dn, clock);
  }

  /** Main result: the instant of a date and a clock is rendered as the year in four digits,
      the month and the day in two, and the clock, which `TimeIs` spells out. */
  lemma RenderIs(y: string, m: string, d: string, clock: int)
    requires Number(y, 4) && Number(m, 2) && Number(d, 2) && 0 <= clock < DAY_MS
    requires RealDate(PlaceValue(y), PlaceValue(m), PlaceValue(d))
    ensures var t := InstantOf(PlaceValue(y), PlaceValue(m), PlaceValue(d), clock);
            Representable(t) && Render(t) == y + ("-" + (m + ("-" + (d + ("T" + RenderTime(clock))))))
  {
    PadIs(y);
    PadIs(m);
    PadIs(d);
    InstantText(PlaceValue(y), PlaceValue(m), PlaceValue(d), clock, y, m, d, RenderTime(clock));
  }
}
