/** Calendar dates, their ISO text, and why comparing the texts compares the days. */
module Dates {
  import opened Texts

  datatype Date = Date(year: int, month: int, day: int)

  predicate IsLeap(y: int) {
    y % 4 == 0 && (y % 100 != 0 || y % 400 == 0)
  }

  function DaysInMonth(y: int, m: int): int {
    if m == 2 then (if IsLeap(y) then 29 else 28)
    else if m == 4 || m == 6 || m == 9 || m == 11 then 30
    else 31
  }

  /** What `date(y, m, d)` accepts. */
  predicate Valid(d: Date) {
    1 <= d.year <= 9999 && 1 <= d.month <= 12 && 1 <= d.day <= DaysInMonth(d.year, d.month)
  }

  function DaysBeforeYear(y: int): int {
    (y - 1) * 365 + (y - 1) / 4 - (y - 1) / 100 + (y - 1) / 400
  }

  function DaysBeforeMonth(y: int, m: int): int {
    if m <= 1 then 0 else DaysBeforeMonth(y, m - 1) + DaysInMonth(y, m - 1)
  }

  /** `date.toordinal`: consecutive days have consecutive numbers. */
  function Ordinal(d: Date): int {
    DaysBeforeYear(d.year) + DaysBeforeMonth(d.year, d.month) + d.day
  }

  /** `n` in `width` digits. */
  function Pad(n: nat, width: nat): (t: Text)
    requires width > 0 || n == 0
    ensures |t| == width
    decreases width
  {
    if width == 0 then []
    else if width == 1 then [48 + n % 10]
    else Pad(n / 10, width - 1) + [48 + n % 10]
  }

  /** `date.isoformat`: the full-date of section 5.6 of RFC 3339. */
  function Iso(d: Date): Text
    requires Valid(d)
  {
    Pad(d.year, 4) + ([45] + (Pad(d.month, 2) + ([45] + (Pad(d.day, 2) + []))))
  }

  predicate Fits(n: nat, width: nat) {
    if width == 0 then n == 0 else Fits(n / 10, width - 1)
  }

  /** Numbers of one width compare as their digits do, before anything that follows them. */
  lemma {:induction false} PadOrder(a: nat, b: nat, width: nat, s: Text, t: Text)
    requires width > 0 && Fits(a, width) && Fits(b, width)
    ensures LexLe(Pad(a, width) + s, Pad(b, width) + t) <==> a < b || (a == b && LexLe(s, t))
    decreases width
  {
    var x, y := [48 + a % 10] + s, [48 + b % 10] + t;
    assert x[1..] == s && y[1..] == t;
    if width == 1 {
      assert Fits(a / 10, 0) && Fits(b / 10, 0);
      assert Pad(a, 1) + s == x && Pad(b, 1) + t == y;
    } else {
      assert Pad(a, width) + s == Pad(a / 10, width - 1) + x;
      assert Pad(b, width) + t == Pad(b / 10, width - 1) + y;
      PadOrder(a / 10, b / 10, width - 1, x, y);
    }
  }

  lemma SameFirst(c: Code, s: Text, t: Text)
    ensures LexLe([c] + s, [c] + t) <==> LexLe(s, t)
  {
    assert ([c] + s)[1..] == s && ([c] + t)[1..] == t;
  }

  /** Year, then month, then day. */
  predicate Before(a: Date, b: Date) {
    || a.year < b.year
    || (a.year == b.year && (a.month < b.month || (a.month == b.month && a.day < b.day)))
  }

  lemma {:induction false} DaysBeforeMonthMonotone(y: int, m: int, n: int)
    requires 1 <= m < n <= 13
    ensures DaysBeforeMonth(y, m) + DaysInMonth(y, m) <= DaysBeforeMonth(y, n)
    decreases n
  {
    if n > m + 1 {
      DaysBeforeMonthMonotone(y, m, n - 1);
    }
  }

  lemma NextMonth(y: int, m: int)
    requires 1 <= m
    ensures DaysBeforeMonth(y, m + 1) == DaysBeforeMonth(y, m) + DaysInMonth(y, m)
    ensures m == 1 ==> DaysBeforeMonth(y, m) == 0
  {
  }

  lemma MonthsOfYear(y: int)
    ensures DaysBeforeMonth(y, 13) == if IsLeap(y) then 366 else 365
  {
    hide DaysBeforeMonth, IsLeap;
    NextMonth(y, 1);
    NextMonth(y, 2);
    NextMonth(y, 3);
    NextMonth(y, 4);
    NextMonth(y, 5);
    NextMonth(y, 6);
    NextMonth(y, 7);
    NextMonth(y, 8);
    NextMonth(y, 9);
    NextMonth(y, 10);
    NextMonth(y, 11);
    NextMonth(y, 12);
  }

  lemma YearLength(y: int)
    requires 1 <= y
    ensures DaysBeforeYear(y + 1) == DaysBeforeYear(y) + DaysBeforeMonth(y, 13)
  {
    hide DaysBeforeMonth, DaysBeforeYear;
    MonthsOfYear(y);
    YearDays(y);
  }

  lemma YearDays(y: int)
    requires 1 <= y
    ensures DaysBeforeYear(y + 1) == DaysBeforeYear(y) + if IsLeap(y) then 366 else 365
  {
    hide DaysBeforeYear, IsLeap;
    YearStep(y);
    LeapSteps(y);
    LeapRule(y);
  }

  lemma YearStep(y: int)
    ensures DaysBeforeYear(y + 1)
         == DaysBeforeYear(y) + 365 + (y / 4 - (y - 1) / 4) - (y / 100 - (y - 1) / 100) + (y / 400 - (y - 1) / 400)
  {
  }

  lemma LeapRule(y: int)
    ensures y % 400 == 0 ==> y % 100 == 0
    ensures y % 100 == 0 ==> y % 4 == 0
    ensures IsLeap(y) <==> y % 4 == 0 && (y % 100 == 0 ==> y % 400 == 0)
  {
    assert y == y / 400 * 400 + y % 400;
    assert y == y / 100 * 100 + y % 100;
  }

  lemma LeapSteps(y: int)
    requires 1 <= y
    ensures y / 4 - (y - 1) / 4 == if y % 4 == 0 then 1 else 0
    ensures y / 100 - (y - 1) / 100 == if y % 100 == 0 then 1 else 0
    ensures y / 400 - (y - 1) / 400 == if y % 400 == 0 then 1 else 0
  {
  }

  lemma {:induction false} DaysBeforeYearMonotone(y: int, z: int)
    requires 1 <= y <= z
    ensures DaysBeforeYear(y) <= DaysBeforeYear(z)
    decreases z
  {
    if y < z {
      DaysBeforeYearMonotone(y, z - 1);
      YearLength(z - 1);
    }
  }

  lemma BeforeMeansEarlier(a: Date, b: Date)
    requires Valid(a) && Valid(b) && Before(a, b)
    ensures Ordinal(a) < Ordinal(b)
  {
    hide DaysBeforeYear, DaysBeforeMonth, DaysInMonth, IsLeap;
    assert a.day <= DaysInMonth(a.year, a.month);
    MonthStart(b.year, b.month);
    if a.year < b.year {
      YearLength(a.year);
      DaysBeforeYearMonotone(a.year + 1, b.year);
      DaysBeforeMonthMonotone(a.year, a.month, 13);
    } else if a.month < b.month {
      DaysBeforeMonthMonotone(a.year, a.month, b.month);
    }
  }

  lemma {:induction false} MonthStart(y: int, m: int)
    ensures DaysBeforeMonth(y, m) >= 0
  {
    if m > 1 {
      MonthStart(y, m - 1);
    }
  }

  /** The ISO texts of two dates compare as strings exactly as the dates do in time. */
  lemma IsoOrder(a: Date, b: Date)
    requires Valid(a) && Valid(b)
    ensures LexLe(Iso(a), Iso(b)) <==> Ordinal(a) <= Ordinal(b)
    ensures Iso(a) == Iso(b) <==> a == b
  {
    IsoBefore(a, b);
    IsoBefore(b, a);
    if Before(a, b) {
      BeforeMeansEarlier(a, b);
    } else if Before(b, a) {
      BeforeMeansEarlier(b, a);
    }
    LexTotal(Iso(a), Iso(a));
  }

  lemma IsoBefore(a: Date, b: Date)
    requires Valid(a) && Valid(b)
    ensures LexLe(Iso(a), Iso(b)) <==> Before(a, b) || a == b
  {
    hide Pad, LexLe, Fits;
    WidthFits(a.year, b.year, 4);
    WidthFits(a.month, b.month, 2);
    WidthFits(a.day, b.day, 2);
    var da, db := Pad(a.day, 2) + [], Pad(b.day, 2) + [];
    var ma, mb := Pad(a.month, 2) + ([45] + da), Pad(b.month, 2) + ([45] + db);
    PadOrder(a.year, b.year, 4, [45] + ma, [45] + mb);
    SameFirst(45, ma, mb);
    PadOrder(a.month, b.month, 2, [45] + da, [45] + db);
    SameFirst(45, da, db);
    PadOrder(a.day, b.day, 2, [], []);
    LexTotal([], []);
  }

  lemma WidthFits(a: nat, b: nat, width: nat)
    requires (width == 4 && a <= 9999 && b <= 9999) || (width == 2 && a <= 99 && b <= 99)
    ensures Fits(a, width) && Fits(b, width)
  {
    if width == 4 {
      assert Fits(a, 4) == Fits(a / 10, 3) && Fits(a / 10, 3) == Fits(a / 10 / 10, 2);
      assert Fits(b, 4) == Fits(b / 10, 3) && Fits(b / 10, 3) == Fits(b / 10 / 10, 2);
    }
  }

  // ------------------------------------------------------------- the calendar itself

  predicate LastOfMonth(d: Date) {
    d.day == (if d.month == 2 then (if d.year % 4 == 0 && (d.year % 100 != 0 || d.year % 400 == 0) then 29 else 28)
              else if d.month in {4, 6, 9, 11} then 30 else 31)
  }

  function NextDay(d: Date): Date {
    if !LastOfMonth(d) then Date(d.year, d.month, d.day + 1)
    else if d.month < 12 then Date(d.year, d.month + 1, 1)
    else Date(d.year + 1, 1, 1)
  }

  /** Days follow one another in the calendar as their numbers do, from day 1 on 1 January of year 1. */
  lemma Consecutive(d: Date)
    requires Valid(d) && d != Date(9999, 12, 31)
    ensures Valid(NextDay(d)) && Ordinal(NextDay(d)) == Ordinal(d) + 1
    ensures Ordinal(Date(1, 1, 1)) == 1
  {
    hide DaysBeforeYear;
    if LastOfMonth(d) && d.month == 12 {
      YearLength(d.year);
      MonthAfter(d.year, 13);
      FirstMonth(d.year + 1);
    } else if LastOfMonth(d) {
      MonthAfter(d.year, d.month + 1);
    }
    YearOne();
    FirstMonth(1);
  }

  lemma YearOne()
    ensures DaysBeforeYear(1) == 0
  {
  }

  lemma FirstMonth(y: int)
    ensures DaysBeforeMonth(y, 1) == 0
  {
  }

  lemma MonthAfter(y: int, m: int)
    requires m > 1
    ensures DaysBeforeMonth(y, m) == DaysBeforeMonth(y, m - 1) + DaysInMonth(y, m - 1)
  {
  }

  /** The numbers of the two days the audit period runs between. */
  lemma Anchors()
    ensures Ordinal(Date(2026, 7, 1)) == 739798 && Ordinal(Date(2026, 8, 1)) == 739829
  {
    MonthsOf2026();
    assert DaysBeforeYear(2026) == 739616;
  }

  lemma MonthsOf2026()
    ensures DaysBeforeMonth(2026, 7) == 181 && DaysBeforeMonth(2026, 8) == 212
  {
    FirstMonth(2026);
    MonthAfter(2026, 2);
    MonthAfter(2026, 3);
    MonthAfter(2026, 4);
    MonthAfter(2026, 5);
    MonthAfter(2026, 6);
    MonthAfter(2026, 7);
    MonthAfter(2026, 8);
    assert !IsLeap(2026);
  }
}
