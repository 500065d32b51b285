/** The proleptic Gregorian calendar behind Go's time package, in UTC.
    Days count from 0000-01-01, instants are nanoseconds from its midnight. */
module Calendar {

  type Instant = int

  const NS_PER_SECOND: int := 1_000_000_000
  const NS_PER_DAY: int := 86_400_000_000_000

  predicate IsLeap(year: int) {
    year % 4 == 0 && (year % 100 != 0 || year % 400 == 0)
  }

  function YearDays(year: int): int { if IsLeap(year) then 366 else 365 }

  /** The day number of January 1. */
  function DaysBefore(year: int): int
    decreases if year < 0 then -year else year
  {
    if year == 0 then 0
    else if year > 0 then DaysBefore(year - 1) + YearDays(year - 1)
    else DaysBefore(year + 1) - YearDays(year)
  }

  lemma YearStep(year: int)
    ensures DaysBefore(year + 1) == DaysBefore(year) + YearDays(year)
  {
  }

  lemma {:induction false} DaysBeforeMonotone(a: int, b: int)
    requires a <= b
    ensures DaysBefore(a) + 365 * (b - a) <= DaysBefore(b)
    decreases b - a
  {
    if a < b { YearStep(b - 1); DaysBeforeMonotone(a, b - 1); }
  }

  function YearFrom(day: int, year: int): (r: int)
    requires DaysBefore(year) <= day
    ensures DaysBefore(r) <= day < DaysBefore(r + 1)
    decreases day - DaysBefore(year)
  {
    YearStep(year);
    if day < DaysBefore(year + 1) then year else YearFrom(day, year + 1)
  }

  function YearDown(day: int, year: int): (r: int)
    requires day < DaysBefore(year)
    ensures DaysBefore(r) <= day < DaysBefore(r + 1)
    decreases DaysBefore(year) - day
  {
    YearStep(year - 1);
    if DaysBefore(year - 1) <= day then year - 1 else YearDown(day, year - 1)
  }

  function YearOf(day: int): (r: int)
    ensures DaysBefore(r) <= day < DaysBefore(r + 1)
  {
    if day < 0 then YearDown(day, 0) else YearFrom(day, 0)
  }

  lemma YearUnique(day: int, year: int)
    requires DaysBefore(year) <= day < DaysBefore(year + 1)
    ensures YearOf(day) == year
  {
    var r := YearOf(day);
    if r < year { DaysBeforeMonotone(r + 1, year); }
    if year < r { DaysBeforeMonotone(year + 1, r); }
  }

  const CUMULATIVE: seq<int> := [0, 31, 59, 90, 120, 151, 181, 212, 243, 273, 304, 334, 365]

  /** Days of the year before the first of the month; month 13 gives the year's length. */
  function DaysBeforeMonth(leap: bool, month: int): int
    requires 1 <= month <= 13
  {
    CUMULATIVE[month - 1] + if leap && month > 2 then 1 else 0
  }

  function MonthFrom(leap: bool, yday: int, month: int): (r: int)
    requires 1 <= month <= 12 && DaysBeforeMonth(leap, month) <= yday < DaysBeforeMonth(leap, 13)
    ensures month <= r <= 12 && DaysBeforeMonth(leap, r) <= yday < DaysBeforeMonth(leap, r + 1)
    decreases 12 - month
  {
    if yday < DaysBeforeMonth(leap, month + 1) then month else MonthFrom(leap, yday, month + 1)
  }

  lemma MonthBounds(year: int)
    ensures DaysBeforeMonth(IsLeap(year), 1) == 0 && DaysBeforeMonth(IsLeap(year), 13) == YearDays(year)
    ensures forall m :: 1 <= m <= 12 ==>
              DaysBeforeMonth(IsLeap(year), m + 1) <= DaysBeforeMonth(IsLeap(year), m) + 31
  {
    hide IsLeap;
  }

  /** Thirty days have April, June, September and November; February has 28, or 29 in a leap year. */
  lemma MonthLengths(leap: bool, month: int)
    requires 1 <= month <= 12
    ensures DaysBeforeMonth(leap, month + 1) - DaysBeforeMonth(leap, month) ==
              if month in {4, 6, 9, 11} then 30 else if month != 2 then 31 else if leap then 29 else 28
    ensures DaysBeforeMonth(leap, 1) == 0
  {
  }

  datatype Date = Date(year: int, month: int, day: int)

  function DateOf(day: int): (d: Date)
    ensures 1 <= d.month <= 12 && 1 <= d.day <= 31
    ensures DayOf(d) == day && d.year == YearOf(day)
    ensures DaysBeforeMonth(IsLeap(d.year), d.month) + d.day <= DaysBeforeMonth(IsLeap(d.year), d.month + 1)
  {
    hide DaysBefore, YearOf, MonthFrom, IsLeap, DaysBeforeMonth;
    var year := YearOf(day);
    YearStep(year);
    MonthBounds(year);
    var yday := day - DaysBefore(year);
    var month := MonthFrom(IsLeap(year), yday, 1);
    Date(year, month, yday - DaysBeforeMonth(IsLeap(year), month) + 1)
  }

  function DayOf(d: Date): int
    requires 1 <= d.month <= 12
  {
    DaysBefore(d.year) + DaysBeforeMonth(IsLeap(d.year), d.month) + d.day - 1
  }

  lemma SameDay(a: Date, b: Date)
    requires 1 <= a.month <= 12 && 1 <= b.month <= 12 && 1 <= a.day && 1 <= b.day
    requires a.year == b.year && DayOf(a) == DayOf(b)
    requires var leap := IsLeap(a.year);
             DaysBeforeMonth(leap, a.month) + a.day <= DaysBeforeMonth(leap, a.month + 1)
             && DaysBeforeMonth(leap, b.month) + b.day <= DaysBeforeMonth(leap, b.month + 1)
    ensures a == b
  {
  }

  predicate DateLess(a: Date, b: Date) {
    a.year < b.year || (a.year == b.year && (a.month < b.month || (a.month == b.month && a.day < b.day)))
  }

  lemma YearOrder(a: int, b: int)
    requires a <= b
    ensures YearOf(a) <= YearOf(b)
  {
    if YearOf(b) < YearOf(a) { DaysBeforeMonotone(YearOf(b) + 1, YearOf(a)); }
  }

  lemma MonthOrder(leap: bool, m: int, d: int, n: int, e: int)
    requires 1 <= m <= 12 && 1 <= d && DaysBeforeMonth(leap, m) + d <= DaysBeforeMonth(leap, m + 1)
    requires 1 <= n <= 12 && 1 <= e && DaysBeforeMonth(leap, n) + e <= DaysBeforeMonth(leap, n + 1)
    requires DaysBeforeMonth(leap, m) + d < DaysBeforeMonth(leap, n) + e
    ensures m < n || (m == n && d < e)
  {
  }

  /** Calendar dates run in the order of their days. */
  lemma DateOrder(a: int, b: int)
    requires a < b
    ensures DateLess(DateOf(a), DateOf(b))
  {
    YearOrder(a, b);
    var x, y := DateOf(a), DateOf(b);
    if x.year == y.year { MonthOrder(IsLeap(x.year), x.month, x.day, y.month, y.day); }
  }

  function DayNumber(t: Instant): int { t / NS_PER_DAY }

  lemma NotLeap(year: int, k: int)
    requires year % 4 == 0 && 1 <= k <= 3
    ensures !IsLeap(year + k)
  {
    assert (year + k) % 4 == k;
  }

  lemma FourYears(year: int)
    requires year % 4 == 0
    ensures DaysBefore(year + 4) == DaysBefore(year) + 1460 + if IsLeap(year) then 1 else 0
  {
    hide DaysBefore, IsLeap;
    NotLeap(year, 1); NotLeap(year, 2); NotLeap(year, 3);
    YearStep(year); YearStep(year + 1); YearStep(year + 2); YearStep(year + 3);
  }

  lemma InsideCentury(c: nat, k: nat)
    requires 0 < k < 25
    ensures IsLeap(100 * c + 4 * k)
  {
    assert (100 * c + 4 * k) % 100 == 4 * k;
    assert (100 * c + 4 * k) % 4 == 0;
  }

  lemma CenturyLeap(c: nat)
    ensures IsLeap(100 * c) <==> c % 4 == 0
  {
    assert (100 * c) % 400 == 0 <==> c % 4 == 0;
  }

  lemma {:induction false} Century(c: nat, k: nat)
    requires 0 < k <= 25
    ensures DaysBefore(100 * c + 4 * k) == DaysBefore(100 * c) + 1461 * k - if c % 4 == 0 then 0 else 1
  {
    hide DaysBefore, IsLeap;
    assert (100 * c + 4 * (k - 1)) % 4 == 0;
    FourYears(100 * c + 4 * (k - 1));
    if k > 1 { Century(c, k - 1); InsideCentury(c, k - 1); }
    else { CenturyLeap(c); }
  }

  /** The calendar repeats every 400 years of 146,097 days. */
  lemma {:induction false} Cycles(n: nat)
    ensures DaysBefore(400 * n) == 146_097 * n
  {
    hide IsLeap;
    if n > 0 {
      Cycles(n - 1);
      hide DaysBefore;
      var c := 4 * (n - 1);
      Century(c, 25); Century(c + 1, 25); Century(c + 2, 25); Century(c + 3, 25);
    }
  }

  /** The first instant of year 10000. */
  const END_OF_ENCODABLE: Instant := 3_652_425 * NS_PER_DAY

  /** The instants Go's four-digit year layout renders at fixed width. */
  predicate Encodable(t: Instant) { 0 <= t < END_OF_ENCODABLE }

  lemma EncodableYears(t: Instant)
    ensures Encodable(t) <==> 0 <= YearOf(DayNumber(t)) < 10_000
  {
    Cycles(25);
    var day, last := DayNumber(t), 400 * 25;
    var year := YearOf(day);
    if 0 <= day { if year < 0 { DaysBeforeMonotone(year + 1, 0); } }
    else if 0 <= year { DaysBeforeMonotone(0, year); }
    if day < DaysBefore(last) { if last <= year { DaysBeforeMonotone(last, year); } }
    else if year < last { DaysBeforeMonotone(year + 1, last); }
  }

  /** Go's Weekday: Sunday is 0; 0000-01-01 is a Saturday. */
  function Weekday(day: int): int { (day + 6) % 7 }

  /** An anchor of the week: 2000-01-01 was a Saturday. */
  lemma WeekAnchor()
    ensures Weekday(DayOf(Date(2000, 1, 1))) == 6 && IsLeap(2000) && !IsLeap(1900) && IsLeap(2024) && !IsLeap(2023)
  {
    hide DaysBefore;
    Cycles(5);
  }

  /** The Monday on or before the day. */
  function MondayOf(day: int): int { day - (Weekday(day) + 6) % 7 }
}
