/** The weekly misroute count (pkg/misroute-count.go): ISO weeks and the tally of flagged items.
    A location is a fixed offset from UTC. */
module Misroutes {
  import opened Text
  import opened Lex
  import opened Calendar
  import opened Keys
  import opened Items

  datatype Week = Week(year: int, week: int)

  // ---- the week and its days ----

  /** Monday of the week, from the rule that January 4 is always in week 1. */
  function Monday(w: Week): int {
    var jan4 := DaysBefore(w.year) + 3;
    jan4 - (Weekday(jan4) + 6) % 7 + (w.week - 1) * 7
  }

  /** Go's ISOWeek: the year of the week's Thursday, and how many Thursdays that year has had. */
  function ISOWeek(day: int): Week {
    var thursday := MondayOf(day) + 3;
    var year := YearOf(thursday);
    Week(year, (thursday - DaysBefore(year)) / 7 + 1)
  }

  /** A year has a week 53 when it starts on a Thursday, or on a Wednesday before a leap day. */
  predicate LongYear(year: int) {
    var newYear := Weekday(DaysBefore(year));
    newYear == 4 || (newYear == 3 && IsLeap(year))
  }

  predicate Exists(w: Week) {
    1 <= w.week <= 52 || (w.week == 53 && LongYear(w.year))
  }

  lemma MondayForm(day: int)
    ensures MondayOf(day) == day - (day + 5) % 7 && Weekday(day) == (day + 6) % 7
    ensures MondayOf(day) % 7 == 2 && MondayOf(day) <= day < MondayOf(day) + 7
  {
  }

  lemma MondayIs(monday: int, day: int)
    requires monday % 7 == 2 && monday <= day < monday + 7
    ensures MondayOf(day) == monday
  {
    MondayForm(day);
  }

  lemma FirstThursday(year: int)
    ensures var thursday := Monday(Week(year, 1)) + 3;
            && thursday % 7 == 5 && 0 <= thursday - DaysBefore(year) <= 6
            && (LongYear(year) <==> thursday + 364 < DaysBefore(year + 1))
  {
    hide DaysBefore, MondayOf, IsLeap;
    YearStep(year);
    var newYear, thursday := DaysBefore(year), Monday(Week(year, 1)) + 3;
    MondayForm(newYear + 3);
    assert MondayOf(newYear + 3) == newYear + 3 - (Weekday(newYear + 3) + 6) % 7;
    assert thursday == MondayOf(newYear + 3) + 3;
    assert thursday == newYear <==> Weekday(newYear) == 4;
    assert thursday == newYear + 1 <==> Weekday(newYear) == 3;
  }

  lemma LaterMonday(w: Week)
    ensures Monday(w) == Monday(Week(w.year, 1)) + 7 * (w.week - 1)
    ensures Monday(w) % 7 == 2
  {
    hide Weekday, DaysBefore;
    var first := Monday(Week(w.year, 1));
    assert first % 7 == 2 by { FirstThursday(w.year); }
  }

  /** The dates computed for a numbered week carry that number exactly when the year has the week. */
  lemma MondayOfWeek(w: Week)
    requires 1 <= w.week <= 53
    ensures ISOWeek(Monday(w)) == w <==> Exists(w)
  {
    hide Monday, MondayOf, LongYear, DaysBefore, IsLeap;
    FirstThursday(w.year);
    LaterMonday(w);
    YearStep(w.year);
    var thursday := Monday(w) + 3;
    MondayIs(Monday(w), Monday(w));
    if Exists(w) { YearUnique(thursday, w.year); }
  }

  /** Every day is inside the week it is numbered with, and that week exists. */
  lemma WeekOfDay(day: int)
    ensures Exists(ISOWeek(day)) && Monday(ISOWeek(day)) == MondayOf(day)
    ensures Monday(ISOWeek(day)) <= day < Monday(ISOWeek(day)) + 7
  {
    hide Monday, MondayOf, LongYear, DaysBefore, IsLeap, YearOf;
    var w := ISOWeek(day);
    MondayForm(day);
    FirstThursday(w.year);
    LaterMonday(w);
    YearStep(w.year);
    var thursday, newYear := MondayOf(day) + 3, DaysBefore(w.year);
    assert newYear <= thursday < DaysBefore(w.year + 1) && w.week == (thursday - newYear) / 7 + 1;
    SameColumn(thursday, Monday(Week(w.year, 1)) + 3, newYear);
    FiftyThree(thursday - newYear);
  }

  lemma FiftyThree(yday: nat)
    requires yday < 366
    ensures 0 <= yday / 7 <= 52
  {
  }

  lemma SameColumn(thursday: int, first: int, newYear: int)
    requires thursday % 7 == 5 && first % 7 == 5 && 0 <= first - newYear <= 6 && newYear <= thursday
    ensures thursday == first + 7 * ((thursday - newYear) / 7)
  {
    var weeks := (thursday - first) / 7;
    assert thursday - newYear == 7 * weeks + (first - newYear);
  }

  datatype Window = Window(start: Instant, end: Instant)

  /** Midnight of the Monday up to, and not including, midnight of the next, at offset ns east. */
  function WindowOf(w: Week, offset: int): Window {
    var start := Monday(w) * NS_PER_DAY - offset;
    Window(start, start + 7 * NS_PER_DAY)
  }

  predicate Inside(t: Instant, w: Window) { w.start <= t < w.end }

  /** The local calendar day of an instant. */
  function LocalDay(t: Instant, offset: int): int { DayNumber(t + offset) }

  lemma InsideByDay(t: Instant, w: Week, offset: int)
    ensures Inside(t, WindowOf(w, offset)) <==> Monday(w) <= LocalDay(t, offset) < Monday(w) + 7
  {
  }

  /** The windows of the existing weeks partition time: each instant is inside exactly one. */
  lemma WindowsPartitionTime(t: Instant, offset: int, w: Week)
    ensures Exists(ISOWeek(LocalDay(t, offset))) && Inside(t, WindowOf(ISOWeek(LocalDay(t, offset)), offset))
    ensures Exists(w) && Inside(t, WindowOf(w, offset)) ==> w == ISOWeek(LocalDay(t, offset))
  {
    hide Exists, Monday, MondayOf, ISOWeek, WindowOf, LocalDay;
    var day := LocalDay(t, offset);
    WeekOfDay(day);
    InsideByDay(t, ISOWeek(day), offset);
    InsideByDay(t, w, offset);
    if Exists(w) && Inside(t, WindowOf(w, offset)) {
      ExistsRange(w);
      MondayOfWeek(w);
      LaterMonday(w);
      MondayIs(Monday(w), day);
      MondayIs(Monday(w), Monday(w));
      SameMondaySameWeek(day, Monday(w));
    }
  }

  lemma SameMondaySameWeek(a: int, b: int)
    requires MondayOf(a) == MondayOf(b)
    ensures ISOWeek(a) == ISOWeek(b)
  {
  }

  lemma ExistsRange(w: Week)
    ensures Exists(w) ==> 1 <= w.week <= 53
  {
  }

  // ---- the written form ----

  /** The width a number needs, sign apart. */
  function Room(n: int, width: nat): (r: nat)
    requires width >= 2
  {
    var size, room := if n < 0 then -n else n, if n < 0 then width - 1 else width;
    if DigitCount(size) < room then room else DigitCount(size)
  }

  /** Go's `%0Nd`. */
  function Decimal(n: int, width: nat): string
    requires width >= 2
  {
    if n < 0 then "-" + Pad(-n, Room(n, width)) else Pad(n, Room(n, width))
  }

  function WeekText(w: Week): string { Decimal(w.year, 4) + "W" + Decimal(w.week, 2) }

  predicate IsDigit(c: char) { '0' <= c <= '9' }

  function Digits(s: string): Option<int> {
    if s == [] then Some(0)
    else if !IsDigit(s[|s| - 1]) then None
    else
      match Digits(s[..|s| - 1])
      case None => None
      case Some(n) => Some(10 * n + (s[|s| - 1] - '0') as int)
  }

  /** strconv.Atoi on texts too short to overflow: an optional sign, then at least one digit. */
  function Atoi(s: string): Option<int> {
    if s == [] then None
    else if s[0] == '-' || s[0] == '+' then
      if |s| == 1 then None
      else match Digits(s[1..])
           case None => None
           case Some(n) => Some(if s[0] == '-' then -n else n)
    else Digits(s)
  }

  function ParseWeek(raw: string): Option<Week> {
    if |raw| != 7 || (raw[4] != 'W' && raw[4] != 'w') then None
    else
      match Atoi(raw[..4])
      case None => None
      case Some(year) =>
        match Atoi(raw[5..])
        case None => None
        case Some(week) =>
          if week < 1 || week > 53 then None
          else if ISOWeek(Monday(Week(year, week))) != Week(year, week) then None
          else Some(Week(year, week))
  }

  lemma {:induction false} PadDigits(n: nat, width: nat)
    requires n < Pow10(width)
    ensures Digits(Pad(n, width)) == Some(n)
    ensures forall i :: 0 <= i < width ==> IsDigit(Pad(n, width)[i])
  {
    if width > 0 {
      PadDigits(n / 10, width - 1);
      assert Pad(n, width)[..width - 1] == Pad(n / 10, width - 1);
    }
  }

  lemma {:induction false} CountBounds(n: nat, width: nat)
    requires width >= 1
    ensures DigitCount(n) <= width <==> n < Pow10(width)
  {
    if n < 10 { PowAtLeast(width); }
    else if width > 1 { CountBounds(n / 10, width - 1); }
  }

  lemma {:induction false} PowAtLeast(width: nat)
    requires width >= 1
    ensures Pow10(width) >= 10
  {
    if width > 1 { PowAtLeast(width - 1); }
  }

  lemma RoomEnough(n: int, width: nat)
    requires width >= 2
    ensures var size, room := if n < 0 then -n else n, if n < 0 then width - 1 else width;
            size < Pow10(Room(n, width)) && Room(n, width) >= room && (Room(n, width) == room <==> size < Pow10(room))
  {
    hide Pow10, DigitCount;
    var size, room := if n < 0 then -n else n, if n < 0 then width - 1 else width;
    CountBounds(size, Room(n, width));
    CountBounds(size, room);
  }

  /** A decimal reads back as its number, and holds nothing but a sign and digits. */
  lemma DecimalAtoi(n: int, width: nat)
    requires width >= 2
    ensures Atoi(Decimal(n, width)) == Some(n)
    ensures forall i :: 0 <= i < |Decimal(n, width)| ==> IsDigit(Decimal(n, width)[i]) || Decimal(n, width)[i] == '-'
    ensures |Decimal(n, width)| >= width
    ensures |Decimal(n, width)| == width <==> (if n < 0 then -n < Pow10(width - 1) else n < Pow10(width))
  {
    hide Pow10, Pad, Digits, DigitCount;
    RoomEnough(n, width);
    if n < 0 {
      PadDigits(-n, Room(n, width));
      assert Decimal(n, width)[1..] == Pad(-n, Room(n, width));
    } else {
      PadDigits(n, Room(n, width));
      assert Decimal(n, width) == Pad(n, Room(n, width));
    }
  }

  /** A written week reads back as itself exactly when it exists and its year fits the four columns. */
  lemma WrittenWeekReadsBack(w: Week)
    ensures ParseWeek(WeekText(w)) == if -1000 < w.year < 10_000 && Exists(w) then Some(w) else None
    ensures -1000 < w.year < 10_000 && 1 <= w.week <= 53 ==> |WeekText(w)| == 7 && WeekText(w)[4] == 'W'
  {
    hide ISOWeek, Exists, Monday;
    var text, year, week := WeekText(w), Decimal(w.year, 4), Decimal(w.week, 2);
    DecimalAtoi(w.year, 4); DecimalAtoi(w.week, 2);
    assert Pow10(2) == 100 && Pow10(3) == 1000 && Pow10(4) == 10_000;
    if |year| == 4 {
      assert text[..4] == year && text[4] == 'W' && text[5..] == week;
      ExistsRange(w);
      if 1 <= w.week <= 53 { MondayOfWeek(w); }
    } else {
      assert text[4] == year[4];
    }
  }

  lemma {:induction false} DigitsBound(s: string)
    ensures Digits(s).Some? ==> 0 <= Digits(s).value < Pow10(|s|)
  {
    if s != [] { DigitsBound(s[..|s| - 1]); }
  }

  /** The separator may be written either way. */
  lemma SeparatorCase(raw: string)
    requires |raw| == 7 && raw[4] == 'w'
    ensures ParseWeek(raw) == ParseWeek(raw[4 := 'W'])
  {
    hide Atoi, ISOWeek, Monday;
    var upper := raw[4 := 'W'];
    assert upper[..4] == raw[..4] && upper[5..] == raw[5..];
  }

  /** What a text is accepted as is an existing week, and the same week is read from its written form. */
  lemma ParsedWeekExists(raw: string)
    ensures ParseWeek(raw).Some? ==>
              && Exists(ParseWeek(raw).value) && -1000 < ParseWeek(raw).value.year < 10_000
              && ParseWeek(WeekText(ParseWeek(raw).value)) == ParseWeek(raw)
  {
    hide ISOWeek, Exists, Monday;
    if ParseWeek(raw).Some? {
      var w := ParseWeek(raw).value;
      MondayOfWeek(w);
      WrittenWeekReadsBack(w);
      DigitsBound(raw[..4]); DigitsBound(raw[..4][1..]);
      assert Pow10(3) == 1000 && Pow10(4) == 10_000;
    }
  }

  /** Each local day of the years 1 to 9999 is in the window of exactly one week that is accepted. */
  lemma EachDayHasOneReadableWeek(t: Instant, offset: int, raw: string)
    requires 1 <= YearOf(LocalDay(t, offset)) <= 9999
    ensures var w := ISOWeek(LocalDay(t, offset));
            && Inside(t, WindowOf(w, offset)) && ParseWeek(WeekText(w)) == Some(w)
            && (ParseWeek(raw).Some? && Inside(t, WindowOf(ParseWeek(raw).value, offset)) ==> ParseWeek(raw) == Some(w))
  {
    hide ISOWeek, Exists, LocalDay, WindowOf, WeekText, ParseWeek, DaysBefore;
    var day := LocalDay(t, offset);
    var w := ISOWeek(day);
    WindowsPartitionTime(t, offset, w);
    WrittenWeekReadsBack(w);
    if ParseWeek(raw).Some? {
      ParsedWeekExists(raw);
      WindowsPartitionTime(t, offset, ParseWeek(raw).value);
    }
    IsoYearInRange(day);
  }

  /** Year 10000 starts on a Saturday, so no day before it belongs to one of its weeks. */
  lemma IsoYearInRange(day: int)
    requires 0 <= YearOf(day) <= 9999
    ensures -1 <= ISOWeek(day).year <= 9999
  {
    hide DaysBefore;
    Cycles(25);
    MondayForm(day);
    DaysBeforeMonotone(YearOf(day) + 1, 10_000);
    assert MondayOf(day) + 3 < DaysBefore(10_000);
    YearOrder(MondayOf(day) + 3, 3_652_424);
    YearUnique(3_652_424, 9999) by { YearStep(9999); }
    NearbyYear(day);
  }

  lemma NearbyYear(day: int)
    ensures ISOWeek(day).year >= YearOf(day) - 1
  {
    hide DaysBefore;
    var year := YearOf(day);
    YearStep(year - 1);
    MondayForm(day);
    YearOrder(DaysBefore(year - 1), MondayOf(day) + 3);
    YearUnique(DaysBefore(year - 1), year - 1);
  }

  // ---- the count ----

  /** The grouping key: the reason is trimmed, its case kept. */
  datatype Bucket = Bucket(producerID: string, reason: string)

  datatype Row = Row(bucket: Bucket, producerKind: string, count: nat)

  function BucketOf(item: Item): Bucket { Bucket(item.producerID, TrimSpace(item.flagReason)) }

  predicate FlaggedIn(item: Item, w: Window) { item.flaggedAt.Some? && Inside(item.flaggedAt.value, w) }

  /** How many of the items are flagged inside the window. */
  function Flagged(items: seq<Item>, w: Window): nat {
    if items == [] then 0
    else
      var before := Flagged(items[..|items| - 1], w);
      if FlaggedIn(items[|items| - 1], w) then before + 1 else before
  }

  /** How many of them fall into one bucket. */
  function Tally(items: seq<Item>, w: Window, b: Bucket): nat {
    if items == [] then 0
    else
      var before := Tally(items[..|items| - 1], w, b);
      if FlaggedIn(items[|items| - 1], w) && BucketOf(items[|items| - 1]) == b then before + 1 else before
  }

  /** The kind the first item of the bucket reported as. */
  function FirstKind(items: seq<Item>, w: Window, b: Bucket): (kind: string)
    requires Tally(items, w, b) > 0
  {
    var front, last := items[..|items| - 1], items[|items| - 1];
    if Tally(front, w, b) > 0 then FirstKind(front, w, b) else last.producerKind
  }

  /** Count descending, then producer, then reason. */
  predicate RowBefore(a: Row, b: Row) {
    || a.count > b.count
    || (a.count == b.count
        && (Less(a.bucket.producerID, b.bucket.producerID)
            || (a.bucket.producerID == b.bucket.producerID && Less(a.bucket.reason, b.bucket.reason))))
  }

  predicate Ordered(rows: seq<Row>) {
    forall i, j :: 0 <= i < j < |rows| ==> RowBefore(rows[i], rows[j])
  }

  function RowFor(items: seq<Item>, w: Window, b: Bucket): Row
    requires Tally(items, w, b) > 0
  {
    Row(b, FirstKind(items, w, b), Tally(items, w, b))
  }

  /** The report: in order, one row for each bucket that occurs, with its tally. */
  ghost predicate IsCount(rows: seq<Row>, items: seq<Item>, w: Window) {
    && Ordered(rows)
    && (forall r :: r in rows ==> Tally(items, w, r.bucket) > 0 && r == RowFor(items, w, r.bucket))
    && (forall b :: Tally(items, w, b) > 0 ==> RowFor(items, w, b) in rows)
  }

  lemma RowOrderAsymmetric(a: Row, b: Row)
    requires RowBefore(a, b)
    ensures !RowBefore(b, a)
  {
    LessIrreflexive(a.bucket.producerID); LessIrreflexive(a.bucket.reason);
    if Less(a.bucket.producerID, b.bucket.producerID) { LessAsymmetric(a.bucket.producerID, b.bucket.producerID); }
    if Less(a.bucket.reason, b.bucket.reason) { LessAsymmetric(a.bucket.reason, b.bucket.reason); }
  }

  lemma RowOrderTransitive(a: Row, b: Row, c: Row)
    requires RowBefore(a, b) && RowBefore(b, c)
    ensures RowBefore(a, c)
  {
    if Less(a.bucket.producerID, b.bucket.producerID) && Less(b.bucket.producerID, c.bucket.producerID) {
      LessTransitive(a.bucket.producerID, b.bucket.producerID, c.bucket.producerID);
    }
    if Less(a.bucket.reason, b.bucket.reason) && Less(b.bucket.reason, c.bucket.reason) {
      LessTransitive(a.bucket.reason, b.bucket.reason, c.bucket.reason);
    }
  }

  lemma RowOrderTotal(a: Row, b: Row)
    requires a.bucket != b.bucket
    ensures RowBefore(a, b) || RowBefore(b, a)
  {
    LessTotal(a.bucket.producerID, b.bucket.producerID);
    LessTotal(a.bucket.reason, b.bucket.reason);
  }

  /** The order is total on buckets, so one population has one report, whatever order maps iterate in. */
  lemma CountUnique(a: seq<Row>, b: seq<Row>, items: seq<Item>, w: Window)
    requires IsCount(a, items, w) && IsCount(b, items, w)
    ensures a == b
  {
    hide RowBefore, Tally, RowFor;
    forall x, y | RowBefore(x, y) ensures !RowBefore(y, x) { RowOrderAsymmetric(x, y); }
    SortedUnique(RowBefore, a, b);
  }

  lemma CountsDescend(rows: seq<Row>, items: seq<Item>, w: Window, i: nat, j: nat)
    requires IsCount(rows, items, w) && i < j < |rows|
    ensures Tally(items, w, rows[i].bucket) >= Tally(items, w, rows[j].bucket)
    ensures Tally(items, w, rows[i].bucket) == Tally(items, w, rows[j].bucket) ==>
              rows[i].bucket.producerID == rows[j].bucket.producerID
              || Less(rows[i].bucket.producerID, rows[j].bucket.producerID)
    ensures rows[i].count == rows[j].count && rows[i].bucket.producerID == rows[j].bucket.producerID ==>
              Less(rows[i].bucket.reason, rows[j].bucket.reason)
  {
    hide Tally;
    assert rows[i] in rows && rows[j] in rows;
    LessIrreflexive(rows[i].bucket.producerID);
  }

  /** The first row is a bucket no other bucket exceeds, counted or not. */
  lemma FirstRowLeads(rows: seq<Row>, items: seq<Item>, w: Window, b: Bucket)
    requires IsCount(rows, items, w) && rows != []
    ensures Tally(items, w, b) <= rows[0].count
  {
    hide Tally, RowBefore;
    assert rows[0] in rows;
    if Tally(items, w, b) > 0 {
      var j :| 0 <= j < |rows| && rows[j] == RowFor(items, w, b);
      if j > 0 { CountsDescend(rows, items, w, 0, j); }
    }
  }

  lemma {:induction false} TallyConcat(a: seq<Item>, b: seq<Item>, w: Window, key: Bucket)
    ensures Tally(a + b, w, key) == Tally(a, w, key) + Tally(b, w, key)
  {
    hide FlaggedIn, BucketOf;
    if b == [] { assert a + b == a; }
    else {
      assert (a + b)[..|a + b| - 1] == a + b[..|b| - 1];
      TallyConcat(a, b[..|b| - 1], w, key);
    }
  }

  lemma {:induction false} TallyOfBag(a: seq<Item>, b: seq<Item>, w: Window, key: Bucket)
    requires multiset(a) == multiset(b)
    ensures Tally(a, w, key) == Tally(b, w, key)
    decreases |a|
  {
    hide FlaggedIn, BucketOf, Tally;
    if a == [] {
      assert |multiset(b)| == 0 && b == [];
    } else {
      var front, last := a[..|a| - 1], a[|a| - 1];
      assert a == front + [last];
      assert last in multiset(a);
      var i :| 0 <= i < |b| && b[i] == last;
      assert b == b[..i] + [last] + b[i + 1..];
      assert multiset(front) == multiset(a) - multiset{last} == multiset(b[..i] + b[i + 1..]);
      TallyOfBag(front, b[..i] + b[i + 1..], w, key);
      TallyConcat(front, [last], w, key);
      TallyConcat(b[..i], [last], w, key);
      TallyConcat(b[..i] + [last], b[i + 1..], w, key);
      TallyConcat(b[..i], b[i + 1..], w, key);
    }
  }

  function Unlabelled(rows: seq<Row>): seq<Row> {
    seq(|rows|, i requires 0 <= i < |rows| => rows[i].(producerKind := ""))
  }

  lemma UnlabelledCount(rows: seq<Row>, items: seq<Item>, w: Window)
    requires IsCount(rows, items, w)
    ensures Ordered(Unlabelled(rows))
    ensures forall r: Row :: r in Unlabelled(rows) <==>
              Tally(items, w, r.bucket) > 0 && r == Row(r.bucket, "", Tally(items, w, r.bucket))
  {
    hide Tally;
    var plain := Unlabelled(rows);
    forall r | r in plain ensures Tally(items, w, r.bucket) > 0 && r == Row(r.bucket, "", Tally(items, w, r.bucket)) {
      var i :| 0 <= i < |plain| && plain[i] == r;
      assert rows[i] in rows;
    }
    forall r: Row | Tally(items, w, r.bucket) > 0 && r == Row(r.bucket, "", Tally(items, w, r.bucket))
      ensures r in plain
    {
      var i :| 0 <= i < |rows| && rows[i] == RowFor(items, w, r.bucket);
      assert plain[i] == r;
    }
  }

  /** The report does not depend on the order its caller read the items in: any order gives the same
      buckets with the same counts at the same places. Only a bucket's kind is that of its first item. */
  lemma CountIgnoresOrder(a: seq<Row>, items: seq<Item>, b: seq<Row>, shuffled: seq<Item>, w: Window)
    requires IsCount(a, items, w) && IsCount(b, shuffled, w) && multiset(items) == multiset(shuffled)
    ensures |a| == |b| && forall i :: 0 <= i < |a| ==> a[i].bucket == b[i].bucket && a[i].count == b[i].count
  {
    hide Tally, IsCount, RowBefore;
    UnlabelledCount(a, items, w);
    UnlabelledCount(b, shuffled, w);
    forall r ensures r in Unlabelled(a) <==> r in Unlabelled(b) { TallyOfBag(items, shuffled, w, r.bucket); }
    forall x, y | RowBefore(x, y) ensures !RowBefore(y, x) { RowOrderAsymmetric(x, y); }
    SortedUnique(RowBefore, Unlabelled(a), Unlabelled(b));
    forall i | 0 <= i < |a| ensures a[i].bucket == b[i].bucket && a[i].count == b[i].count {
      assert Unlabelled(a)[i] == Unlabelled(b)[i];
    }
  }

  // ---- conservation ----

  /** The item is flagged inside the window, by this producer, for this reason once trimmed. */
  predicate CountedFor(item: Item, w: Window, producerID: string, reason: string) {
    && item.flaggedAt.Some? && w.start <= item.flaggedAt.value < w.end
    && item.producerID == producerID && TrimSpace(item.flagReason) == reason
  }

  function PlacesFor(items: seq<Item>, w: Window, producerID: string, reason: string): set<nat> {
    set i: nat | i < |items| && CountedFor(items[i], w, producerID, reason)
  }

  lemma PlacesStep(items: seq<Item>, w: Window, b: Bucket)
    requires items != []
    ensures var n := |items| - 1;
            var before := PlacesFor(items[..n], w, b.producerID, b.reason);
            && PlacesFor(items, w, b.producerID, b.reason) ==
                 before + (if FlaggedIn(items[n], w) && BucketOf(items[n]) == b then {n} else {})
            && (forall i :: i in before ==> i < n)
  {
    hide CountedFor, FlaggedIn, BucketOf;
    var n := |items| - 1;
    CountedIs(items[n], w, b);
    var before, now := PlacesFor(items[..n], w, b.producerID, b.reason), PlacesFor(items, w, b.producerID, b.reason);
    forall i: nat ensures i in now <==> i in before || (i == n && CountedFor(items[n], w, b.producerID, b.reason)) {
      if i < n { assert items[..n][i] == items[i]; }
    }
  }

  lemma {:induction false} TallyIsPlaces(items: seq<Item>, w: Window, b: Bucket)
    ensures Tally(items, w, b) == |PlacesFor(items, w, b.producerID, b.reason)|
  {
    hide FlaggedIn, BucketOf, PlacesFor;
    if items == [] { NoPlaces(w, b); }
    else {
      TallyIsPlaces(items[..|items| - 1], w, b);
      PlacesStep(items, w, b);
    }
  }

  lemma NoPlaces(w: Window, b: Bucket)
    ensures PlacesFor([], w, b.producerID, b.reason) == {}
  {
  }

  lemma {:induction false} KindIsFirst(items: seq<Item>, w: Window, b: Bucket) returns (i: nat)
    requires Tally(items, w, b) > 0
    ensures i in PlacesFor(items, w, b.producerID, b.reason) && i < |items|
    ensures forall j :: j in PlacesFor(items, w, b.producerID, b.reason) ==> i <= j
    ensures FirstKind(items, w, b) == items[i].producerKind
  {
    hide FlaggedIn, BucketOf, PlacesFor;
    var n := |items| - 1;
    var front := items[..n];
    PlacesStep(items, w, b);
    TallyIsPlaces(front, w, b);
    if Tally(front, w, b) > 0 {
      i := KindIsFirst(front, w, b);
    } else {
      i := n;
    }
  }

  lemma CountedIs(item: Item, w: Window, b: Bucket)
    ensures FlaggedIn(item, w) && BucketOf(item) == b <==> CountedFor(item, w, b.producerID, b.reason)
  {
  }

  /** The report by fields: one row for each producer and trimmed reason some item was flagged with inside the
      window, with how many were and the kind the first of them reported as. */
  lemma CountByFields(rows: seq<Row>, items: seq<Item>, w: Window, producerID: string, reason: string)
    requires IsCount(rows, items, w)
    ensures var places := PlacesFor(items, w, producerID, reason);
            && (places != {} <==> exists k :: 0 <= k < |rows| && rows[k].bucket == Bucket(producerID, reason))
            && forall k :: 0 <= k < |rows| && rows[k].bucket == Bucket(producerID, reason) ==>
                 && rows[k].count == |places|
                 && exists i: nat :: i in places && i < |items| && (forall j :: j in places ==> i <= j)
                                     && rows[k].producerKind == items[i].producerKind
  {
    hide RowBefore, PlacesFor, Ordered, Tally, FirstKind;
    var b := Bucket(producerID, reason);
    TallyIsPlaces(items, w, b);
    if Tally(items, w, b) > 0 {
      var k :| 0 <= k < |rows| && rows[k] == RowFor(items, w, b);
      var i := KindIsFirst(items, w, b);
    }
    forall k | 0 <= k < |rows| && rows[k].bucket == b ensures rows[k] == RowFor(items, w, b) && Tally(items, w, b) > 0 {
      assert rows[k] in rows;
    }
  }

  function Total(rows: seq<Row>): nat {
    if rows == [] then 0 else Total(rows[..|rows| - 1]) + rows[|rows| - 1].count
  }

  function TallyAll(buckets: seq<Bucket>, items: seq<Item>, w: Window): nat {
    if buckets == [] then 0
    else TallyAll(buckets[..|buckets| - 1], items, w) + Tally(items, w, buckets[|buckets| - 1])
  }

  lemma {:induction false} OneMoreItem(buckets: seq<Bucket>, items: seq<Item>, w: Window)
    requires items != [] && forall i, j :: 0 <= i < j < |buckets| ==> buckets[i] != buckets[j]
    ensures var front, last := items[..|items| - 1], items[|items| - 1];
            TallyAll(buckets, items, w) ==
              TallyAll(buckets, front, w) + if FlaggedIn(last, w) && BucketOf(last) in buckets then 1 else 0
  {
    hide FlaggedIn, BucketOf;
    if buckets != [] {
      assert buckets == buckets[..|buckets| - 1] + [buckets[|buckets| - 1]];
      OneMoreItem(buckets[..|buckets| - 1], items, w);
    }
  }

  lemma {:induction false} NothingTallied(buckets: seq<Bucket>, w: Window)
    ensures TallyAll(buckets, [], w) == 0
  {
    if buckets != [] { NothingTallied(buckets[..|buckets| - 1], w); }
  }

  lemma {:induction false} TalliesAddUp(buckets: seq<Bucket>, items: seq<Item>, w: Window)
    requires forall i, j :: 0 <= i < j < |buckets| ==> buckets[i] != buckets[j]
    requires forall i :: 0 <= i < |items| && FlaggedIn(items[i], w) ==> BucketOf(items[i]) in buckets
    ensures TallyAll(buckets, items, w) == Flagged(items, w)
  {
    hide FlaggedIn, BucketOf;
    if items == [] {
      NothingTallied(buckets, w);
    } else {
      OneMoreItem(buckets, items, w);
      TalliesAddUp(buckets, items[..|items| - 1], w);
    }
  }

  lemma {:induction false} TallyGrows(items: seq<Item>, w: Window, i: nat)
    requires i < |items| && FlaggedIn(items[i], w)
    ensures Tally(items, w, BucketOf(items[i])) > 0
  {
    hide FlaggedIn, BucketOf;
    if i < |items| - 1 { TallyGrows(items[..|items| - 1], w, i); }
  }

  function BucketsOf(rows: seq<Row>): seq<Bucket> { seq(|rows|, i requires 0 <= i < |rows| => rows[i].bucket) }

  lemma {:induction false} TotalIsTallied(rows: seq<Row>, items: seq<Item>, w: Window)
    requires forall r :: r in rows ==> r.count == Tally(items, w, r.bucket)
    ensures Total(rows) == TallyAll(BucketsOf(rows), items, w)
  {
    hide Tally;
    if rows != [] {
      assert rows[|rows| - 1] in rows;
      TotalIsTallied(rows[..|rows| - 1], items, w);
      assert BucketsOf(rows)[..|rows| - 1] == BucketsOf(rows[..|rows| - 1]);
    }
  }

  /** Nothing flagged is lost or counted twice: the rows name distinct buckets and their counts add up
      to the items flagged inside the window. */
  lemma CountConserves(rows: seq<Row>, items: seq<Item>, w: Window)
    requires IsCount(rows, items, w)
    ensures Total(rows) == Flagged(items, w)
    ensures forall i, j :: 0 <= i < j < |rows| ==> rows[i].bucket != rows[j].bucket
  {
    hide RowBefore, Tally, FlaggedIn, BucketOf, Flagged;
    forall i, j | 0 <= i < j < |rows| ensures rows[i].bucket != rows[j].bucket {
      assert rows[i] in rows && rows[j] in rows;
      if rows[i] == rows[j] { RowOrderAsymmetric(rows[i], rows[j]); }
    }
    forall i | 0 <= i < |items| && FlaggedIn(items[i], w) ensures BucketOf(items[i]) in BucketsOf(rows) {
      TallyGrows(items, w, i);
      var k :| 0 <= k < |rows| && rows[k] == RowFor(items, w, BucketOf(items[i]));
      assert BucketsOf(rows)[k] == BucketOf(items[i]);
    }
    TalliesAddUp(BucketsOf(rows), items, w);
    TotalIsTallied(rows, items, w);
  }

  // ---- the loops ----

  /** sort.Slice under RowBefore, one row at a time. */
  function InsertRow(rows: seq<Row>, row: Row): (r: seq<Row>)
    requires Ordered(rows) && forall x :: x in rows ==> x.bucket != row.bucket
    ensures Ordered(r) && multiset(r) == multiset(rows) + multiset{row}
    decreases |rows|
  {
    if rows == [] then [row]
    else
      var front, last := rows[..|rows| - 1], rows[|rows| - 1];
      assert rows == front + [last] && last in rows;
      RowOrderTotal(last, row);
      if RowBefore(last, row) then
        OrderedSnoc(rows, row);
        rows + [row]
      else
        var placed := InsertRow(front, row);
        OrderedUnder(placed, front, row, last);
        placed + [last]
  }

  lemma OrderedSnoc(rows: seq<Row>, row: Row)
    requires Ordered(rows) && rows != [] && RowBefore(rows[|rows| - 1], row)
    ensures Ordered(rows + [row])
  {
    hide RowBefore;
    forall i | 0 <= i < |rows| ensures RowBefore(rows[i], row) {
      if i < |rows| - 1 { RowOrderTransitive(rows[i], rows[|rows| - 1], row); }
    }
  }

  lemma OrderedUnder(placed: seq<Row>, front: seq<Row>, row: Row, last: Row)
    requires Ordered(placed) && multiset(placed) == multiset(front) + multiset{row}
    requires Ordered(front + [last]) && RowBefore(row, last)
    ensures Ordered(placed + [last])
  {
    hide RowBefore;
    forall i | 0 <= i < |placed| ensures RowBefore(placed[i], last) {
      assert placed[i] in multiset(placed);
      if placed[i] != row {
        assert placed[i] in front;
        var j :| 0 <= j < |front| && front[j] == placed[i];
        assert (front + [last])[j] == placed[i] && (front + [last])[|front|] == last;
      }
    }
  }

  datatype Report = Report(week: string, start: Date, end: Date, rows: seq<Row>)

  method CountMisroutes(items: seq<Item>, week: Week, offset: int) returns (report: Report)
    ensures IsCount(report.rows, items, WindowOf(week, offset))
    ensures report.week == WeekText(week)
    ensures report.start == DateOf(Monday(week)) && report.end == DateOf(Monday(week) + 6)
  {
    hide RowBefore, FlaggedIn, BucketOf, Monday, DaysBefore, DateOf, YearOf;
    var w := WindowOf(week, offset);
    var counts: map<Bucket, nat> := map[];
    var kinds: map<Bucket, string> := map[];
    for i := 0 to |items|
      invariant forall b :: b in counts <==> Tally(items[..i], w, b) > 0
      invariant forall b :: b in kinds <==> b in counts
      invariant forall b :: b in counts ==> counts[b] == Tally(items[..i], w, b)
      invariant forall b :: b in counts ==> kinds[b] == FirstKind(items[..i], w, b)
    {
      assert items[..i + 1][..i] == items[..i];
      if FlaggedIn(items[i], w) {
        var key := BucketOf(items[i]);
        counts := counts[key := if key in counts then counts[key] + 1 else 1];
        if key !in kinds { kinds := kinds[key := items[i].producerKind]; }
      }
    }
    assert items[..|items|] == items;
    var rows := SortedRows(counts, kinds, items, w);
    report := Report(WeekText(week), DateOf(LocalDay(w.start, offset)), DateOf(LocalDay(w.end - 1, offset)), rows);
  }

  /** The rows of the two maps, taken in any order and sorted. */
  method SortedRows(counts: map<Bucket, nat>, kinds: map<Bucket, string>, ghost items: seq<Item>, ghost w: Window)
    returns (rows: seq<Row>)
    requires forall b :: (b in counts <==> Tally(items, w, b) > 0) && (b in kinds <==> b in counts)
    requires forall b :: b in counts ==> counts[b] == Tally(items, w, b) && kinds[b] == FirstKind(items, w, b)
    ensures IsCount(rows, items, w)
  {
    hide RowBefore, Tally, FirstKind;
    rows := [];
    var todo := counts.Keys;
    while todo != {}
      invariant todo <= counts.Keys && Ordered(rows)
      invariant forall r :: r in rows ==> r.bucket in counts && r.bucket !in todo && r == RowFor(items, w, r.bucket)
      invariant forall b :: b in counts && b !in todo ==> RowFor(items, w, b) in rows
    {
      var key :| key in todo;
      var row := Row(key, kinds[key], counts[key]);
      var placed := InsertRow(rows, row);
      InsertedMembers(rows, row, placed);
      rows, todo := placed, todo - {key};
    }
  }

  lemma InsertedMembers(rows: seq<Row>, row: Row, placed: seq<Row>)
    requires multiset(placed) == multiset(rows) + multiset{row}
    ensures forall r :: r in placed <==> r in rows || r == row
  {
    forall r ensures r in placed <==> r in rows || r == row {
      assert r in placed <==> r in multiset(placed);
      assert r in rows <==> r in multiset(rows);
    }
  }
}
