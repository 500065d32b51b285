/** The fixed-width, order-preserving history index key (pkg/attention-store-index.go). */
module Keys {
  import opened Lex
  import opened Calendar

  function Pow10(width: nat): nat { if width == 0 then 1 else 10 * Pow10(width - 1) }

  function Digit(d: int): char
    requires 0 <= d < 10
  {
    '0' + d as char
  }

  /** Zero-padded decimal. */
  function Pad(n: int, width: nat): (s: string)
    requires 0 <= n
    ensures |s| == width
  {
    if width == 0 then [] else Pad(n / 10, width - 1) + [Digit(n % 10)]
  }

  lemma {:induction false} PadOrder(a: int, b: int, width: nat)
    requires 0 <= a < b < Pow10(width)
    ensures Less(Pad(a, width), Pad(b, width))
  {
    if width > 0 {
      LessFixedWidth(Pad(a / 10, width - 1), [Digit(a % 10)], Pad(b / 10, width - 1), [Digit(b % 10)]);
      if a / 10 < b / 10 { PadOrder(a / 10, b / 10, width - 1); }
    }
  }

  function DigitCount(n: int): (c: nat)
    requires 0 <= n
    ensures c >= 1
  {
    if n < 10 then 1 else 1 + DigitCount(n / 10)
  }

  /** Go's `2006`: at least four digits, a minus sign before a negative year. */
  function YearText(year: int): string {
    if year < 0 then "-" + DigitsFour(-year) else DigitsFour(year)
  }

  function DigitsFour(n: int): string
    requires 0 <= n
  {
    Pad(n, if n < 10_000 then 4 else DigitCount(n))
  }

  /** The parts of the layout `2006-01-02T15:04:05.000000000Z`, each with the byte that follows it. */
  datatype Field = YearField | MonthField | DayField | HourField | MinuteField | SecondField | NanoField

  const LAYOUT: seq<Field> := [YearField, MonthField, DayField, HourField, MinuteField, SecondField, NanoField]

  function Value(f: Field, t: Instant): int {
    var date, ns := DateOf(DayNumber(t)), t % NS_PER_DAY;
    match f
    case YearField => date.year
    case MonthField => date.month
    case DayField => date.day
    case HourField => ns / NS_PER_SECOND / 3600
    case MinuteField => ns / NS_PER_SECOND / 60 % 60
    case SecondField => ns / NS_PER_SECOND % 60
    case NanoField => ns % NS_PER_SECOND
  }

  function Width(f: Field): nat { if f == YearField then 4 else if f == NanoField then 9 else 2 }

  function Suffix(f: Field): string {
    match f
    case YearField => "-"
    case MonthField => "-"
    case DayField => "T"
    case HourField => ":"
    case MinuteField => ":"
    case SecondField => "."
    case NanoField => "Z"
  }

  function FieldText(f: Field, t: Instant): string {
    (if f == YearField then YearText(Value(f, t)) else Pad(Value(f, t), Width(f))) + Suffix(f)
  }

  /** time.Format walks the layout. */
  function Format(layout: seq<Field>, t: Instant): string {
    if layout == [] then "" else FieldText(layout[0], t) + Format(layout[1..], t)
  }

  function Stamp(t: Instant): string { Format(LAYOUT, t) }

  lemma FieldFits(f: Field, t: Instant)
    requires f == YearField ==> Encodable(t)
    ensures 0 <= Value(f, t) < Pow10(Width(f))
    ensures FieldText(f, t) == Pad(Value(f, t), Width(f)) + Suffix(f)
    ensures |FieldText(f, t)| == Width(f) + 1
  {
    if f == YearField { EncodableYears(t); }
    Pow10Values();
  }

  /** The layouts agree up to a field that is smaller on the left. */
  predicate Before(layout: seq<Field>, t: Instant, u: Instant) {
    layout != [] && (Value(layout[0], t) < Value(layout[0], u)
                     || (Value(layout[0], t) == Value(layout[0], u) && Before(layout[1..], t, u)))
  }

  lemma Pow10Values()
    ensures Pow10(2) == 100 && Pow10(4) == 10_000 && Pow10(9) == 1_000_000_000
  {
    assert Pow10(3) == 1000 && Pow10(5) == 100_000 && Pow10(7) == 10_000_000;
  }

  lemma {:induction false} FormatOrder(layout: seq<Field>, t: Instant, u: Instant)
    requires (YearField in layout ==> Encodable(t) && Encodable(u)) && Before(layout, t, u)
    ensures Less(Format(layout, t), Format(layout, u))
  {
    hide Value, FieldText, Encodable;
    var f := layout[0];
    FieldFits(f, t); FieldFits(f, u);
    var pt, pu := Pad(Value(f, t), Width(f)), Pad(Value(f, u), Width(f));
    LessFixedWidth(FieldText(f, t), Format(layout[1..], t), FieldText(f, u), Format(layout[1..], u));
    LessFixedWidth(pt, Suffix(f), pu, Suffix(f));
    if Value(f, t) < Value(f, u) { PadOrder(Value(f, t), Value(f, u), Width(f)); }
    else { FormatOrder(layout[1..], t, u); }
  }

  lemma {:induction false} FormatWidth(layout: seq<Field>, t: Instant, u: Instant)
    requires YearField in layout ==> Encodable(t) && Encodable(u)
    ensures |Format(layout, t)| == |Format(layout, u)| && |Format(layout, t)| >= |layout|
  {
    hide Value, FieldText, Encodable;
    if layout != [] {
      FieldFits(layout[0], t); FieldFits(layout[0], u);
      FormatWidth(layout[1..], t, u);
    }
  }

  lemma SixtyFields(p: int, q: int)
    requires 0 <= p <= q
    ensures p / 3600 <= q / 3600
    ensures p / 3600 == q / 3600 ==> p / 60 % 60 <= q / 60 % 60
    ensures p / 3600 == q / 3600 && p / 60 % 60 == q / 60 % 60 ==> p % 60 <= q % 60
    ensures p / 3600 == q / 3600 && p / 60 % 60 == q / 60 % 60 && p % 60 == q % 60 ==> p == q
  {
    assert p / 3600 == p / 60 / 60 && q / 3600 == q / 60 / 60;
  }

  lemma ClockOrder(x: int, y: int)
    requires 0 <= x < y < NS_PER_DAY
    ensures var p, q := x / NS_PER_SECOND, y / NS_PER_SECOND;
            p <= q && (p == q ==> x % NS_PER_SECOND < y % NS_PER_SECOND)
  {
  }

  lemma SplitOrder(t: Instant, u: Instant)
    requires t < u
    ensures DayNumber(t) < DayNumber(u) || (DayNumber(t) == DayNumber(u) && t % NS_PER_DAY < u % NS_PER_DAY)
  {
  }

  lemma LayoutBefore(t: Instant, u: Instant)
    requires t < u
    ensures Before(LAYOUT, t, u)
  {
    var l1, l2, l3, l4, l5, l6 := LAYOUT[1..], LAYOUT[2..], LAYOUT[3..], LAYOUT[4..], LAYOUT[5..], LAYOUT[6..];
    assert l1[1..] == l2 && l2[1..] == l3 && l3[1..] == l4 && l4[1..] == l5 && l5[1..] == l6;
    SplitOrder(t, u);
    if DayNumber(t) < DayNumber(u) {
      DateOrder(DayNumber(t), DayNumber(u));
      assert Before(l2, t, u) || Value(DayField, t) >= Value(DayField, u);
      assert Before(l1, t, u) || Value(YearField, t) < Value(YearField, u);
    } else {
      var x, y := t % NS_PER_DAY, u % NS_PER_DAY;
      ClockOrder(x, y);
      SixtyFields(x / NS_PER_SECOND, y / NS_PER_SECOND);
      assert Before(l6, t, u) || x / NS_PER_SECOND < y / NS_PER_SECOND;
      assert Before(l5, t, u) || Value(SecondField, t) >= Value(SecondField, u);
      assert Before(l3, t, u) by { assert Before(l4, t, u) || Value(HourField, t) < Value(HourField, u); }
      assert Before(l2, t, u);
      assert Before(l1, t, u);
    }
  }

  /** The stamp is order-preserving, hence injective, over years 0 to 9999. */
  lemma StampOrder(t: Instant, u: Instant)
    requires Encodable(t) && Encodable(u) && t < u
    ensures Less(Stamp(t), Stamp(u))
  {
    LayoutBefore(t, u);
    FormatOrder(LAYOUT, t, u);
  }

  /** The creation stamp, a separator, then the item id. */
  function HistoryKey(t: Instant, id: string): (key: string)
    ensures |key| >= 1
  {
    Stamp(t) + ("|" + id)
  }

  lemma HistoryKeyLong(t: Instant, id: string)
    requires Encodable(t)
    ensures |HistoryKey(t, id)| > 7
  {
    FormatWidth(LAYOUT, t, t);
  }

  /** History keys sort exactly as (creation time, item id) pairs do. */
  lemma HistoryKeyOrder(t: Instant, a: string, u: Instant, b: string)
    requires Encodable(t) && Encodable(u)
    ensures Less(HistoryKey(t, a), HistoryKey(u, b)) <==> t < u || (t == u && Less(a, b))
  {
    FormatWidth(LAYOUT, t, u);
    hide Stamp;
    LessFixedWidth(Stamp(t), "|" + a, Stamp(u), "|" + b);
    LessFixedWidth("|", a, "|", b);
    LessIrreflexive("|");
    if t < u { StampOrder(t, u); }
    if u < t { StampOrder(u, t); LessAsymmetric(Stamp(u), Stamp(t)); }
    LessIrreflexive(Stamp(t));
  }

  lemma HistoryKeyInjective(t: Instant, a: string, u: Instant, b: string)
    requires Encodable(t) && Encodable(u) && HistoryKey(t, a) == HistoryKey(u, b)
    ensures t == u && a == b
  {
    hide HistoryKey;
    LessIrreflexive(HistoryKey(t, a));
    HistoryKeyOrder(t, a, u, b);
    HistoryKeyOrder(u, b, t, a);
    LessTotal(a, b);
  }

  // ---- the years the order holds for ----

  function YearAt(t: Instant): int { YearOf(DayNumber(t)) }

  ghost predicate InOrder(t: Instant, a: string, u: Instant, b: string) {
    Less(HistoryKey(t, a), HistoryKey(u, b)) <==> t < u || (t == u && Less(a, b))
  }

  /** Every two keys of the years sort as their rows do. */
  ghost predicate YearsInOrder(first: int, last: int) {
    forall t, a, u, b :: first <= YearAt(t) <= last && first <= YearAt(u) <= last ==> InOrder(t, a, u, b)
  }

  lemma StampOpens(t: Instant)
    ensures |YearText(YearAt(t))| > 0 && |Stamp(t)| > 0 && Stamp(t)[0] == YearText(YearAt(t))[0]
    ensures Stamp(t) == YearText(YearAt(t)) + "-" + Format(LAYOUT[1..], t)
  {
    hide YearText;
    YearTextOpens(YearAt(t));
  }

  lemma {:induction false} PadOpens(n: nat, width: nat)
    requires width > 0
    ensures '0' <= Pad(n, width)[0] <= '9'
  {
    if width > 1 { PadOpens(n / 10, width - 1); }
  }

  lemma YearTextOpens(year: int)
    ensures |YearText(year)| > 0
    ensures if year < 0 then YearText(year)[0] == '-' else '0' <= YearText(year)[0] <= '9'
  {
    var n := if year < 0 then -year else year;
    PadOpens(n, if n < 10_000 then 4 else DigitCount(n));
  }

  lemma FirstDecides(x: string, y: string)
    requires x != [] && y != [] && x[0] < y[0]
    ensures Less(x, y) && !Less(y, x)
  {
  }

  /** The year before 0 carries a sign, which sorts before every digit. */
  lemma SignedYearFirst(t: Instant, a: string, u: Instant, b: string)
    requires YearAt(t) < 0 <= YearAt(u)
    ensures InOrder(t, a, u, b) && InOrder(u, b, t, a)
  {
    if u <= t { YearOrder(DayNumber(u), DayNumber(t)); }
    StampOpens(t); StampOpens(u);
    YearTextOpens(YearAt(t)); YearTextOpens(YearAt(u));
    hide Stamp, YearText;
    FirstDecides(HistoryKey(t, a), HistoryKey(u, b));
  }

  /** Inside one year the rest of the layout has one width and decides, whatever the year's text. */
  lemma OneYearOrder(t: Instant, a: string, u: Instant, b: string)
    requires YearAt(t) == YearAt(u)
    ensures InOrder(t, a, u, b)
  {
    hide Stamp, YearText, Format, HistoryKey, Less;
    var year, rest := YearText(YearAt(t)) + "-", LAYOUT[1..];
    FormatWidth(rest, t, u);
    KeyParts(t, a); KeyParts(u, b);
    var x, y := Format(rest, t), Format(rest, u);
    Shared(year, x, "|" + a, y, "|" + b);
    Shared("|", "", a, "", b);
    assert "|" + "" + a == "|" + a && "|" + "" + b == "|" + b;
    LessIrreflexive("");
    LessIrreflexive(x);
    if t < u { RestOrder(t, u); }
    if u < t { RestOrder(u, t); LessAsymmetric(y, x); }
  }

  /** A shared beginning decides nothing, a fixed-width middle decides first. */
  lemma Shared(start: string, x: string, p: string, y: string, q: string)
    requires |x| == |y|
    ensures Less(start + x + p, start + y + q) <==> Less(x, y) || (x == y && Less(p, q))
  {
    hide Less;
    LessFixedWidth(start, x + p, start, y + q);
    LessFixedWidth(x, p, y, q);
    LessIrreflexive(start);
    assert start + x + p == start + (x + p) && start + y + q == start + (y + q);
  }

  lemma KeyParts(t: Instant, id: string)
    ensures HistoryKey(t, id) == YearText(YearAt(t)) + "-" + Format(LAYOUT[1..], t) + ("|" + id)
  {
    hide YearText, Stamp;
    StampOpens(t);
  }

  lemma RestOrder(t: Instant, u: Instant)
    requires t < u && YearAt(t) == YearAt(u)
    ensures Less(Format(LAYOUT[1..], t), Format(LAYOUT[1..], u)) && Format(LAYOUT[1..], t) != Format(LAYOUT[1..], u)
  {
    LayoutBefore(t, u);
    assert Value(YearField, t) == YearAt(t) && Value(YearField, u) == YearAt(u);
    FormatOrder(LAYOUT[1..], t, u);
    LessIrreflexive(Format(LAYOUT[1..], t));
  }

  lemma YearBegins(year: int)
    ensures YearAt(DaysBefore(year) * NS_PER_DAY) == year
  {
    YearStep(year);
    YearUnique(DaysBefore(year), year);
  }

  lemma LeadingDigits()
    ensures YearText(10_000)[..1] == "1" && YearText(9_999)[..1] == "9"
  {
    assert DigitCount(100) == 3 && DigitCount(10_000) == 5;
    assert Pad(1, 1) == "1" && Pad(10, 2)[0] == '1' && Pad(100, 3)[0] == '1' && Pad(1000, 4)[0] == '1';
    assert Pad(9, 1) == "9" && Pad(99, 2)[0] == '9' && Pad(999, 3)[0] == '9';
  }

  lemma ZeroPads()
    ensures Pad(0, 2) == "00" && Pad(1, 2) == "01" && Pad(0, 4) == "0000" && Pad(0, 9) == "000000000"
  {
    assert Pad(0, 1) == "0" && Pad(0, 3) == "000" && Pad(0, 5) == "00000" && Pad(0, 7) == "0000000";
  }

  lemma ZeroDate()
    ensures Value(YearField, 0) == 0 && Value(MonthField, 0) == 1 && Value(DayField, 0) == 1
  {
    hide DateOf, DayOf, DaysBefore, DaysBeforeMonth, YearOf, IsLeap;
    FirstDate();
    assert DayNumber(0) == 0;
  }

  lemma ZeroClock()
    ensures Value(HourField, 0) == 0 && Value(MinuteField, 0) == 0
    ensures Value(SecondField, 0) == 0 && Value(NanoField, 0) == 0
  {
    hide DateOf, DayOf, DaysBefore, DaysBeforeMonth, YearOf, IsLeap;
    assert 0 % NS_PER_DAY == 0;
  }

  lemma DateFields()
    ensures FieldText(YearField, 0) == "0000-" && FieldText(MonthField, 0) == "01-" && FieldText(DayField, 0) == "01T"
  {
    hide Pad, Value;
    ZeroPads();
    ZeroDate();
    assert YearText(0) == Pad(0, 4);
    assert FieldText(YearField, 0) == "0000" + "-" && FieldText(MonthField, 0) == "01" + "-";
    assert FieldText(DayField, 0) == "01" + "T";
  }

  lemma ZeroFields()
    ensures FieldText(HourField, 0) == "00:" && FieldText(MinuteField, 0) == "00:" && FieldText(SecondField, 0) == "00."
    ensures FieldText(NanoField, 0) == "000000000Z"
  {
    hide Pad, Value;
    ZeroPads();
    ZeroClock();
    assert FieldText(HourField, 0) == "00" + ":" && FieldText(MinuteField, 0) == "00" + ":";
    assert FieldText(SecondField, 0) == "00" + "." && FieldText(NanoField, 0) == "000000000" + "Z";
  }

  lemma FirstDate()
    ensures DateOf(0) == Date(0, 1, 1)
  {
    hide YearOf, DateOf;
    YearUnique(0, 0);
    SameDay(DateOf(0), Date(0, 1, 1));
  }

  lemma {:induction false} FormatStep(layout: seq<Field>, t: Instant)
    requires layout != []
    ensures Format(layout, t) == FieldText(layout[0], t) + Format(layout[1..], t)
  {
  }

  /** The first instant of the calendar, as it is written. */
  lemma FirstKey(id: string)
    ensures HistoryKey(0, id) == "0000-01-01T00:00:00.000000000Z|" + id
  {
    hide Stamp;
    FirstStamp();
    assert "0000-01-01T00:00:00.000000000Z" + "|" == "0000-01-01T00:00:00.000000000Z|";
    Associate(Stamp(0), "|", id);
  }

  lemma Associate(a: string, b: string, c: string)
    ensures a + (b + c) == a + b + c
  {
  }

  lemma FirstStamp()
    ensures Stamp(0) == "0000-01-01T00:00:00.000000000Z"
  {
    hide FieldText, Format;
    DateFields();
    ClockText();
    var l, clock := LAYOUT, Format(LAYOUT[3..], 0);
    assert l[1..][1..] == l[2..] && l[2..][1..] == l[3..];
    FormatStep(l, 0); FormatStep(l[1..], 0); FormatStep(l[2..], 0);
    assert Stamp(0) == "0000-" + ("01-" + ("01T" + clock));
  }

  lemma ClockText()
    ensures Format(LAYOUT[3..], 0) == "00:00:00.000000000Z"
  {
    hide FieldText, Format;
    ZeroFields();
    var l := LAYOUT;
    assert l[3..][1..] == l[4..] && l[4..][1..] == l[5..] && l[5..][1..] == l[6..] && l[6..][1..] == [];
    FormatStep(l[3..], 0); FormatStep(l[4..], 0); FormatStep(l[5..], 0); FormatStep(l[6..], 0);
    NoFields();
  }

  lemma NoFields()
    ensures Format([], 0) == ""
  {
  }

  /** Past year 9999 the layout widens: every key of year 10000 sorts below every key of year 9999. */
  lemma YearTenThousandBreaksOrder(t: Instant, a: string, u: Instant, b: string)
    requires YearAt(t) == 9_999 && YearAt(u) == 10_000
    ensures t < u && Less(HistoryKey(u, b), HistoryKey(t, a)) && !InOrder(t, a, u, b)
  {
    LaterYear(t, u);
    LeadingDigits();
    KeyOpens(t, a); KeyOpens(u, b);
    hide HistoryKey, YearText, YearAt;
    FirstDecides(HistoryKey(u, b), HistoryKey(t, a));
  }

  lemma KeyOpens(t: Instant, id: string)
    ensures |YearText(YearAt(t))| > 0 && HistoryKey(t, id)[0] == YearText(YearAt(t))[0]
  {
    hide Stamp, YearText;
    StampOpens(t);
  }

  lemma LaterYear(t: Instant, u: Instant)
    requires YearAt(t) < YearAt(u)
    ensures t < u
  {
    if u <= t { YearOrder(DayNumber(u), DayNumber(t)); }
  }

  /** Before year 0 the text counts backwards: every key of an earlier signed year sorts above. */
  lemma SignedYearsReverse(t: Instant, a: string, u: Instant, b: string)
    requires -10_000 < YearAt(t) < YearAt(u) < 0
    ensures t < u && Less(HistoryKey(u, b), HistoryKey(t, a)) && !InOrder(t, a, u, b)
  {
    hide Stamp, YearText, Pad, Format, HistoryKey, Less, YearAt;
    LaterYear(t, u);
    var y, z := -YearAt(t), -YearAt(u);
    Pow10Values();
    PadOrder(z, y, 4);
    SignedText(y); SignedText(z);
    KeyParts(t, a); KeyParts(u, b);
    Reversed(y, z, "-" + Format(LAYOUT[1..], t) + ("|" + a), "-" + Format(LAYOUT[1..], u) + ("|" + b));
    var rt, ru := "-" + Format(LAYOUT[1..], t) + ("|" + a), "-" + Format(LAYOUT[1..], u) + ("|" + b);
    assert HistoryKey(t, a) == "-" + Pad(y, 4) + rt && HistoryKey(u, b) == "-" + Pad(z, 4) + ru;
    LessAsymmetric(HistoryKey(u, b), HistoryKey(t, a));
  }

  lemma Reversed(y: nat, z: nat, p: string, q: string)
    requires Less(Pad(z, 4), Pad(y, 4))
    ensures Less("-" + Pad(z, 4) + q, "-" + Pad(y, 4) + p)
  {
    hide Pad, Less;
    Shared("-", Pad(z, 4), q, Pad(y, 4), p);
  }

  lemma SignedText(n: nat)
    requires 0 < n < 10_000
    ensures YearText(-(n as int)) == "-" + Pad(n, 4)
  {
  }

  /** Of the year ranges around year 0, the history keys are in order over exactly those within -1 to 9999. */
  lemma YearsInOrderExactly(first: int, last: int)
    requires first <= 0 <= last
    ensures YearsInOrder(first, last) <==> -1 <= first && last <= 9_999
  {
    hide HistoryKey, InOrder, Encodable, DaysBefore;
    if -1 <= first && last <= 9_999 {
      forall t, a, u, b | first <= YearAt(t) <= last && first <= YearAt(u) <= last ensures InOrder(t, a, u, b) {
        PairInOrder(t, a, u, b);
      }
    }
    if first < -1 {
      YearBegins(-2); YearBegins(-1);
      SignedYearsReverse(DaysBefore(-2) * NS_PER_DAY, "", DaysBefore(-1) * NS_PER_DAY, "");
    }
    if 9_999 < last {
      YearBegins(9_999); YearBegins(10_000);
      YearTenThousandBreaksOrder(DaysBefore(9_999) * NS_PER_DAY, "", DaysBefore(10_000) * NS_PER_DAY, "");
    }
  }

  lemma PairInOrder(t: Instant, a: string, u: Instant, b: string)
    requires -1 <= YearAt(t) <= 9_999 && -1 <= YearAt(u) <= 9_999
    ensures InOrder(t, a, u, b)
  {
    hide HistoryKey, Encodable;
    if YearAt(t) == YearAt(u) { OneYearOrder(t, a, u, b); }
    else if YearAt(t) < 0 { SignedYearFirst(t, a, u, b); }
    else if YearAt(u) < 0 { SignedYearFirst(u, b, t, a); }
    else {
      EncodableYears(t); EncodableYears(u);
      HistoryKeyOrder(t, a, u, b);
    }
  }
}
