/** Market end times: ISO 8601 UTC timestamps to Unix seconds, and window snapping. */
module Calendar {
  import opened Wrappers
  import opened MachineInt
  import opened Text
  import Lattice

  // ------------------------------------------------------------------- the day formula

  /** Days from 1970-01-01, by the Julian-day formula over a year that starts in March. */
  function EpochDays(year: int, month: int, day: int): int {
    var a := TruncDiv(14 - month, 12);
    var y := year + 4800 - a;
    var m := month + 12 * a - 3;
    day + TruncDiv(153 * m + 2, 5) + 365 * y + TruncDiv(y, 4) - TruncDiv(y, 100) + TruncDiv(y, 400)
    - 32045 - 2_440_588
  }

  function EpochSeconds(year: int, month: int, day: int, hour: int, min: int, sec: int): int {
    EpochDays(year, month, day) * 86_400 + hour * 3_600 + min * 60 + sec
  }

  // ------------------------------------------- the proleptic Gregorian calendar, by counting

  predicate IsLeap(year: int) {
    year % 4 == 0 && (year % 100 != 0 || year % 400 == 0)
  }

  function MonthLength(year: int, month: int): (n: nat)
    requires 1 <= month <= 12
    ensures 28 <= n <= 31
  {
    if month == 2 then (if IsLeap(year) then 29 else 28)
    else if month == 4 || month == 6 || month == 9 || month == 11 then 30
    else 31
  }

  datatype Date = Date(year: nat, month: nat, day: nat) {
    predicate Valid() {
      1 <= month <= 12 && 1 <= day <= MonthLength(year, month)
    }

    /** The calendar day after. */
    function Next(): (d: Date)
      requires Valid()
      ensures d.Valid()
    {
      if day < MonthLength(year, month) then Date(year, month, day + 1)
      else if month < 12 then Date(year, month + 1, 1)
      else Date(year + 1, 1, 1)
    }

    predicate Before(d: Date) {
      || year < d.year
      || (year == d.year && month < d.month)
      || (year == d.year && month == d.month && day < d.day)
    }
  }

  /** Days in the years before, counted one year at a time from year 0. */
  function DaysBeforeYear(year: nat): nat {
    if year == 0 then 0 else DaysBeforeYear(year - 1) + if IsLeap(year - 1) then 366 else 365
  }

  /** Days in the months before, counted one month at a time. */
  function DaysBeforeMonth(year: nat, month: nat): nat
    requires 1 <= month <= 12
  {
    if month == 1 then 0 else DaysBeforeMonth(year, month - 1) + MonthLength(year, month - 1)
  }

  /** Days from 0000-01-01 to the date. */
  function DayCount(d: Date): nat
    requires d.Valid()
  {
    DaysBeforeYear(d.year) + DaysBeforeMonth(d.year, d.month) + d.day - 1
  }

  /** Leap years before a year: multiples of 4, less those of 100, plus those of 400. */
  lemma {:induction false} YearsInClosedForm(year: nat)
    ensures DaysBeforeYear(year) == 365 * year + (year + 3) / 4 - (year + 99) / 100 + (year + 399) / 400
  {
    if year > 0 {
      YearsInClosedForm(year - 1);
      LeapCounts(year - 1);
    }
  }

  lemma LeapCounts(y: nat)
    ensures (y + 4) / 4 == (y + 3) / 4 + if y % 4 == 0 then 1 else 0
    ensures (y + 100) / 100 == (y + 99) / 100 + if y % 100 == 0 then 1 else 0
    ensures (y + 400) / 400 == (y + 399) / 400 + if y % 400 == 0 then 1 else 0
    ensures y % 100 == 0 ==> y % 4 == 0
    ensures y % 400 == 0 ==> y % 100 == 0
  {
    CountFours(y);
    CountHundreds(y);
    CountFourHundreds(y);
  }

  lemma CountFours(y: nat)
    ensures (y + 4) / 4 == (y + 3) / 4 + if y % 4 == 0 then 1 else 0
  {
  }

  lemma CountHundreds(y: nat)
    ensures (y + 100) / 100 == (y + 99) / 100 + if y % 100 == 0 then 1 else 0
    ensures y % 100 == 0 ==> y % 4 == 0
  {
    var q, r := y / 100, y % 100;
    assert y == 100 * q + r;
    assert (y + 100) / 100 == q + 1;
    assert (y + 99) / 100 == if r == 0 then q else q + 1;
    assert r == 0 ==> y == 4 * (25 * q);
  }

  lemma CountFourHundreds(y: nat)
    ensures (y + 400) / 400 == (y + 399) / 400 + if y % 400 == 0 then 1 else 0
    ensures y % 400 == 0 ==> y % 100 == 0
  {
    var q, r := y / 400, y % 400;
    assert y == 400 * q + r;
    assert (y + 400) / 400 == q + 1;
    assert (y + 399) / 400 == if r == 0 then q else q + 1;
    assert r == 0 ==> y == 100 * (4 * q);
  }

  /** Cumulative month lengths against the five-month cycle of the formula, March first. */
  lemma MonthsInClosedForm(year: nat, month: nat)
    requires 1 <= month <= 12
    ensures var leap := if IsLeap(year) then 1 else 0;
            DaysBeforeMonth(year, month) == if month <= 2 then 31 * (month - 1)
                                            else (153 * (month - 3) + 2) / 5 + 59 + leap
  {
    if month > 1 {
      MonthsInClosedForm(year, month - 1);
    }
  }

  /** Leap years up to and including a year, against those strictly before it. */
  lemma LeapShift(y: nat)
    ensures y / 4 - y / 100 + y / 400 + 1
            == (y + 3) / 4 - (y + 99) / 100 + (y + 399) / 400 + if IsLeap(y) then 1 else 0
  {
    LeapCounts(y);
    assert (y + 4) / 4 == y / 4 + 1 && (y + 100) / 100 == y / 100 + 1 && (y + 400) / 400 == y / 400 + 1;
  }

  lemma EpochDay()
    ensures Date(1970, 1, 1).Valid() && DayCount(Date(1970, 1, 1)) == 719_528
  {
    YearsInClosedForm(1970);
  }

  /** The formula is the counted calendar: on every valid date it is the number of days since
      1970-01-01. */
  lemma FormulaCountsDays(d: Date)
    requires d.Valid()
    ensures EpochDays(d.year, d.month, d.day) == DayCount(d) - DayCount(Date(1970, 1, 1))
  {
    EpochDay();
    YearsInClosedForm(d.year);
    MonthsInClosedForm(d.year, d.month);
    if d.month <= 2 {
      JanuaryFebruary(d.year, d.month, d.day);
    } else {
      MarchOnward(d.year, d.month, d.day);
      LeapShift(d.year);
    }
  }

  lemma JanuaryFebruary(year: nat, month: nat, day: nat)
    requires 1 <= month <= 2
    ensures EpochDays(year, month, day)
            == day - 1 + 31 * (month - 1) + 365 * year + (year + 3) / 4 - (year + 99) / 100 + (year + 399) / 400 - 719_528
  {
    var y := year + 4799;
    assert TruncDiv(14 - month, 12) == 1;
    assert y / 4 == (year + 3) / 4 + 1199;
    assert y / 100 == (year + 99) / 100 + 47;
    assert y / 400 == (year + 399) / 400 + 11;
  }

  lemma MarchOnward(year: nat, month: nat, day: nat)
    requires 3 <= month <= 12
    ensures EpochDays(year, month, day)
            == day - 1 + (153 * (month - 3) + 2) / 5 + 59 + 365 * year + year / 4 - year / 100 + year / 400 + 1 - 719_528
  {
    assert TruncDiv(14 - month, 12) == 0;
    assert (year + 4800) / 4 == year / 4 + 1200;
    assert (year + 4800) / 100 == year / 100 + 48;
    assert (year + 4800) / 400 == year / 400 + 12;
  }

  /** Tomorrow is one more, across month ends, leap days and year ends; 1970-01-01 is zero. */
  lemma SuccessorIsPlusOne(d: Date)
    requires d.Valid()
    ensures EpochDays(d.Next().year, d.Next().month, d.Next().day) == EpochDays(d.year, d.month, d.day) + 1
    ensures EpochDays(1970, 1, 1) == 0
  {
    FormulaCountsDays(d);
    FormulaCountsDays(d.Next());
    FormulaCountsDays(Date(1970, 1, 1));
    CountNext(d);
  }

  lemma CountNext(d: Date)
    requires d.Valid()
    ensures DayCount(d.Next()) == DayCount(d) + 1
  {
    if d.month == 12 && d.day == 31 {
      MonthsInClosedForm(d.year, 12);
    }
  }

  lemma {:induction false} MonthsGrow(year: nat, m1: nat, m2: nat)
    requires 1 <= m1 <= m2 <= 12
    ensures DaysBeforeMonth(year, m1) <= DaysBeforeMonth(year, m2)
    ensures m1 < m2 ==> DaysBeforeMonth(year, m1) + MonthLength(year, m1) <= DaysBeforeMonth(year, m2)
    decreases m2 - m1
  {
    if m1 < m2 {
      MonthsGrow(year, m1, m2 - 1);
    }
  }

  lemma {:induction false} YearsGrow(y1: nat, y2: nat)
    requires y1 < y2
    ensures DaysBeforeYear(y1) + (if IsLeap(y1) then 366 else 365) <= DaysBeforeYear(y2)
    decreases y2 - y1
  {
    if y1 + 1 < y2 {
      YearsGrow(y1, y2 - 1);
    }
  }

  /** The formula orders days as the calendar does. */
  lemma StrictlyMonotone(a: Date, b: Date)
    requires a.Valid() && b.Valid()
    ensures EpochDays(a.year, a.month, a.day) < EpochDays(b.year, b.month, b.day) <==> a.Before(b)
  {
    FormulaCountsDays(a);
    FormulaCountsDays(b);
    if a.Before(b) {
      CountGrows(a, b);
    } else if a != b {
      CountGrows(b, a);
    }
  }

  lemma CountGrows(a: Date, b: Date)
    requires a.Valid() && b.Valid() && a.Before(b)
    ensures DayCount(a) < DayCount(b)
  {
    if a.year < b.year {
      YearsGrow(a.year, b.year);
      MonthsGrow(a.year, a.month, 12);
      MonthsInClosedForm(a.year, 12);
    } else if a.month < b.month {
      MonthsGrow(a.year, a.month, b.month);
    }
  }

  // ------------------------------------------------------------------- the parser

  /** One UTC suffix off. */
  function WithoutZone(unquoted: string): string {
    var z, zero := WithoutSuffix(unquoted, "Z"), WithoutSuffix(unquoted, "+00:00");
    if z.Some? then z.value else if zero.Some? then zero.value else unquoted
  }

  /** Seconds of a timestamp: quotes and one UTC suffix off, fraction cut, six fields read. */
  function ParseTimestamp(raw: string): Option<int> {
    ReadFields(Split(Before(WithoutZone(Unquote(Trim(raw))), '.')))
  }

  function ReadFields(parts: seq<string>): Option<int> {
    if |parts| < 6 then None
    else
      var y, mo, d := ParseI64(parts[0]), ParseI64(parts[1]), ParseI64(parts[2]);
      var h, mi, s := ParseI64(parts[3]), ParseI64(parts[4]), ParseI64(parts[5]);
      if y.None? || mo.None? || d.None? || h.None? || mi.None? || s.None? then None
      else Some(EpochSeconds(y.value, mo.value, d.value, h.value, mi.value, s.value))
  }

  const SEPARATORS: seq<char> := ['-', '-', 'T', ':', ':']

  /** A UTC second of a four-digit year. */
  datatype Stamp = Stamp(date: Date, hour: nat, min: nat, sec: nat) {
    predicate Valid() {
      date.Valid() && date.year <= 9999 && hour < 24 && min < 60 && sec < 60
    }

    function Seconds(): int {
      EpochSeconds(date.year, date.month, date.day, hour, min, sec)
    }

    /** YYYY-MM-DDTHH:MM:SS */
    function Render(): string
      requires Valid()
    {
      Join(Fields(), SEPARATORS)
    }

    function Fields(): (f: seq<string>)
      requires Valid()
      ensures |f| == 6 && |f[0]| == 4 && AllDigits(f[0])
      ensures forall i :: 1 <= i < 6 ==> |f[i]| == 2 && AllDigits(f[i])
    {
      Widths();
      [ Padded(date.year, 4), Padded(date.month, 2), Padded(date.day, 2),
        Padded(hour, 2), Padded(min, 2), Padded(sec, 2) ]
    }
  }

  lemma Widths()
    ensures Pow10(2) == 100 && Pow10(4) == 10_000
  {
  }

  datatype Zone = NoZone | ZuluZone | ZeroZone {
    function Text(): string {
      match this
      case NoZone => ""
      case ZuluZone => "Z"
      case ZeroZone => "+00:00"
    }
  }

  function Fraction(dotted: bool, digits: string): string {
    if dotted then ['.'] + digits else []
  }

  lemma RenderSplits(st: Stamp)
    requires st.Valid()
    ensures Split(st.Render()) == st.Fields()
  {
    SplitJoin(st.Fields(), SEPARATORS);
  }

  lemma FieldsRead(st: Stamp)
    requires st.Valid()
    ensures ReadFields(st.Fields()) == Some(st.Seconds())
  {
    Widths();
    ParseDigits(Padded(st.date.year, 4));
    ParseDigits(Padded(st.date.month, 2));
    ParseDigits(Padded(st.date.day, 2));
    ParseDigits(Padded(st.hour, 2));
    ParseDigits(Padded(st.min, 2));
    ParseDigits(Padded(st.sec, 2));
  }

  predicate StampChar(c: char) {
    IsDigit(c) || IsSeparator(c)
  }

  /** A rendered stamp: digits and separators, with a digit at each end. */
  predicate StampText(text: string) {
    && text != [] && IsDigit(text[0]) && IsDigit(text[|text| - 1])
    && forall i :: 0 <= i < |text| ==> StampChar(text[i])
  }

  lemma StampTextLacks(text: string)
    requires StampText(text)
    ensures Lacks(text, '.') && Lacks(text, '+')
  {
  }

  lemma {:induction false} JoinShape(fields: seq<string>, separators: seq<char>)
    requires |fields| == |separators| + 1
    requires forall i :: 0 <= i < |fields| ==> fields[i] != [] && AllDigits(fields[i])
    requires forall i :: 0 <= i < |separators| ==> IsSeparator(separators[i])
    ensures StampText(Join(fields, separators))
  {
    if separators != [] {
      JoinShape(fields[1..], separators[1..]);
    }
  }

  lemma LastDiffers(s: string, suffix: string)
    requires s != [] && suffix != [] && s[|s| - 1] != suffix[|suffix| - 1]
    ensures WithoutSuffix(s, suffix).None?
  {
    if |suffix| <= |s| {
      assert s[|s| - |suffix|..][|suffix| - 1] == s[|s| - 1];
    }
  }

  lemma LackedSuffix(s: string, suffix: string)
    requires suffix != [] && Lacks(s, suffix[0])
    ensures WithoutSuffix(s, suffix).None?
  {
    if |suffix| <= |s| {
      assert s[|s| - |suffix|..][0] == s[|s| - |suffix|];
    }
  }

  lemma SuffixOff(body: string, suffix: string)
    ensures WithoutSuffix(body + suffix, suffix) == Some(body)
  {
    assert (body + suffix)[|body|..] == suffix && (body + suffix)[..|body|] == body;
  }

  lemma OtherSuffix(head: string, tail: string, suffix: string)
    requires |tail| == |suffix| && tail != suffix
    ensures WithoutSuffix(head + tail, suffix).None?
  {
    assert (head + tail)[|head|..] == tail;
  }

  /** A zone comes off a body that does not end in one. */
  lemma ZoneComesOff(body: string, zone: Zone)
    requires body != [] && body[|body| - 1] != 'Z' && Lacks(body, '+')
    ensures WithoutZone(body + zone.Text()) == body
  {
    match zone
    case ZuluZone => SuffixOff(body, "Z");
    case ZeroZone =>
      LastDiffers(body + "+00:00", "Z");
      SuffixOff(body, "+00:00");
    case NoZone =>
      assert body + NoZone.Text() == body;
      LastDiffers(body, "Z");
      LackedSuffix(body, "+00:00");
  }

  /** Quoting comes off a body with its zone. */
  lemma QuotesComeOff(body: string, zone: Zone, quoted: bool)
    requires body != [] && IsDigit(body[0]) && (IsDigit(body[|body| - 1]) || body[|body| - 1] == '.')
    ensures var inner := body + zone.Text();
            Unquote(Trim(if quoted then ['"'] + inner + ['"'] else inner)) == inner
  {
    UnquotesTo(body + zone.Text(), quoted);
  }

  lemma UnquotesTo(inner: string, quoted: bool)
    requires inner != [] && !IsWhite(inner[0]) && !IsWhite(inner[|inner| - 1])
    requires inner[0] != '"' && inner[|inner| - 1] != '"'
    ensures Unquote(Trim(if quoted then ['"'] + inner + ['"'] else inner)) == inner
  {
    var text := if quoted then ['"'] + inner + ['"'] else inner;
    TrimKeeps(text);
    if quoted {
      var tail := inner + ['"'];
      assert text[1..] == tail && tail[0] == inner[0];
      assert UnquoteStart(text) == UnquoteStart(tail) == tail;
      assert tail[..|tail| - 1] == inner;
      assert UnquoteEnd(tail) == UnquoteEnd(inner) == inner;
    }
  }

  /** A stamp with its fraction: ends, no plus sign, and the stamp before the dot. */
  ghost predicate BodyOf(body: string, render: string) {
    && body != [] && IsDigit(body[0])
    && (IsDigit(body[|body| - 1]) || body[|body| - 1] == '.')
    && Lacks(body, '+')
    && Before(body, '.') == render
  }

  lemma PlainBody(r: string)
    requires StampText(r)
    ensures BodyOf(r, r)
  {
    StampTextLacks(r);
    CutAt(r, '.', []);
  }

  lemma DottedBody(r: string, digits: string)
    requires StampText(r) && AllDigits(digits)
    ensures BodyOf(r + ['.'] + digits, r)
  {
    StampTextLacks(r);
    CutAt(r, '.', digits);
  }

  lemma BodyShape(r: string, dotted: bool, digits: string)
    requires StampText(r) && AllDigits(digits)
    ensures BodyOf(r + Fraction(dotted, digits), r)
  {
    if dotted {
      DottedBody(r, digits);
      assert r + Fraction(true, digits) == r + ['.'] + digits;
    } else {
      PlainBody(r);
      assert r + Fraction(false, digits) == r;
    }
  }

  /** Render then parse is the identity on seconds, with or without fraction, zone and quotes. */
  lemma RenderedTimestampReadsBack(st: Stamp, dotted: bool, digits: string, zone: Zone, quoted: bool)
    requires st.Valid() && AllDigits(digits)
    ensures var inner := st.Render() + Fraction(dotted, digits) + zone.Text();
            ParseTimestamp(if quoted then ['"'] + inner + ['"'] else inner) == Some(st.Seconds())
  {
    var body := st.Render() + Fraction(dotted, digits);
    JoinShape(st.Fields(), SEPARATORS);
    BodyShape(st.Render(), dotted, digits);
    QuotesComeOff(body, zone, quoted);
    ZoneComesOff(body, zone);
    RenderSplits(st);
    FieldsRead(st);
  }

  // ------------------------------------------------ offsets the parser does not understand

  /** Text with a digit at each end and no zone is read as it stands. */
  lemma PlainTextReads(text: string)
    requires text != [] && IsDigit(text[0]) && IsDigit(text[|text| - 1])
    requires Lacks(text, '.') && WithoutSuffix(text, "+00:00").None?
    ensures ParseTimestamp(text) == ReadFields(Split(text))
  {
    UnquotesTo(text, false);
    LastDiffers(text, "Z");
    CutAt(text, '.', []);
  }

  function NegativeOffset(render: string, hh: string, mm: string): string {
    render + ['-'] + (hh + [':'] + mm)
  }

  lemma NegativeOffsetIsJoin(f: seq<string>, separators: seq<char>, hh: string, mm: string)
    requires |f| == |separators| + 1
    ensures NegativeOffset(Join(f, separators), hh, mm) == Join(f + [hh, mm], separators + ['-'] + [':'])
  {
    assert Join([hh, mm], [':']) == hh + [':'] + mm by { assert [hh, mm][1..] == [mm]; }
    JoinAppend(f, separators, '-', [hh, mm], [':']);
  }

  lemma NegativeOffsetSplits(st: Stamp, hh: string, mm: string)
    requires st.Valid() && hh != [] && mm != [] && AllDigits(hh) && AllDigits(mm)
    ensures var text := NegativeOffset(st.Render(), hh, mm);
            StampText(text) && Split(text) == st.Fields() + [hh, mm]
  {
    NegativeOffsetIsJoin(st.Fields(), SEPARATORS, hh, mm);
    JoinShape(st.Fields() + [hh, mm], SEPARATORS + ['-'] + [':']);
    SplitJoin(st.Fields() + [hh, mm], SEPARATORS + ['-'] + [':']);
  }

  lemma SixRead(six: seq<string>, more: seq<string>)
    requires |six| == 6
    ensures ReadFields(six + more) == ReadFields(six)
  {
  }

  /** A negative zone offset adds two fields that nobody reads: the local time is taken as UTC. */
  lemma NegativeOffsetReadAsUtc(st: Stamp, hh: string, mm: string)
    requires st.Valid() && hh != [] && mm != [] && AllDigits(hh) && AllDigits(mm)
    ensures ParseTimestamp(NegativeOffset(st.Render(), hh, mm)) == Some(st.Seconds())
  {
    var text := NegativeOffset(st.Render(), hh, mm);
    NegativeOffsetSplits(st, hh, mm);
    StampTextLacks(text);
    LackedSuffix(text, "+00:00");
    PlainTextReads(text);
    FieldsRead(st);
    SixRead(st.Fields(), [hh, mm]);
  }

  function PositiveOffset(render: string, hh: string, mm: string): string {
    render + (['+'] + hh + [':'] + mm)
  }

  lemma RegroupOffset(r: string, a: string, c: string, b: string)
    ensures r + (a + c + b) == r + a + c + b
  {
  }

  /** The sign and the hours lengthen the last field; the minutes are one more. */
  lemma PositiveOffsetIsJoin(f: seq<string>, separators: seq<char>, hh: string, mm: string)
    requires |f| == |separators| + 1
    ensures PositiveOffset(Join(f, separators), hh, mm)
            == Join(f[|f| - 1 := f[|f| - 1] + (['+'] + hh)] + [mm], separators + [':'] + [])
  {
    JoinLast(f, separators, ['+'] + hh);
    JoinAppend(f[|f| - 1 := f[|f| - 1] + (['+'] + hh)], separators, ':', [mm], []);
    RegroupOffset(Join(f, separators), ['+'] + hh, [':'], mm);
  }

  lemma LongerLastField(f: seq<string>, separators: seq<char>, tail: string, mm: string)
    requires Separated(f, separators) && NoSeparator(tail) && NoSeparator(mm)
    ensures Separated(f[|f| - 1 := f[|f| - 1] + tail] + [mm], separators + [':'] + [])
  {
  }

  lemma PositiveOffsetSplits(f: seq<string>, separators: seq<char>, hh: string, mm: string)
    requires Separated(f, separators) && AllDigits(hh) && AllDigits(mm)
    ensures Split(PositiveOffset(Join(f, separators), hh, mm))
            == f[|f| - 1 := f[|f| - 1] + (['+'] + hh)] + [mm]
  {
    PositiveOffsetIsJoin(f, separators, hh, mm);
    LongerLastField(f, separators, ['+'] + hh, mm);
    SplitJoin(f[|f| - 1 := f[|f| - 1] + (['+'] + hh)] + [mm], separators + [':'] + []);
  }

  lemma SignInside(a: string, b: string)
    requires |a| == 2 && AllDigits(a)
    ensures ParseI64(a + (['+'] + b)) == None
  {
    var s := a + (['+'] + b);
    assert s[0] == a[0] && s[2] == '+';
  }

  lemma SixthUnread(fields: seq<string>)
    requires |fields| >= 6 && ParseI64(fields[5]) == None
    ensures ReadFields(fields) == None
  {
  }

  lemma OffsetEnds(render: string, hh: string, mm: string)
    requires StampText(render) && AllDigits(hh) && AllDigits(mm) && mm != []
    ensures var text := PositiveOffset(render, hh, mm);
            text != [] && IsDigit(text[0]) && IsDigit(text[|text| - 1]) && Lacks(text, '.')
  {
    StampTextLacks(render);
    assert Lacks(['+'] + hh + [':'] + mm, '.');
  }

  /** A positive one other than +00:00 runs into the seconds, which then do not read. */
  lemma PositiveOffsetRefused(st: Stamp, hh: string, mm: string)
    requires st.Valid() && |hh| == |mm| == 2 && AllDigits(hh) && AllDigits(mm)
    requires ['+'] + hh + [':'] + mm != "+00:00"
    ensures ParseTimestamp(PositiveOffset(st.Render(), hh, mm)) == None
  {
    var f := st.Fields();
    JoinShape(f, SEPARATORS);
    OffsetEnds(st.Render(), hh, mm);
    OtherSuffix(st.Render(), ['+'] + hh + [':'] + mm, "+00:00");
    PlainTextReads(PositiveOffset(st.Render(), hh, mm));
    PositiveOffsetSplits(f, SEPARATORS, hh, mm);
    SignInside(f[5], hh);
    SixthUnread(f[5 := f[5] + (['+'] + hh)] + [mm]);
  }

  /** The second after, with its carries. */
  function SecondAfter(st: Stamp): Stamp
    requires st.Valid()
  {
    if st.sec < 59 then st.(sec := st.sec + 1)
    else if st.min < 59 then st.(min := st.min + 1, sec := 0)
    else if st.hour < 23 then st.(hour := st.hour + 1, min := 0, sec := 0)
    else Stamp(st.date.Next(), 0, 0, 0)
  }

  /** The second after is plus one across minutes, hours, days, months and years, from zero at the epoch. */
  lemma SecondIsPlusOne(st: Stamp)
    requires st.Valid()
    ensures SecondAfter(st).Seconds() == st.Seconds() + 1
    ensures Stamp(Date(1970, 1, 1), 0, 0, 0).Seconds() == 0
  {
    SuccessorIsPlusOne(st.date);
  }

  /** Later stamps parse to later seconds. */
  lemma SecondsMonotone(a: Stamp, b: Stamp)
    requires a.Valid() && b.Valid()
    requires a.date.Before(b.date)
             || (a.date == b.date && a.hour * 3600 + a.min * 60 + a.sec < b.hour * 3600 + b.min * 60 + b.sec)
    ensures a.Seconds() < b.Seconds()
  {
    if a.date.Before(b.date) {
      StrictlyMonotone(a.date, b.date);
    }
  }

  // ------------------------------------------------------------------ window snapping

  /** Start of the market window containing a server time. */
  function SlugTs(serverTs: int, windowS: int): int
    requires windowS > 0
  {
    serverTs - serverTs % windowS
  }

  /** The window start is the only multiple of the window length within one window before the time. */
  lemma SlugIsWindowStart(serverTs: int, windowS: int, start: int)
    requires windowS > 0
    ensures start == SlugTs(serverTs, windowS)
            <==> (start % windowS == 0 && start <= serverTs < start + windowS)
  {
    var q, r := serverTs / windowS, serverTs % windowS;
    assert serverTs == q * windowS + r;
    SnapUnique(q, r, windowS, start);
  }

  lemma SnapUnique(q: int, r: int, w: int, start: int)
    requires w > 0 && 0 <= r < w
    ensures start == q * w <==> (start % w == 0 && start <= q * w + r < start + w)
  {
    var k := start / w;
    assert start == w * k + start % w;
    Lattice.NoMultipleBetween(k, q, w);
    Lattice.NoMultipleBetween(k + 1, q, w);
    Lattice.ExactQuotient(q * w, q, w);
  }
}
