/** Epoch-day decoding to the proleptic Gregorian calendar. */
module BoltDate {
  import opened Text

  datatype Date = Date(year: int, month: int, day: int)

  // ---------------------------------------------------------------- the calendar

  predicate Leap(y: int) {
    y % 4 == 0 && (y % 100 != 0 || y % 400 == 0)
  }

  function MonthLength(y: int, m: int): int
    requires 1 <= m <= 12
  {
    if m == 2 then (if Leap(y) then 29 else 28)
    else if m == 4 || m == 6 || m == 9 || m == 11 then 30
    else 31
  }

  predicate Valid(d: Date) {
    1 <= d.month <= 12 && 1 <= d.day <= MonthLength(d.year, d.month)
  }

  /** The day after. */
  function Next(d: Date): Date
    requires Valid(d)
  {
    if d.day < MonthLength(d.year, d.month) then d.(day := d.day + 1)
    else if d.month < 12 then Date(d.year, d.month + 1, 1)
    else Date(d.year + 1, 1, 1)
  }

  // ---------------------------------------------------------------- decoding

  function YearInEra(day: int): int {
    (day - day / 1460 + day / 36524 - day / 146096) / 365
  }

  /** Days of an era before a year that starts in March. */
  function YearStart(y: int): int {
    365 * y + y / 4 - y / 100
  }

  /** Days of such a year before a month counted from March. */
  function MonthStart(m: int): int {
    (153 * m + 2) / 5
  }

  /** The date in a year that starts in March, by its day of that year. */
  function DateIn(year: int, inYear: int): Date {
    var m := (5 * inYear + 2) / 153;
    var month := if m < 10 then m + 3 else m - 9;
    Date(year + (if month <= 2 then 1 else 0), month, inYear - MonthStart(m) + 1)
  }

  function Decode(days: int): Date {
    var shifted := days + 719468;
    var era, day := shifted / 146097, shifted % 146097;
    var yearInEra := YearInEra(day);
    DateIn(yearInEra + era * 400, day - YearStart(yearInEra))
  }

  // ---------------------------------------------------------------- years of an era

  /** Century, four-year group, year of the group and day of the year, years starting in March:
      the leap day is the last day of its year. */
  predicate Parts(c: int, q: int, k: int, r: int) {
    && 0 <= c <= 3 && 0 <= q <= 24 && 0 <= k <= 3
    && 0 <= r <= (if k == 3 && (q < 24 || c == 3) then 365 else 364)
  }

  function DayOf(c: int, q: int, k: int, r: int): int {
    36524 * c + 1461 * q + 365 * k + r
  }

  lemma Split(day: int) returns (c: int, q: int, k: int, r: int)
    requires 0 <= day < 146097
    ensures Parts(c, q, k, r) && day == DayOf(c, q, k, r)
  {
    c := if day == 146096 then 3 else day / 36524;
    var inCentury := day - 36524 * c;
    q := inCentury / 1461;
    var inGroup := inCentury - 1461 * q;
    k := if inGroup == 1460 then 3 else inGroup / 365;
    r := inGroup - 365 * k;
  }

  lemma YearStartOf(c: int, q: int, k: int, r: int)
    requires Parts(c, q, k, r)
    ensures YearStart(100 * c + 4 * q + k) == DayOf(c, q, k, 0)
  {
  }

  lemma Corrections(c: int, q: int, k: int, r: int) returns (e: int)
    requires Parts(c, q, k, r)
    ensures var day := DayOf(c, q, k, r);
      && (e == 0 || e == 1) && (e == 1 <==> 24 * c + q + 365 * k + r >= 1460)
      && day / 1460 == 25 * c + q + e
      && day / 36524 - day / 146096 == c
  {
    var day := DayOf(c, q, k, r);
    var rest := 24 * c + q + 365 * k + r;
    e := if rest >= 1460 then 1 else 0;
    assert day == 1460 * (25 * c + q + e) + (rest - 1460 * e);
  }

  /** The decoded year and day of the year are the parts that the day was made of. */
  lemma YearInEraOf(c: int, q: int, k: int, r: int)
    requires Parts(c, q, k, r)
    ensures YearInEra(DayOf(c, q, k, r)) == 100 * c + 4 * q + k
  {
    var e := Corrections(c, q, k, r);
    var day, y := DayOf(c, q, k, r), 100 * c + 4 * q + k;
    assert day - day / 1460 + day / 36524 - day / 146096 == 365 * y + (r - e);
    assert 0 <= r - e < 365;
  }

  /** Leap years: the March-based year holds the February of the next calendar year. */
  lemma LeapParts(era: int, c: int, q: int, k: int)
    requires 0 <= c <= 3 && 0 <= q <= 24 && 0 <= k <= 3
    ensures Leap(100 * c + 4 * q + k + era * 400 + 1) <==> k == 3 && (q < 24 || c == 3)
  {
    var y := 100 * c + 4 * q + k + 1;
    assert y + era * 400 == y + 400 * era;
    LeapPeriod(y, era);
  }

  lemma LeapPeriod(y: int, era: int)
    ensures Leap(y + 400 * era) <==> Leap(y)
  {
    SameRemainder(y, 4, 100 * era);
    SameRemainder(y, 100, 4 * era);
    SameRemainder(y, 400, era);
    assert 4 * (100 * era) == 400 * era && 100 * (4 * era) == 400 * era;
  }

  lemma SameRemainder(y: int, m: int, t: int)
    requires m > 0
    ensures (y + m * t) % m == y % m && (y + m * t) / m == y / m + t
  {
    var x := y + m * t;
    assert x == m * (y / m + t) + y % m;
    QuotientUnique(x, m, y / m + t, y % m);
  }

  lemma QuotientUnique(x: int, m: int, q: int, r: int)
    requires m > 0 && x == m * q + r && 0 <= r < m
    ensures x / m == q && x % m == r
  {
    var d := x / m - q;
    assert m * d == r - x % m;
    assert d >= 1 ==> m * d >= m;
    assert d <= -1 ==> m * d <= -m;
  }

  // ---------------------------------------------------------------- counting days

  function DaysBeforeMonth(y: int, m: int): int
    requires 1 <= m <= 13
    decreases m
  {
    if m == 1 then 0 else DaysBeforeMonth(y, m - 1) + MonthLength(y, m - 1)
  }

  /** Days from 1970-01-01 to the first of January. */
  function NewYear(y: int): int {
    365 * (y - 1) + (y - 1) / 4 - (y - 1) / 100 + (y - 1) / 400 - 719162
  }

  /** Days from 1970-01-01. */
  function DayNumber(d: Date): int
    requires Valid(d)
  {
    NewYear(d.year) + DaysBeforeMonth(d.year, d.month) + d.day - 1
  }

  lemma StepQuotient(y: int, m: int)
    requires m > 1
    ensures y / m == (y - 1) / m + (if y % m == 0 then 1 else 0)
  {
    if y % m == 0 {
      assert y - 1 == m * (y / m - 1) + (m - 1);
      QuotientUnique(y - 1, m, y / m - 1, m - 1);
    } else {
      QuotientUnique(y - 1, m, y / m, y % m - 1);
    }
  }

  lemma MultipleOf(y: int, m: int, t: int)
    requires m > 0 && t > 0 && y % (m * t) == 0
    ensures y % m == 0
  {
    var k := y / (m * t);
    assert y == (m * t) * k;
    assert y == m * (t * k) + 0;
    QuotientUnique(y, m, t * k, 0);
  }

  lemma NewYearStep(y: int)
    ensures NewYear(y + 1) == NewYear(y) + 365 + (if Leap(y) then 1 else 0)
  {
    StepQuotient(y, 4);
    StepQuotient(y, 100);
    StepQuotient(y, 400);
    if y % 100 == 0 { MultipleOf(y, 4, 25); }
    if y % 400 == 0 { MultipleOf(y, 100, 4); }
  }

  lemma MonthTotals(y: int, m: int)
    requires 1 <= m <= 13
    ensures DaysBeforeMonth(y, m) ==
      if m == 1 then 0 else if m == 2 then 31 else MonthStart(m - 3) + 59 + (if Leap(y) then 1 else 0)
  {
    if m > 1 { MonthTotals(y, m - 1); }
  }

  /** Counting steps with the calendar. */
  lemma NextCounts(d: Date)
    requires Valid(d)
    ensures Valid(Next(d)) && DayNumber(Next(d)) == DayNumber(d) + 1
  {
    NewYearStep(d.year);
    MonthTotals(d.year, 13);
  }

  // ---------------------------------------------------------------- decoding inverts counting

  lemma MonthOf(r: int)
    requires 0 <= r <= 365
    ensures var m := (5 * r + 2) / 153; 0 <= m <= 11 && MonthStart(m) <= r < MonthStart(m + 1)
  {
  }

  /** The first of January that follows the March-based year. */
  lemma NewYearOf(era: int, c: int, q: int, k: int)
    requires Parts(c, q, k, 0)
    ensures NewYear(100 * c + 4 * q + k + era * 400 + 1) - 306 == 146097 * era + DayOf(c, q, k, 0) - 719468
  {
    var y := 100 * c + 4 * q + k;
    SameRemainder(y, 4, 100 * era);
    SameRemainder(y, 100, 4 * era);
    SameRemainder(y, 400, era);
    assert y / 4 == 25 * c + q && y / 100 == c && y / 400 == 0;
  }

  lemma DateInCounts(y: int, r: int)
    requires 0 <= r <= (if Leap(y + 1) then 365 else 364)
    ensures Valid(DateIn(y, r)) && DayNumber(DateIn(y, r)) == NewYear(y + 1) - 306 + r
  {
    var d := DateIn(y, r);
    MonthOf(r);
    NewYearStep(y);
    MonthTotals(d.year, d.month);
  }

  lemma DecodeParts(days: int) returns (era: int, c: int, q: int, k: int, r: int)
    ensures Parts(c, q, k, r) && days == 146097 * era + DayOf(c, q, k, r) - 719468
    ensures Decode(days) == DateIn(100 * c + 4 * q + k + era * 400, r)
  {
    var day := (days + 719468) % 146097;
    era := (days + 719468) / 146097;
    c, q, k, r := Split(day);
    YearInEraOf(c, q, k, r);
    YearStartOf(c, q, k, r);
    assert day - YearStart(YearInEra(day)) == r;
  }

  /** Every day count decodes to a valid date which counts back to it. */
  lemma DecodeCounts(days: int)
    ensures Valid(Decode(days)) && DayNumber(Decode(days)) == days
  {
    var era, c, q, k, r := DecodeParts(days);
    LeapParts(era, c, q, k);
    NewYearOf(era, c, q, k);
    DateInCounts(100 * c + 4 * q + k + era * 400, r);
  }

  lemma {:induction false} LaterYear(y: int, z: int)
    requires y < z
    ensures NewYear(y + 1) <= NewYear(z)
    decreases z - y
  {
    if y + 1 < z {
      NewYearStep(y + 1);
      LaterYear(y + 1, z);
    }
  }

  lemma WithinYear(d: Date)
    requires Valid(d)
    ensures NewYear(d.year) <= DayNumber(d) < NewYear(d.year + 1)
  {
    NewYearStep(d.year);
    MonthTotals(d.year, d.month);
  }

  lemma {:induction false} LaterMonth(y: int, m: int, n: int)
    requires 1 <= m < n <= 12
    ensures DaysBeforeMonth(y, m + 1) <= DaysBeforeMonth(y, n)
    decreases n - m
  {
    if m + 1 < n { LaterMonth(y, m + 1, n); }
  }

  lemma NotBefore(d: Date, e: Date)
    requires Valid(d) && Valid(e) && DayNumber(d) == DayNumber(e)
    ensures !(d.year < e.year) && (d.year == e.year ==> !(d.month < e.month))
  {
    WithinYear(d);
    WithinYear(e);
    if d.year < e.year { LaterYear(d.year, e.year); }
    if d.year == e.year && d.month < e.month { LaterMonth(d.year, d.month, e.month); }
  }

  lemma CountsDiffer(d: Date, e: Date)
    requires Valid(d) && Valid(e) && DayNumber(d) == DayNumber(e)
    ensures d == e
  {
    NotBefore(d, e);
    NotBefore(e, d);
  }

  /** Every date decodes from its day count. */
  lemma DecodeInverts(d: Date)
    requires Valid(d)
    ensures Decode(DayNumber(d)) == d
  {
    DecodeCounts(DayNumber(d));
    CountsDiffer(Decode(DayNumber(d)), d);
  }

  /** The next day decodes to the calendar successor. */
  lemma DecodeSteps(days: int)
    ensures Valid(Decode(days)) && Decode(days + 1) == Next(Decode(days))
  {
    var d, e := Decode(days), Decode(days + 1);
    DecodeCounts(days);
    DecodeCounts(days + 1);
    NextCounts(d);
    CountsDiffer(e, Next(d));
  }

  lemma DecodeEpoch()
    ensures Decode(0) == Date(1970, 1, 1)
  {
    DecodeInverts(Date(1970, 1, 1));
  }

  // ---------------------------------------------------------------- text

  function Abs(x: int): nat {
    if x < 0 then -x else x
  }

  function Padded(n: nat, width: nat): (s: string)
    ensures AllDigits(s) && |s| >= width && |s| > 0
  {
    var digits := Dec(n);
    if |digits| >= width then digits else seq(width - |digits|, _ => '0') + digits
  }

  function Sign(year: int): string {
    if year < 0 then "-" else if year > 9999 then "+" else ""
  }

  /** A sign for years outside 0 to 9999, then four digits of the year at least. */
  function Format(d: Date): string {
    Sign(d.year) + Padded(Abs(d.year), 4) + ("-" + Padded(Abs(d.month), 2) + "-" + Padded(Abs(d.day), 2))
  }

  function BoltText(days: int): string {
    Format(Decode(days))
  }

  function Unsigned(year: string): string {
    if year != "" && (year[0] == '-' || year[0] == '+') then year[1..] else year
  }

  /** A reader of such text, from its fixed-width end. */
  function Read(s: string): Option<Date> {
    var n := |s| - 6;
    if n < 1 then None else ReadParts(s[..n], s[n + 1..n + 3], s[n + 4..])
  }

  function ReadParts(year: string, month: string, day: string): Option<Date>
    requires year != ""
  {
    var digits := Unsigned(year);
    if !AllDigits(digits) || !AllDigits(month) || !AllDigits(day) then None
    else
      var magnitude: int := ParseDec(digits);
      Some(Date(if year[0] == '-' then -magnitude else magnitude, ParseDec(month), ParseDec(day)))
  }

  lemma ReadYear(year: int)
    ensures var s := Sign(year) + Padded(Abs(year), 4);
      s != "" && Unsigned(s) == Padded(Abs(year), 4) && (s[0] == '-' <==> year < 0)
  {
    var digits := Padded(Abs(year), 4);
    assert IsDigit(digits[0]);
    if Sign(year) == "" {
      assert Sign(year) + digits == digits;
    } else {
      assert (Sign(year) + digits)[1..] == digits;
    }
  }

  lemma {:induction false} ParsePadded(n: nat, width: nat)
    ensures ParseDec(Padded(n, width)) == n
  {
    var digits := Dec(n);
    if |digits| < width {
      var zeros := seq(width - |digits|, _ => '0');
      ParseZeros(zeros, digits);
      assert Padded(n, width) == zeros + digits;
    }
    ParseOfDec(n);
  }

  lemma {:induction false} ParseZeros(zeros: string, digits: string)
    requires AllDigits(digits) && forall i :: 0 <= i < |zeros| ==> zeros[i] == '0'
    ensures AllDigits(zeros + digits) && ParseDec(zeros + digits) == ParseDec(digits)
    decreases |zeros| + |digits|
  {
    var s := zeros + digits;
    if digits != [] {
      assert s[..|s| - 1] == zeros + digits[..|digits| - 1];
      ParseZeros(zeros, digits[..|digits| - 1]);
    } else if zeros != [] {
      assert s == zeros && zeros[..|zeros| - 1] + digits == s[..|s| - 1];
      ParseZeros(zeros[..|zeros| - 1], digits);
    }
  }

  lemma TwoDigits(n: nat)
    requires n < 100
    ensures |Padded(n, 2)| == 2
  {
    if n >= 10 { assert |Dec(n / 10)| == 1; }
  }

  lemma EndParts(front: string, m: string, d: string)
    requires |m| == 2 && |d| == 2
    ensures var s := front + ("-" + m + "-" + d); var n := |front|;
      |s| == n + 6 && s[..n] == front && s[n + 1..n + 3] == m && s[n + 4..] == d
  {
  }

  lemma ReadPartsBack(d: Date)
    requires Valid(d)
    ensures ReadParts(Sign(d.year) + Padded(Abs(d.year), 4), Padded(d.month, 2), Padded(d.day, 2)) == Some(d)
  {
    ParsePadded(Abs(d.year), 4);
    ParsePadded(d.month, 2);
    ParsePadded(d.day, 2);
    ReadYear(d.year);
  }

  /** The text is lossless. */
  lemma ReadFormat(d: Date)
    requires Valid(d)
    ensures Read(Format(d)) == Some(d)
  {
    TwoDigits(d.month);
    TwoDigits(d.day);
    EndParts(Sign(d.year) + Padded(Abs(d.year), 4), Padded(d.month, 2), Padded(d.day, 2));
    ReadPartsBack(d);
  }

  /** Reading the text and counting days gives the number back, so different days have different
      text. */
  lemma BoltTextLossless(days: int)
    ensures Read(BoltText(days)).Some? && Valid(Read(BoltText(days)).value) &&
      DayNumber(Read(BoltText(days)).value) == days
  {
    DecodeCounts(days);
    ReadFormat(Decode(days));
  }
}
