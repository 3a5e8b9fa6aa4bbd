/** getdatelist (ProcessBasic.py): order two dates, then list every calendar
    day between them, both ends included, as "YYYYMMDD" strings. Dates are
    proleptic Gregorian (y, m, d) triples, numbered like Python's
    date.toordinal (0001-01-01 is day 1). */
module DateList {
  import opened Text

  datatype Date = Date(year: int, month: int, day: int)

  /** The two ways pd.date_range refuses its arguments. */
  datatype DateError =
    | InvalidDate(date: Date)          // not a calendar day: the string does not parse
    | OutOfTimestampRange(date: Date)  // outside pandas' nanosecond Timestamp range

  datatype Result<T> = Success(value: T) | Failure(error: DateError)

  predicate IsLeapYear(y: int) {
    y % 4 == 0 && (y % 100 != 0 || y % 400 == 0)
  }

  function DaysInMonth(y: int, m: int): (n: int)
    requires 1 <= m <= 12
    ensures 28 <= n <= 31
  {
    if m == 2 then (if IsLeapYear(y) then 29 else 28)
    else if m == 4 || m == 6 || m == 9 || m == 11 then 30
    else 31
  }

  predicate ValidDate(d: Date) {
    1 <= d.year && 1 <= d.month <= 12 && 1 <= d.day <= DaysInMonth(d.year, d.month)
  }

  /** Chronological order; on (y, m, d) triples it is lexicographic. */
  predicate Before(a: Date, b: Date) {
    a.year < b.year
    || (a.year == b.year && (a.month < b.month || (a.month == b.month && a.day < b.day)))
  }

  /** The calendar day after d. */
  function Next(d: Date): (r: Date)
    requires ValidDate(d)
    ensures ValidDate(r) && Before(d, r)
  {
    if d.day < DaysInMonth(d.year, d.month) then d.(day := d.day + 1)
    else if d.month < 12 then Date(d.year, d.month + 1, 1)
    else Date(d.year + 1, 1, 1)
  }

  function YearLength(y: int): int {
    if IsLeapYear(y) then 366 else 365
  }

  function DaysBeforeYear(y: int): nat
    requires y >= 1
  {
    if y == 1 then 0 else DaysBeforeYear(y - 1) + YearLength(y - 1)
  }

  function DaysBeforeMonth(y: int, m: int): int
    requires 1 <= m <= 12
  {
    [0, 31, 59, 90, 120, 151, 181, 212, 243, 273, 304, 334][m - 1]
    + (if m > 2 && IsLeapYear(y) then 1 else 0)
  }

  /** Day number of d, as Python's date.toordinal. */
  function Ordinal(d: Date): int
    requires ValidDate(d)
  {
    DaysBeforeYear(d.year) + DaysBeforeMonth(d.year, d.month) + d.day
  }

  lemma MonthStep(y: int, m: int)
    requires 1 <= m < 12
    ensures DaysBeforeMonth(y, m + 1) == DaysBeforeMonth(y, m) + DaysInMonth(y, m)
  {
  }

  lemma {:induction false} MonthsMonotone(y: int, m1: int, m2: int)
    requires 1 <= m1 < m2 <= 12
    ensures DaysBeforeMonth(y, m1) + DaysInMonth(y, m1) <= DaysBeforeMonth(y, m2)
    decreases m2 - m1
  {
    MonthStep(y, m1);
    if m1 + 1 < m2 {
      MonthsMonotone(y, m1 + 1, m2);
    }
  }

  lemma {:induction false} YearsMonotone(y1: int, y2: int)
    requires 1 <= y1 < y2
    ensures DaysBeforeYear(y1) + YearLength(y1) <= DaysBeforeYear(y2)
    decreases y2 - y1
  {
    if y1 + 1 < y2 {
      YearsMonotone(y1 + 1, y2);
    }
  }

  /** The day after d is numbered one more than d. */
  lemma NextIsOneDayLater(d: Date)
    requires ValidDate(d)
    ensures Ordinal(Next(d)) == Ordinal(d) + 1
  {
    if d.day == DaysInMonth(d.year, d.month) && d.month < 12 {
      MonthStep(d.year, d.month);
    }
  }

  /** Day numbers follow the calendar order, in both directions; so they
      also identify the day. */
  lemma OrdinalOrder(a: Date, b: Date)
    requires ValidDate(a) && ValidDate(b)
    ensures Before(a, b) <==> Ordinal(a) < Ordinal(b)
    ensures Ordinal(a) == Ordinal(b) <==> a == b
  {
    if Before(a, b) {
      OrdinalMonotone(a, b);
    } else if Before(b, a) {
      OrdinalMonotone(b, a);
    }
  }

  lemma OrdinalMonotone(a: Date, b: Date)
    requires ValidDate(a) && ValidDate(b) && Before(a, b)
    ensures Ordinal(a) < Ordinal(b)
  {
    if a.year < b.year {
      if a.month < 12 {
        MonthsMonotone(a.year, a.month, 12);
      }
      YearsMonotone(a.year, b.year);
    } else if a.month < b.month {
      MonthsMonotone(a.year, a.month, b.month);
    }
  }

  /** Every day from start to end inclusive, in order (pd.date_range with
      its default daily frequency). */
  function DaysFrom(start: Date, end: Date): (days: seq<Date>)
    requires ValidDate(start) && ValidDate(end) && !Before(end, start)
    ensures |days| >= 1 && |days| == Ordinal(end) - Ordinal(start) + 1
    ensures days[0] == start && days[|days| - 1] == end
    ensures forall i :: 0 <= i < |days| ==>
              ValidDate(days[i]) && Ordinal(days[i]) == Ordinal(start) + i
              && !Before(days[i], start) && !Before(end, days[i])
    decreases Ordinal(end) - Ordinal(start)
  {
    OrdinalOrder(start, end);
    if start == end then [start]
    else
      NextIsOneDayLater(start);
      OrdinalOrder(Next(start), end);
      [start] + DaysFrom(Next(start), end)
  }

  /** Consecutive entries of DaysFrom are exactly one calendar day apart. */
  lemma DaysFromConsecutive(start: Date, end: Date, i: int)
    requires ValidDate(start) && ValidDate(end) && !Before(end, start)
    requires 0 <= i < |DaysFrom(start, end)| - 1
    ensures DaysFrom(start, end)[i + 1] == Next(DaysFrom(start, end)[i])
  {
    var days := DaysFrom(start, end);
    NextIsOneDayLater(days[i]);
    OrdinalOrder(days[i + 1], Next(days[i]));
  }

  /** The first and the last day pandas can hold at midnight:
      Timestamp.min is 1677-09-21 00:12:43.145224193 and Timestamp.max is
      2262-04-11 23:47:16.854775807. */
  const FirstTimestampDay := Date(1677, 9, 22)
  const LastTimestampDay := Date(2262, 4, 11)

  predicate InTimestampRange(d: Date) {
    ValidDate(d) && !Before(d, FirstTimestampDay) && !Before(LastTimestampDay, d)
  }

  /** strftime("%Y%m%d"). */
  function Compact(d: Date): string
    requires ValidDate(d) && d.year < 10000
  {
    PadDigits(d.year, 4) + PadDigits(d.month, 2) + PadDigits(d.day, 2)
  }

  /** The "%Y-%m-%d" string a caller passes in. */
  function Iso(d: Date): string
    requires ValidDate(d) && d.year < 10000
  {
    PadDigits(d.year, 4) + DashedMonthDay(d)
  }

  /** The "-%m-%d" tail of Iso. */
  function DashedMonthDay(d: Date): string
    requires ValidDate(d)
  {
    "-" + PadDigits(d.month, 2) + ("-" + PadDigits(d.day, 2))
  }

  /** Reads a "YYYYMMDD" string back into a date. */
  function ParseCompact(s: string): Date
    requires |s| == 8 && AllDigits(s)
  {
    Date(DigitsValue(s[..4]), DigitsValue(s[4..6]), DigitsValue(s[6..]))
  }

  /** getdatelist(time1, time2): swap when time1 > time2, then enumerate. */
  function GetDateList(time1: Date, time2: Date): Result<seq<string>>
  {
    var start := if Before(time2, time1) then time2 else time1;
    var end := if Before(time2, time1) then time1 else time2;
    if !ValidDate(start) then Failure(InvalidDate(start))
    else if !ValidDate(end) then Failure(InvalidDate(end))
    else if !InTimestampRange(start) then Failure(OutOfTimestampRange(start))
    else if !InTimestampRange(end) then Failure(OutOfTimestampRange(end))
    else
      var days := DaysFrom(start, end);
      Success(seq(|days|, i requires 0 <= i < |days| => Compact(days[i])))
  }

  function Earlier(a: Date, b: Date): Date {
    if Before(b, a) then b else a
  }

  function Later(a: Date, b: Date): Date {
    if Before(b, a) then a else b
  }

  /** The argument order does not matter. */
  lemma GetDateListSymmetric(a: Date, b: Date)
    ensures GetDateList(a, b) == GetDateList(b, a)
  {
  }

  /** Success exactly when both days are days pandas can represent; the
      list runs from the earlier to the later day and has one entry per day. */
  lemma GetDateListShape(a: Date, b: Date)
    ensures GetDateList(a, b).Success? <==> InTimestampRange(a) && InTimestampRange(b)
    ensures GetDateList(a, b).Success? ==>
              var r := GetDateList(a, b).value;
              var lo, hi := Earlier(a, b), Later(a, b);
              && |r| == Ordinal(hi) - Ordinal(lo) + 1
              && r[0] == Compact(lo) && r[|r| - 1] == Compact(hi)
              && (a == b ==> r == [Compact(a)])
  {
  }

  /** Entry i + 1 is the day after entry i. */
  lemma GetDateListConsecutive(a: Date, b: Date, i: int)
    requires GetDateList(a, b).Success?
    requires 0 <= i < |GetDateList(a, b).value| - 1
    ensures var r := GetDateList(a, b).value;
            && |r[i]| == 8 && AllDigits(r[i]) && |r[i + 1]| == 8 && AllDigits(r[i + 1])
            && ValidDate(ParseCompact(r[i]))
            && ParseCompact(r[i + 1]) == Next(ParseCompact(r[i]))
  {
    var lo, hi := Earlier(a, b), Later(a, b);
    var days := DaysFrom(lo, hi);
    DaysFromConsecutive(lo, hi, i);
    CompactRoundTrip(days[i]);
    CompactRoundTrip(days[i + 1]);
  }

  /** Every entry is eight digits "YYYYMMDD" with month and day
      zero-padded, naming a day between the two arguments. */
  lemma GetDateListFormat(a: Date, b: Date, i: int)
    requires GetDateList(a, b).Success?
    requires 0 <= i < |GetDateList(a, b).value|
    ensures var r := GetDateList(a, b).value;
            && |r[i]| == 8 && AllDigits(r[i])
            && var d := ParseCompact(r[i]);
               && InTimestampRange(d) && r[i] == Compact(d)
               && !Before(d, Earlier(a, b)) && !Before(Later(a, b), d)
  {
    var days := DaysFrom(Earlier(a, b), Later(a, b));
    CompactRoundTrip(days[i]);
  }

  /** The list is strictly ascending as strings, hence has no repeats. */
  lemma GetDateListAscending(a: Date, b: Date, i: int, j: int)
    requires GetDateList(a, b).Success?
    requires 0 <= i < j < |GetDateList(a, b).value|
    ensures StrLess(GetDateList(a, b).value[i], GetDateList(a, b).value[j])
  {
    var days := DaysFrom(Earlier(a, b), Later(a, b));
    OrdinalOrder(days[i], days[j]);
    CompactOrder(days[i], days[j]);
  }

  lemma CompactRoundTrip(d: Date)
    requires ValidDate(d) && d.year < 10000
    ensures |Compact(d)| == 8 && AllDigits(Compact(d)) && ParseCompact(Compact(d)) == d
  {
    var y, m, dd := PadDigits(d.year, 4), PadDigits(d.month, 2), PadDigits(d.day, 2);
    SplitThree(y, m, dd);
    PadDigitsRoundTrip(d.year, 4);
    PadDigitsRoundTrip(d.month, 2);
    PadDigitsRoundTrip(d.day, 2);
  }

  lemma SplitThree(y: string, m: string, d: string)
    requires |y| == 4 && |m| == 2 && |d| == 2
    ensures (y + m + d)[..4] == y && (y + m + d)[4..6] == m && (y + m + d)[6..] == d
  {
    var s := y + m + d;
    assert s[..4] == y;
    assert s[4..6] == m;
    assert s[6..] == d;
  }

  /** "YYYYMMDD" strings compare like the days they name. */
  lemma CompactOrder(a: Date, b: Date)
    requires ValidDate(a) && a.year < 10000 && ValidDate(b) && b.year < 10000
    ensures StrLess(Compact(a), Compact(b)) <==> Before(a, b)
  {
    var ya, ma, da := PadDigits(a.year, 4), PadDigits(a.month, 2), PadDigits(a.day, 2);
    var yb, mb, db := PadDigits(b.year, 4), PadDigits(b.month, 2), PadDigits(b.day, 2);
    FieldsOrder(a, b);
    assert Compact(a) == ya + (ma + da) && Compact(b) == yb + (mb + db);
    StrLessConcat(ya, ma + da, yb, mb + db);
    StrLessConcat(ma, da, mb, db);
  }

  /** "%Y-%m-%d" strings compare like the days they name, so the source's
      string comparison `time1 > time2` is the chronological one. */
  lemma IsoOrder(a: Date, b: Date)
    requires ValidDate(a) && a.year < 10000 && ValidDate(b) && b.year < 10000
    ensures StrLess(Iso(a), Iso(b)) <==> Before(a, b)
  {
    FieldsOrder(a, b);
    StrLessConcat(PadDigits(a.year, 4), DashedMonthDay(a), PadDigits(b.year, 4), DashedMonthDay(b));
    DashedOrder(PadDigits(a.month, 2), PadDigits(a.day, 2), PadDigits(b.month, 2), PadDigits(b.day, 2));
  }

  /** "-m-d" against "-m'-d'" with fields of one width: the months decide
      unless they are equal. */
  lemma DashedOrder(m1: string, d1: string, m2: string, d2: string)
    requires |m1| == |m2|
    ensures StrLess("-" + m1 + ("-" + d1), "-" + m2 + ("-" + d2))
            <==> StrLess(m1, m2) || (m1 == m2 && StrLess(d1, d2))
  {
    StrLessConcat("-" + m1, "-" + d1, "-" + m2, "-" + d2);
    StrLessConcat("-", m1, "-", m2);
    StrLessConcat("-", d1, "-", d2);
    StrLessIrreflexive("-");
  }

  lemma FieldsOrder(a: Date, b: Date)
    requires ValidDate(a) && a.year < 10000 && ValidDate(b) && b.year < 10000
    ensures StrLess(PadDigits(a.year, 4), PadDigits(b.year, 4)) <==> a.year < b.year
    ensures PadDigits(a.year, 4) == PadDigits(b.year, 4) <==> a.year == b.year
    ensures StrLess(PadDigits(a.month, 2), PadDigits(b.month, 2)) <==> a.month < b.month
    ensures PadDigits(a.month, 2) == PadDigits(b.month, 2) <==> a.month == b.month
    ensures StrLess(PadDigits(a.day, 2), PadDigits(b.day, 2)) <==> a.day < b.day
  {
    PadDigitsOrder(a.year, b.year, 4);
    PadDigitsOrder(a.month, b.month, 2);
    PadDigitsOrder(a.day, b.day, 2);
    PadDigitsRoundTrip(a.year, 4);
    PadDigitsRoundTrip(b.year, 4);
    PadDigitsRoundTrip(a.month, 2);
    PadDigitsRoundTrip(b.month, 2);
  }
}
