/** The UTC timestamps both programs write and the order in which SQLite sorts them. */
module Timestamps {
  import opened Models
  import opened Text

  // ---- gmtime: the proleptic Gregorian calendar ----

  predicate IsLeap(y: int) { y % 4 == 0 && (y % 100 != 0 || y % 400 == 0) }

  function YearLength(y: int): nat { if IsLeap(y) then 366 else 365 }

  function MonthLength(y: int, m: nat): (len: nat)
    requires 1 <= m <= 12
    ensures 28 <= len <= 31
  {
    if m == 2 then (if IsLeap(y) then 29 else 28)
    else if m == 4 || m == 6 || m == 9 || m == 11 then 30
    else 31
  }

  datatype YearDay = YearDay(year: nat, day: nat)

  /** The year, and the day within it, `day` days after 1 January of year `y`. */
  function FindYear(y: nat, day: nat): (r: YearDay)
    ensures y <= r.year && r.day < YearLength(r.year)
    decreases day
  {
    if day < YearLength(y) then YearDay(y, day) else FindYear(y + 1, day - YearLength(y))
  }

  datatype MonthDay = MonthDay(month: nat, day: nat)

  function DaysLeft(y: int, m: nat): nat
    requires 1 <= m <= 12
    decreases 12 - m
  {
    if m == 12 then 31 else MonthLength(y, m) + DaysLeft(y, m + 1)
  }

  /** The month and day of the month `day` days after the first day of month `m`. */
  function FindMonth(y: int, m: nat, day: nat): (r: MonthDay)
    requires 1 <= m <= 12 && day < DaysLeft(y, m)
    ensures m <= r.month <= 12 && 1 <= r.day <= MonthLength(y, r.month)
    decreases 12 - m
  {
    if day < MonthLength(y, m) then MonthDay(m, day + 1)
    else FindMonth(y, m + 1, day - MonthLength(y, m))
  }

  lemma YearHasTwelveMonths(y: int)
    ensures DaysLeft(y, 1) == YearLength(y)
  {
  }

  /** The month with its day, and the year, `d` days after the epoch. */
  function DateOf(d: nat): (MonthDay, nat) {
    var yd := FindYear(1970, d);
    YearHasTwelveMonths(yd.year);
    (FindMonth(yd.year, 1, yd.day), yd.year)
  }

  /** The broken-down time of gmtime_r, from years to seconds. */
  datatype Civil = Civil(year: nat, month: nat, day: nat, hour: nat, minute: nat, second: nat)

  function GmTime(t: nat): Civil {
    var (md, year) := DateOf(t / 86400);
    var s := t % 86400;
    Civil(year, md.month, md.day, s / 3600, s / 60 % 60, s % 60)
  }

  predicate CivilBefore(a: Civil, b: Civil) {
    || a.year < b.year
    || (a.year == b.year && (a.month < b.month
    || (a.month == b.month && (a.day < b.day
    || (a.day == b.day && (a.hour < b.hour
    || (a.hour == b.hour && (a.minute < b.minute
    || (a.minute == b.minute && a.second < b.second)))))))))
  }

  lemma {:induction false} FindYearMonotone(y: nat, d1: nat, d2: nat)
    requires d1 < d2
    ensures var a, b := FindYear(y, d1), FindYear(y, d2);
            a.year < b.year || (a.year == b.year && a.day < b.day)
    decreases d1
  {
    if d1 >= YearLength(y) {
      FindYearMonotone(y + 1, d1 - YearLength(y), d2 - YearLength(y));
    }
  }

  lemma {:induction false} FindMonthMonotone(y: int, m: nat, d1: nat, d2: nat)
    requires 1 <= m <= 12 && d1 < d2 < DaysLeft(y, m)
    ensures var a, b := FindMonth(y, m, d1), FindMonth(y, m, d2);
            a.month < b.month || (a.month == b.month && a.day < b.day)
    decreases 12 - m
  {
    if d1 >= MonthLength(y, m) {
      FindMonthMonotone(y, m + 1, d1 - MonthLength(y, m), d2 - MonthLength(y, m));
    }
  }

  lemma TimeOfDayMonotone(s1: nat, s2: nat)
    requires s1 < s2
    ensures || s1 / 3600 < s2 / 3600
            || (s1 / 3600 == s2 / 3600 && s1 / 60 % 60 < s2 / 60 % 60)
            || (s1 / 3600 == s2 / 3600 && s1 / 60 % 60 == s2 / 60 % 60 && s1 % 60 < s2 % 60)
  {
    assert s1 / 60 / 60 == s1 / 3600 && s2 / 60 / 60 == s2 / 3600;
  }

  lemma DateMonotone(d1: nat, d2: nat)
    requires d1 < d2
    ensures var (m1, y1), (m2, y2) := DateOf(d1), DateOf(d2);
            || y1 < y2
            || (y1 == y2 && (m1.month < m2.month || (m1.month == m2.month && m1.day < m2.day)))
  {
    var yd1, yd2 := FindYear(1970, d1), FindYear(1970, d2);
    YearHasTwelveMonths(yd1.year);
    YearHasTwelveMonths(yd2.year);
    FindYearMonotone(1970, d1, d2);
    if yd1.year == yd2.year {
      FindMonthMonotone(yd1.year, 1, yd1.day, yd2.day);
    }
  }

  /** Later seconds have later calendar fields. */
  lemma GmTimeMonotone(t1: nat, t2: nat)
    requires t1 < t2
    ensures CivilBefore(GmTime(t1), GmTime(t2))
  {
    if t1 / 86400 < t2 / 86400 {
      DateMonotone(t1 / 86400, t2 / 86400);
    } else {
      assert t1 / 86400 == t2 / 86400;
      TimeOfDayMonotone(t1 % 86400, t2 % 86400);
    }
  }

  // ---- The four-digit years ----

  /** Days from 1 January of year 1 to 1 January of year `y`. */
  function DaysBeforeYear(y: int): int {
    365 * (y - 1) + (y - 1) / 4 - (y - 1) / 100 + (y - 1) / 400
  }

  lemma QuotientStep(y: nat, k: nat)
    requires y > 0 && k > 0
    ensures y / k == (y - 1) / k + if y % k == 0 then 1 else 0
  {
    var q, r := (y - 1) / k, (y - 1) % k;
    assert y == k * q + (r + 1);
    if r + 1 == k {
      assert y == k * (q + 1) + 0;
      QuotientIs(y, k, q + 1, 0);
    } else {
      QuotientIs(y, k, q, r + 1);
    }
  }

  lemma QuotientIs(y: int, k: int, q: int, r: int)
    requires 0 <= r < k && y == k * q + r
    ensures y / k == q && y % k == r
  {
    var d := y / k - q;
    assert y == k * (y / k) + y % k;
    assert k * d == r - y % k;
    assert d >= 1 ==> k * d >= k;
    assert d <= -1 ==> k * d + k <= 0;
  }

  lemma YearLengthIsDifference(y: nat)
    requires y > 0
    ensures DaysBeforeYear(y + 1) == DaysBeforeYear(y) + YearLength(y)
  {
    QuotientStep(y, 4);
    QuotientStep(y, 100);
    QuotientStep(y, 400);
    Divides(y, 100, 4);
    Divides(y, 4, 25);
  }

  /** A multiple of `k * m` is a multiple of `k`. */
  lemma Divides(y: nat, k: nat, m: nat)
    requires k > 0 && m > 0
    ensures k * m > 0 && (y % (k * m) == 0 ==> y % k == 0)
  {
    var q := y / (k * m);
    if y % (k * m) == 0 {
      assert y == k * m * q == k * (m * q);
      QuotientIs(y, k, m * q, 0);
    }
  }

  lemma {:induction false} FindYearKeepsCount(y: nat, day: nat)
    requires y > 0
    ensures var r := FindYear(y, day); DaysBeforeYear(y) + day == DaysBeforeYear(r.year) + r.day
    decreases day
  {
    YearLengthIsDifference(y);
    if day >= YearLength(y) {
      FindYearKeepsCount(y + 1, day - YearLength(y));
    }
  }

  lemma {:induction false} DaysBeforeYearMonotone(a: nat, b: nat)
    requires 0 < a <= b
    ensures DaysBeforeYear(a) <= DaysBeforeYear(b)
    decreases b - a
  {
  }

  /** 10000-01-01T00:00:00Z in epoch seconds. */
  const END_OF_YEAR_9999: nat := 253402300800

  lemma FourDigitYears(t: nat)
    ensures GmTime(t).year <= 9999 <==> t < END_OF_YEAR_9999
  {
    var day := t / 86400;
    var r := FindYear(1970, day);
    FindYearKeepsCount(1970, day);
    assert DaysBeforeYear(10000) - DaysBeforeYear(1970) == 2932897;
    if r.year <= 9999 {
      DaysBeforeYearMonotone(r.year + 1, 10000);
      YearLengthIsDifference(r.year);
    } else {
      DaysBeforeYearMonotone(10000, r.year);
    }
  }

  /** Days from the first day of month `m` to that of month `n`, in year `y`. */
  function DaysBetweenMonths(y: int, m: nat, n: nat): nat
    requires 1 <= m <= n <= 12
    decreases n - m
  {
    if m == n then 0 else MonthLength(y, m) + DaysBetweenMonths(y, m + 1, n)
  }

  lemma {:induction false} FindMonthKeepsCount(y: int, m: nat, day: nat)
    requires 1 <= m <= 12 && day < DaysLeft(y, m)
    ensures var r := FindMonth(y, m, day); day == DaysBetweenMonths(y, m, r.month) + r.day - 1
    decreases 12 - m
  {
    if day >= MonthLength(y, m) {
      FindMonthKeepsCount(y, m + 1, day - MonthLength(y, m));
    }
  }

  /** Days since 1 January of year 1, by the calendar. */
  function DayNumber(c: Civil): int
    requires 1 <= c.month <= 12
  {
    DaysBeforeYear(c.year) + DaysBetweenMonths(c.year, 1, c.month) + c.day - 1
  }

  /** The instant a broken-down time denotes (timegm). */
  function EpochSeconds(c: Civil): int
    requires 1 <= c.month <= 12
  {
    86400 * (DayNumber(c) - DaysBeforeYear(1970)) + 3600 * c.hour + 60 * c.minute + c.second
  }

  /** gmtime loses nothing: its fields denote the instant they were computed from. */
  lemma GmTimeInverse(t: nat)
    ensures var c := GmTime(t);
            1 <= c.month <= 12 && c.day <= 31 && c.hour < 24 && c.minute < 60 && c.second < 60
    ensures EpochSeconds(GmTime(t)) == t
  {
    var yd := FindYear(1970, t / 86400);
    YearHasTwelveMonths(yd.year);
    FindYearKeepsCount(1970, t / 86400);
    FindMonthKeepsCount(yd.year, 1, yd.day);
    var s := t % 86400;
    assert s == 3600 * (s / 3600) + 60 * (s / 60 % 60) + s % 60;
  }

  lemma DaysOn(t: nat, days: nat)
    ensures (t + 86400 * days) % 86400 == t % 86400
  {
  }

  /** Whole days later the clock shows the same time. */
  lemma SameTimeOfDay(t: nat, days: nat)
    ensures var c, d := GmTime(t), GmTime(t + 86400 * days);
            c.hour == d.hour && c.minute == d.minute && c.second == d.second
  {
    DaysOn(t, days);
  }

  lemma SameClock(c: Civil, d: Civil, days: nat)
    requires 1 <= c.month <= 12 && 1 <= d.month <= 12 && EpochSeconds(d) == EpochSeconds(c) + 86400 * days
    requires c.hour == d.hour && c.minute == d.minute && c.second == d.second
    ensures DayNumber(d) == DayNumber(c) + days
  {
  }

  /** And it shows it on a date that many days later. */
  lemma DaysLater(t: nat, days: nat)
    ensures var c, d := GmTime(t), GmTime(t + 86400 * days);
            && c.hour == d.hour && c.minute == d.minute && c.second == d.second
            && 1 <= c.month <= 12 && 1 <= d.month <= 12 && DayNumber(d) == DayNumber(c) + days
  {
    var c, d := GmTime(t), GmTime(t + 86400 * days);
    SameTimeOfDay(t, days);
    GmTimeInverse(t);
    GmTimeInverse(t + 86400 * days);
    SameClock(c, d, days);
  }

  // ---- put_time ----

  /** `n` in exactly `width` digits, zero-padded. */
  function Padded(n: nat, width: nat): (s: string)
    ensures |s| == width && AllDigits(s)
  {
    if width == 0 then "" else Padded(n / 10, width - 1) + [DigitChar(n % 10)]
  }

  function Pow10(k: nat): (p: nat)
    ensures p > 0
  {
    if k == 0 then 1 else 10 * Pow10(k - 1)
  }

  lemma {:induction false} PaddedMonotone(a: nat, b: nat, width: nat)
    requires a < b < Pow10(width)
    ensures LexLess(Padded(a, width), Padded(b, width))
  {
    var pa, pb := Padded(a / 10, width - 1), Padded(b / 10, width - 1);
    var da, db := [DigitChar(a % 10)], [DigitChar(b % 10)];
    LexAppend(pa, pb, da, db);
    if a / 10 < b / 10 {
      PaddedMonotone(a / 10, b / 10, width - 1);
    }
  }

  /** The fields in the order of the text formats, with what stands between date and time and at the end. */
  function Fields(c: Civil, separator: string, end: string): string {
    Padded(c.year, 4) + ("-" + (Padded(c.month, 2) + ("-" + (Padded(c.day, 2) + (separator +
    (Padded(c.hour, 2) + (":" + (Padded(c.minute, 2) + (":" + (Padded(c.second, 2) + end))))))))))
  }

  /** The text utcNowIso8601 writes at epoch second `t`: %Y-%m-%dT%H:%M:%SZ. */
  function Iso8601(t: nat): string { Fields(GmTime(t), "T", "Z") }

  /** The text SQLite's datetime() yields for the instant `t`. */
  function SqliteDateTime(t: nat): string { Fields(GmTime(t), " ", "") }

  lemma FieldWidths()
    ensures Pow10(2) == 100 && Pow10(4) == 10000
  {
  }

  predicate InRange(c: Civil) {
    c.year < 10000 && c.month < 100 && c.day < 100 && c.hour < 100 && c.minute < 100 && c.second < 100
  }

  lemma GmTimeInRange(t: nat)
    requires t < END_OF_YEAR_9999
    ensures InRange(GmTime(t))
  {
    FourDigitYears(t);
  }

  lemma {:induction false} PaddedIsRead(n: nat, width: nat)
    requires n < Pow10(width)
    ensures ParseDecimal(Padded(n, width)) == n
  {
    if width > 0 {
      PaddedIsRead(n / 10, width - 1);
      var s := Padded(n, width);
      assert s[..|s| - 1] == Padded(n / 10, width - 1);
    }
  }

  /** The number in the digits of `s` from `i` to `j`. */
  function NumberAt(s: string, i: nat, j: nat): Option<nat>
    requires i <= j <= |s|
  {
    if AllDigits(s[i..j]) then Some(ParseDecimal(s[i..j])) else None
  }

  /** The text has the fields at their places and nothing else but separators. */
  predicate Shows(s: string, c: Civil, separator: char) {
    && |s| >= 19
    && s[4] == '-' && s[7] == '-' && s[10] == separator && s[13] == ':' && s[16] == ':'
    && NumberAt(s, 0, 4) == Some(c.year) && NumberAt(s, 5, 7) == Some(c.month) && NumberAt(s, 8, 10) == Some(c.day)
    && NumberAt(s, 11, 13) == Some(c.hour) && NumberAt(s, 14, 16) == Some(c.minute)
    && NumberAt(s, 17, 19) == Some(c.second)
  }

  lemma Piece(p: string, separator: char, rest: string)
    ensures var s := p + ([separator] + rest); s[..|p|] == p && s[|p|] == separator && s[|p| + 1..] == rest
  {
  }

  lemma ReadsAt(s: string, i: nat, n: nat, width: nat, rest: string)
    requires i <= |s| && s[i..] == Padded(n, width) + rest && n < Pow10(width)
    ensures i + width <= |s| && NumberAt(s, i, i + width) == Some(n)
  {
    PaddedIsRead(n, width);
    assert s[i..i + width] == s[i..][..width] == Padded(n, width);
  }

  /** One field and its separator. */
  lemma FieldAt(s: string, i: nat, n: nat, width: nat, separator: char, rest: string)
    requires i <= |s| && s[i..] == Padded(n, width) + ([separator] + rest) && n < Pow10(width)
    ensures i + width < |s| && NumberAt(s, i, i + width) == Some(n) && s[i + width] == separator
    ensures s[i + width + 1..] == rest
  {
    ReadsAt(s, i, n, width, [separator] + rest);
    Piece(Padded(n, width), separator, rest);
    assert s[i + width] == s[i..][width] && s[i + width + 1..] == s[i..][width + 1..];
  }

  lemma FieldsShow(c: Civil, separator: char, end: string)
    requires InRange(c)
    ensures var s := Fields(c, [separator], end); |s| == 19 + |end| && s[19..] == end && Shows(s, c, separator)
  {
    FieldWidths();
    var s := Fields(c, [separator], end);
    var a6 := Padded(c.second, 2) + end;
    var a5 := Padded(c.minute, 2) + (":" + a6);
    var a4 := Padded(c.hour, 2) + (":" + a5);
    var a3 := Padded(c.day, 2) + ([separator] + a4);
    var a2 := Padded(c.month, 2) + ("-" + a3);
    assert s[0..] == s == Padded(c.year, 4) + ("-" + a2);
    FieldAt(s, 0, c.year, 4, '-', a2);
    FieldAt(s, 5, c.month, 2, '-', a3);
    FieldAt(s, 8, c.day, 2, separator, a4);
    FieldAt(s, 11, c.hour, 2, ':', a5);
    FieldAt(s, 14, c.minute, 2, ':', a6);
    ReadsAt(s, 17, c.second, 2, end);
    assert s[19..] == s[17..][2..] == end;
  }

  /** What the clock writes, character by character: the fields can be read back, and with them the second. */
  lemma TimestampIsRead(t: nat)
    requires t < END_OF_YEAR_9999
    ensures var s := Iso8601(t); |s| == 20 && Shows(s, GmTime(t), 'T') && s[19] == 'Z'
    ensures var s := SqliteDateTime(t); |s| == 19 && Shows(s, GmTime(t), ' ')
    ensures 1 <= GmTime(t).month <= 12 && EpochSeconds(GmTime(t)) == t
  {
    GmTimeInRange(t);
    GmTimeInverse(t);
    FieldsShow(GmTime(t), 'T', "Z");
    FieldsShow(GmTime(t), ' ', "");
  }

  /** A shared separator does not change the order of what follows. */
  lemma LexField(a: nat, b: nat, width: nat, rest1: string, rest2: string)
    requires a < Pow10(width) && b < Pow10(width)
    requires a < b || (a == b && LexLess(rest1, rest2))
    ensures LexLess(Padded(a, width) + rest1, Padded(b, width) + rest2)
  {
    LexAppend(Padded(a, width), Padded(b, width), rest1, rest2);
    if a < b {
      PaddedMonotone(a, b, width);
    }
  }

  lemma LexSeparator(separator: string, rest1: string, rest2: string)
    requires LexLess(rest1, rest2)
    ensures LexLess(separator + rest1, separator + rest2)
  {
    LexAppend(separator, separator, rest1, rest2);
  }

  lemma FieldsMonotone(a: Civil, b: Civil, separator: string, end: string)
    requires InRange(a) && InRange(b) && CivilBefore(a, b)
    ensures LexLess(Fields(a, separator, end), Fields(b, separator, end))
  {
    FieldWidths();
    var a6, b6 := Padded(a.second, 2) + end, Padded(b.second, 2) + end;
    var a5, b5 := Padded(a.minute, 2) + (":" + a6), Padded(b.minute, 2) + (":" + b6);
    var a4, b4 := Padded(a.hour, 2) + (":" + a5), Padded(b.hour, 2) + (":" + b5);
    var a3, b3 := Padded(a.day, 2) + (separator + a4), Padded(b.day, 2) + (separator + b4);
    var a2, b2 := Padded(a.month, 2) + ("-" + a3), Padded(b.month, 2) + ("-" + b3);
    if a.year == b.year {
      if a.month == b.month {
        if a.day == b.day {
          if a.hour == b.hour {
            if a.minute == b.minute {
              LexField(a.second, b.second, 2, end, end);
              LexSeparator(":", a6, b6);
            }
            LexField(a.minute, b.minute, 2, ":" + a6, ":" + b6);
            LexSeparator(":", a5, b5);
          }
          LexField(a.hour, b.hour, 2, ":" + a5, ":" + b5);
          LexSeparator(separator, a4, b4);
        }
        LexField(a.day, b.day, 2, separator + a4, separator + b4);
        LexSeparator("-", a3, b3);
      }
      LexField(a.month, b.month, 2, "-" + a3, "-" + b3);
      LexSeparator("-", a2, b2);
    }
    LexField(a.year, b.year, 4, "-" + a2, "-" + b2);
  }

  lemma TextMonotone(t1: nat, t2: nat)
    requires t1 < t2 < END_OF_YEAR_9999
    ensures LexLess(Iso8601(t1), Iso8601(t2)) && LexLess(SqliteDateTime(t1), SqliteDateTime(t2))
  {
    GmTimeInRange(t1);
    GmTimeInRange(t2);
    GmTimeMonotone(t1, t2);
    FieldsMonotone(GmTime(t1), GmTime(t2), "T", "Z");
    FieldsMonotone(GmTime(t1), GmTime(t2), " ", "");
  }

  /** Text order is time order, in both of the formats the queries compare. */
  lemma {:induction false} TextOrderIsTimeOrder(t1: nat, t2: nat)
    requires t1 < END_OF_YEAR_9999 && t2 < END_OF_YEAR_9999
    ensures LexLess(Iso8601(t1), Iso8601(t2)) <==> t1 < t2
    ensures LexLess(SqliteDateTime(t1), SqliteDateTime(t2)) <==> t1 < t2
    ensures Iso8601(t1) == Iso8601(t2) <==> t1 == t2
  {
    if t1 < t2 {
      TextMonotone(t1, t2);
      LexAsymmetric(Iso8601(t1), Iso8601(t2));
    } else if t2 < t1 {
      TextMonotone(t2, t1);
      LexAsymmetric(Iso8601(t2), Iso8601(t1));
      LexAsymmetric(SqliteDateTime(t2), SqliteDateTime(t1));
    } else {
      LexIrreflexive(Iso8601(t1));
      LexIrreflexive(SqliteDateTime(t1));
    }
  }
}
