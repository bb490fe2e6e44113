/**
 * Civil date-times as `datetime` holds them, and the two fixed-width renderings
 * the pipeline writes: the archive stamp `%Y%m%d_%H%M%S` and the canonical
 * calendar date `%Y-%m-%d`. Years are four-digit, so `%Y` is a fixed-width field.
 */
module Clock {
  import opened Text

  predicate IsLeapYear(y: int)
  {
    y % 4 == 0 && (y % 100 != 0 || y % 400 == 0)
  }

  function DaysInMonth(y: int, m: int): int
    requires 1 <= m <= 12
  {
    if m == 2 then (if IsLeapYear(y) then 29 else 28)
    else if m == 4 || m == 6 || m == 9 || m == 11 then 30
    else 31
  }

  datatype Civil = Civil(year: int, month: int, day: int, hour: int, minute: int, second: int)

  predicate ValidCivil(t: Civil)
  {
    && 1000 <= t.year <= 9999
    && 1 <= t.month <= 12
    && 1 <= t.day <= DaysInMonth(t.year, t.month)
    && 0 <= t.hour < 24
    && 0 <= t.minute < 60
    && 0 <= t.second < 60
  }

  /**
   * A Paris wall-clock reading, to the second. It is not an instant: in the hour the
   * clocks go back (02:00-02:59 in late October) the same readings occur twice, so
   * reading order is not the order in which things happened across that hour.
   */
  type DateTime = t: Civil | ValidCivil(t) witness Civil(2000, 1, 1, 0, 0, 0)

  /** Reading `a` is not after reading `b`: compare year, month, day, hour, minute, second in turn. */
  predicate ChronoLe(a: Civil, b: Civil)
  {
    a.year < b.year || (a.year == b.year &&
    (a.month < b.month || (a.month == b.month &&
    (a.day < b.day || (a.day == b.day &&
    (a.hour < b.hour || (a.hour == b.hour &&
    (a.minute < b.minute || (a.minute == b.minute && a.second <= b.second)))))))))
  }

  /** `strftime("%Y%m%d_%H%M%S")`. */
  function Stamp(t: DateTime): string
  {
    Pad(t.year, 4) + (Pad(t.month, 2) + (Pad(t.day, 2) + ("_" +
      (Pad(t.hour, 2) + (Pad(t.minute, 2) + Pad(t.second, 2))))))
  }

  /** A stamp is 15 characters: eight digits, `_`, six digits. */
  lemma StampShape(t: DateTime)
    ensures |Stamp(t)| == 15 && Stamp(t)[8] == '_'
    ensures forall i :: 0 <= i < 15 && i != 8 ==> IsDigit(Stamp(t)[i])
  {
    var s := Stamp(t);
    PadDigits(t.year, 4); PadDigits(t.month, 2); PadDigits(t.day, 2);
    PadDigits(t.hour, 2); PadDigits(t.minute, 2); PadDigits(t.second, 2);
    assert forall i :: 0 <= i < 4 ==> s[i] == Pad(t.year, 4)[i];
    assert forall i :: 4 <= i < 6 ==> s[i] == Pad(t.month, 2)[i - 4];
    assert forall i :: 6 <= i < 8 ==> s[i] == Pad(t.day, 2)[i - 6];
    assert forall i :: 9 <= i < 11 ==> s[i] == Pad(t.hour, 2)[i - 9];
    assert forall i :: 11 <= i < 13 ==> s[i] == Pad(t.minute, 2)[i - 11];
    assert forall i :: 13 <= i < 15 ==> s[i] == Pad(t.second, 2)[i - 13];
  }

  /** One fixed-width field followed by the rest: the field decides unless equal. */
  lemma FieldThenRest(n: nat, m: nat, w: nat, x: string, y: string)
    requires n < Pow10(w) && m < Pow10(w)
    ensures LexLe(Pad(n, w) + x, Pad(m, w) + y) <==> n < m || (n == m && LexLe(x, y))
    ensures Pad(n, w) + x == Pad(m, w) + y <==> n == m && x == y
  {
    PadOrder(n, m, w);
    LexLeBlocks(Pad(n, w), x, Pad(m, w), y);
    ConcatEqual(Pad(n, w), x, Pad(m, w), y);
  }

  /** For fixed-width stamps, text order is wall-clock reading order, and distinct readings give distinct stamps. */
  lemma StampOrder(t1: DateTime, t2: DateTime)
    ensures LexLe(Stamp(t1), Stamp(t2)) <==> ChronoLe(t1, t2)
    ensures Stamp(t1) == Stamp(t2) <==> t1 == t2
  {
    assert Pow10(2) == 100 && Pow10(4) == 10000;
    var s5a, s5b := Pad(t1.minute, 2) + Pad(t1.second, 2), Pad(t2.minute, 2) + Pad(t2.second, 2);
    FieldThenRest(t1.minute, t2.minute, 2, Pad(t1.second, 2), Pad(t2.second, 2));
    PadOrder(t1.second, t2.second, 2);
    var s4a, s4b := Pad(t1.hour, 2) + s5a, Pad(t2.hour, 2) + s5b;
    FieldThenRest(t1.hour, t2.hour, 2, s5a, s5b);
    var s3a, s3b := "_" + s4a, "_" + s4b;
    LexLeCommonPrefix("_", s4a, s4b);
    ConcatEqual("_", s4a, "_", s4b);
    var s2a, s2b := Pad(t1.day, 2) + s3a, Pad(t2.day, 2) + s3b;
    FieldThenRest(t1.day, t2.day, 2, s3a, s3b);
    var s1a, s1b := Pad(t1.month, 2) + s2a, Pad(t2.month, 2) + s2b;
    FieldThenRest(t1.month, t2.month, 2, s2a, s2b);
    FieldThenRest(t1.year, t2.year, 4, s1a, s1b);
  }

  datatype CalendarDay = CalendarDay(year: int, month: int, day: int)

  predicate ValidDay(d: CalendarDay)
  {
    1000 <= d.year <= 9999 && 1 <= d.month <= 12 && 1 <= d.day <= DaysInMonth(d.year, d.month)
  }

  /** A calendar date, as `pandas.to_datetime` yields it once the time of day is dropped. */
  type Date = d: CalendarDay | ValidDay(d) witness CalendarDay(2000, 1, 1)

  predicate DateLe(a: CalendarDay, b: CalendarDay)
  {
    a.year < b.year || (a.year == b.year &&
    (a.month < b.month || (a.month == b.month && a.day <= b.day)))
  }

  /** `strftime("%Y-%m-%d")`. */
  function IsoDate(d: Date): string
  {
    Pad(d.year, 4) + ("-" + (Pad(d.month, 2) + ("-" + Pad(d.day, 2))))
  }

  /** Canonical date text is 10 characters: four digits, `-`, two digits, `-`, two digits. */
  lemma IsoDateShape(d: Date)
    ensures |IsoDate(d)| == 10 && IsoDate(d)[4] == '-' && IsoDate(d)[7] == '-'
    ensures forall i :: 0 <= i < 10 && i != 4 && i != 7 ==> IsDigit(IsoDate(d)[i])
  {
    var s := IsoDate(d);
    PadDigits(d.year, 4); PadDigits(d.month, 2); PadDigits(d.day, 2);
    assert forall i :: 0 <= i < 4 ==> s[i] == Pad(d.year, 4)[i];
    assert forall i :: 5 <= i < 7 ==> s[i] == Pad(d.month, 2)[i - 5];
    assert forall i :: 8 <= i < 10 ==> s[i] == Pad(d.day, 2)[i - 8];
  }

  /** Canonical date text sorts like the dates, and distinct dates give distinct text. */
  lemma IsoDateOrder(d1: Date, d2: Date)
    ensures LexLe(IsoDate(d1), IsoDate(d2)) <==> DateLe(d1, d2)
    ensures IsoDate(d1) == IsoDate(d2) <==> d1 == d2
  {
    assert Pow10(2) == 100 && Pow10(4) == 10000;
    PadOrder(d1.day, d2.day, 2);
    var s3a, s3b := "-" + Pad(d1.day, 2), "-" + Pad(d2.day, 2);
    LexLeCommonPrefix("-", Pad(d1.day, 2), Pad(d2.day, 2));
    ConcatEqual("-", Pad(d1.day, 2), "-", Pad(d2.day, 2));
    var s2a, s2b := Pad(d1.month, 2) + s3a, Pad(d2.month, 2) + s3b;
    FieldThenRest(d1.month, d2.month, 2, s3a, s3b);
    LexLeCommonPrefix("-", s2a, s2b);
    ConcatEqual("-", s2a, "-", s2b);
    FieldThenRest(d1.year, d2.year, 4, "-" + s2a, "-" + s2b);
  }
}
