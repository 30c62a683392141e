/** Times kept as RFC 3339 text (internal/store/store.go; RFC 3339, sections 5.1 and 5.6): comparing the text must
    order the times. */
module Timestamps {
  import opened Digits

  /** A UTC date and time of day, years 0 to 9999. */
  datatype Civil = Civil(year: nat, month: nat, day: nat, hour: nat, minute: nat, second: nat)

  datatype Instant = Instant(civil: Civil, nanos: nat)

  predicate Leap(y: nat) {
    y % 4 == 0 && (y % 100 != 0 || y % 400 == 0)
  }

  function DaysIn(y: nat, m: nat): nat {
    if m == 2 then (if Leap(y) then 29 else 28)
    else if m == 4 || m == 6 || m == 9 || m == 11 then 30 else 31
  }

  predicate ValidCivil(c: Civil) {
    c.year <= 9999 && 1 <= c.month <= 12 && 1 <= c.day <= DaysIn(c.year, c.month)
    && c.hour < 24 && c.minute < 60 && c.second < 60
  }

  predicate Valid(t: Instant) {
    ValidCivil(t.civil) && t.nanos < 1_000_000_000
  }

  const ZERO := Instant(Civil(1, 1, 1, 0, 0, 0), 0)

  // ---------------------------------------------------------------- elapsed time

  function DaysBeforeYear(y: nat): int {
    365 * y + (y + 3) / 4 - (y + 99) / 100 + (y + 399) / 400
  }

  function DaysBeforeMonth(y: nat, m: nat): nat {
    if m <= 1 then 0 else DaysBeforeMonth(y, m - 1) + DaysIn(y, m - 1)
  }

  function DayNumber(c: Civil): int {
    DaysBeforeYear(c.year) + DaysBeforeMonth(c.year, c.month) + c.day - 1
  }

  /** Whole seconds since the start of year 0. */
  function Seconds(c: Civil): int {
    DayNumber(c) * 86400 + c.hour * 3600 + c.minute * 60 + c.second
  }

  /** One second later. */
  function Tick(c: Civil): Civil {
    if c.second < 59 then c.(second := c.second + 1)
    else if c.minute < 59 then c.(second := 0, minute := c.minute + 1)
    else if c.hour < 23 then c.(second := 0, minute := 0, hour := c.hour + 1)
    else if c.day < DaysIn(c.year, c.month) then Civil(c.year, c.month, c.day + 1, 0, 0, 0)
    else if c.month < 12 then Civil(c.year, c.month + 1, 1, 0, 0, 0)
    else Civil(c.year + 1, 1, 1, 0, 0, 0)
  }

  lemma MonthsOfAYear(y: nat)
    ensures DaysBeforeMonth(y, 12) + DaysIn(y, 12) == 337 + DaysIn(y, 2)
  {
    assert DaysBeforeMonth(y, 2) == 31;
    assert DaysBeforeMonth(y, 3) == 31 + DaysIn(y, 2);
    assert DaysBeforeMonth(y, 4) == DaysBeforeMonth(y, 3) + 31;
    assert DaysBeforeMonth(y, 5) == DaysBeforeMonth(y, 4) + 30;
    assert DaysBeforeMonth(y, 6) == DaysBeforeMonth(y, 5) + 31;
    assert DaysBeforeMonth(y, 7) == DaysBeforeMonth(y, 6) + 30;
    assert DaysBeforeMonth(y, 8) == DaysBeforeMonth(y, 7) + 31;
    assert DaysBeforeMonth(y, 9) == DaysBeforeMonth(y, 8) + 31;
    assert DaysBeforeMonth(y, 10) == DaysBeforeMonth(y, 9) + 30;
    assert DaysBeforeMonth(y, 11) == DaysBeforeMonth(y, 10) + 31;
    assert DaysBeforeMonth(y, 12) == DaysBeforeMonth(y, 11) + 30;
  }

  /** Rounding up to multiples of 4, 100 and 400 steps up exactly after a multiple. */
  lemma FoursPassed(y: nat)
    ensures (y + 4) / 4 - (y + 3) / 4 == if y % 4 == 0 then 1 else 0
  {
  }

  lemma HundredsPassed(y: nat)
    ensures (y + 100) / 100 - (y + 99) / 100 == if y % 100 == 0 then 1 else 0
  {
  }

  lemma FourHundredsPassed(y: nat)
    ensures (y + 400) / 400 - (y + 399) / 400 == if y % 400 == 0 then 1 else 0
  {
  }

  lemma {:induction false} LeapRule(y: nat)
    ensures (if y % 4 == 0 then 1 else 0) - (if y % 100 == 0 then 1 else 0) + (if y % 400 == 0 then 1 else 0)
            == if Leap(y) then 1 else 0
  {
    assert y % 400 == 0 ==> y % 100 == 0;
    assert y % 100 == 0 ==> y % 4 == 0;
  }

  lemma {:induction false} YearLength(y: nat)
    ensures DaysBeforeMonth(y, 12) + DaysIn(y, 12) == if Leap(y) then 366 else 365
    ensures DaysBeforeYear(y + 1) == DaysBeforeYear(y) + if Leap(y) then 366 else 365
  {
    MonthsOfAYear(y);
    FoursPassed(y);
    HundredsPassed(y);
    FourHundredsPassed(y);
    LeapRule(y);
  }

  /** The count of seconds is elapsed time: every tick adds one. */
  lemma SecondsCountTicks(c: Civil)
    requires ValidCivil(c)
    ensures Seconds(Tick(c)) == Seconds(c) + 1
  {
    if c.second == 59 && c.minute == 59 && c.hour == 23 {
      OverMidnight(c);
    } else {
      WithinTheDay(c);
    }
  }

  lemma WithinTheDay(c: Civil)
    requires ValidCivil(c) && !(c.second == 59 && c.minute == 59 && c.hour == 23)
    ensures Seconds(Tick(c)) == Seconds(c) + 1
  {
  }

  lemma OverMidnight(c: Civil)
    requires ValidCivil(c) && c.second == 59 && c.minute == 59 && c.hour == 23
    ensures Seconds(Tick(c)) == Seconds(c) + 1
  {
    NextDay(c);
    var d := Tick(c);
    assert DayNumber(d) == DayNumber(c) + 1;
    assert d.hour == 0 && d.minute == 0 && d.second == 0;
  }

  /** The calendar runs from the start of year 0 to the end of year 9999 and never leaves it in between. */
  lemma TicksStayInTheCalendar(c: Civil)
    ensures ValidCivil(Civil(0, 1, 1, 0, 0, 0)) && ValidCivil(Civil(9999, 12, 31, 23, 59, 59))
    ensures ValidCivil(c) ==> (ValidCivil(Tick(c)) <==> c != Civil(9999, 12, 31, 23, 59, 59))
  {
  }

  /** It starts at 0. */
  lemma StartOfTime()
    ensures Seconds(Civil(0, 1, 1, 0, 0, 0)) == 0
  {
  }

  lemma NextDay(c: Civil)
    requires ValidCivil(c)
    ensures c.day < DaysIn(c.year, c.month) ==>
      DayNumber(Civil(c.year, c.month, c.day + 1, 0, 0, 0)) == DayNumber(c) + 1
    ensures c.day == DaysIn(c.year, c.month) && c.month < 12 ==>
      DayNumber(Civil(c.year, c.month + 1, 1, 0, 0, 0)) == DayNumber(c) + 1
    ensures c.day == DaysIn(c.year, c.month) && c.month == 12 ==>
      DayNumber(Civil(c.year + 1, 1, 1, 0, 0, 0)) == DayNumber(c) + 1
  {
    if c.month == 12 {
      YearLength(c.year);
    }
  }

  predicate CivilLess(c: Civil, d: Civil) {
    c.year < d.year || (c.year == d.year &&
    (c.month < d.month || (c.month == d.month &&
    (c.day < d.day || (c.day == d.day &&
    (c.hour < d.hour || (c.hour == d.hour &&
    (c.minute < d.minute || (c.minute == d.minute && c.second < d.second)))))))))
  }

  lemma {:induction false} LaterMonth(y: nat, m: nat, n: nat)
    requires 1 <= m < n
    ensures DaysBeforeMonth(y, m) + DaysIn(y, m) <= DaysBeforeMonth(y, n)
    decreases n
  {
    if m < n - 1 {
      LaterMonth(y, m, n - 1);
    }
  }

  lemma {:induction false} LaterYear(y: nat, z: nat)
    requires y < z
    ensures DaysBeforeYear(y) + DaysBeforeMonth(y, 12) + DaysIn(y, 12) <= DaysBeforeYear(z)
    decreases z
  {
    YearLength(y);
    if y < z - 1 {
      YearLength(z - 1);
      LaterYear(y, z - 1);
    }
  }

  lemma DayLess(c: Civil, d: Civil)
    requires ValidCivil(c) && ValidCivil(d)
    requires c.year < d.year || (c.year == d.year && (c.month < d.month || (c.month == d.month && c.day < d.day)))
    ensures DayNumber(c) < DayNumber(d)
  {
    if c.year < d.year {
      LaterYear(c.year, d.year);
      if c.month < 12 { LaterMonth(c.year, c.month, 12); }
    } else if c.month < d.month {
      LaterMonth(c.year, c.month, d.month);
    }
  }

  lemma CivilOrderIsTimeOrder(c: Civil, d: Civil)
    requires ValidCivil(c) && ValidCivil(d)
    ensures CivilLess(c, d) <==> Seconds(c) < Seconds(d)
  {
    if CivilLess(c, d) {
      EarlierCivil(c, d);
    } else if c != d {
      EarlierCivil(d, c);
    }
  }

  lemma EarlierCivil(c: Civil, d: Civil)
    requires ValidCivil(c) && ValidCivil(d) && CivilLess(c, d)
    ensures Seconds(c) < Seconds(d)
  {
    if (c.year, c.month, c.day) != (d.year, d.month, d.day) {
      DayLess(c, d);
    }
  }

  // ---------------------------------------------------------------- text

  function D2(n: nat): (s: string)
    ensures |s| == 2
  {
    [DigitOf(n / 10 % 10), DigitOf(n % 10)]
  }

  function D4(n: nat): (s: string)
    ensures |s| == 4
  {
    D2(n / 100) + D2(n % 100)
  }

  /** YYYY-MM-DDTHH:MM:SSZ */
  function Format(c: Civil): (s: string)
    ensures |s| == 20
  {
    D4(c.year) + ("-" + (D2(c.month) + ("-" + (D2(c.day) + ("T" +
      (D2(c.hour) + (":" + (D2(c.minute) + (":" + (D2(c.second) + "Z"))))))))))
  }

  /** The stored form; the zero time is stored as the empty text. */
  function Rfc3339(t: Instant): string {
    if t == ZERO then "" else Format(t.civil)
  }

  /** Byte order of text, as the database compares it. */
  predicate TextLess(a: string, b: string) {
    b != "" && (a == "" || a[0] < b[0] || (a[0] == b[0] && TextLess(a[1..], b[1..])))
  }

  lemma {:induction false} LessByParts(p: string, q: string, x: string, y: string)
    requires |p| == |q|
    ensures TextLess(p + x, q + y) <==> TextLess(p, q) || (p == q && TextLess(x, y))
  {
    if p == "" {
      assert p + x == x && q + y == y;
    } else {
      assert (p + x)[1..] == p[1..] + x && (q + y)[1..] == q[1..] + y;
      LessByParts(p[1..], q[1..], x, y);
      assert p == [p[0]] + p[1..] && q == [q[0]] + q[1..];
    }
  }

  lemma TwoDigits(m: nat, n: nat)
    requires m < 100 && n < 100
    ensures TextLess(D2(m), D2(n)) <==> m < n
    ensures D2(m) == D2(n) <==> m == n
  {
    var a, b := D2(m), D2(n);
    assert TextLess(a[1..], b[1..]) <==> a[1] < b[1] by {
      assert a[1..][1..] == "" && b[1..][1..] == "";
    }
    assert m == m / 10 * 10 + m % 10 && n == n / 10 * 10 + n % 10;
    if D2(m) == D2(n) {
      assert D2(m)[0] == D2(n)[0] && D2(m)[1] == D2(n)[1];
    }
  }

  lemma {:induction false} FourDigits(m: nat, n: nat)
    requires m <= 9999 && n <= 9999
    ensures TextLess(D4(m), D4(n)) <==> m < n
    ensures D4(m) == D4(n) <==> m == n
  {
    LessByParts(D2(m / 100), D2(n / 100), D2(m % 100), D2(n % 100));
    TwoDigits(m / 100, n / 100);
    TwoDigits(m % 100, n % 100);
    assert D4(m)[..2] == D2(m / 100) && D4(m)[2..] == D2(m % 100);
    assert D4(n)[..2] == D2(n / 100) && D4(n)[2..] == D2(n % 100);
  }

  /** One field and its separator in front of the rest. */
  lemma FieldThenRest(m: nat, n: nat, sep: char, x: string, y: string)
    requires m < 100 && n < 100
    ensures TextLess(D2(m) + ([sep] + x), D2(n) + ([sep] + y)) <==> m < n || (m == n && TextLess(x, y))
  {
    LessByParts(D2(m), D2(n), [sep] + x, [sep] + y);
    LessByParts([sep], [sep], x, y);
    TwoDigits(m, n);
    assert !TextLess([sep], [sep]) by { assert [sep][1..] == ""; }
  }

  lemma {:induction false} FormatOrder(c: Civil, d: Civil)
    requires ValidCivil(c) && ValidCivil(d)
    ensures TextLess(Format(c), Format(d)) <==> CivilLess(c, d)
  {
    var c1, d1 := D2(c.second) + "Z", D2(d.second) + "Z";
    var c2, d2 := D2(c.minute) + (":" + c1), D2(d.minute) + (":" + d1);
    var c3, d3 := D2(c.hour) + (":" + c2), D2(d.hour) + (":" + d2);
    var c4, d4 := D2(c.day) + ("T" + c3), D2(d.day) + ("T" + d3);
    var c5, d5 := D2(c.month) + ("-" + c4), D2(d.month) + ("-" + d4);
    LastField(c.second, d.second);
    FieldThenRest(c.minute, d.minute, ':', c1, d1);
    FieldThenRest(c.hour, d.hour, ':', c2, d2);
    FieldThenRest(c.day, d.day, 'T', c3, d3);
    FieldThenRest(c.month, d.month, '-', c4, d4);
    LessByParts(D4(c.year), D4(d.year), "-" + c5, "-" + d5);
    LessByParts("-", "-", c5, d5);
    FourDigits(c.year, d.year);
    assert !TextLess("-", "-") by { assert "-"[1..] == ""; }
  }

  lemma LastField(m: nat, n: nat)
    requires m < 100 && n < 100
    ensures TextLess(D2(m) + "Z", D2(n) + "Z") <==> m < n
  {
    LessByParts(D2(m), D2(n), "Z", "Z");
    TwoDigits(m, n);
    assert !TextLess("Z", "Z") by { assert "Z"[1..] == ""; }
  }

  /** A zero time is stored as a text that sorts before everything, but it is not before year 0, nor before the
      rest of its own second. */
  predicate ZeroIsMisplaced(t: Instant, u: Instant) {
    || (t == ZERO && u != ZERO && (u.civil.year == 0 || u.civil == ZERO.civil))
    || (u == ZERO && t.civil.year == 0)
  }

  /** For years 0 to 9999, text order is the order of whole seconds, if and only if the zero time is not compared
      with year 0 or with a later moment of its own second. */
  lemma {:induction false} TextOrderIsTimeOrderIff(t: Instant, u: Instant)
    requires Valid(t) && Valid(u)
    ensures (TextLess(Rfc3339(t), Rfc3339(u)) <==> Seconds(t.civil) < Seconds(u.civil)) <==> !ZeroIsMisplaced(t, u)
  {
    CivilOrderIsTimeOrder(t.civil, u.civil);
    CivilOrderIsTimeOrder(u.civil, t.civil);
    FormatOrder(t.civil, u.civil);
  }

  // ---------------------------------------------------------------- reading back

  /** Parsing of the stored form; anything else reads as the zero time. */
  function ParseTime(s: string): Instant {
    if |s| != 20 || s[4] != '-' || s[7] != '-' || s[10] != 'T' || s[13] != ':' || s[16] != ':' || s[19] != 'Z' then ZERO
    else if !(AreDigits(s[..4]) && AreDigits(s[5..7]) && AreDigits(s[8..10])
              && AreDigits(s[11..13]) && AreDigits(s[14..16]) && AreDigits(s[17..19])) then ZERO
    else
      var c := Civil(Value(s[..4]), Value(s[5..7]), Value(s[8..10]),
                     Value(s[11..13]), Value(s[14..16]), Value(s[17..19]));
      if ValidCivil(c) then Instant(c, 0) else ZERO
  }

  lemma ReadTwo(n: nat)
    requires n < 100
    ensures AreDigits(D2(n)) && Value(D2(n)) == n
  {
    var s := D2(n);
    assert s[..1] == [s[0]] && s[..1][..0] == "";
    assert AreDigits(s);
    assert Value(s[..1]) == n / 10;
  }

  lemma ReadFour(n: nat)
    requires n <= 9999
    ensures AreDigits(D4(n)) && Value(D4(n)) == n
  {
    var s := D4(n);
    ReadTwo(n / 100);
    ReadTwo(n % 100);
    assert AreDigits(s);
    assert s[..3][..2] == D2(n / 100) && s[..3] == s[..2] + [s[2]];
    assert Value(s[..3]) == n / 100 * 10 + n % 100 / 10;
  }

  /** Cutting one part off the front of what is left of a text. */
  lemma Cut(s: string, i: nat, p: string, x: string)
    requires i <= |s| && s[i..] == p + x
    ensures i + |p| <= |s| && s[i..i + |p|] == p && s[i + |p|..] == x
  {
  }

  lemma FormatParts(c: Civil)
    ensures var s := Format(c);
            && s[..4] == D4(c.year) && s[5..7] == D2(c.month) && s[8..10] == D2(c.day)
            && s[11..13] == D2(c.hour) && s[14..16] == D2(c.minute) && s[17..19] == D2(c.second)
            && s[4..5] == "-" && s[7..8] == "-" && s[10..11] == "T"
            && s[13..14] == ":" && s[16..17] == ":" && s[19..20] == "Z"
  {
    var s := Format(c);
    var c1 := D2(c.second) + "Z";
    var c2 := D2(c.minute) + (":" + c1);
    var c3 := D2(c.hour) + (":" + c2);
    var c4 := D2(c.day) + ("T" + c3);
    var c5 := D2(c.month) + ("-" + c4);
    assert s[0..] == D4(c.year) + ("-" + c5);
    Cut(s, 0, D4(c.year), "-" + c5);
    Cut(s, 4, "-", c5);
    Cut(s, 5, D2(c.month), "-" + c4);
    Cut(s, 7, "-", c4);
    Cut(s, 8, D2(c.day), "T" + c3);
    Cut(s, 10, "T", c3);
    Cut(s, 11, D2(c.hour), ":" + c2);
    Cut(s, 13, ":", c2);
    Cut(s, 14, D2(c.minute), ":" + c1);
    Cut(s, 16, ":", c1);
    Cut(s, 17, D2(c.second), "Z");
  }

  /** Reading back a stored time gives it up to the second. */
  lemma {:induction false} ParseUndoesFormat(t: Instant)
    requires Valid(t)
    ensures ParseTime(Rfc3339(t)) == Instant(t.civil, 0)
  {
    if t != ZERO {
      var c := t.civil;
      FormatParts(c);
      var s := Format(c);
      assert s[4..5][0] == '-' && s[7..8][0] == '-' && s[10..11][0] == 'T';
      assert s[13..14][0] == ':' && s[16..17][0] == ':' && s[19..20][0] == 'Z';
      ReadFour(c.year);
      ReadTwo(c.month);
      ReadTwo(c.day);
      ReadTwo(c.hour);
      ReadTwo(c.minute);
      ReadTwo(c.second);
    }
  }
}
