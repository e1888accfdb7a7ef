/** The Gregorian calendar, as the date part of an ISO timestamp prints it. */
module Calendar {
  import opened Decimals

  datatype Date = Date(year: nat, month: nat, day: nat)

  predicate IsLeap(year: nat) {
    year % 4 == 0 && (year % 100 != 0 || year % 400 == 0)
  }

  function DaysIn(year: nat, month: nat): nat {
    if month == 2 then (if IsLeap(year) then 29 else 28)
    else if month == 4 || month == 6 || month == 9 || month == 11 then 30
    else 31
  }

  function NextDay(d: Date): Date {
    if d.day < DaysIn(d.year, d.month) then d.(day := d.day + 1)
    else if d.month < 12 then Date(d.year, d.month + 1, 1)
    else Date(d.year + 1, 1, 1)
  }

  /** The date of the `n`-th day after 1 January 1970. */
  function DateOf(n: nat): (d: Date)
    ensures 1 <= d.month <= 12 && 1 <= d.day <= 31
  {
    if n == 0 then Date(1970, 1, 1) else NextDay(DateOf(n - 1))
  }

  /** A date that the calendar has. */
  predicate IsDate(d: Date) {
    1 <= d.month <= 12 && 1 <= d.day <= DaysIn(d.year, d.month)
  }

  /** The days from 1 January 1970 to a date, in closed form: years begin in March, so
      that the leap day is the last, and months of 31, 30, 31, 30, 31 days repeat. */
  function DaysTo(d: Date): int {
    var y := if d.month <= 2 then d.year as int - 1 else d.year;
    var m := if d.month <= 2 then d.month as int + 9 else d.month as int - 3;
    365 * y + y / 4 - y / 100 + y / 400 + (153 * m + 2) / 5 + d.day as int - 1 - 719468
  }

  /** The leap days of the years before March of a year. */
  lemma LeapDays(y: int)
    requires y >= 1
    ensures y / 4 - (y - 1) / 4 == if y % 4 == 0 then 1 else 0
    ensures y / 100 - (y - 1) / 100 == if y % 100 == 0 then 1 else 0
    ensures y / 400 - (y - 1) / 400 == if y % 400 == 0 then 1 else 0
    ensures y % 400 == 0 ==> y % 100 == 0
    ensures y % 100 == 0 ==> y % 4 == 0
  {
  }

  /** After the last day of a month comes the first of the next. */
  lemma MonthEndCounts(d: Date)
    requires IsDate(d) && d.year >= 1970 && d.day == DaysIn(d.year, d.month)
    ensures DaysTo(NextDay(d)) == DaysTo(d) + 1
  {
    if d.month == 2 {
      LeapDays(d.year);
    } else if d.month == 12 {
      assert NextDay(d) == Date(d.year + 1, 1, 1);
    } else {
      assert NextDay(d) == Date(d.year, d.month + 1, 1);
    }
  }

  lemma NextDayCounts(d: Date)
    requires IsDate(d) && d.year >= 1970
    ensures IsDate(NextDay(d)) && NextDay(d).year >= 1970
    ensures DaysTo(NextDay(d)) == DaysTo(d) + 1
  {
    if d.day == DaysIn(d.year, d.month) {
      MonthEndCounts(d);
    }
  }

  /** `DateOf` is the calendar: its dates are dates, and counting the days to the
      `n`-th gives `n` back. */
  lemma {:induction false} DaysToDateOf(n: nat)
    ensures IsDate(DateOf(n)) && DateOf(n).year >= 1970
    ensures DaysTo(DateOf(n)) == n
  {
    if n == 0 {
      assert DateOf(0) == Date(1970, 1, 1);
    } else {
      hide NextDay, DaysTo, IsDate;
      DaysToDateOf(n - 1);
      NextDayCounts(DateOf(n - 1));
    }
  }

  /** The 2932896 days from 1970 on lie before the year 10000, and no later ones do. */
  lemma LastDay(n: nat)
    ensures DateOf(n).year <= 9999 <==> n <= 2932896
  {
    DaysToDateOf(n);
    var d := DateOf(n);
    var y: int := if d.month <= 2 then d.year - 1 else d.year;
    if d.year >= 10000 {
      assert y >= 9999;
    } else {
      assert y <= 9999;
    }
    YearsApart(y, 9999);
    YearsApart(9999, y);
  }

  lemma YearsApart(a: int, b: int)
    ensures a <= b ==> 365 * a + a / 4 - a / 100 + a / 400 <= 365 * b + b / 4 - b / 100 + b / 400
  {
    if a <= b {
      assert a / 4 <= b / 4 && a / 400 <= b / 400;
      assert b / 100 - a / 100 <= b - a + 1;
    }
  }

  /** A date as a number: the digits of its ISO form without the dashes. */
  function Stamp(d: Date): nat {
    10000 * d.year + 100 * d.month + d.day
  }

  lemma {:induction false} DatesGrow(m: nat, n: nat)
    requires m < n
    ensures Stamp(DateOf(m)) < Stamp(DateOf(n))
    decreases n
  {
    if m < n - 1 {
      DatesGrow(m, n - 1);
    }
  }

  /** The ISO date without dashes: four, two and two digits. */
  function IsoDate(d: Date): string {
    PadStart(Print(d.year), 4) + PadStart(Print(d.month), 2) + PadStart(Print(d.day), 2)
  }

  lemma {:induction false} ValueOfJoined(s: string, t: string)
    requires AllDigits(s) && AllDigits(t)
    ensures AllDigits(s + t) && Value(s + t) == PowerOfTen(|t|) * Value(s) + Value(t)
    decreases |t|
  {
    if t == [] {
      assert s + t == s;
    } else {
      var init, last := t[..|t| - 1], t[|t| - 1];
      ValueOfJoined(s, init);
      assert (s + t)[..|s + t| - 1] == s + init;
      assert (s + t)[|s + t| - 1] == last;
      assert Value(s + t) == 10 * Value(s + init) + DigitValue(last);
      ShiftOneDigit(PowerOfTen(|init|), Value(s), Value(init), DigitValue(last));
    }
  }

  lemma ShiftOneDigit(p: nat, v: nat, w: nat, d: nat)
    ensures 10 * (p * v + w) + d == (10 * p) * v + (10 * w + d)
  {
  }

  lemma PaddedWidth(n: nat, width: nat)
    requires width > 0 && n < PowerOfTen(width)
    ensures |PadStart(Print(n), width)| == width
  {
  }

  /** Before the year 10000 the date takes eight digits and reads back as its stamp. */
  lemma IsoDateReadsBack(d: Date)
    requires d.year <= 9999 && d.month <= 12 && d.day <= 31
    ensures var s := IsoDate(d); |s| == 8 && AllDigits(s) && Value(s) == Stamp(d)
    ensures var s := IsoDate(d);
            AllDigits(s[..4]) && AllDigits(s[4..6]) && AllDigits(s[6..])
            && Value(s[..4]) == d.year && Value(s[4..6]) == d.month && Value(s[6..]) == d.day
  {
    var y, m, a := PadStart(Print(d.year), 4), PadStart(Print(d.month), 2), PadStart(Print(d.day), 2);
    assert PowerOfTen(1) == 10 && PowerOfTen(2) == 100;
    assert PowerOfTen(3) == 1000;
    assert PowerOfTen(4) == 10000;
    PaddedWidth(d.year, 4);
    PaddedWidth(d.month, 2);
    PaddedWidth(d.day, 2);
    ValueOfPadded(d.year, 4);
    ValueOfPadded(d.month, 2);
    ValueOfPadded(d.day, 2);
    ValueOfJoined(y, m);
    ValueOfJoined(y + m, a);
    assert IsoDate(d)[..4] == y && IsoDate(d)[4..6] == m && IsoDate(d)[6..] == a;
  }
}
