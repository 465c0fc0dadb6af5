/**
 The date fields that `strptime` works out from the ones it has read
 (`src/common/strptime.c`): day of the year, weekday, month and day of the month.
 */
module Calendar {

  /** The Gregorian rule. */
  predicate IsLeap(y: int) {
    y % 4 == 0 && (y % 100 != 0 || y % 400 == 0)
  }

  function YearLength(y: int): (n: nat) {
    if IsLeap(y) then 366 else 365
  }

  // ----- Leap years

  function LeapsThroughEndOf(y: int): (n: int)
    decreases if y < 0 then 1 else 0
  {
    if y >= 0 then y / 4 - y / 100 + y / 400 else -(LeapsThroughEndOf(-(y + 1)) + 1)
  }

  lemma LeapStep(y: int)
    requires y > 0
    ensures y / 4 - (y - 1) / 4 == (if y % 4 == 0 then 1 else 0)
    ensures y / 100 - (y - 1) / 100 == (if y % 100 == 0 then 1 else 0)
    ensures y / 400 - (y - 1) / 400 == (if y % 400 == 0 then 1 else 0)
    ensures y % 400 == 0 ==> y % 100 == 0
    ensures y % 100 == 0 ==> y % 4 == 0
  {
  }

  lemma Negated4(y: int)
    ensures (-y) % 4 == 0 <==> y % 4 == 0
  {
  }

  lemma Negated100(y: int)
    ensures (-y) % 100 == 0 <==> y % 100 == 0
  {
  }

  lemma Negated400(y: int)
    ensures (-y) % 400 == 0 <==> y % 400 == 0
  {
  }

  /** The counter steps exactly at the leap years, also before the year 0. */
  lemma LeapCount(y: int)
    ensures LeapsThroughEndOf(y) - LeapsThroughEndOf(y - 1) == if IsLeap(y) then 1 else 0
  {
    if y > 0 {
      LeapStep(y);
    } else if y < 0 {
      LeapStep(-y);
      Negated4(y);
      Negated100(y);
      Negated400(y);
    }
  }

  // ----- Weekdays

  const EPOCH_YEAR := 1970
  const THURSDAY := 4

  /** Days from 1970-01-01 to January 1st of the year, counted year by year. */
  function DaysBefore(y: int): (n: int)
    decreases if y < EPOCH_YEAR then EPOCH_YEAR - y else y - EPOCH_YEAR
  {
    if y == EPOCH_YEAR then 0
    else if y > EPOCH_YEAR then DaysBefore(y - 1) + YearLength(y - 1)
    else DaysBefore(y + 1) - YearLength(y)
  }

  lemma {:induction false} DaysInClosedForm(y: int)
    ensures DaysBefore(y) == 365 * (y - EPOCH_YEAR) + LeapsThroughEndOf(y - 1) - LeapsThroughEndOf(EPOCH_YEAR - 1)
    decreases if y < EPOCH_YEAR then EPOCH_YEAR - y else y - EPOCH_YEAR
  {
    hide LeapsThroughEndOf, IsLeap;
    if y > EPOCH_YEAR {
      DaysInClosedForm(y - 1);
      LeapCount(y - 1);
    } else if y < EPOCH_YEAR {
      DaysInClosedForm(y + 1);
      LeapCount(y);
    }
  }

  /** Day by day from Thursday, January 1st 1970; Sunday is 0. */
  function Weekday(day: int): (w: int)
    decreases if day < 0 then -day else day
  {
    if day == 0 then THURSDAY
    else if day > 0 then (if Weekday(day - 1) == 6 then 0 else Weekday(day - 1) + 1)
    else if Weekday(day + 1) == 0 then 6 else Weekday(day + 1) - 1
  }

  lemma {:induction false} WeekdayIsRemainder(day: int)
    ensures Weekday(day) == (THURSDAY + day) % 7
    decreases if day < 0 then -day else day
  {
    if day > 0 {
      WeekdayIsRemainder(day - 1);
      NextRemainder(THURSDAY + day - 1);
    } else if day < 0 {
      WeekdayIsRemainder(day + 1);
      NextRemainder(THURSDAY + day);
    }
  }

  lemma NextRemainder(x: int)
    ensures (x + 1) % 7 == if x % 7 == 6 then 0 else x % 7 + 1
  {
  }

  /** The remainder in C has the sign of the dividend. */
  function WeekRemainder(a: int): (r: int)
    ensures -7 < r < 7 && r % 7 == a % 7
  {
    if a >= 0 then a % 7 else -((-a) % 7)
  }

  /** The weekday formula, with C's remainder. */
  function WeekdayOf(year: int, yday: int): (w: int) {
    var sum := THURSDAY + WeekRemainder(year - EPOCH_YEAR) * (365 % 7)
               + LeapsThroughEndOf(year - 1) - LeapsThroughEndOf(EPOCH_YEAR - 1) + yday;
    var w := WeekRemainder(sum);
    if w < 0 then w + 7 else w
  }

  /** The formula gives the day of the week for every year, past or future. */
  lemma WeekdayIsRight(year: int, yday: int)
    ensures WeekdayOf(year, yday) == Weekday(DaysBefore(year) + yday)
  {
    hide LeapsThroughEndOf, DaysBefore, Weekday;
    DaysInClosedForm(year);
    WeekdayIsRemainder(DaysBefore(year) + yday);
    var n := year - EPOCH_YEAR;
    var leaps := LeapsThroughEndOf(year - 1) - LeapsThroughEndOf(EPOCH_YEAR - 1) + yday;
    SameWeekday(n, WeekRemainder(n), THURSDAY + leaps);
  }

  lemma SameWeekday(n: int, m: int, x: int)
    requires m % 7 == n % 7
    ensures (x + 365 * n) % 7 == (x + m) % 7
  {
    var k := n / 7 - m / 7;
    assert n == m + 7 * k;
    assert x + 365 * n == x + m + 7 * (52 * n + k);
    Multiples(x + m, 52 * n + k);
  }

  lemma Multiples(x: int, k: int)
    ensures (x + 7 * k) % 7 == x % 7
  {
  }

  // ----- Months

  const LENGTHS: seq<nat> := [31, 28, 31, 30, 31, 30, 31, 31, 30, 31, 30, 31]

  function MonthLength(leap: bool, m: nat): (n: nat)
    requires m < 12
    ensures 28 <= n <= 31
  {
    if leap && m == 1 then 29 else LENGTHS[m]
  }

  /** The calendar's rule: February apart, the months alternate between 31 and 30 days, starting over
      in August. */
  lemma MonthsAlternate(leap: bool, m: nat)
    requires m < 12
    ensures MonthLength(leap, m) == if m == 1 then (if leap then 29 else 28) else 31 - m % 7 % 2
  {
  }

  /** Days in front of month `m`. */
  function MonthStart(leap: bool, m: nat): (n: nat)
    requires m <= 12
  {
    if m == 0 then 0 else MonthStart(leap, m - 1) + MonthLength(leap, m - 1)
  }

  lemma TwelveMonths(leap: bool)
    ensures MonthStart(leap, 12) == if leap then 366 else 365
  {
    assert MonthStart(leap, 1) == 31;
    assert MonthStart(leap, 2) == if leap then 60 else 59;
    assert MonthStart(leap, 3) == MonthStart(leap, 2) + 31;
    assert MonthStart(leap, 4) == MonthStart(leap, 3) + 30;
    assert MonthStart(leap, 5) == MonthStart(leap, 4) + 31;
    assert MonthStart(leap, 6) == MonthStart(leap, 5) + 30;
    assert MonthStart(leap, 7) == MonthStart(leap, 6) + 31;
    assert MonthStart(leap, 8) == MonthStart(leap, 7) + 31;
    assert MonthStart(leap, 9) == MonthStart(leap, 8) + 30;
    assert MonthStart(leap, 10) == MonthStart(leap, 9) + 31;
    assert MonthStart(leap, 11) == MonthStart(leap, 10) + 30;
  }

  lemma {:induction false} MonthsInOrder(leap: bool, m: nat, k: nat)
    requires m < k <= 12
    ensures MonthStart(leap, m) + MonthLength(leap, m) <= MonthStart(leap, k)
  {
    if m + 1 < k {
      MonthsInOrder(leap, m, k - 1);
    }
  }

  /** `yday`, counted from 0, is day `mday`, counted from 1, of month `mon`, counted from 0. */
  predicate SameDay(leap: bool, yday: int, mon: int, mday: int) {
    0 <= mon < 12 && 1 <= mday <= MonthLength(leap, mon) && yday == MonthStart(leap, mon) + mday - 1
  }

  /** A day of the year is one day of one month. */
  lemma SameDayIsUnique(leap: bool, yday: int, m: int, d: int, m': int, d': int)
    requires SameDay(leap, yday, m, d) && SameDay(leap, yday, m', d')
    ensures m == m' && d == d'
  {
    if m < m' {
      MonthsInOrder(leap, m, m');
    } else if m' < m {
      MonthsInOrder(leap, m', m);
    }
  }

  lemma SameDayInYear(y: int, yday: int, m: int, d: int)
    requires SameDay(IsLeap(y), yday, m, d)
    ensures 0 <= yday < YearLength(y)
  {
    MonthsInOrder(IsLeap(y), m, 12);
    TwelveMonths(IsLeap(y));
  }

  // ----- Filling in the fields

  /** Which fields have been read. */
  datatype Known = Known(year: bool, mon: bool, mday: bool, yday: bool, wday: bool)

  predicate ValidDate(leap: bool, mon: int, mday: int) {
    0 <= mon < 12 && 1 <= mday <= MonthLength(leap, mon)
  }

  /** What the fields must be for the completed fields to denote one day.  A month read without a
      day only works for January: the day of the month is then filled in with the day of the
      year. */
  ghost predicate Agree(known: Known, leap: bool, mon: int, mday: int, yday: int) {
    if known.mon && known.mday then
      if known.yday then SameDay(leap, yday, mon, mday) else ValidDate(leap, mon, mday)
    else if known.mon then
      mon == 0 && (if known.yday then 0 <= yday < 31 else 1 <= mday <= 31)
    else if known.mday then
      if known.yday then exists m: nat :: SameDay(leap, yday, m, mday) else ValidDate(leap, mon, mday)
    else 0 <= yday < if leap then 366 else 365
  }

  class Tm {
    /** The full year. */
    var year: int
    var mon: int
    var mday: int
    var yday: int
    var wday: int

    method SumMonths()
      requires 0 <= mon <= 12
      modifies this`yday
      ensures yday == MonthStart(IsLeap(year), mon) + mday - 1
    {
      yday := mday - 1;
      for i := 0 to mon
        invariant yday == MonthStart(IsLeap(year), i) + mday - 1
      {
        yday := yday + MonthLength(IsLeap(year), i);
      }
    }

    /** The month of a day of the year, and the days left. */
    method FindMonth(day: int) returns (days: int)
      modifies this`mon
      ensures 0 <= mon <= 12 && day == MonthStart(IsLeap(year), mon) + days
      ensures mon < 12 ==> days < MonthLength(IsLeap(year), mon)
      ensures days < 0 <==> day < 0
      ensures day < 0 ==> mon == 0
    {
      mon, days := 0, day;
      while mon < 12 && days >= MonthLength(IsLeap(year), mon)
        invariant 0 <= mon <= 12 && day == MonthStart(IsLeap(year), mon) + days
        invariant days < 0 <==> day < 0
        invariant day < 0 ==> mon == 0
        decreases 12 - mon
      {
        days := days - MonthLength(IsLeap(year), mon);
        mon := mon + 1;
      }
    }

    /** Fills in what the fields read determine. */
    method Complete(known: Known)
      requires known.year && !known.yday && (known.mon || known.mday) ==> 0 <= mon <= 12
      modifies this
      ensures year == old(year)
      ensures !known.year || !(known.yday || known.mon || known.mday) ==>
        unchanged(this)
      ensures known.year && (known.yday || known.mon || known.mday) ==>
        && yday == (if known.yday then old(yday) else MonthStart(IsLeap(year), old(mon)) + old(mday) - 1)
        && wday == (if known.wday then old(wday) else Weekday(DaysBefore(year) + yday))
        && (known.mon ==> mon == old(mon))
        && (known.mday ==> mday == old(mday))
        && (known.mon && !known.mday ==> mday == yday + 1)
        && (!known.mon && 0 <= yday < YearLength(year) ==>
              && 0 <= mon < 12
              && MonthStart(IsLeap(year), mon) <= yday < MonthStart(IsLeap(year), mon) + MonthLength(IsLeap(year), mon))
        && (SameDay(IsLeap(year), yday, mon, mday) <==> Agree(known, IsLeap(year), old(mon), old(mday), old(yday)))
    {
      hide MonthLength, LeapsThroughEndOf, DaysBefore, Weekday, IsLeap, SameDay, Agree;
      if !known.year {
        return;
      }
      var haveYday := known.yday;
      if !haveYday && (known.mon || known.mday) {
        SumMonths();
        haveYday := true;
      }
      if haveYday {
        var days := yday;
        TwelveMonths(IsLeap(year));
        if !known.wday {
          WeekdayIsRight(year, yday);
          wday := WeekdayOf(year, yday);
        }
        if !known.mon {
          days := FindMonth(yday);
          assert InMonth(IsLeap(year), mon, yday);
        }
        if !known.mday {
          mday := days + 1;
        }
        Agreement(known, IsLeap(year), old(mon), old(mday), old(yday), mon, mday, yday);
      }
    }
  }

  /** `mon'`, `mday'` and `yday'` completed from the fields read. */
  lemma Agreement(known: Known, leap: bool, mon: int, mday: int, yday: int, mon': int, mday': int, yday': int)
    requires known.mon || known.mday || known.yday
    requires if known.yday then yday' == yday else 0 <= mon <= 12 && yday' == MonthStart(leap, mon) + mday - 1
    requires known.mon ==> mon' == mon
    requires !known.mon ==> InMonth(leap, mon', yday')
    requires mday' == if known.mday then mday else if known.mon then yday' + 1 else yday' - MonthStart(leap, mon') + 1
    ensures SameDay(leap, yday', mon', mday') <==> Agree(known, leap, mon, mday, yday)
  {
    hide MonthLength;
    if known.mon {
      if !known.mday {
        JanuaryOnly(leap, mon', yday');
        assert MonthStart(leap, 0) == 0;
      }
    } else if !known.mday {
      MonthOfDay(leap, mon', yday');
    } else if known.yday {
      if m: nat :| SameDay(leap, yday, m, mday) {
        OneMonth(leap, m, mday, mon', yday);
      }
    } else {
      if ValidDate(leap, mon, mday) {
        OneMonth(leap, mon, mday, mon', yday');
      }
      if SameDay(leap, yday', mon', mday') {
        SameStart(leap, mon, mon');
      }
    }
  }

  /** The month the search ends in. */
  predicate InMonth(leap: bool, mon: int, yday: int) {
    && 0 <= mon <= 12
    && (yday >= 0 ==> MonthStart(leap, mon) <= yday)
    && (yday < 0 ==> mon == 0)
    && (mon < 12 ==> yday < MonthStart(leap, mon) + MonthLength(leap, mon))
  }

  lemma JanuaryOnly(leap: bool, mon: int, yday: int)
    ensures SameDay(leap, yday, mon, yday + 1) <==> mon == 0 && 0 <= yday < 31
  {
    if 0 < mon < 12 {
      MonthsInOrder(leap, 0, mon);
    }
  }

  lemma MonthOfDay(leap: bool, mon: int, yday: int)
    requires InMonth(leap, mon, yday)
    ensures SameDay(leap, yday, mon, yday - MonthStart(leap, mon) + 1) <==> 0 <= yday < if leap then 366 else 365
  {
    TwelveMonths(leap);
    if mon < 12 {
      MonthsInOrder(leap, mon, 12);
    }
  }

  lemma OneMonth(leap: bool, m: int, d: int, mon: int, yday: int)
    requires SameDay(leap, yday, m, d) && InMonth(leap, mon, yday)
    ensures mon == m
  {
    if m < mon {
      MonthsInOrder(leap, m, mon);
    }
    if mon < m {
      MonthsInOrder(leap, mon, m);
    }
  }

  lemma SameStart(leap: bool, m: int, n: int)
    requires 0 <= m <= 12 && 0 <= n <= 12 && MonthStart(leap, m) == MonthStart(leap, n)
    ensures m == n
  {
    if m != n {
      MonthsInOrder(leap, if m < n then m else n, if m < n then n else m);
    }
  }

  /** A year and the month March, everything else 0: day 59 of March. */
  method MonthAlone() returns (t: Tm)
    ensures t.year == 2023 && t.mon == 2 && t.yday == 58 && t.mday == 59
    ensures !SameDay(IsLeap(t.year), t.yday, t.mon, t.mday)
  {
    t := new Tm;
    t.year, t.mon, t.mday := 2023, 2, 0;
    t.Complete(Known(true, true, false, false, false));
    assert MonthStart(false, 1) == 31 && MonthStart(false, 2) == 59;
  }

  /** Completing a full date and completing it back from year and day of the year alone are
      inverse. */
  method ThereAndBack(year: int, mon: int, mday: int) returns (t: Tm, u: Tm)
    requires 0 <= mon < 12 && 1 <= mday <= MonthLength(IsLeap(year), mon)
    ensures 0 <= t.yday < YearLength(year) && u.yday == t.yday && u.mon == mon && u.mday == mday && u.wday == t.wday
  {
    hide DaysBefore, Weekday, MonthLength, MonthStart, IsLeap;
    t, u := new Tm, new Tm;
    t.year, t.mon, t.mday := year, mon, mday;
    t.Complete(Known(true, true, true, false, false));
    SameDayInYear(year, t.yday, mon, mday);
    u.year, u.yday := year, t.yday;
    u.Complete(Known(true, false, false, true, false));
    assert SameDay(IsLeap(year), u.yday, u.mon, u.mday);
    SameDayIsUnique(IsLeap(year), t.yday, mon, mday, u.mon, u.mday);
  }
}
