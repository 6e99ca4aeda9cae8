/**
 * Calendar days. A day is held as the integer yyyymmdd, so that integer order is the order in
 * which the original compares "YYYY-MM-DD" texts, and `d / 100` is the "YYYY-MM" period.
 */
module Calendar {

  type Day = int

  function Period(d: Day): int { d / 100 }
  function Year(d: Day): int { Period(d) / 100 }
  function Month(d: Day): int { Period(d) % 100 }
  function DayOfMonth(d: Day): int { d % 100 }
  function MakeDay(y: int, m: int, d: int): Day { (y * 100 + m) * 100 + d }

  predicate Leap(y: int) {
    y % 4 == 0 && (y % 100 != 0 || y % 400 == 0)
  }

  function DaysInMonth(y: int, m: int): (n: int)
    ensures 28 <= n <= 31
  {
    if m == 2 then (if Leap(y) then 29 else 28)
    else if m in {4, 6, 9, 11} then 30
    else 31
  }

  /**
   * What `parseIsoDate` accepts. Its probe goes through `Date.UTC`, which reads a year below 100
   * as 19xx: those years are refused.
   */
  predicate ValidDay(d: Day) {
    && 100 <= Year(d) <= 9999
    && 1 <= Month(d) <= 12
    && 1 <= DayOfMonth(d) <= DaysInMonth(Year(d), Month(d))
  }

  predicate ValidPeriod(p: int) {
    0 <= p / 100 <= 9999 && 1 <= p % 100 <= 12
  }

  /** The calendar day before `d`. */
  function PreviousDay(d: Day): Day {
    var y, m := Year(d), Month(d);
    if DayOfMonth(d) > 1 then d - 1
    else if m > 1 then MakeDay(y, m - 1, DaysInMonth(y, m - 1))
    else MakeDay(y - 1, 12, 31)
  }

  /** `PreviousDay(d)` is the last valid day before `d`: nothing lies between them. */
  lemma PreviousDayIsAdjacent(d: Day)
    requires ValidDay(d) && d > 1000101
    ensures ValidDay(PreviousDay(d)) && PreviousDay(d) < d
    ensures forall e: Day {:trigger ValidDay(e)} :: ValidDay(e) && e < d ==> e <= PreviousDay(d)
  {
    PreviousDayIsValid(d);
    forall e: Day {:trigger ValidDay(e)} | ValidDay(e) && e < d
      ensures e <= PreviousDay(d)
    {
      NothingBetween(d, e);
    }
  }

  lemma PreviousDayIsValid(d: Day)
    requires ValidDay(d) && d > 1000101
    ensures ValidDay(PreviousDay(d)) && PreviousDay(d) < d
  {
    DayParts(d);
    var y, m, k := Year(d), Month(d), DayOfMonth(d);
    if k == 1 && m > 1 {
      PartsOfDay(y, m - 1, DaysInMonth(y, m - 1));
    } else if k == 1 {
      PartsOfDay(y - 1, 12, 31);
      assert DaysInMonth(y - 1, 12) == 31;
    } else {
      PartsOfDay(y, m, k - 1);
    }
    hide Year, Month, DayOfMonth, Period, Leap, DaysInMonth;
  }

  lemma NothingBetween(d: Day, e: Day)
    requires ValidDay(d) && ValidDay(e) && e < d
    ensures e <= PreviousDay(d)
  {
    hide Year, Month, DayOfMonth, Period, Leap, DaysInMonth;
    DayParts(d);
    DayParts(e);
  }

  lemma DayParts(d: Day)
    ensures d == MakeDay(Year(d), Month(d), DayOfMonth(d))
    ensures 0 <= Month(d) < 100 && 0 <= DayOfMonth(d) < 100
  {
  }

  lemma PartsOfDay(y: int, m: int, k: int)
    requires 0 <= m < 100 && 0 <= k < 100
    ensures Year(MakeDay(y, m, k)) == y && Month(MakeDay(y, m, k)) == m && DayOfMonth(MakeDay(y, m, k)) == k
  {
    assert Period(MakeDay(y, m, k)) == y * 100 + m;
  }

  /** The ten characters of a day, "YYYY-MM-DD". */
  function DayText(d: Day): (s: string)
    requires ValidDay(d)
    ensures |s| == 10
  {
    Digits(Year(d), 4) + "-" + Digits(Month(d), 2) + "-" + Digits(DayOfMonth(d), 2)
  }

  /** The last `n` decimal digits of `v`, zero padded. */
  function Digits(v: nat, n: nat): (s: string)
    ensures |s| == n
  {
    if n == 0 then [] else Digits(v / 10, n - 1) + [Digit(v % 10)]
  }

  function Digit(n: int): char
    requires 0 <= n <= 9
  {
    ('0' as int + n) as char
  }

  /** Order of texts by first difference, as `<` compares JavaScript strings. */
  predicate TextBefore(s: string, t: string) {
    t != [] && (s == [] || s[0] < t[0] || (s[0] == t[0] && TextBefore(s[1..], t[1..])))
  }

  ghost predicate FirstDifference(s: string, t: string, k: nat) {
    k < |s| && k < |t| && s[..k] == t[..k] && s[k] < t[k]
  }

  lemma {:induction false} FirstDifferenceDecides(s: string, t: string, k: nat)
    requires FirstDifference(s, t, k)
    ensures TextBefore(s, t) && !TextBefore(t, s)
  {
    if k > 0 {
      assert s[0] == s[..k][0] == t[..k][0] == t[0];
      assert s[1..][..k - 1] == s[..k][1..] == t[..k][1..] == t[1..][..k - 1];
      FirstDifferenceDecides(s[1..], t[1..], k - 1);
    }
  }

  /** Comparing the texts of two valid days is comparing the days. */
  lemma DayTextOrder(d: Day, e: Day)
    requires ValidDay(d) && ValidDay(e)
    ensures TextBefore(DayText(d), DayText(e)) <==> d < e
  {
    if d < e {
      DayTextFirstDifference(d, e);
    } else if e < d {
      DayTextFirstDifference(e, d);
    } else {
      TextNotBeforeItself(DayText(d));
    }
  }

  lemma {:induction false} TextNotBeforeItself(s: string)
    ensures !TextBefore(s, s)
  {
    if s != [] {
      TextNotBeforeItself(s[1..]);
    }
  }

  /** Equally long digit texts differ first where the smaller number has the smaller digit. */
  lemma {:induction false} DigitsOrder(v: nat, w: nat, n: nat)
    requires v < w < Pow(n)
    ensures exists k: nat :: FirstDifference(Digits(v, n), Digits(w, n), k)
  {
    var s, t := Digits(v, n), Digits(w, n);
    if v / 10 < w / 10 {
      DigitsOrder(v / 10, w / 10, n - 1);
      var k: nat :| FirstDifference(Digits(v / 10, n - 1), Digits(w / 10, n - 1), k);
      assert s[..k] == Digits(v / 10, n - 1)[..k] && t[..k] == Digits(w / 10, n - 1)[..k];
      assert FirstDifference(s, t, k);
    } else {
      assert v / 10 == w / 10 && v % 10 < w % 10;
      assert s[..n - 1] == t[..n - 1];
      assert FirstDifference(s, t, n - 1);
    }
  }

  function Pow(n: nat): nat {
    if n == 0 then 1 else 10 * Pow(n - 1)
  }

  lemma FirstDifferenceExtends(prefix: string, s: string, t: string, u: string, v: string, k: nat)
    requires FirstDifference(s, t, k)
    ensures FirstDifference(prefix + s + u, prefix + t + v, |prefix| + k)
  {
    assert (prefix + s + u)[..|prefix| + k] == prefix + s[..k];
    assert (prefix + t + v)[..|prefix| + k] == prefix + t[..k];
  }

  lemma DayTextParts(d: Day)
    requires ValidDay(d)
    ensures var y, m := Digits(Year(d), 4) + "-", Digits(Month(d), 2) + "-";
            && Digits(Year(d), 4) <= DayText(d) && y + Digits(Month(d), 2) <= DayText(d)
            && y + m + Digits(DayOfMonth(d), 2) <= DayText(d)
  {
    hide Digits, Year, Month, DayOfMonth;
  }

  /** After a common prefix, the smaller number comes first. */
  lemma SmallerFirst(prefix: string, v: nat, w: nat, n: nat, whole: string, other: string)
    requires v < w < Pow(n) && prefix + Digits(v, n) <= whole && prefix + Digits(w, n) <= other
    ensures TextBefore(whole, other) && !TextBefore(other, whole)
  {
    hide Pow, Digits, TextBefore, FirstDifference;
    DigitsOrder(v, w, n);
    var k: nat :| FirstDifference(Digits(v, n), Digits(w, n), k);
    AddTail(prefix, Digits(v, n), Digits(w, n), whole, other, k);
  }

  lemma DayRanges(d: Day)
    requires ValidDay(d)
    ensures 0 <= Year(d) < Pow(4) && 0 <= Month(d) < Pow(2) && 0 <= DayOfMonth(d) < Pow(2)
  {
    DayParts(d);
    assert Pow(2) == 100 && Pow(4) == 10000;
  }

  lemma PartsOrder(d: Day, e: Day)
    requires ValidDay(d) && ValidDay(e) && d < e
    ensures Year(d) < Year(e) || (Year(d) == Year(e) && (Month(d) < Month(e) || (Month(d) == Month(e) && DayOfMonth(d) < DayOfMonth(e))))
  {
    DayParts(d);
    DayParts(e);
  }

  lemma DayTextFirstDifference(d: Day, e: Day)
    requires ValidDay(d) && ValidDay(e) && d < e
    ensures TextBefore(DayText(d), DayText(e)) && !TextBefore(DayText(e), DayText(d))
  {
    hide *;
    DayRanges(d);
    DayRanges(e);
    DayTextParts(d);
    DayTextParts(e);
    PartsOrder(d, e);
    var y, m := Digits(Year(d), 4) + "-", Digits(Month(d), 2) + "-";
    if Year(d) < Year(e) {
      assert [] + Digits(Year(d), 4) == Digits(Year(d), 4) && [] + Digits(Year(e), 4) == Digits(Year(e), 4);
      SmallerFirst([], Year(d), Year(e), 4, DayText(d), DayText(e));
    } else if Month(d) < Month(e) {
      SmallerFirst(y, Month(d), Month(e), 2, DayText(d), DayText(e));
    } else {
      SmallerFirst(y + m, DayOfMonth(d), DayOfMonth(e), 2, DayText(d), DayText(e));
    }
  }

  lemma AddTail(prefix: string, s: string, t: string, whole: string, other: string, k: nat)
    requires FirstDifference(s, t, k)
    requires prefix + s <= whole && prefix + t <= other
    ensures TextBefore(whole, other) && !TextBefore(other, whole)
  {
    FirstDifferenceExtends(prefix, s, t, whole[|prefix + s|..], other[|prefix + t|..], k);
    assert prefix + s + whole[|prefix + s|..] == whole;
    assert prefix + t + other[|prefix + t|..] == other;
    FirstDifferenceDecides(whole, other, |prefix| + k);
  }

  // ------------------------------------------------------------------ counting days

  /** Days of the Gregorian calendar counted from 1 March of the year 0, by years that start in March. */
  function DayNumber(d: Day): int {
    var m := Month(d);
    MarchYear(if m > 2 then Year(d) else Year(d) - 1) + FromMarch(if m > 2 then m - 3 else m + 9) + DayOfMonth(d) - 1
  }

  /** One day more every fourth year, but three times in four centuries. */
  function MarchYear(y: int): int { 365 * y + y / 4 - y / 100 + y / 400 }

  function FromMarch(month: int): int { (153 * month + 2) / 5 }

  lemma LeapDays(y: int)
    ensures MarchYear(y) - MarchYear(y - 1) == 365 + if Leap(y) then 1 else 0
  {
    Quotients(y, 4);
    Quotients(y, 100);
    Quotients(y, 400);
    Multiples(y);
    var q, c, f := y / 4 - (y - 1) / 4, y / 100 - (y - 1) / 100, y / 400 - (y - 1) / 400;
    assert MarchYear(y) - MarchYear(y - 1) == 365 + q - c + f;
    hide MarchYear;
  }

  lemma Multiples(y: int)
    ensures y % 400 == 0 ==> y % 100 == 0
    ensures y % 100 == 0 ==> y % 4 == 0
  {
    assert y == 400 * (y / 400) + y % 400;
    assert y == 100 * (y / 100) + y % 100;
    if y % 400 == 0 {
      Multiple(y, 100, 4 * (y / 400));
    }
    if y % 100 == 0 {
      Multiple(y, 4, 25 * (y / 100));
    }
  }

  lemma Multiple(y: int, n: int, k: int)
    requires y == n * k && (n == 4 || n == 100)
    ensures y % n == 0
  {
  }

  lemma Quotients(y: int, n: int)
    requires n == 4 || n == 100 || n == 400
    ensures y / n - (y - 1) / n == if y % n == 0 then 1 else 0
  {
  }

  lemma MonthLengths(y: int, m: int)
    requires 2 <= m <= 12
    ensures m != 3 ==> FromMarch(if m > 2 then m - 3 else m + 9) - FromMarch(if m - 1 > 2 then m - 4 else m + 8) == DaysInMonth(y, m - 1)
    ensures FromMarch(0) == 0 && FromMarch(11) + 28 == 365 && FromMarch(10) == FromMarch(9) + 31
  {
  }

  /** The day before is the one counted just before, leap days and centuries included. */
  lemma PreviousDayCounts(d: Day)
    requires ValidDay(d) && d > 1000101
    ensures DayNumber(PreviousDay(d)) == DayNumber(d) - 1
  {
    DayParts(d);
    var y, m, k := Year(d), Month(d), DayOfMonth(d);
    hide Year, Month, DayOfMonth, Period, MarchYear, FromMarch, Leap, DaysInMonth;
    if k > 1 {
      PartsOfDay(y, m, k - 1);
    } else if m > 1 {
      MonthRange(y, m - 1);
      PartsOfDay(y, m - 1, DaysInMonth(y, m - 1));
      MonthLengths(y, m);
      if m == 3 {
        LeapDays(y);
        FebruaryEnds(y);
      }
    } else {
      PartsOfDay(y - 1, 12, 31);
      MonthLengths(y, 2);
    }
  }

  lemma MonthRange(y: int, m: int)
    ensures 28 <= DaysInMonth(y, m) <= 31
  {
  }

  lemma FebruaryEnds(y: int)
    ensures DaysInMonth(y, 2) == 28 + if Leap(y) then 1 else 0
  {
  }
}
