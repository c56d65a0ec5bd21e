/** The calendar arithmetic behind the expiry check (akt_uptane.c). */
module Dates {
  import opened Wrappers

  datatype Date = Date(year: int, month: int, day: int)

  datatype Stamp = Stamp(date: Date, hour: int, minute: int, second: int)

  // C's division rounds toward zero.
  function CDiv(a: int, b: int): int
    requires b > 0
  {
    if a >= 0 then a / b else -((-a) / b)
  }

  // days_from_civil
  function DaysFromCivil(d: Date): int {
    var y := d.year - if d.month <= 2 then 1 else 0;
    var era := CDiv(if y >= 0 then y else y - 399, 400);
    var yoe := y - era * 400;
    var doy := CDiv(153 * (d.month + if d.month > 2 then -3 else 9) + 2, 5) + d.day - 1;
    var doe := yoe * 365 + CDiv(yoe, 4) - CDiv(yoe, 100) + doy;
    era * 146097 + doe - 719468
  }

  // ----- the Gregorian calendar -----

  predicate Leap(y: int) {
    y % 4 == 0 && (y % 100 != 0 || y % 400 == 0)
  }

  function DaysIn(y: int, m: int): int {
    if m == 2 then (if Leap(y) then 29 else 28)
    else if m == 4 || m == 6 || m == 9 || m == 11 then 30
    else 31
  }

  predicate Valid(d: Date) {
    1 <= d.month <= 12 && 1 <= d.day <= DaysIn(d.year, d.month)
  }

  function Next(d: Date): Date {
    if d.day < DaysIn(d.year, d.month) then d.(day := d.day + 1)
    else if d.month < 12 then Date(d.year, d.month + 1, 1)
    else Date(d.year + 1, 1, 1)
  }

  predicate Earlier(a: Date, b: Date) {
    a.year < b.year || (a.year == b.year && (a.month < b.month || (a.month == b.month && a.day < b.day)))
  }

  // ----- years counted from March -----

  // The day number of March 1 of year y.
  function YearStart(y: int): int {
    365 * y + y / 4 - y / 100 + y / 400 - 719468
  }

  // March is month 0.
  function MonthStart(mp: int): int {
    (153 * mp + 2) / 5
  }

  function MarchYear(d: Date): int {
    if d.month <= 2 then d.year - 1 else d.year
  }

  function MarchMonth(d: Date): int {
    if d.month > 2 then d.month - 3 else d.month + 9
  }

  lemma EraSplit(y: int)
    ensures CDiv(if y >= 0 then y else y - 399, 400) == y / 400
  {}

  lemma YearOfEra(y: int)
    ensures var yoe := y - y / 400 * 400;
            y / 400 * 146097 + yoe * 365 + yoe / 4 - yoe / 100 == 365 * y + y / 4 - y / 100 + y / 400
  {
    var q, r := y / 400, y - y / 400 * 400;
    assert y == 400 * q + r && 0 <= r < 400;
    assert y / 4 == 100 * q + r / 4;
    assert y / 100 == 4 * q + r / 100;
  }

  lemma FromMarch(d: Date)
    requires 1 <= d.month <= 12
    ensures DaysFromCivil(d) == YearStart(MarchYear(d)) + MonthStart(MarchMonth(d)) + d.day - 1
  {
    var y := MarchYear(d);
    EraSplit(y);
    YearOfEra(y);
  }

  lemma YearStep(y: int)
    ensures YearStart(y + 1) == YearStart(y) + if Leap(y + 1) then 366 else 365
  {
    assert (y + 1) / 4 == y / 4 + if (y + 1) % 4 == 0 then 1 else 0;
    assert (y + 1) / 100 == y / 100 + if (y + 1) % 100 == 0 then 1 else 0;
    assert (y + 1) / 400 == y / 400 + if (y + 1) % 400 == 0 then 1 else 0;
  }

  // ----- the day numbers -----

  lemma EpochIsZero()
    ensures DaysFromCivil(Date(1970, 1, 1)) == 0
  {}

  // The last day of a month is followed by the first of the next one, and February ends the year.
  lemma MonthEnd(d: Date)
    requires Valid(d) && d.day == DaysIn(d.year, d.month)
    ensures var n := Next(d);
            YearStart(MarchYear(d)) + MonthStart(MarchMonth(d)) + d.day == YearStart(MarchYear(n)) + MonthStart(MarchMonth(n))
  {
    if d.month == 2 {
      YearStep(d.year - 1);
    }
  }

  // From each date to the next one the number rises by one.
  lemma NextDay(d: Date)
    requires Valid(d)
    ensures Valid(Next(d)) && DaysFromCivil(Next(d)) == DaysFromCivil(d) + 1
  {
    FromMarch(d);
    FromMarch(Next(d));
    if d.day == DaysIn(d.year, d.month) {
      MonthEnd(d);
    }
  }

  lemma {:induction false} YearsGrow(y: int, z: int)
    requires y < z
    ensures YearStart(y) + 365 <= YearStart(z) && (Leap(y + 1) ==> YearStart(y) + 366 <= YearStart(z))
    decreases z - y
  {
    YearStep(y);
    if y + 1 < z {
      YearsGrow(y + 1, z);
    }
  }

  lemma MonthsGrow(a: Date, b: Date)
    requires Valid(a) && Valid(b) && MarchYear(a) == MarchYear(b) && MarchMonth(a) < MarchMonth(b)
    ensures MonthStart(MarchMonth(a)) + a.day <= MonthStart(MarchMonth(b))
  {}

  lemma YearLength(a: Date)
    requires Valid(a)
    ensures MonthStart(MarchMonth(a)) + a.day <= if Leap(MarchYear(a) + 1) then 366 else 365
  {}

  lemma EarlierIsLess(a: Date, b: Date)
    requires Valid(a) && Valid(b) && Earlier(a, b)
    ensures DaysFromCivil(a) < DaysFromCivil(b)
  {
    FromMarch(a);
    FromMarch(b);
    if MarchYear(a) < MarchYear(b) {
      YearLength(a);
      YearsGrow(MarchYear(a), MarchYear(b));
    } else if MarchMonth(a) < MarchMonth(b) {
      MonthsGrow(a, b);
    }
  }

  // Dates and their numbers are in the same order.
  lemma DaysInOrder(a: Date, b: Date)
    requires Valid(a) && Valid(b)
    ensures Earlier(a, b) <==> DaysFromCivil(a) < DaysFromCivil(b)
    ensures a == b <==> DaysFromCivil(a) == DaysFromCivil(b)
  {
    if Earlier(a, b) {
      EarlierIsLess(a, b);
    } else if Earlier(b, a) {
      EarlierIsLess(b, a);
    }
  }

  // ----- timestamps -----

  // akt_parse_iso8601_utc, after sscanf has found the six numbers; it rejects months and days out of
  // range and nothing else.
  function Seconds(s: Stamp): (r: Option<int>) {
    if s.date.month < 1 || s.date.month > 12 || s.date.day < 1 || s.date.day > 31 then None
    else Some(DaysFromCivil(s.date) * 86400 + s.hour * 3600 + s.minute * 60 + s.second)
  }

  predicate ValidStamp(s: Stamp) {
    Valid(s.date) && 0 <= s.hour < 24 && 0 <= s.minute < 60 && 0 <= s.second < 60
  }

  predicate Before(a: Stamp, b: Stamp) {
    Earlier(a.date, b.date) || (a.date == b.date
      && (a.hour < b.hour || (a.hour == b.hour && (a.minute < b.minute || (a.minute == b.minute && a.second < b.second)))))
  }

  // Valid timestamps are accepted and are in the order of their seconds.
  lemma SecondsInOrder(a: Stamp, b: Stamp)
    requires ValidStamp(a) && ValidStamp(b)
    ensures Seconds(a).Some? && Seconds(b).Some?
    ensures Before(a, b) <==> Seconds(a).value < Seconds(b).value
    ensures a == b <==> Seconds(a).value == Seconds(b).value
  {
    DaysInOrder(a.date, b.date);
    var x, y := DaysFromCivil(a.date), DaysFromCivil(b.date);
    if x < y {
      assert x * 86400 + 86400 <= y * 86400;
    } else if y < x {
      assert y * 86400 + 86400 <= x * 86400;
    }
  }

  // The seconds of valid timestamps are counted from the epoch, one by one.
  lemma EpochSecond()
    ensures Seconds(Stamp(Date(1970, 1, 1), 0, 0, 0)) == Some(0)
  {}

  lemma NextSecond(s: Stamp)
    requires ValidStamp(s)
    ensures var n := if s.second < 59 then s.(second := s.second + 1)
                     else if s.minute < 59 then s.(minute := s.minute + 1, second := 0)
                     else if s.hour < 23 then s.(hour := s.hour + 1, minute := 0, second := 0)
                     else Stamp(Next(s.date), 0, 0, 0);
            Seconds(s).Some? && Seconds(n) == Some(Seconds(s).value + 1)
  {
    NextDay(s.date);
    hide DaysFromCivil;
  }

  // The months of the Gregorian calendar.
  lemma Calendar(y: int, m: int)
    requires 1 <= m <= 12
    ensures DaysIn(y, m) == if m != 2 then [31, 0, 31, 30, 31, 30, 31, 31, 30, 31, 30, 31][m - 1]
                            else if y % 400 == 0 || (y % 4 == 0 && y % 100 != 0) then 29 else 28
  {}

  // A year has 365 days, or 366.
  lemma YearHas(y: int)
    ensures DaysFromCivil(Date(y + 1, 1, 1)) - DaysFromCivil(Date(y, 1, 1))
            == if y % 400 == 0 || (y % 4 == 0 && y % 100 != 0) then 366 else 365
  {
    hide DaysFromCivil, YearStart;
    FromMarch(Date(y, 1, 1));
    FromMarch(Date(y + 1, 1, 1));
    YearStep(y - 1);
  }

  // Only the month and the day are looked at, and only against 12 and 31.
  lemma RejectedIff(s: Stamp)
    ensures Seconds(s) == None <==> !(1 <= s.date.month <= 12 && 1 <= s.date.day <= 31)
  {}

  // ----- every second has its valid timestamp -----

  function Prev(d: Date): Date {
    if d.day > 1 then d.(day := d.day - 1)
    else if d.month > 1 then Date(d.year, d.month - 1, DaysIn(d.year, d.month - 1))
    else Date(d.year - 1, 12, 31)
  }

  lemma PrevDay(d: Date)
    requires Valid(d)
    ensures Valid(Prev(d)) && DaysFromCivil(Prev(d)) == DaysFromCivil(d) - 1
  {
    assert Valid(Prev(d)) && Next(Prev(d)) == d;
    NextDay(Prev(d));
  }

  lemma {:induction false} DateOfDay(n: int) returns (d: Date)
    ensures Valid(d) && DaysFromCivil(d) == n
    decreases if n < 0 then -n else n
  {
    if n == 0 {
      d := Date(1970, 1, 1);
      EpochIsZero();
    } else if n > 0 {
      var e := DateOfDay(n - 1);
      NextDay(e);
      d := Next(e);
    } else {
      var e := DateOfDay(n + 1);
      PrevDay(e);
      d := Prev(e);
    }
  }

  lemma StampOfSecond(n: int) returns (s: Stamp)
    ensures ValidStamp(s) && Seconds(s) == Some(n)
  {
    var day, rest := n / 86400, n % 86400;
    var d := DateOfDay(day);
    s := Stamp(d, rest / 3600, rest % 3600 / 60, rest % 60);
    hide DaysFromCivil;
    assert n == 86400 * day + rest;
    assert rest == rest / 3600 * 3600 + rest % 3600 / 60 * 60 + rest % 60;
  }

  lemma OneIsBefore(a: Stamp, b: Stamp)
    requires a != b
    ensures Before(a, b) || Before(b, a)
  {}

  // The order of the seconds against every valid timestamp is the order of the timestamps.
  ghost predicate InOrder(a: Stamp)
    requires Seconds(a).Some?
  {
    forall b {:trigger ValidStamp(b)} :: ValidStamp(b) && Seconds(b).Some? ==>
      (Before(a, b) <==> Seconds(a).value < Seconds(b).value) && (Before(b, a) <==> Seconds(b).value < Seconds(a).value)
  }

  // An accepted timestamp is in order if and only if its date and its time exist.
  lemma InOrderIffValid(a: Stamp)
    requires Seconds(a).Some?
    ensures InOrder(a) <==> ValidStamp(a)
  {
    if ValidStamp(a) {
      forall b {:trigger ValidStamp(b)} | ValidStamp(b) && Seconds(b).Some?
        ensures (Before(a, b) <==> Seconds(a).value < Seconds(b).value)
        ensures (Before(b, a) <==> Seconds(b).value < Seconds(a).value)
      {
        SecondsInOrder(a, b);
        SecondsInOrder(b, a);
      }
    } else {
      var b := StampOfSecond(Seconds(a).value);
      OneIsBefore(a, b);
    }
  }

  // The same said with the seconds alone: they determine the timestamp exactly when it is valid.
  lemma SecondsDetermineIffValid(a: Stamp)
    requires Seconds(a).Some?
    ensures ValidStamp(a) <==> forall b {:trigger ValidStamp(b)} :: ValidStamp(b) && Seconds(b) == Seconds(a) ==> b == a
  {
    if ValidStamp(a) {
      forall b {:trigger ValidStamp(b)} | ValidStamp(b) && Seconds(b) == Seconds(a) ensures b == a {
        SecondsInOrder(a, b);
      }
    } else {
      var b := StampOfSecond(Seconds(a).value);
    }
  }

  // Dates that do not exist are accepted too, and can be later than dates written after them.
  lemma NoSuchDateAccepted()
    ensures var a, b := Stamp(Date(2023, 2, 31), 0, 0, 0), Stamp(Date(2023, 3, 1), 0, 0, 0);
            !ValidStamp(a) && Before(a, b) && Seconds(a).Some? && Seconds(b).Some? && Seconds(a).value > Seconds(b).value
  {}
}
