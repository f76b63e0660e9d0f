/** Unix seconds as an RFC 3339 timestamp, checked against the Gregorian calendar counted day by day. */
module Calendar {
  import opened Wrappers
  import opened Decimal

  datatype Date = Date(year: nat, month: nat, day: nat)

  const DAY_SECS := 86_400
  /** Midnight of 1 January 10000, from which a year needs five digits. */
  const FIVE_DIGITS := 253_402_300_800

  // ---- the calendar, counted day by day ----

  /** RFC 3339 appendix C. */
  predicate Leap(y: nat) { y % 4 == 0 && (y % 100 != 0 || y % 400 == 0) }

  function DaysInMonth(y: nat, m: nat): nat {
    if m in {4, 6, 9, 11} then 30 else if m == 2 then (if Leap(y) then 29 else 28) else 31
  }

  /** RFC 3339 section 5.7. */
  predicate ValidDate(d: Date) { 1 <= d.month <= 12 && 1 <= d.day <= DaysInMonth(d.year, d.month) }

  function NextDay(d: Date): Date {
    if d.day < DaysInMonth(d.year, d.month) then Date(d.year, d.month, d.day + 1)
    else if d.month < 12 then Date(d.year, d.month + 1, 1)
    else Date(d.year + 1, 1, 1)
  }

  function YearLength(y: nat): nat { if Leap(y) then 366 else 365 }

  /** Days from 1970 to the start of the year. */
  function YearStart(y: nat): nat { if y <= 1970 then 0 else YearStart(y - 1) + YearLength(y - 1) }

  function MonthStart(y: nat, m: nat): nat { if m <= 1 then 0 else MonthStart(y, m - 1) + DaysInMonth(y, m - 1) }

  function DayNumber(d: Date): nat
    requires ValidDate(d)
  {
    YearStart(d.year) + MonthStart(d.year, d.month) + d.day - 1
  }

  // ---- the conversion ----

  function YearOfEra(doe: nat): nat
    requires doe < 146_097
  {
    (doe - doe / 1460 + doe / 36_524 - doe / 146_096) / 365
  }

  /** A day of a year that starts in March. */
  function FromMarch(y: nat, doy: nat): Date
    requires doy < 366
  {
    var mp := (5 * doy + 2) / 153;
    var d := doy - (153 * mp + 2) / 5 + 1;
    var m := if mp < 10 then mp + 3 else mp - 9;
    Date(if m <= 2 then y + 1 else y, m, d)
  }

  /** Days since 1 March of year 0 are split into 400-year eras. */
  function Civil(days: nat): Date {
    var z := days + 719_468;
    var era, doe := z / 146_097, z % 146_097;
    var yoe := YearOfEra(doe);
    DayOfYearBound(doe);
    FromMarch(yoe + era * 400, doe - (365 * yoe + yoe / 4 - yoe / 100))
  }

  /** Days before year `y`, when years start in March. */
  function MarchStart(y: nat): nat { 365 * y + y / 4 - y / 100 + y / 400 }

  function MarchLength(y: nat): nat { if Leap(y + 1) then 366 else 365 }

  /** Every day of an era is a century, a four-year cycle, a year and a day of that year. */
  lemma EraParts(doe: nat) returns (c: nat, q: nat, s: nat, r: nat)
    requires doe < 146_097
    ensures c <= 3 && q <= 24 && s <= 3 && r <= 365 && doe == 36_524 * c + 1461 * q + 365 * s + r
    ensures r == 365 ==> s == 3 && (q < 24 || c == 3)
  {
    c := if doe / 36_524 <= 3 then doe / 36_524 else 3;
    var a := doe - 36_524 * c;
    q := a / 1461;
    var b := a - 1461 * q;
    s := if b / 365 <= 3 then b / 365 else 3;
    r := b - 365 * s;
  }

  lemma Quotient(n: nat, d: nat, q: nat)
    requires d * q <= n < d * q + d
    ensures n / d == q
  {
    var k := n / d;
    assert n == d * k + n % d;
    Scale(d, k + 1, q);
    Scale(d, q + 1, k);
    assert d * (k + 1) == d * k + d && d * (q + 1) == d * q + d;
  }

  lemma Scale(d: nat, x: nat, y: nat)
    ensures x <= y ==> d * x <= d * y
  {
    if x <= y { assert d * y == d * x + d * (y - x); }
  }

  lemma YearOfParts(doe: nat, c: nat, q: nat, s: nat, r: nat)
    requires doe < 146_097 && c <= 3 && q <= 24 && s <= 3 && r <= 365 && doe == 36_524 * c + 1461 * q + 365 * s + r
    requires r == 365 ==> s == 3 && (q < 24 || c == 3)
    ensures YearOfEra(doe) == 100 * c + 4 * q + s
  {
    var extra := 24 * c + q + 365 * s + r;
    assert doe == 1460 * (25 * c + q) + extra;
    var carry := if extra >= 1460 then 1 else 0;
    assert 1460 * (25 * c + q + carry) <= doe < 1460 * (25 * c + q + carry) + 1460;
    Quotient(doe, 1460, 25 * c + q + carry);
    if doe == 146_096 {
      assert doe / 36_524 == 4 && doe / 146_096 == 1;
    } else {
      Quotient(doe, 36_524, c);
      Quotient(doe, 146_096, 0);
    }
  }

  /** The approximate division finds the right year of the era and leaves the day of that year. */
  lemma DayOfYearBound(doe: nat)
    requires doe < 146_097
    ensures var yoe := YearOfEra(doe);
            && yoe < 400 && 365 * yoe + yoe / 4 - yoe / 100 <= doe
            && doe - (365 * yoe + yoe / 4 - yoe / 100)
               < (if (yoe + 1) % 4 == 0 && ((yoe + 1) % 100 != 0 || yoe == 399) then 366 else 365)
  {
    var c, q, s, r := EraParts(doe);
    YearOfParts(doe, c, q, s, r);
    YearDivisions(c, q, s);
  }

  lemma YearDivisions(c: nat, q: nat, s: nat)
    requires c <= 3 && q <= 24 && s <= 3
    ensures var yoe := 100 * c + 4 * q + s;
            && yoe < 400 && yoe / 4 == 25 * c + q && yoe / 100 == c && ((yoe + 1) % 4 == 0 <==> s == 3)
            && (s == 3 ==> ((yoe + 1) % 100 == 0 <==> q == 24)) && (yoe == 399 <==> c == 3 && q == 24 && s == 3)
  {
    var yoe := 100 * c + 4 * q + s;
    assert yoe / 4 == 25 * c + q;
    assert (yoe + 1) % 4 == (s + 1) % 4;
    assert s == 3 ==> (yoe + 1) % 100 == if q == 24 then 0 else 4 * q + 4;
  }

  lemma Next4(y: nat)
    ensures (y + 1) / 4 == y / 4 + if (y + 1) % 4 == 0 then 1 else 0
  {
  }

  lemma Next100(y: nat)
    ensures (y + 1) / 100 == y / 100 + if (y + 1) % 100 == 0 then 1 else 0
    ensures (y + 1) % 100 == 0 ==> (y + 1) % 4 == 0
  {
    assert y + 1 == 4 * (25 * ((y + 1) / 100)) + (y + 1) % 100;
  }

  lemma Next400(y: nat)
    ensures (y + 1) / 400 == y / 400 + if (y + 1) % 400 == 0 then 1 else 0
    ensures (y + 1) % 400 == 0 ==> (y + 1) % 100 == 0
  {
    assert y + 1 == 100 * (4 * ((y + 1) / 400)) + (y + 1) % 400;
  }

  lemma MarchStep(y: nat)
    ensures MarchStart(y + 1) == MarchStart(y) + MarchLength(y)
  {
    Next4(y);
    Next100(y);
    Next400(y);
  }

  lemma {:induction false} MarchGrows(a: nat, b: nat)
    requires a <= b
    ensures MarchStart(a) <= MarchStart(b)
    decreases b - a
  {
    if a < b {
      MarchGrows(a, b - 1);
      MarchStep(b - 1);
    }
  }

  lemma MarchOrder(a: nat, b: nat)
    ensures a < b ==> MarchStart(a) + MarchLength(a) <= MarchStart(b)
  {
    MarchStep(a);
    if a < b { MarchGrows(a + 1, b); }
  }

  lemma EraBy4(era: nat, x: nat)
    ensures (x + 400 * era) / 4 == x / 4 + 100 * era && (x + 400 * era) % 4 == x % 4
  {
    assert x + 400 * era == 4 * (x / 4 + 100 * era) + x % 4;
  }

  lemma EraBy100(era: nat, x: nat)
    ensures (x + 400 * era) / 100 == x / 100 + 4 * era && (x + 400 * era) % 100 == x % 100
  {
    assert x + 400 * era == 100 * (x / 100 + 4 * era) + x % 100;
  }

  lemma EraBy400(era: nat, x: nat)
    ensures (x + 400 * era) / 400 == x / 400 + era && (x + 400 * era) % 400 == x % 400
  {
    assert x + 400 * era == 400 * (x / 400 + era) + x % 400;
  }

  lemma EraLeap(era: nat, yoe: nat)
    requires yoe < 400
    ensures Leap(yoe + era * 400 + 1) <==> (yoe + 1) % 4 == 0 && ((yoe + 1) % 100 != 0 || yoe == 399)
  {
    EraBy4(era, yoe + 1);
    EraBy100(era, yoe + 1);
    EraBy400(era, yoe + 1);
    assert (yoe + 1) % 400 == 0 <==> yoe == 399;
  }

  lemma EraStart(era: nat, yoe: nat)
    requires yoe < 400
    ensures MarchStart(yoe + era * 400) == 146_097 * era + 365 * yoe + yoe / 4 - yoe / 100
  {
    EraBy4(era, yoe);
    EraBy100(era, yoe);
    EraBy400(era, yoe);
  }

  /** The March year and day behind a day number. */
  lemma Shape(days: nat) returns (y: nat, doy: nat)
    ensures days + 719_468 == MarchStart(y) + doy && doy < MarchLength(y) <= 366
    ensures Civil(days) == FromMarch(y, doy)
  {
    hide FromMarch, YearOfEra, Leap, MarchStart;
    var z := days + 719_468;
    var era, doe := z / 146_097, z % 146_097;
    DayOfYearBound(doe);
    var yoe := YearOfEra(doe);
    y, doy := yoe + era * 400, doe - (365 * yoe + yoe / 4 - yoe / 100);
    EraLeap(era, yoe);
    EraStart(era, yoe);
  }

  // ---- months of a March year ----

  /** Days of the March year before month `mp`. */
  function MonthOffset(mp: nat): nat { (153 * mp + 2) / 5 }

  lemma MarchMonth(y: nat, doy: nat)
    requires doy < MarchLength(y)
    ensures var mp := (5 * doy + 2) / 153;
            && mp <= 11 && MonthOffset(mp) <= doy < MonthOffset(mp) + MonthFrom(y, mp)
            && (mp < 11 ==> MonthOffset(mp + 1) == MonthOffset(mp) + MonthFrom(y, mp))
            && (mp == 11 ==> MarchLength(y) == MonthOffset(mp) + MonthFrom(y, mp))
  {
    var mp := (5 * doy + 2) / 153;
    assert 153 * mp <= 5 * doy + 2 < 153 * mp + 153;
  }

  /** The length of month `mp`, counted from March. */
  function MonthFrom(y: nat, mp: nat): nat
    requires mp <= 11
  {
    if mp < 10 then DaysInMonth(y, mp + 3) else DaysInMonth(y + 1, mp - 9)
  }

  lemma FromMarchIsValid(y: nat, doy: nat)
    requires doy < MarchLength(y)
    ensures ValidDate(FromMarch(y, doy))
  {
    MarchMonth(y, doy);
  }

  /** Day `k` of month `mp`, both counted from 0, of the March year. */
  function MarchDate(y: nat, mp: nat, k: nat): Date
    requires mp <= 11
  {
    if mp < 10 then Date(y, mp + 3, k + 1) else Date(y + 1, mp - 9, k + 1)
  }

  lemma FromMarchIs(y: nat, doy: nat, mp: nat)
    requires doy < 366 && mp <= 11 && MonthOffset(mp) <= doy < MonthOffset(mp + 1)
    ensures FromMarch(y, doy) == MarchDate(y, mp, doy - MonthOffset(mp))
  {
    assert (5 * doy + 2) / 153 == mp;
  }

  lemma MarchDateNext(y: nat, mp: nat, k: nat)
    requires mp <= 11 && k < MonthFrom(y, mp)
    ensures NextDay(MarchDate(y, mp, k)) ==
            if k + 1 < MonthFrom(y, mp) then MarchDate(y, mp, k + 1)
            else if mp < 11 then MarchDate(y, mp + 1, 0) else MarchDate(y + 1, 0, 0)
  {
  }

  lemma FromMarchNext(y: nat, doy: nat)
    requires doy < MarchLength(y)
    ensures NextDay(FromMarch(y, doy)) ==
            if doy + 1 < MarchLength(y) then FromMarch(y, doy + 1) else FromMarch(y + 1, 0)
  {
    MarchMonth(y, doy);
    var mp := (5 * doy + 2) / 153;
    var k := doy - MonthOffset(mp);
    assert MarchLength(y) <= 366 && MonthOffset(0) == 0;
    hide MonthOffset, FromMarch, NextDay, MonthFrom, Leap, MarchLength, MarchDate;
    FromMarchIs(y, doy, mp);
    MarchDateNext(y, mp, k);
    if k + 1 < MonthFrom(y, mp) {
      FromMarchIs(y, doy + 1, mp);
    } else if mp < 11 {
      FromMarchIs(y, doy + 1, mp + 1);
    } else {
      FromMarchIs(y + 1, 0, 0);
    }
  }

  // ---- main results ----

  lemma CivilIsValid(days: nat)
    ensures ValidDate(Civil(days))
  {
    var y, doy := Shape(days);
    FromMarchIsValid(y, doy);
  }

  /** Day 0 is 1 January 1970, and consecutive days have consecutive dates: the conversion is the calendar. */
  lemma CivilNext(days: nat)
    ensures Civil(0) == Date(1970, 1, 1)
    ensures Civil(days + 1) == NextDay(Civil(days))
  {
    hide FromMarch, NextDay, Civil;
    CivilZero();
    var y, doy := Shape(days);
    FromMarchNext(y, doy);
    MarchStep(y);
    if doy + 1 < MarchLength(y) { CivilIs(days + 1, y, doy + 1); } else { CivilIs(days + 1, y + 1, 0); }
  }

  /** A day number has only one March year and day. */
  lemma CivilIs(days: nat, y: nat, doy: nat)
    requires days + 719_468 == MarchStart(y) + doy && doy < MarchLength(y)
    ensures Civil(days) == FromMarch(y, doy)
  {
    hide FromMarch, Civil, MarchStart;
    var y1, doy1 := Shape(days);
    MarchOrder(y1, y);
    MarchOrder(y, y1);
  }

  lemma CivilZero()
    ensures Civil(0) == Date(1970, 1, 1)
  {
    hide Civil, FromMarch;
    assert MarchStart(1969) == 719_162 && MarchLength(1969) == 365;
    hide MarchStart, MarchLength;
    CivilIs(0, 1969, 306);
    FromMarchIs(1969, 306, 10);
  }

  lemma NextDayNumber(d: Date)
    requires ValidDate(d) && d.year >= 1970
    ensures ValidDate(NextDay(d)) && DayNumber(NextDay(d)) == DayNumber(d) + 1 && NextDay(d).year >= d.year
  {
    YearIsItsMonths(d.year);
  }

  lemma YearIsItsMonths(y: nat)
    ensures MonthStart(y, 12) + 31 == YearLength(y)
  {
    assert MonthStart(y, 2) == 31;
    assert MonthStart(y, 3) == 31 + DaysInMonth(y, 2);
    assert MonthStart(y, 4) == MonthStart(y, 3) + 31;
    assert MonthStart(y, 5) == MonthStart(y, 4) + 30;
    assert MonthStart(y, 6) == MonthStart(y, 5) + 31;
    assert MonthStart(y, 7) == MonthStart(y, 6) + 30;
    assert MonthStart(y, 8) == MonthStart(y, 7) + 31;
    assert MonthStart(y, 9) == MonthStart(y, 8) + 31;
    assert MonthStart(y, 10) == MonthStart(y, 9) + 30;
    assert MonthStart(y, 11) == MonthStart(y, 10) + 31;
    assert MonthStart(y, 12) == MonthStart(y, 11) + 30;
  }

  /** Converting back gives the same day number. */
  lemma {:induction false} CivilRoundTrip(days: nat)
    ensures ValidDate(Civil(days)) && Civil(days).year >= 1970 && DayNumber(Civil(days)) == days
  {
    hide FromMarch, NextDay, ValidDate, DayNumber;
    CivilIsValid(days);
    if days == 0 {
      CivilZero();
      assert DayNumber(Date(1970, 1, 1)) == 0 by { FirstDay(); }
    } else {
      CivilRoundTrip(days - 1);
      CivilNext(days - 1);
      NextDayNumber(Civil(days - 1));
    }
  }

  lemma FirstDay()
    ensures ValidDate(Date(1970, 1, 1)) && DayNumber(Date(1970, 1, 1)) == 0
  {
  }

  lemma {:induction false} YearGrows(a: nat, b: nat)
    requires a <= b
    ensures YearStart(a) <= YearStart(b) && (1970 <= a < b ==> YearStart(a) + YearLength(a) <= YearStart(b))
    decreases b - a
  {
    if a < b { YearGrows(a, b - 1); }
  }

  lemma {:induction false} MonthGrows(y: nat, a: nat, b: nat)
    requires 1 <= a <= b
    ensures MonthStart(y, a) <= MonthStart(y, b) && (a < b ==> MonthStart(y, a) + DaysInMonth(y, a) <= MonthStart(y, b))
    decreases b - a
  {
    if a < b { MonthGrows(y, a, b - 1); }
  }

  lemma DayInYear(d: Date)
    requires ValidDate(d)
    ensures MonthStart(d.year, d.month) + d.day <= YearLength(d.year)
  {
    MonthGrows(d.year, d.month, 12);
    YearIsItsMonths(d.year);
  }

  lemma LaterYear(a: Date, b: Date)
    requires ValidDate(a) && ValidDate(b)
    ensures 1970 <= a.year < b.year ==> DayNumber(a) < DayNumber(b)
  {
    hide DaysInMonth, YearStart, MonthStart, YearLength;
    DayInYear(a);
    if a.year < b.year { YearGrows(a.year, b.year); }
  }

  lemma LaterMonth(a: Date, b: Date)
    requires ValidDate(a) && ValidDate(b) && a.year == b.year
    ensures a.month < b.month ==> DayNumber(a) < DayNumber(b)
  {
    if a.month < b.month { MonthGrows(a.year, a.month, b.month); }
  }

  /** Different dates are different days. */
  lemma DayNumberInjective(a: Date, b: Date)
    requires ValidDate(a) && ValidDate(b) && a.year >= 1970 && b.year >= 1970 && DayNumber(a) == DayNumber(b)
    ensures a == b
  {
    hide DaysInMonth, YearStart, MonthStart;
    LaterYear(a, b);
    LaterYear(b, a);
    LaterMonth(a, b);
    LaterMonth(b, a);
  }

  /** Every date from 1970 on is the date of its own day: the conversion misses none. */
  lemma CivilOnto(d: Date)
    requires ValidDate(d) && d.year >= 1970
    ensures Civil(DayNumber(d)) == d
  {
    hide DayNumber, ValidDate, FromMarch;
    CivilRoundTrip(DayNumber(d));
    DayNumberInjective(Civil(DayNumber(d)), d);
  }

  // ---- the timestamp ----

  function Timestamp(d: Date, hh: nat, mm: nat, ss: nat): string {
    Padded(d.year, 4) + "-" + Padded(d.month, 2) + "-" + Padded(d.day, 2) + "T"
    + Padded(hh, 2) + ":" + Padded(mm, 2) + ":" + Padded(ss, 2) + "Z"
  }

  function Rfc3339(secs: nat): string {
    var rem := secs % DAY_SECS;
    Timestamp(Civil(secs / DAY_SECS), rem / 3600, rem % 3600 / 60, rem % 60)
  }

  /** The date-time grammar of RFC 3339 section 5.6, in UTC and without a fraction. */
  predicate InGrammar(t: string) {
    && |t| == 20 && t[4] == '-' && t[7] == '-' && t[10] == 'T' && t[13] == ':' && t[16] == ':' && t[19] == 'Z'
    && AllDigits(t[..4]) && AllDigits(t[5..7]) && AllDigits(t[8..10])
    && AllDigits(t[11..13]) && AllDigits(t[14..16]) && AllDigits(t[17..19])
  }

  function DateIn(t: string): Date
    requires InGrammar(t)
  {
    Date(Value(t[..4]), Value(t[5..7]), Value(t[8..10]))
  }

  /** The seconds a timestamp from 1970 on denotes. */
  function Read(t: string): Option<nat> {
    if !InGrammar(t) then None
    else
      var d, hh, mm, ss := DateIn(t), Value(t[11..13]), Value(t[14..16]), Value(t[17..19]);
      if d.year < 1970 || !ValidDate(d) || hh > 23 || mm > 59 || ss > 59 then None
      else Some(DayNumber(d) * DAY_SECS + hh * 3600 + mm * 60 + ss)
  }

  lemma TwoPlaces(n: nat)
    requires n < 100
    ensures |Padded(n, 2)| == 2
  {
    assert Power10(2) == 100;
    PrintWidth(n, 2);
  }

  lemma FourPlaces(n: nat)
    ensures |Padded(n, 4)| == 4 <==> n < 10_000
  {
    assert Power10(4) == 10_000;
    if n < 10_000 {
      PrintWidth(n, 4);
    } else {
      PrintLonger(n, 4);
    }
  }

  lemma {:induction false} PrintLonger(n: nat, width: nat)
    requires n >= Power10(width)
    ensures |Print(n)| > width
  {
    if width > 0 {
      assert n >= 10 && n / 10 >= Power10(width - 1);
      PrintLonger(n / 10, width - 1);
    }
  }

  lemma TimestampFields(d: Date, hh: nat, mm: nat, ss: nat)
    requires d.month < 100 && d.day < 100 && hh < 100 && mm < 100 && ss < 100
    ensures var t := Timestamp(d, hh, mm, ss);
            && (d.year < 10_000 <==> InGrammar(t))
            && (d.year < 10_000 ==>
                  && t[..4] == Padded(d.year, 4) && t[5..7] == Padded(d.month, 2) && t[8..10] == Padded(d.day, 2)
                  && t[11..13] == Padded(hh, 2) && t[14..16] == Padded(mm, 2) && t[17..19] == Padded(ss, 2))
  {
    hide Padded;
    FourPlaces(d.year);
    TwoPlaces(d.month);
    TwoPlaces(d.day);
    TwoPlaces(hh);
    TwoPlaces(mm);
    TwoPlaces(ss);
    var t := Timestamp(d, hh, mm, ss);
    assert |t| == |Padded(d.year, 4)| + 16;
    if d.year < 10_000 {
      assert t[..4] == Padded(d.year, 4);
      assert t[5..7] == Padded(d.month, 2);
      assert t[8..10] == Padded(d.day, 2);
      assert t[11..13] == Padded(hh, 2);
      assert t[14..16] == Padded(mm, 2);
      assert t[17..19] == Padded(ss, 2);
    }
  }

  lemma {:induction false} YearsGrow(a: nat, b: nat)
    requires a <= b
    ensures Civil(a).year <= Civil(b).year
    decreases b - a
  {
    hide Civil;
    if a < b {
      YearsGrow(a, b - 1);
      CivilNext(b - 1);
    }
  }

  /** The year needs five digits exactly from 253402300800 seconds on. */
  lemma FourDigitYears(secs: nat)
    ensures Civil(secs / DAY_SECS).year < 10_000 <==> secs < FIVE_DIGITS
  {
    LastFourDigitDay();
    hide Civil;
    if secs < FIVE_DIGITS {
      YearsGrow(secs / DAY_SECS, 2_932_896);
    } else {
      YearsGrow(2_932_897, secs / DAY_SECS);
    }
  }

  lemma LastFourDigitDay()
    ensures Civil(2_932_896) == Date(9999, 12, 31) && Civil(2_932_897) == Date(10_000, 1, 1)
  {
    hide FromMarch, Civil;
    assert MarchStart(9999) == 3_652_059 && !Leap(9999) && Leap(10_000);
    CivilIs(2_932_896, 9999, 305);
    CivilNext(2_932_896);
    LastDayOfYear();
  }

  lemma LastDayOfYear()
    ensures FromMarch(9999, 305) == Date(9999, 12, 31)
  {
  }

  /** Reading a timestamp gives back its seconds; from the year 10000 on it is outside the RFC 3339 grammar. */
  lemma TimestampRoundTrip(secs: nat)
    ensures Read(Rfc3339(secs)) == if secs < FIVE_DIGITS then Some(secs) else None
  {
    hide Civil, DayNumber, Timestamp, Read, ValidDate;
    var days, rem := secs / DAY_SECS, secs % DAY_SECS;
    FourDigitYears(secs);
    CivilRoundTrip(days);
    TimeOfDay(rem);
    ReadBack(Civil(days), rem / 3600, rem % 3600 / 60, rem % 60);
  }

  lemma TimeOfDay(rem: nat)
    requires rem < DAY_SECS
    ensures rem / 3600 <= 23 && rem % 3600 / 60 <= 59 && rem % 60 <= 59
    ensures rem / 3600 * 3600 + rem % 3600 / 60 * 60 + rem % 60 == rem
  {
    var hh, a := rem / 3600, rem % 3600;
    var mm, ss := a / 60, a % 60;
    assert rem == 60 * (60 * hh + mm) + ss;
  }

  lemma ReadBack(d: Date, hh: nat, mm: nat, ss: nat)
    requires ValidDate(d) && d.year >= 1970 && hh <= 23 && mm <= 59 && ss <= 59
    ensures Read(Timestamp(d, hh, mm, ss)) ==
            if d.year < 10_000 then Some(DayNumber(d) * DAY_SECS + hh * 3600 + mm * 60 + ss) else None
  {
    hide DayNumber, InGrammar, Timestamp, ValidDate, DateIn, Value, AllDigits;
    AtMost31(d);
    FieldsBack(d, hh, mm, ss);
  }

  lemma AtMost31(d: Date)
    requires ValidDate(d)
    ensures d.month <= 12 && d.day <= 31
  {
  }

  lemma FieldsBack(d: Date, hh: nat, mm: nat, ss: nat)
    requires d.month < 100 && d.day < 100 && hh < 100 && mm < 100 && ss < 100
    ensures var t := Timestamp(d, hh, mm, ss);
            && (d.year < 10_000 <==> InGrammar(t))
            && (InGrammar(t) ==>
                  DateIn(t) == d && Value(t[11..13]) == hh && Value(t[14..16]) == mm && Value(t[17..19]) == ss)
  {
    hide Padded, InGrammar, Timestamp, Value, AllDigits;
    TimestampFields(d, hh, mm, ss);
  }
}
