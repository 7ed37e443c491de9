/** The civil calendar of the clock driver: days since 1970-01-01 and back, in the proleptic Gregorian calendar. */
module Calendar {
  datatype Date = Date(y: int, m: int, d: int)

  // -------------------------------------------------------------------------
  // The calendar itself
  // -------------------------------------------------------------------------

  predicate Leap(y: int) {
    y % 4 == 0 && (y % 100 != 0 || y % 400 == 0)
  }

  function DaysIn(y: int, m: int): int {
    if m == 2 then if Leap(y) then 29 else 28
    else if m == 4 || m == 6 || m == 9 || m == 11 then 30 else 31
  }

  predicate Valid(t: Date) {
    1 <= t.m <= 12 && 1 <= t.d <= DaysIn(t.y, t.m)
  }

  /** The day after. */
  function Tomorrow(t: Date): (r: Date)
    requires Valid(t)
    ensures Valid(r)
  {
    if t.d < DaysIn(t.y, t.m) then Date(t.y, t.m, t.d + 1)
    else if t.m < 12 then Date(t.y, t.m + 1, 1)
    else Date(t.y + 1, 1, 1)
  }

  predicate Before(a: Date, b: Date) {
    a.y < b.y || (a.y == b.y && (a.m < b.m || (a.m == b.m && a.d < b.d)))
  }

  // -------------------------------------------------------------------------
  // The code
  // -------------------------------------------------------------------------

  /** Division as the machine does it, towards zero. */
  function Quot(a: int, b: int): int
    requires b > 0
  {
    if a >= 0 then a / b else -((-a) / b)
  }

  function DaysFromCivil(t: Date): int {
    var y := if t.m <= 2 then t.y - 1 else t.y;
    var era := Quot(if y >= 0 then y else y - 399, 400);
    var yoe := y - era * 400;
    var mp := if t.m > 2 then t.m - 3 else t.m + 9;
    var doy := (153 * mp + 2) / 5 + t.d - 1;
    var doe := yoe * 365 + yoe / 4 - yoe / 100 + doy;
    era * 146097 + doe - 719468
  }

  /** The era a day is in, counted from 0000-03-01. */
  function EraOfDay(z: int): int {
    Quot(if z >= 0 then z else z - 146096, 146097)
  }

  function YearOfEra(doe: int): int {
    (doe - doe / 1460 + doe / 36524 - doe / 146096) / 365
  }

  function MonthOf(doy: int): int {
    (5 * doy + 2) / 153
  }

  /** The date of day `doy` of the year starting in March of year `y`. */
  function FromMarch(y: int, doy: int): Date {
    var mp := MonthOf(doy);
    var m := if mp < 10 then mp + 3 else mp - 9;
    Date(y + (if m <= 2 then 1 else 0), m, doy - MonthStart(mp) + 1)
  }

  function CivilFromDays(day: int): Date {
    var z := day + 719468;
    var era := EraOfDay(z);
    var doe := z - era * 146097;
    var yoe := YearOfEra(doe);
    FromMarch(yoe + era * 400, doe - YearStart(yoe))
  }

  // -------------------------------------------------------------------------
  // Years that start in March, in eras of 400
  // -------------------------------------------------------------------------

  /** The last day, counted from 0, of the year starting in March of year `yoe` of an era: a leap day may end it. */
  function LastDay(yoe: int): int {
    if Leap(yoe + 1) then 365 else 364
  }

  function Era(y: int): (e: int)
    ensures 0 <= y - 400 * e < 400
  {
    Quot(if y >= 0 then y else y - 399, 400)
  }

  lemma EraUnique(e: int, yoe: int)
    requires 0 <= yoe < 400
    ensures Era(400 * e + yoe) == e
  {
  }

  lemma DayEraUnique(e: int, doe: int)
    requires 0 <= doe < 146097
    ensures EraOfDay(146097 * e + doe) == e
  {
  }

  /** The first day of a year within its era. */
  function YearStart(yoe: int): int {
    365 * yoe + yoe / 4 - yoe / 100
  }

  /** A year is found again from any of its days. */
  lemma YearOfDay(yoe: int, doy: int)
    requires 0 <= yoe < 400 && 0 <= doy <= LastDay(yoe)
    ensures var doe := YearStart(yoe) + doy;
      0 <= doe < 146097 && YearOfEra(doe) == yoe
  {
    hide YearOfEra;
    var c, q, r := YearParts(yoe);
    DayParts(c, q, r, doy, YearStart(yoe) + doy);
  }

  /** Centuries, leap cycles and years of a year of an era. */
  lemma YearParts(yoe: int) returns (c: int, q: int, r: int)
    requires 0 <= yoe < 400
    ensures yoe == 100 * c + 4 * q + r && 0 <= c <= 3 && 0 <= q <= 24 && 0 <= r <= 3
    ensures YearStart(yoe) == 36524 * c + 1461 * q + 365 * r
    ensures Leap(yoe + 1) <==> r == 3 && (q < 24 || c == 3)
  {
    c, q, r := yoe / 100, yoe % 100 / 4, yoe % 4;
  }

  lemma DayParts(c: int, q: int, r: int, doy: int, doe: int)
    requires 0 <= c <= 3 && 0 <= q <= 24 && 0 <= r <= 3
    requires 0 <= doy <= if r == 3 && (q < 24 || c == 3) then 365 else 364
    requires doe == 36524 * c + 1461 * q + 365 * r + doy
    ensures 0 <= doe < 146097 && YearOfEra(doe) == 100 * c + 4 * q + r
  {
    var carry := if 24 * c + q + 365 * r + doy >= 1460 then 1 else 0;
    assert doe == 1460 * (25 * c + q) + (24 * c + q + 365 * r + doy);
    assert doe / 1460 == 25 * c + q + carry;
    var last := if doe == 146096 then 1 else 0;
    assert doe / 36524 == c + last;
    assert doe / 146096 == last;
  }

  /** Every day of an era is a day of some year. */
  lemma DayOfYear(doe: int) returns (yoe: int)
    requires 0 <= doe < 146097
    ensures 0 <= yoe < 400 && 0 <= doe - YearStart(yoe) <= LastDay(yoe)
  {
    yoe := 0;
    while yoe < 399 && doe >= YearStart(yoe + 1)
      invariant 0 <= yoe < 400 && YearStart(yoe) <= doe
    {
      yoe := yoe + 1;
    }
    YearLength(yoe);
  }

  /** A year is as long as its last day says. */
  lemma YearLength(yoe: int)
    requires 0 <= yoe < 400
    ensures YearStart(yoe) + LastDay(yoe) + 1 == if yoe == 399 then 146097 else YearStart(yoe + 1)
  {
    var c, q, r := yoe / 100, yoe % 100 / 4, yoe % 4;
    assert yoe == 100 * c + 4 * q + r && 0 <= c <= 3 && 0 <= q <= 24;
    assert yoe / 4 == 25 * c + q;
    assert (yoe + 1) / 4 == 25 * c + q + (if r == 3 then 1 else 0);
    assert (yoe + 1) / 100 == c + (if q == 24 && r == 3 then 1 else 0);
  }

  // -------------------------------------------------------------------------
  // Months
  // -------------------------------------------------------------------------

  /** The days before month `mp` of a year that starts in March. */
  function MonthStart(mp: int): int {
    (153 * mp + 2) / 5
  }

  function MarchYear(t: Date): int {
    if t.m <= 2 then t.y - 1 else t.y
  }

  function MarchMonth(t: Date): int {
    if t.m > 2 then t.m - 3 else t.m + 9
  }

  /** A month is found again from any of its days. */
  lemma MonthOfDay(mp: int, d: int)
    requires 0 <= mp <= 11 && 1 <= d
    requires mp < 11 ==> MonthStart(mp) + d <= MonthStart(mp + 1)
    requires mp == 11 ==> d <= 29
    ensures MonthOf(MonthStart(mp) + d - 1) == mp
  {
    assert mp in {0, 1, 2, 3, 4, 5, 6, 7, 8, 9, 10, 11};
  }

  /** Every month has the days the code's formula gives it. */
  lemma MonthLength(t: Date)
    requires 1 <= t.m <= 12
    ensures 0 <= MarchMonth(t) <= 11
    ensures DaysIn(t.y, t.m) + MonthStart(MarchMonth(t)) ==
            if MarchMonth(t) < 11 then MonthStart(MarchMonth(t) + 1) else LastDay((t.y - 1) % 400) + 1
  {
    assert t.m in {1, 2, 3, 4, 5, 6, 7, 8, 9, 10, 11, 12};
    assert Leap((t.y - 1) % 400 + 1) == Leap(t.y) by {
      LeapRepeats((t.y - 1) / 400, (t.y - 1) % 400 + 1);
    }
  }

  lemma LeapRepeats(e: int, y: int)
    ensures Leap(400 * e + y) == Leap(y)
  {
    Remainder4(100 * e, y);
    Remainder100(4 * e, y);
    Remainder400(e, y);
  }

  lemma Remainder4(k: int, y: int)
    ensures (4 * k + y) % 4 == y % 4
  {
  }

  lemma Remainder100(k: int, y: int)
    ensures (100 * k + y) % 100 == y % 100
  {
  }

  lemma Remainder400(k: int, y: int)
    ensures (400 * k + y) % 400 == y % 400
  {
  }

  /** The days from 0000-03-01 to the start of a March year. */
  function YearDays(y: int): int {
    146097 * Era(y) + YearStart(y - 400 * Era(y))
  }

  function DayOf(t: Date): int {
    MonthStart(MarchMonth(t)) + t.d - 1
  }

  lemma DaysAre(t: Date)
    ensures DaysFromCivil(t) == YearDays(MarchYear(t)) + DayOf(t) - 719468
  {
  }

  lemma DayFits(t: Date)
    requires Valid(t)
    ensures 0 <= DayOf(t) <= LastDay(MarchYear(t) - 400 * Era(MarchYear(t)))
  {
    MonthLength(t);
    var y := MarchYear(t);
    assert MarchMonth(t) < 11 ==> MonthStart(MarchMonth(t) + 1) <= 337;
    if MarchMonth(t) == 11 {
      assert t.m == 2 && y == t.y - 1;
      EraMod(y);
    }
  }

  lemma EraMod(y: int)
    ensures y - 400 * Era(y) == y % 400
  {
  }

  /** A March year's days are where the next one starts. */
  lemma YearFollows(y: int)
    ensures YearDays(y) + LastDay(y - 400 * Era(y)) + 1 == YearDays(y + 1)
  {
    var e, yoe := Era(y), y - 400 * Era(y);
    YearLength(yoe);
    if yoe < 399 {
      EraUnique(e, yoe + 1);
    } else {
      EraUnique(e + 1, 0);
    }
  }

  // -------------------------------------------------------------------------
  // What the two functions are for
  // -------------------------------------------------------------------------

  /** 1970-01-01 is day 0, and each day's number is one more than the day before's. */
  lemma {:induction false} CountsDays(t: Date)
    requires Valid(t)
    ensures DaysFromCivil(Date(1970, 1, 1)) == 0
    ensures DaysFromCivil(Tomorrow(t)) == DaysFromCivil(t) + 1
  {
    hide YearDays, DayOf, DaysFromCivil, MarchYear, Tomorrow, DaysIn;
    var n := Tomorrow(t);
    Epoch();
    DaysAre(t);
    DaysAre(n);
    if t.d == DaysIn(t.y, t.m) && t.m == 2 {
      LeapDayEnds(t);
    } else {
      NextInYear(t);
    }
  }

  lemma Epoch()
    ensures DaysFromCivil(Date(1970, 1, 1)) == 0
  {
  }

  lemma NextInYear(t: Date)
    requires Valid(t) && !(t.d == DaysIn(t.y, t.m) && t.m == 2)
    ensures MarchYear(Tomorrow(t)) == MarchYear(t) && DayOf(Tomorrow(t)) == DayOf(t) + 1
  {
    MonthLength(t);
  }

  /** The last day of February ends a March year. */
  lemma LeapDayEnds(t: Date)
    requires Valid(t) && t.d == DaysIn(t.y, t.m) && t.m == 2
    ensures MarchYear(Tomorrow(t)) == MarchYear(t) + 1 && DayOf(Tomorrow(t)) == 0
    ensures YearDays(MarchYear(t)) + DayOf(t) + 1 == YearDays(MarchYear(t) + 1)
  {
    MonthLength(t);
    YearFollows(MarchYear(t));
    EraMod(MarchYear(t));
  }

  /** Back from the number of a day to its date. */
  lemma {:induction false} DateRoundTrip(t: Date)
    requires Valid(t)
    ensures CivilFromDays(DaysFromCivil(t)) == t
  {
    hide YearStart, FromMarch, CivilFromDays, DaysFromCivil, LastDay, DayOf, DaysIn;
    var y, doy := MarchYear(t), DayOf(t);
    var e := Era(y);
    DaysAre(t);
    DayFits(t);
    PartsBack(e, y - 400 * e, doy);
    assert CivilFromDays(DaysFromCivil(t)) == FromMarch(y, doy);
    MarchBack(t);
  }

  lemma MarchBack(t: Date)
    requires Valid(t)
    ensures FromMarch(MarchYear(t), DayOf(t)) == t
  {
    MonthLength(t);
    MonthOfDay(MarchMonth(t), t.d);
  }

  lemma PartsBack(e: int, yoe: int, doy: int)
    requires 0 <= yoe < 400 && 0 <= doy <= LastDay(yoe)
    ensures CivilFromDays(146097 * e + (YearStart(yoe) + doy) - 719468) == FromMarch(400 * e + yoe, doy)
  {
    hide YearOfEra, EraOfDay, FromMarch, CivilFromDays, YearStart, LastDay;
    YearOfDay(yoe, doy);
    DayEraUnique(e, YearStart(yoe) + doy);
    PartsJoin(146097 * e + (YearStart(yoe) + doy) - 719468, e, YearStart(yoe) + doy, yoe);
  }

  lemma PartsJoin(day: int, e: int, doe: int, yoe: int)
    requires day + 719468 == 146097 * e + doe && EraOfDay(146097 * e + doe) == e && YearOfEra(doe) == yoe
    ensures CivilFromDays(day) == FromMarch(yoe + e * 400, doe - YearStart(yoe))
  {
    hide EraOfDay, YearOfEra, YearStart, FromMarch;
    assert day + 719468 - e * 146097 == doe;
  }

  /** Every number is a date's. */
  lemma {:induction false} DayRoundTrip(day: int)
    ensures Valid(CivilFromDays(day)) && DaysFromCivil(CivilFromDays(day)) == day
  {
    var t := DateOf(day);
    DateRoundTrip(t);
  }

  lemma DateOf(day: int) returns (t: Date)
    ensures Valid(t) && DaysFromCivil(t) == day
  {
    var z := day + 719468;
    var e, doe := z / 146097, z % 146097;
    var yoe := DayOfYear(doe);
    var doy := doe - YearStart(yoe);
    EraUnique(e, yoe);
    var mp := MonthFor(doy);
    var y := 400 * e + yoe;
    t := if mp < 10 then Date(y, mp + 3, doy - MonthStart(mp) + 1) else Date(y + 1, mp - 9, doy - MonthStart(mp) + 1);
    DaysAre(t);
    MonthLength(t);
    EraMod(y);
  }

  /** The month a day of a March year is in. */
  lemma MonthFor(doy: int) returns (mp: int)
    requires 0 <= doy <= 365
    ensures 0 <= mp <= 11 && MonthStart(mp) <= doy && (mp < 11 ==> doy < MonthStart(mp + 1))
  {
    mp := 0;
    while mp < 11 && MonthStart(mp + 1) <= doy
      invariant 0 <= mp <= 11 && MonthStart(mp) <= doy
    {
      mp := mp + 1;
    }
  }

  /** Later dates have larger numbers, and only they. */
  lemma {:induction false} CountingIsMonotone(a: Date, b: Date)
    requires Valid(a) && Valid(b)
    ensures DaysFromCivil(a) < DaysFromCivil(b) <==> Before(a, b)
  {
    if Before(a, b) {
      EarlierIsLess(a, b);
    } else if a != b {
      EarlierIsLess(b, a);
    }
  }

  lemma EarlierIsLess(a: Date, b: Date)
    requires Valid(a) && Valid(b) && Before(a, b)
    ensures DaysFromCivil(a) < DaysFromCivil(b)
  {
    hide YearDays, DayOf, DaysFromCivil, YearStart, Era, LastDay, DaysIn;
    DaysAre(a);
    DaysAre(b);
    DayFits(a);
    DayFits(b);
    if MarchYear(a) == MarchYear(b) {
      EarlierInYear(a, b);
    } else {
      YearFollows(MarchYear(a));
      YearsGrow(MarchYear(a) + 1, MarchYear(b));
    }
  }

  lemma EarlierInYear(a: Date, b: Date)
    requires Valid(a) && Valid(b) && Before(a, b) && MarchYear(a) == MarchYear(b)
    ensures DayOf(a) < DayOf(b)
  {
    MonthLength(a);
    assert MarchMonth(a) < MarchMonth(b) ==> MonthStart(MarchMonth(a) + 1) <= MonthStart(MarchMonth(b));
  }

  lemma {:induction false} YearsGrow(y: int, z: int)
    requires y <= z
    ensures YearDays(y) <= YearDays(z)
    decreases z - y
  {
    if y < z {
      YearFollows(y);
      YearsGrow(y + 1, z);
    }
  }

  // -------------------------------------------------------------------------
  // Reading the hour register
  // -------------------------------------------------------------------------

  const PM: nat := 0x80

  function Bcd(v: nat): nat {
    v / 10 * 16 + v % 10
  }

  function Decode(v: nat, isBcd: bool): nat {
    if isBcd then v % 16 + v / 16 * 10 else v
  }

  /** What a 12-hour clock stores for an hour of the day. */
  function HourRegister(hour: nat, isBcd: bool): nat
    requires hour < 24
  {
    var h := if hour % 12 == 0 then 12 else hour % 12;
    (if isBcd then Bcd(h) else h) + if hour >= 12 then PM else 0
  }

  /** The flag is looked for in the decoded value. */
  function ApplyFlag(v: nat): nat {
    var pm := v / PM % 2 == 1;
    var h := v % PM;
    if pm && h < 12 then h + 12 else if !pm && h == 12 then 0 else h
  }

  /** The hour `init` computes from the register in 12-hour mode. */
  function HourRead(reg: nat, isBcd: bool): nat {
    ApplyFlag(Decode(reg, isBcd))
  }

  /** The hour comes back right exactly in binary mode or before noon; otherwise the sanity check refuses it. */
  lemma {:induction false} HourReadIff(hour: nat, isBcd: bool)
    requires hour < 24
    ensures HourRead(HourRegister(hour, isBcd), isBcd) == hour <==> !isBcd || hour < 12
    ensures HourRead(HourRegister(hour, isBcd), isBcd) <= 23 <==> !isBcd || hour < 12
  {
    if isBcd {
      BcdReads(hour);
    } else {
      BinaryReads(hour);
    }
  }

  lemma BcdReads(hour: nat)
    requires hour < 24
    ensures HourRead(HourRegister(hour, true), true) == if hour < 12 then hour else 80 + (if hour == 12 then 12 else hour - 12)
  {
    var h := if hour % 12 == 0 then 12 else hour % 12;
    hide Bcd, Decode, ApplyFlag;
    BcdDecodes(h, if hour >= 12 then 8 else 0);
    NoFlag(h + if hour >= 12 then 80 else 0);
  }

  lemma NoFlag(v: nat)
    requires v < PM
    ensures ApplyFlag(v) == if v == 12 then 0 else v
  {
  }

  /** The flag bit reads as eighty hours. */
  lemma BcdDecodes(h: nat, flag: nat)
    requires h <= 12
    ensures Decode(Bcd(h) + 16 * flag, true) == h + 10 * flag
  {
    var tens := if h >= 10 then 1 else 0;
    assert Bcd(h) == 16 * tens + (h - 10 * tens);
    assert (Bcd(h) + 16 * flag) / 16 == tens + flag && (Bcd(h) + 16 * flag) % 16 == h - 10 * tens;
  }

  lemma BinaryReads(hour: nat)
    requires hour < 24
    ensures HourRead(HourRegister(hour, false), false) == hour
  {
  }
}
