/**
 The UTC timestamp of a crash-dump entry: a day number becomes a proleptic Gregorian date by
 closed-form arithmetic on 400-year eras. The calendar it is held against is the one of
 section 3.2.1 of ISO 8601:2004: the leap-year rule, the month lengths, and "the next day".
 */
module CivilDate {
  import opened Decimal

  // ----- the calendar ------------------------------------------------------------------------------

  datatype Date = Date(y: int, m: int, d: int)

  predicate IsLeap(y: int) {
    y % 4 == 0 && (y % 100 != 0 || y % 400 == 0)
  }

  function DaysInMonth(y: int, m: int): int {
    if m == 2 then (if IsLeap(y) then 29 else 28)
    else if m == 4 || m == 6 || m == 9 || m == 11 then 30
    else 31
  }

  predicate Valid(a: Date) {
    1 <= a.m <= 12 && 1 <= a.d <= DaysInMonth(a.y, a.m)
  }

  function NextDay(a: Date): Date {
    if a.d < DaysInMonth(a.y, a.m) then Date(a.y, a.m, a.d + 1)
    else if a.m < 12 then Date(a.y, a.m + 1, 1)
    else Date(a.y + 1, 1, 1)
  }

  function DaysLater(a: Date, k: nat): Date {
    if k == 0 then a else NextDay(DaysLater(a, k - 1))
  }

  predicate Before(a: Date, b: Date) {
    a.y < b.y || (a.y == b.y && (a.m < b.m || (a.m == b.m && a.d < b.d)))
  }

  const EPOCH := Date(1970, 1, 1)

  // ----- the conversion ---------------------------------------------------------------------------

  /** Integer division that truncates toward zero. */
  function TruncDiv(a: int, b: int): int
    requires b > 0
  {
    if a >= 0 then a / b else -(-a / b)
  }

  /** The year and the day inside an era that starts on a 1st of March, from the day of the era. */
  function YearOfEra(doe: int): int {
    (doe - doe / 1460 + doe / 36524 - doe / 146096) / 365
  }

  function DayOfYear(doe: int, yoe: int): int {
    doe - (365 * yoe + yoe / 4 - yoe / 100)
  }

  /** Month counted from March, and the day of the month, from the day of such a year. */
  function MonthFromMarch(doy: int): int {
    (5 * doy + 2) / 153
  }

  function MonthStart(mp: int): int {
    (153 * mp + 2) / 5
  }

  function FromMarch(era: int, yoe: int, doy: int): Date {
    var mp := MonthFromMarch(doy);
    var d := doy - MonthStart(mp) + 1;
    var m := if mp < 10 then mp + 3 else mp - 9;
    Date(yoe + era * 400 + (if m <= 2 then 1 else 0), m, d)
  }

  function Era(z: int): int {
    TruncDiv(if z >= 0 then z else z - 146096, 146097)
  }

  function Civil(days: int): Date {
    var z := days + 719468;
    var era := Era(z);
    var doe := z - era * 146097;
    var yoe := YearOfEra(doe);
    FromMarch(era, yoe, DayOfYear(doe, yoe))
  }

  // ----- the intermediate ranges -------------------------------------------------------------------

  lemma EraFloors(z: int)
    ensures 0 <= z - Era(z) * 146097 <= 146096
  {
  }

  /** A day of the era as centuries, four-year cycles, years and days. */
  ghost predicate Split(doe: int, c: int, q: int, s: int, u: int) {
    && doe == 36524 * c + 1461 * q + 365 * s + u
    && 0 <= c <= 3 && 0 <= q <= 24 && 0 <= s <= 3 && 0 <= u <= 365
    && (u == 365 ==> s == 3 && (q == 24 ==> c == 3))
  }

  lemma CanSplit(doe: int) returns (c: int, q: int, s: int, u: int)
    requires 0 <= doe <= 146096
    ensures Split(doe, c, q, s, u)
  {
    c := if doe == 146096 then 3 else doe / 36524;
    var r := doe - 36524 * c;
    assert 0 <= r <= 36524 && (r == 36524 ==> c == 3);
    q := if r == 36524 then 24 else r / 1461;
    var t := r - 1461 * q;
    assert 0 <= t <= 1460 && 0 <= q <= 24;
    s := if t == 1460 then 3 else t / 365;
    u := t - 365 * s;
  }

  lemma SplitYear(doe: int, c: int, q: int, s: int, u: int, yoe: int)
    requires Split(doe, c, q, s, u) && yoe == 100 * c + 4 * q + s
    ensures YearOfEra(doe) == yoe && DayOfYear(doe, yoe) == u
  {
    var t := 365 * s + u;
    var e := if 24 * c + q + t >= 1460 then 1 else 0;
    assert doe == 1460 * (25 * c + q + e) + (24 * c + q + t - 1460 * e);
    assert doe / 1460 == 25 * c + q + e;
    if doe == 146096 {
      assert c == 3 && q == 24 && t == 1460;
    } else {
      assert doe / 36524 == c && doe / 146096 == 0;
    }
    assert yoe / 4 == 25 * c + q && yoe / 100 == c;
  }

  lemma MonthRanges(doy: int)
    requires 0 <= doy <= 365
    ensures 0 <= MonthFromMarch(doy) <= 11
    ensures MonthStart(MonthFromMarch(doy)) <= doy < MonthStart(MonthFromMarch(doy) + 1)
  {
  }

  /** What the ranges are, for a day of the era and its year and day. */
  ghost predicate InRange(doe: int, yoe: int, doy: int) {
    0 <= doe <= 146096 && 0 <= yoe <= 399 && 0 <= doy <= 365 && 0 <= MonthFromMarch(doy) <= 11 && (doy == 365 ==> IsLeap(yoe + 1))
  }

  lemma SplitInRange(doe: int, c: int, q: int, s: int, u: int, yoe: int)
    requires Split(doe, c, q, s, u) && doe <= 146096 && yoe == 100 * c + 4 * q + s
    ensures InRange(doe, yoe, u)
  {
    MonthRanges(u);
    if u == 365 {
      LeapAfter(yoe, c, q);
    }
  }

  lemma YearRanges(doe: int) returns (yoe: int, doy: int)
    requires 0 <= doe <= 146096
    ensures yoe == YearOfEra(doe) && doy == DayOfYear(doe, yoe) && InRange(doe, yoe, doy)
  {
    var c, q, s;
    c, q, s, doy := CanSplit(doe);
    yoe := 100 * c + 4 * q + s;
    SplitYear(doe, c, q, s, doy, yoe);
    SplitInRange(doe, c, q, s, doy, yoe);
  }

  /** Every range the computation relies on, for every day number. */
  lemma IntermediateRanges(z: int) returns (era: int, doe: int, yoe: int, doy: int)
    ensures era == Era(z) && doe == z - era * 146097 && yoe == YearOfEra(doe) && doy == DayOfYear(doe, yoe)
    ensures InRange(doe, yoe, doy)
  {
    EraFloors(z);
    era := Era(z);
    doe := z - era * 146097;
    yoe, doy := YearRanges(doe);
  }

  lemma LeapAfter(yoe: int, c: int, q: int)
    requires yoe == 100 * c + 4 * q + 3 && 0 <= c <= 3 && 0 <= q <= 24 && (q == 24 ==> c == 3)
    ensures IsLeap(yoe + 1)
  {
    assert yoe + 1 == 4 * (25 * c + q + 1);
    if q < 24 {
      assert (yoe + 1) % 100 == 4 * (q + 1);
    }
  }

  lemma Remainder4(y: int, k: int)
    ensures (y + 4 * k) % 4 == y % 4
  {
  }

  lemma Remainder100(y: int, k: int)
    ensures (y + 100 * k) % 100 == y % 100
  {
  }

  lemma Remainder400(y: int, k: int)
    ensures (y + 400 * k) % 400 == y % 400 && (y + 400 * k) / 400 == y / 400 + k
  {
  }

  lemma LeapInEveryEra(y: int, era: int)
    ensures IsLeap(y + 400 * era) <==> IsLeap(y)
  {
    Remainder4(y, 100 * era);
    Remainder100(y, 4 * era);
    Remainder400(y, era);
  }

  // ----- the inverse -------------------------------------------------------------------------------

  function MarchYear(a: Date): int {
    if a.m <= 2 then a.y - 1 else a.y
  }

  function MarchMonth(m: int): int {
    if m > 2 then m - 3 else m + 9
  }

  function MarchDay(a: Date): int {
    MonthStart(MarchMonth(a.m)) + a.d - 1
  }

  /** The days in the whole years before year `yoe` of an era. */
  function YearStart(yoe: int): int {
    365 * yoe + yoe / 4 - yoe / 100
  }

  /** The day number of a date, 0 for the epoch. */
  function Count(a: Date): int {
    MarchYear(a) / 400 * 146097 + YearStart(MarchYear(a) % 400) + MarchDay(a) - 719468
  }

  /** The date of a March-based year and day, and back. */
  lemma FromMarchInverts(a: Date)
    requires Valid(a)
    ensures 0 <= MarchDay(a) <= 365
    ensures FromMarch(MarchYear(a) / 400, MarchYear(a) % 400, MarchDay(a)) == a
    ensures MarchDay(a) == 365 ==> a.m == 2 && a.d == 29
  {
    assert MonthFromMarch(MarchDay(a)) == MarchMonth(a.m);
  }

  /** A year and a day inside it that the conversion can arrive at. */
  ghost predicate IsPart(yoe: int, doy: int) {
    0 <= yoe <= 399 && 0 <= doy <= 365 && (doy == 365 ==> IsLeap(yoe + 1))
  }

  lemma MarchInverts(era: int, yoe: int, doy: int)
    requires IsPart(yoe, doy)
    ensures var a := FromMarch(era, yoe, doy);
            Valid(a) && MarchYear(a) == yoe + 400 * era && MarchDay(a) == doy
  {
    MonthRanges(doy);
    LeapInEveryEra(yoe + 1, era);
    var a := FromMarch(era, yoe, doy);
    assert a.y == if a.m <= 2 then yoe + 1 + 400 * era else yoe + 400 * era;
  }

  lemma EraOfYear(y: int, era: int, yoe: int)
    requires y == yoe + 400 * era && 0 <= yoe <= 399
    ensures y / 400 == era && y % 400 == yoe
  {
  }

  lemma CountOfParts(a: Date, era: int, yoe: int, doy: int)
    requires MarchYear(a) == yoe + 400 * era && 0 <= yoe <= 399 && MarchDay(a) == doy
    ensures Count(a) == era * 146097 + YearStart(yoe) + doy - 719468
  {
    EraOfYear(MarchYear(a), era, yoe);
  }

  lemma CivilOf(days: int, era: int, doe: int, yoe: int, doy: int, a: Date)
    requires era == Era(days + 719468) && doe == days + 719468 - era * 146097
    requires yoe == YearOfEra(doe) && doy == DayOfYear(doe, yoe) && a == FromMarch(era, yoe, doy)
    ensures Civil(days) == a
  {
  }

  lemma CivilParts(days: int) returns (era: int, yoe: int, doy: int, a: Date)
    ensures IsPart(yoe, doy) && days + 719468 == era * 146097 + YearStart(yoe) + doy
    ensures Civil(days) == a && a == FromMarch(era, yoe, doy)
  {
    var doe;
    era, doe, yoe, doy := IntermediateRanges(days + 719468);
    a := FromMarch(era, yoe, doy);
    CivilOf(days, era, doe, yoe, doy, a);
  }

  /** The computed date is a valid one, and its day number is the one it was computed from. */
  lemma CivilIsValid(days: int)
    ensures Valid(Civil(days)) && Count(Civil(days)) == days
  {
    var era, yoe, doy, a := CivilParts(days);
    MarchInverts(era, yoe, doy);
    CountOfParts(a, era, yoe, doy);
  }

  lemma EraOf(z: int, era: int, doe: int)
    requires 0 <= doe <= 146096 && z == era * 146097 + doe
    ensures Era(z) == era
  {
  }

  lemma YearStartSplits(yoe: int, u: int) returns (c: int, q: int, s: int)
    requires 0 <= yoe <= 399 && 0 <= u <= 365 && (u == 365 ==> IsLeap(yoe + 1))
    ensures Split(YearStart(yoe) + u, c, q, s, u) && yoe == 100 * c + 4 * q + s
    ensures 0 <= YearStart(yoe) + u <= 146096
  {
    c, q, s := yoe / 100, yoe % 100 / 4, yoe % 4;
    var r := yoe % 100;
    assert yoe == 100 * c + r && r == 4 * q + r % 4;
    assert s == r % 4 && yoe / 4 == 25 * c + q;
    if u == 365 {
      assert (yoe + 1) % 4 == 0;
      assert s == 3;
      if q == 24 {
        assert yoe + 1 == 100 * (c + 1);
      }
    }
  }

  lemma PartsOf(z: int, era: int, yoe: int, doy: int, doe: int)
    requires IsPart(yoe, doy) && doe == YearStart(yoe) + doy && z == era * 146097 + doe
    ensures Era(z) == era && YearOfEra(doe) == yoe && DayOfYear(doe, yoe) == doy
  {
    var c, q, s := YearStartSplits(yoe, doy);
    SplitYear(doe, c, q, s, doy, yoe);
    EraOf(z, era, doe);
  }

  lemma LeapYearDay(a: Date, era: int, yoe: int)
    requires Valid(a) && MarchYear(a) == yoe + 400 * era
    ensures 0 <= MarchDay(a) <= 365 && (MarchDay(a) == 365 ==> IsLeap(yoe + 1))
  {
    FromMarchInverts(a);
    LeapInEveryEra(yoe + 1, era);
  }

  lemma CivilFromParts(days: int, era: int, yoe: int, doy: int, a: Date)
    requires IsPart(yoe, doy)
    requires days + 719468 == era * 146097 + YearStart(yoe) + doy
    requires a == FromMarch(era, yoe, doy)
    ensures Civil(days) == a
  {
    var doe := YearStart(yoe) + doy;
    PartsOf(days + 719468, era, yoe, doy, doe);
    CivilOf(days, era, doe, yoe, doy, a);
  }

  lemma DateParts(a: Date, days: int) returns (era: int, yoe: int, doy: int)
    requires Valid(a) && Count(a) == days
    ensures IsPart(yoe, doy)
    ensures days + 719468 == era * 146097 + YearStart(yoe) + doy
    ensures a == FromMarch(era, yoe, doy)
  {
    era, yoe, doy := MarchYear(a) / 400, MarchYear(a) % 400, MarchDay(a);
    LeapYearDay(a, era, yoe);
    FromMarchInverts(a);
  }

  /** Every valid date is computed, from its day number and no other. */
  lemma CivilReachesEveryDate(a: Date, days: int)
    requires Valid(a) && Count(a) == days
    ensures Civil(days) == a
  {
    var era, yoe, doy := DateParts(a, days);
    CivilFromParts(days, era, yoe, doy, a);
  }

  // ----- day after day --------------------------------------------------------------------------------

  lemma YearsFollow(y: int)
    ensures (y + 1) / 400 * 146097 + YearStart((y + 1) % 400) ==
            y / 400 * 146097 + YearStart(y % 400) + (if IsLeap(y + 1) then 366 else 365)
  {
    var era, yoe := y / 400, y % 400;
    LeapInEveryEra(yoe + 1, era);
    assert y + 1 == yoe + 1 + 400 * era;
    if yoe == 399 {
      assert (y + 1) / 400 == era + 1 && (y + 1) % 400 == 0;
    } else {
      assert (y + 1) / 400 == era && (y + 1) % 400 == yoe + 1;
      YearStartFollows(yoe);
    }
  }

  lemma YearStartFollows(yoe: int)
    requires 0 <= yoe < 399
    ensures YearStart(yoe + 1) == YearStart(yoe) + (if IsLeap(yoe + 1) then 366 else 365)
  {
    assert (yoe + 1) / 4 == yoe / 4 + if (yoe + 1) % 4 == 0 then 1 else 0;
    assert (yoe + 1) / 100 == yoe / 100 + if (yoe + 1) % 100 == 0 then 1 else 0;
    if (yoe + 1) % 100 == 0 {
      var h := (yoe + 1) / 100;
      assert yoe + 1 == 100 * h && 1 <= h <= 3;
      assert (yoe + 1) % 4 == 0;
    }
  }

  lemma MonthsFollow(y: int, m: int)
    requires 1 <= m <= 12 && m != 2
    ensures MonthStart(MarchMonth(if m == 12 then 1 else m + 1)) == MonthStart(MarchMonth(m)) + DaysInMonth(y, m)
  {
  }

  lemma FebruaryEnds(a: Date)
    requires a.m == 2 && a.d == DaysInMonth(a.y, 2)
    ensures Count(Date(a.y, 3, 1)) == Count(a) + 1
  {
    YearsFollow(a.y - 1);
    assert MarchDay(a) == if IsLeap(a.y) then 365 else 364;
  }

  lemma CountFollows(a: Date)
    requires Valid(a)
    ensures Valid(NextDay(a)) && Count(NextDay(a)) == Count(a) + 1 && Before(a, NextDay(a))
  {
    if a.d == DaysInMonth(a.y, a.m) {
      if a.m == 2 {
        FebruaryEnds(a);
      } else {
        MonthsFollow(a.y, a.m);
        assert MarchYear(NextDay(a)) == MarchYear(a);
      }
    } else {
      assert MarchYear(NextDay(a)) == MarchYear(a);
    }
  }

  lemma NextComputed(days: int, a: Date)
    requires Valid(a) && Count(a) == days
    ensures Civil(days + 1) == NextDay(a)
  {
    CountFollows(a);
    CivilReachesEveryDate(NextDay(a), days + 1);
  }

  /** Day 0 is the epoch, and every number gives a valid date, the day after that of the number before. */
  ghost predicate IsCalendar(date: int -> Date) {
    && date(0) == EPOCH
    && forall z :: Valid(date(z)) && date(z + 1) == NextDay(date(z))
  }

  lemma CivilFollows(days: int)
    ensures Valid(Civil(days)) && Civil(days + 1) == NextDay(Civil(days))
  {
    CivilIsValid(days);
    NextComputed(days, Civil(days));
  }

  lemma CivilOfZero()
    ensures Civil(0) == EPOCH
  {
    CivilReachesEveryDate(EPOCH, 0);
  }

  /** The closed form is the calendar. */
  lemma CivilIsTheCalendar()
    ensures IsCalendar(Civil)
  {
    CivilOfZero();
    forall z ensures Valid(Civil(z)) && Civil(z + 1) == NextDay(Civil(z)) {
      CivilFollows(z);
    }
  }

  lemma {:induction false} CalendarCountsDays(date: int -> Date, z: int, k: nat)
    requires IsCalendar(date)
    ensures date(z + k) == DaysLater(date(z), k)
  {
    if k > 0 {
      CalendarCountsDays(date, z, k - 1);
      assert date(z + (k - 1) + 1) == NextDay(date(z + (k - 1)));
    }
  }

  /** A calendar date is as many days from 1970-01-01 as its number says, in either direction. */
  lemma DaysFromEpoch(date: int -> Date, z: int)
    requires IsCalendar(date)
    ensures z >= 0 ==> date(z) == DaysLater(EPOCH, z)
    ensures z < 0 ==> DaysLater(date(z), -z) == EPOCH
  {
    if z >= 0 {
      CalendarCountsDays(date, 0, z);
    } else {
      CalendarCountsDays(date, z, -z);
    }
  }

  lemma {:induction false} LaterIsAfter(date: int -> Date, z: int, k: nat)
    requires IsCalendar(date) && k > 0
    ensures Before(date(z), date(z + k))
  {
    var last := z + (k - 1);
    assert date(last + 1) == NextDay(date(last));
    if k > 1 {
      LaterIsAfter(date, z, k - 1);
    }
  }

  /** Dates compare as their day numbers do; so no two day numbers share a date. */
  lemma CalendarOrder(date: int -> Date, a: int, b: int)
    requires IsCalendar(date)
    ensures Before(date(a), date(b)) <==> a < b
    ensures date(a) == date(b) <==> a == b
  {
    if a < b {
      LaterIsAfter(date, a, b - a);
    } else if b < a {
      LaterIsAfter(date, b, a - b);
    }
  }

  lemma CivilIsDaysFromEpoch(days: int)
    ensures days >= 0 ==> Civil(days) == DaysLater(EPOCH, days)
    ensures days < 0 ==> DaysLater(Civil(days), -days) == EPOCH
  {
    CivilIsTheCalendar();
    DaysFromEpoch(Civil, days);
  }

  lemma CivilKeepsOrder(a: int, b: int)
    ensures Before(Civil(a), Civil(b)) <==> a < b
    ensures Civil(a) == Civil(b) <==> a == b
  {
    CivilIsTheCalendar();
    CalendarOrder(Civil, a, b);
  }

  // ----- the timestamp ------------------------------------------------------------------------------

  datatype Stamp = Stamp(date: Date, hh: int, mm: int, ss: int)

  /** A cast to a signed 64-bit integer. */
  function AsI64(n: nat): int {
    var low := n % 0x1_0000_0000_0000_0000;
    if low < 0x8000_0000_0000_0000 then low else low - 0x1_0000_0000_0000_0000
  }

  function StampOf(secs: int): Stamp {
    var tod := secs % 86400;
    Stamp(Civil(secs / 86400), tod / 3600, tod % 3600 / 60, tod % 60)
  }

  function Text(s: Stamp): string {
    Layout(Padded(s.date.y, 4), Padded(s.date.m, 2), Padded(s.date.d, 2), Padded(s.hh, 2), Padded(s.mm, 2), Padded(s.ss, 2))
  }

  function Layout(y: string, m: string, d: string, hh: string, mm: string, ss: string): string {
    y + "-" + m + "-" + d + " " + hh + ":" + mm + ":" + ss + " UTC"
  }

  function FmtUtcMs(ms: nat): string {
    Text(StampOf(AsI64(ms / 1000)))
  }

  predicate StampValid(s: Stamp) {
    Valid(s.date) && 0 <= s.hh < 24 && 0 <= s.mm < 60 && 0 <= s.ss < 60
  }

  lemma TimeOfDay(tod: int)
    requires 0 <= tod < 86400
    ensures tod == 3600 * (tod / 3600) + 60 * (tod % 3600 / 60) + tod % 60
    ensures 0 <= tod / 3600 < 24 && 0 <= tod % 3600 / 60 < 60
  {
    var r := tod % 3600;
    assert tod == 3600 * (tod / 3600) + r && r == 60 * (r / 60) + r % 60;
    assert tod % 60 == r % 60;
  }

  /** A stamp is a valid date and time of day, and stands for its second. */
  lemma StampIsTheSecond(secs: int)
    ensures var s := StampOf(secs);
            StampValid(s) && Count(s.date) * 86400 + 3600 * s.hh + 60 * s.mm + s.ss == secs
  {
    CivilIsValid(secs / 86400);
    TimeOfDay(secs % 86400);
  }

  lemma FieldAt(s: string, front: string, field: string)
    requires front + field <= s
    ensures s[|front|..|front| + |field|] == field
  {
    assert s[..|front| + |field|] == front + field;
    assert s[|front|..|front| + |field|] == s[..|front| + |field|][|front|..];
  }

  lemma PrefixOfPrefix(a: string, b: string, s: string)
    requires a <= b <= s
    ensures a <= s
  {
    assert s[..|b|][..|a|] == s[..|a|];
  }

  /** Two-character fields have their places, counted from the end. */
  lemma LayoutHasFields(y: string, m: string, d: string, hh: string, mm: string, ss: string)
    requires |m| == |d| == |hh| == |mm| == |ss| == 2
    ensures var s := Layout(y, m, d, hh, mm, ss);
            var n := |s|;
            && n == |y| + 19 && s[..n - 19] == y && s[n - 18..n - 16] == m && s[n - 15..n - 13] == d
            && s[n - 12..n - 10] == hh && s[n - 9..n - 7] == mm && s[n - 6..n - 4] == ss
  {
    var toMonth := y + "-";
    var toDay := toMonth + m + "-";
    var toHour := toDay + d + " ";
    var toMinute := toHour + hh + ":";
    var toSecond := toMinute + mm + ":";
    var s := toSecond + ss + " UTC";
    assert s == Layout(y, m, d, hh, mm, ss);
    FieldAt(s, toSecond, ss);
    PrefixOfPrefix(toMinute + mm, toSecond, s);
    FieldAt(s, toMinute, mm);
    PrefixOfPrefix(toHour + hh, toMinute, s);
    FieldAt(s, toHour, hh);
    PrefixOfPrefix(toDay + d, toHour, s);
    FieldAt(s, toDay, d);
    PrefixOfPrefix(toMonth + m, toDay, s);
    FieldAt(s, toMonth, m);
    PrefixOfPrefix(y, toMonth, s);
  }

  /** The two characters of a row of digits stand for `n`. */
  predicate Reads(digits: string, n: int) {
    |digits| == 2 && AllDigits(digits) && Value(digits) == n
  }

  lemma TwoDigitsRead(n: int)
    requires 0 <= n < 100
    ensures Reads(Padded(n, 2), n)
  {
    TwoDigits(n);
    FilledHasValue(n, 2);
  }

  /** Year, month, day, hour, minute and second stand at their places in the text. */
  predicate Shows(s: string, a: Stamp) {
    var n := |s|;
    && n > 19 && s[..n - 19] == Padded(a.date.y, 4)
    && Reads(s[n - 18..n - 16], a.date.m) && Reads(s[n - 15..n - 13], a.date.d)
    && Reads(s[n - 12..n - 10], a.hh) && Reads(s[n - 9..n - 7], a.mm) && Reads(s[n - 6..n - 4], a.ss)
  }

  lemma TextShowsTheStamp(a: Stamp)
    requires StampValid(a)
    ensures Shows(Text(a), a)
    ensures a.date.y >= 0 ==> AllDigits(Padded(a.date.y, 4)) && Value(Padded(a.date.y, 4)) == a.date.y
  {
    TwoDigitsRead(a.date.m);
    TwoDigitsRead(a.date.d);
    TwoDigitsRead(a.hh);
    TwoDigitsRead(a.mm);
    TwoDigitsRead(a.ss);
    LayoutHasFields(Padded(a.date.y, 4), Padded(a.date.m, 2), Padded(a.date.d, 2), Padded(a.hh, 2), Padded(a.mm, 2), Padded(a.ss, 2));
    if a.date.y >= 0 {
      FilledHasValue(a.date.y, 4);
    } else {
      FilledHasValue(-a.date.y, 3);
    }
  }

  lemma ShowsOneStamp(s: string, a: Stamp, b: Stamp)
    requires Shows(s, a) && Shows(s, b)
    ensures a == b
  {
    PaddedIsInjective(a.date.y, b.date.y, 4);
  }

  lemma TextIsInjective(a: Stamp, b: Stamp)
    requires StampValid(a) && StampValid(b) && Text(a) == Text(b)
    ensures a == b
  {
    TextShowsTheStamp(a);
    TextShowsTheStamp(b);
    ShowsOneStamp(Text(a), a, b);
  }

  /** Two entries carry the same text exactly when they are of the same second. */
  lemma TextNamesItsSecond(a: nat, b: nat)
    ensures FmtUtcMs(a) == FmtUtcMs(b) <==> AsI64(a / 1000) == AsI64(b / 1000)
  {
    if FmtUtcMs(a) == FmtUtcMs(b) {
      SameTextSameSecond(AsI64(a / 1000), AsI64(b / 1000));
    }
  }

  /**
   The text shows the date and time of day of the entry's second; a time that fits the cast is
   shown as itself: so many days after 1970-01-01, and the rest as hours, minutes and seconds.
   */
  lemma TextShowsItsSecond(ms: nat) returns (s: Stamp)
    ensures StampValid(s) && Shows(FmtUtcMs(ms), s)
    ensures Count(s.date) * 86400 + 3600 * s.hh + 60 * s.mm + s.ss == AsI64(ms / 1000)
    ensures ms / 1000 < 0x8000_0000_0000_0000 ==>
              && s.date == DaysLater(EPOCH, ms / 86400000)
              && 3600000 * s.hh + 60000 * s.mm + 1000 * s.ss + ms % 1000 == ms % 86400000
  {
    s := StampOf(AsI64(ms / 1000));
    StampIsTheSecond(AsI64(ms / 1000));
    TextShowsTheStamp(s);
    if ms / 1000 < 0x8000_0000_0000_0000 {
      StampOfTime(ms / 1000);
      MillisSplit(ms, s.hh, s.mm, s.ss);
    }
  }

  /** The cast keeps what fits, and wraps. */
  lemma CastWraps(n: nat)
    ensures n < 0x8000_0000_0000_0000 ==> AsI64(n) == n
    ensures -0x8000_0000_0000_0000 <= AsI64(n) < 0x8000_0000_0000_0000
    ensures exists k: nat :: AsI64(n) == n - k * 0x1_0000_0000_0000_0000
  {
    var k := n / 0x1_0000_0000_0000_0000;
    assert n == k * 0x1_0000_0000_0000_0000 + n % 0x1_0000_0000_0000_0000;
    assert AsI64(n) == n - k * 0x1_0000_0000_0000_0000 || AsI64(n) == n - (k + 1) * 0x1_0000_0000_0000_0000;
  }

  lemma StampOfTime(secs: nat)
    requires secs < 0x8000_0000_0000_0000
    ensures var s := StampOf(AsI64(secs));
            s.date == DaysLater(EPOCH, secs / 86400) && 3600 * s.hh + 60 * s.mm + s.ss == secs % 86400
  {
    CastWraps(secs);
    CivilIsDaysFromEpoch(secs / 86400);
    TimeOfDay(secs % 86400);
  }

  lemma MillisSplit(ms: nat, hh: int, mm: int, ss: int)
    requires 3600 * hh + 60 * mm + ss == ms / 1000 % 86400
    ensures ms / 86400000 == ms / 1000 / 86400
    ensures 3600000 * hh + 60000 * mm + 1000 * ss + ms % 1000 == ms % 86400000
  {
    assert ms == 1000 * (ms / 1000) + ms % 1000;
  }

  lemma SameTextSameSecond(a: int, b: int)
    requires Text(StampOf(a)) == Text(StampOf(b))
    ensures a == b
  {
    StampIsTheSecond(a);
    StampIsTheSecond(b);
    TextIsInjective(StampOf(a), StampOf(b));
  }
}
