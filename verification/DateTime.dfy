/** Timestamps and their ISO-8601 text in UTC. */
module DateTime {
  import opened Text

  // ---------------------------------------------------------------- the Gregorian calendar

  /** Broken-down time; months and days count from one. */
  datatype Tm = Tm(year: int, month: int, day: int, hour: int, min: int, sec: int)

  predicate IsLeap(y: int) { y % 4 == 0 && (y % 100 != 0 || y % 400 == 0) }

  function YearDays(y: int): int { if IsLeap(y) then 366 else 365 }

  function MonthDays(y: int, m: int): int {
    if m == 2 then (if IsLeap(y) then 29 else 28)
    else if m == 4 || m == 6 || m == 9 || m == 11 then 30
    else 31
  }

  ghost predicate ValidTm(t: Tm) {
    && 1 <= t.month <= 12 && 1 <= t.day <= MonthDays(t.year, t.month)
    && 0 <= t.hour < 24 && 0 <= t.min < 60 && 0 <= t.sec < 60
  }

  /** Days from the Epoch to the first of January, by the closed formula of section 4.16 of the Base
      Definitions volume of POSIX.1-2017. */
  function DaysBeforeYear(y: int): int {
    (y - 1970) * 365 + (y - 1969) / 4 - (y - 1901) / 100 + (y - 1601) / 400
  }

  function DaysBeforeMonth(y: int, m: int): int
    requires 1 <= m <= 12
  {
    if m == 1 then 0 else DaysBeforeMonth(y, m - 1) + MonthDays(y, m - 1)
  }

  /** Seconds since the Epoch of a broken-down UTC time. */
  function Seconds(t: Tm): int
    requires 1 <= t.month <= 12
  {
    86400 * (DaysBeforeYear(t.year) + DaysBeforeMonth(t.year, t.month) + t.day - 1)
    + 3600 * t.hour + 60 * t.min + t.sec
  }

  lemma FourYears(y: int)
    ensures (y - 1968) / 4 == (y - 1969) / 4 + if y % 4 == 0 then 1 else 0
  {
  }

  lemma Century(y: int)
    ensures (y - 1900) / 100 == (y - 1901) / 100 + if y % 100 == 0 then 1 else 0
  {
    var q, r := y / 100, y % 100;
    assert y == 100 * q + r;
    assert (y - 1900) / 100 == q - 19;
    assert (y - 1901) / 100 == if r == 0 then q - 20 else q - 19;
  }

  lemma FourCenturies(y: int)
    ensures (y - 1600) / 400 == (y - 1601) / 400 + if y % 400 == 0 then 1 else 0
  {
    var q, r := y / 400, y % 400;
    assert y == 400 * q + r;
    assert (y - 1600) / 400 == q - 4;
    assert (y - 1601) / 400 == if r == 0 then q - 5 else q - 4;
  }

  lemma CenturyIsFour(y: int)
    ensures y % 100 == 0 ==> y % 4 == 0
  {
    if y % 100 == 0 {
      assert y == 4 * (25 * (y / 100));
    }
  }

  lemma FourCenturiesIsCentury(y: int)
    ensures y % 400 == 0 ==> y % 100 == 0
  {
    if y % 400 == 0 {
      assert y == 100 * (4 * (y / 400));
    }
  }

  /** The closed formula counts year by year. */
  lemma YearStep(y: int)
    ensures DaysBeforeYear(y + 1) == DaysBeforeYear(y) + YearDays(y)
  {
    FourYears(y);
    Century(y);
    FourCenturies(y);
    CenturyIsFour(y);
    FourCenturiesIsCentury(y);
  }

  /** Twelve months make a year. */
  lemma YearMonths(y: int)
    ensures DaysBeforeMonth(y, 12) + MonthDays(y, 12) == YearDays(y)
  {
    var feb := MonthDays(y, 2);
    assert DaysBeforeMonth(y, 2) == 31;
    assert DaysBeforeMonth(y, 3) == 31 + feb;
    assert DaysBeforeMonth(y, 4) == 62 + feb;
    assert DaysBeforeMonth(y, 5) == 92 + feb;
    assert DaysBeforeMonth(y, 6) == 123 + feb;
    assert DaysBeforeMonth(y, 7) == 153 + feb;
    assert DaysBeforeMonth(y, 8) == 184 + feb;
    assert DaysBeforeMonth(y, 9) == 215 + feb;
    assert DaysBeforeMonth(y, 10) == 245 + feb;
    assert DaysBeforeMonth(y, 11) == 276 + feb;
    assert DaysBeforeMonth(y, 12) == 306 + feb;
  }

  /** Walk from year `y` to the year that contains day `d` of year `y`. */
  function YearAt(y: int, d: nat): (r: (int, nat))
    ensures r.1 < YearDays(r.0)
    decreases d
  {
    if d < YearDays(y) then (y, d) else YearAt(y + 1, d - YearDays(y))
  }

  /** Walk from month `m` to the month that contains day `d` counted from its first. */
  function MonthAt(y: int, m: int, d: nat): (r: (int, nat))
    requires 1 <= m <= 12 && DaysBeforeMonth(y, m) + d < YearDays(y)
    ensures m <= r.0 <= 12 && r.1 < MonthDays(y, r.0)
    ensures DaysBeforeMonth(y, r.0) + r.1 == DaysBeforeMonth(y, m) + d
    decreases 12 - m
  {
    YearMonths(y);
    if d < MonthDays(y, m) then (m, d) else MonthAt(y, m + 1, d - MonthDays(y, m))
  }

  /** `gmtime_r`: the calendar walk from 1970 on. */
  function Gmtime(t: nat): Tm {
    var (y, yday) := YearAt(1970, t / 86400);
    var (m, mday) := MonthAt(y, 1, yday);
    var s := t % 86400;
    Tm(y, m, mday + 1, s / 3600, s % 3600 / 60, s % 60)
  }

  lemma {:induction false} YearAtCounts(y: int, d: nat)
    ensures var (r, rest) := YearAt(y, d); DaysBeforeYear(r) + rest == DaysBeforeYear(y) + d && r >= y
    decreases d
  {
    if d >= YearDays(y) {
      YearStep(y);
      YearAtCounts(y + 1, d - YearDays(y));
    }
  }

  /** The calendar walk inverts the closed formula. */
  lemma SecondsOfGmtime(t: nat)
    ensures ValidTm(Gmtime(t)) && Gmtime(t).year >= 1970
    ensures Seconds(Gmtime(t)) == t
  {
    YearAtCounts(1970, t / 86400);
    assert DaysBeforeYear(1970) == 0;
    var s := t % 86400;
    assert s == 3600 * (s / 3600) + 60 * (s % 3600 / 60) + s % 60;
  }

  lemma {:induction false} YearAtUnique(y: int, target: int, rest: nat)
    requires y <= target && rest < YearDays(target) && DaysBeforeYear(target) >= DaysBeforeYear(y)
    ensures YearAt(y, DaysBeforeYear(target) + rest - DaysBeforeYear(y)) == (target, rest)
    decreases target - y
  {
    if y < target {
      YearStep(y);
      YearsGrow(y + 1, target);
      YearAtUnique(y + 1, target, rest);
    }
  }

  lemma {:induction false} YearsGrow(y: int, target: int)
    requires y <= target
    ensures DaysBeforeYear(y) <= DaysBeforeYear(target)
    decreases target - y
  {
    if y < target {
      YearStep(y);
      YearsGrow(y + 1, target);
    }
  }

  lemma {:induction false} MonthAtUnique(y: int, m: int, target: int, rest: nat)
    requires 1 <= m <= target <= 12 && rest < MonthDays(y, target)
    ensures DaysBeforeMonth(y, m) <= DaysBeforeMonth(y, target)
    ensures DaysBeforeMonth(y, target) + rest < YearDays(y)
    ensures MonthAt(y, m, DaysBeforeMonth(y, target) + rest - DaysBeforeMonth(y, m)) == (target, rest)
    decreases target - m
  {
    hide MonthDays, YearDays;
    MonthFits(y, target);
    if m < target {
      MonthAtUnique(y, m + 1, target, rest);
      MonthPositive(y, m);
    }
  }

  lemma MonthPositive(y: int, m: int)
    ensures MonthDays(y, m) > 0
  {
  }

  lemma {:induction false} MonthFits(y: int, m: int)
    requires 1 <= m <= 12
    ensures DaysBeforeMonth(y, m) + MonthDays(y, m) <= YearDays(y)
    decreases 12 - m
  {
    if m == 12 {
      YearMonths(y);
    } else {
      MonthFits(y, m + 1);
    }
  }

  lemma Epoch()
    ensures DaysBeforeYear(1970) == 0 && forall y :: DaysBeforeMonth(y, 1) == 0
  {
  }

  /** The closed formula inverts the calendar walk: the two are mutually inverse. */
  lemma GmtimeOfSeconds(t: Tm)
    requires ValidTm(t) && t.year >= 1970
    ensures Seconds(t) >= 0 && Gmtime(Seconds(t)) == t
  {
    hide DaysBeforeYear, DaysBeforeMonth, YearAt, MonthAt;
    YearsGrow(1970, t.year);
    Epoch();
    MonthAtUnique(t.year, 1, t.month, t.day - 1);
    var yday := DaysBeforeMonth(t.year, t.month) + t.day - 1;
    var days := DaysBeforeYear(t.year) + yday;
    SplitSeconds(days, t.hour, t.min, t.sec);
    YearAtUnique(1970, t.year, yday);
  }

  lemma SplitSeconds(days: nat, h: nat, m: nat, s: nat)
    requires h < 24 && m < 60 && s < 60
    ensures var t := 86400 * days + 3600 * h + 60 * m + s;
            && t / 86400 == days
            && t % 86400 / 3600 == h && t % 86400 % 3600 / 60 == m && t % 86400 % 60 == s
  {
    var r := 3600 * h + 60 * m + s;
    assert (86400 * days + r) / 86400 == days && (86400 * days + r) % 86400 == r;
  }

  // ---------------------------------------------------------------- text

  function Pad2(n: nat): string
    requires n < 100
  {
    [DigitChar(n / 10), DigitChar(n % 10)]
  }

  /** `put_time` with the format `%Y-%m-%dT%TZ`. */
  function Iso(t: Tm): string
    requires ValidTm(t) && t.year >= 0
  {
    Digits(t.year) + ("-" + (Pad2(t.month) + ("-" + (Pad2(t.day) + ("T" +
      (Pad2(t.hour) + (":" + (Pad2(t.min) + (":" + (Pad2(t.sec) + "Z"))))))))))
  }

  /** At most `len` digits of `s`, and what follows them. */
  function ReadDigits(s: string, len: nat, acc: nat): (nat, string) {
    if len > 0 && s != [] && IsDigit(s[0]) then ReadDigits(s[1..], len - 1, 10 * acc + DigitValue(s[0]))
    else (acc, s)
  }

  /** One numeric field of `get_time`: at least one digit, at most `len`, and a value in range. */
  function ReadNum(s: string, lo: int, hi: int, len: nat): Option<(int, string)> {
    var (v, rest) := ReadDigits(s, len, 0);
    if |rest| < |s| && lo <= v <= hi then Some((v, rest)) else None
  }

  function ReadChar(s: string, c: char): Option<string> {
    if s != [] && s[0] == c then Some(s[1..]) else None
  }

  function SkipSpace(s: string): string {
    if s != [] && s[0] in " \t\n\r" then SkipSpace(s[1..]) else s
  }

  /** One numeric field followed by the separator `c`. */
  function ReadField(s: string, lo: int, hi: int, len: nat, c: char): Option<(int, string)> {
    match ReadNum(s, lo, hi, len)
    case None => None
    case Some((v, rest)) =>
      match ReadChar(rest, c)
      case None => None
      case Some(r) => Some((v, r))
  }

  /** `get_time` with the format `%Y-%m-%dT%T`; day numbers are not checked against the month. */
  function ReadTm(s: string): (r: Option<(Tm, string)>)
    ensures r.Some? ==> 1 <= r.value.0.month <= 12
  {
    match ReadField(SkipSpace(s), 0, 9999, 4, '-')
    case None => None
    case Some((y, s1)) =>
      match ReadField(s1, 1, 12, 2, '-')
      case None => None
      case Some((m, s2)) =>
        match ReadField(s2, 1, 31, 2, 'T')
        case None => None
        case Some((d, s3)) =>
          match ReadField(s3, 0, 23, 2, ':')
          case None => None
          case Some((h, s4)) =>
            match ReadField(s4, 0, 59, 2, ':')
            case None => None
            case Some((mi, s5)) =>
              match ReadNum(s5, 0, 60, 2)
              case None => None
              case Some((sec, s6)) => Some((Tm(y, m, d, h, mi, sec), s6))
  }

  /** The same with a closing `Z`. */
  function ReadTmZ(s: string): (r: Option<(Tm, string)>)
    ensures r.Some? ==> 1 <= r.value.0.month <= 12
  {
    match ReadTm(s)
    case None => None
    case Some((t, rest)) => if ReadChar(rest, 'Z').Some? then Some((t, rest[1..])) else None
  }

  lemma ReadPad2(n: nat, lo: int, hi: int, rest: string)
    requires n < 100 && lo <= n <= hi
    ensures ReadNum(Pad2(n) + rest, lo, hi, 2) == Some((n, rest))
  {
    var s := Pad2(n) + rest;
    assert s[1..][1..] == rest;
    assert ReadDigits(rest, 0, n) == (n, rest);
    assert ReadDigits(s[1..], 1, n / 10) == (n, rest);
    assert ReadDigits(s, 2, 0) == (n, rest);
  }

  lemma ReadPad2Field(n: nat, lo: int, hi: int, sep: string, rest: string)
    requires n < 100 && lo <= n <= hi && |sep| == 1
    ensures ReadField(Pad2(n) + (sep + rest), lo, hi, 2, sep[0]) == Some((n, rest))
  {
    ReadPad2(n, lo, hi, sep + rest);
    assert (sep + rest)[1..] == rest;
  }

  lemma FourDigits(y: nat)
    requires 1000 <= y <= 9999
    ensures Digits(y) == Pad2(y / 100) + Pad2(y % 100)
  {
    assert Digits(y / 100) == Pad2(y / 100) by {
      assert y / 100 / 10 < 10;
    }
    assert y / 10 / 10 == y / 100 && y / 10 % 10 == y % 100 / 10 && y % 10 == y % 100 % 10;
    assert Digits(y / 10) == Digits(y / 100) + [DigitChar(y / 10 % 10)];
    assert Digits(y) == Digits(y / 10) + [DigitChar(y % 10)];
  }

  lemma ReadYear(y: nat, sep: string, rest: string)
    requires 1000 <= y <= 9999 && |sep| == 1
    ensures ReadField(Digits(y) + (sep + rest), 0, 9999, 4, sep[0]) == Some((y, rest))
  {
    FourDigits(y);
    var a, b, tail := y / 100, y % 100, sep + rest;
    var s := Digits(y) + tail;
    assert s[1..][1..] == Pad2(b) + tail;
    assert s[1..][1..][1..][1..] == tail;
    assert tail[1..] == rest;
    assert ReadDigits(tail, 0, y) == (y, tail);
    assert ReadDigits(s[1..][1..][1..], 1, y / 10) == (y, tail);
    assert ReadDigits(s[1..][1..], 2, a) == (y, tail);
    assert ReadDigits(s[1..], 3, a / 10) == (y, tail);
    assert ReadDigits(s, 4, 0) == (y, tail);
  }

  /** The printed fields are read back. */
  lemma ReadIso(t: Tm)
    requires ValidTm(t) && 1000 <= t.year <= 9999
    ensures ReadTm(Iso(t)) == Some((t, "Z")) && ReadTmZ(Iso(t)) == Some((t, ""))
  {
    var s6 := "Z";
    var s5 := Pad2(t.sec) + s6;
    var s4 := Pad2(t.min) + (":" + s5);
    var s3 := Pad2(t.hour) + (":" + s4);
    var s2 := Pad2(t.day) + ("T" + s3);
    var s1 := Pad2(t.month) + ("-" + s2);
    assert Iso(t) == Digits(t.year) + ("-" + s1);
    assert SkipSpace(Iso(t)) == Iso(t) by {
      assert IsDigit(Iso(t)[0]);
    }
    ReadYear(t.year, "-", s1);
    ReadPad2Field(t.month, 1, 12, "-", s2);
    ReadPad2Field(t.day, 1, 31, "T", s3);
    ReadPad2Field(t.hour, 0, 23, ":", s4);
    ReadPad2Field(t.min, 0, 59, ":", s5);
    ReadPad2(t.sec, 0, 60, s6);
    assert "Z"[1..] == "";
  }

  // ---------------------------------------------------------------- local time and the class

  /** The C library's view of the local zone: `mktime` of fields taken as standard time, the standard
      offset and whether summer time is in force at an instant, and how far summer time shifts. */
  datatype LocalZone = LocalZone(mktime: int -> int, standard: int -> int, summer: int -> bool, shift: int)

  function GmtOff(z: LocalZone, u: int): int { z.standard(u) + if z.summer(u) then z.shift else 0 }

  /** `mktime` finds the instant whose standard local time is the given one. */
  ghost predicate MktimeFinds(z: LocalZone, local: int) {
    z.mktime(local) + z.standard(z.mktime(local)) == local
  }

  /** The correction applied after `mktime`. */
  function Corrected(z: LocalZone, local: int): int {
    var u := z.mktime(local);
    u + GmtOff(z, u) - (if z.summer(u) then 1 else 0) * 3600
  }

  /** The correction cancels the zone exactly when summer time is not in force at that instant or
      shifts by one hour. */
  lemma CorrectionCancelsZone(z: LocalZone, local: int)
    requires MktimeFinds(z, local)
    ensures Corrected(z, local) == local <==> !z.summer(z.mktime(local)) || z.shift == 3600
  {
  }

  /** The text of a timestamp, which `get_time` reads back. */
  function TimeText(t: nat): (r: string)
    requires Gmtime(t).year <= 9999
    ensures ReadTm(r) == Some((Gmtime(t), "Z")) && ReadTmZ(r) == Some((Gmtime(t), ""))
  {
    SecondsOfGmtime(t);
    ReadIso(Gmtime(t));
    Iso(Gmtime(t))
  }

  /** The Epoch, and a timestamp with different parts in all places. */
  lemma TimeTextSamples()
    ensures Gmtime(0).year == 1970 && TimeText(0) == "1970-01-01T00:00:00Z"
    ensures Gmtime(951827696).year == 2000 && TimeText(951827696) == "2000-02-29T12:34:56Z"
  {
    hide Gmtime, DaysBeforeYear, Digits, Pad2;
    var epoch, t := Tm(1970, 1, 1, 0, 0, 0), Tm(2000, 2, 29, 12, 34, 56);
    GmtimeOfSeconds(epoch);
    GmtimeOfSeconds(t);
    SampleDays();
    SampleDigits();
    assert Gmtime(0) == epoch && Gmtime(951827696) == t;
    assert Iso(epoch) == "1970-01-01T00:00:00Z";
    assert Iso(t) == "2000-02-29T12:34:56Z";
  }

  lemma SampleDays()
    ensures DaysBeforeYear(1970) == 0 && DaysBeforeYear(2000) == 10957
  {
  }

  lemma SampleDigits()
    ensures Digits(1970) == "1970" && Digits(2000) == "2000" && Pad2(0) == "00" && Pad2(1) == "01" && Pad2(2) == "02"
    ensures Pad2(29) == "29" && Pad2(12) == "12" && Pad2(34) == "34" && Pad2(56) == "56"
  {
    FourDigits(1970);
    FourDigits(2000);
  }

  class DateTime {
    var datetime: int

    constructor (init: int)
      ensures datetime == init
    {
      datetime := init;
    }

    function Str(): (r: string)
      requires 0 <= datetime && Gmtime(datetime).year <= 9999
      reads this
      ensures ReadTm(r) == Some((Gmtime(datetime), "Z"))
    {
      TimeText(datetime)
    }

    /** Assignment from text: first with a closing `Z`, then without. The text of a timestamp restores it exactly when
        summer time is not in force at the instant `mktime` finds or shifts by one hour. */
    method Assign(value: string, z: LocalZone) returns (ret: bool)
      modifies this
      ensures forall t: nat | Gmtime(t).year <= 9999 && value == TimeText(t) && MktimeFinds(z, t) ::
                ret && (datetime == t <==> !z.summer(z.mktime(t)) || z.shift == 3600)
      ensures ret <==> ReadTm(value).Some?
      ensures datetime == if ret then Corrected(z, Seconds(ReadTm(value).value.0)) else old(datetime)
    {
      ret := false;
      var t := ReadTmZ(value);
      if t.None? {
        t := ReadTm(value);
      }
      if t.Some? {
        var u := z.mktime(Seconds(t.value.0));
        datetime := u;
        datetime := datetime + GmtOff(z, u);
        datetime := datetime - (if z.summer(u) then 1 else 0) * 3600;
        ret := true;
      }
      forall t: nat | Gmtime(t).year <= 9999 && value == TimeText(t) && MktimeFinds(z, t)
        ensures ret && (datetime == t <==> !z.summer(z.mktime(t)) || z.shift == 3600)
      {
        AssignOfStr(t, z);
      }
    }
  }

  /** Assigning the text of a timestamp gives the timestamp back, exactly when summer time is not in
      force at the instant `mktime` finds or shifts by one hour. */
  lemma AssignOfStr(t: nat, z: LocalZone)
    requires Gmtime(t).year <= 9999 && MktimeFinds(z, t)
    ensures ReadTm(TimeText(t)).Some?
    ensures Corrected(z, Seconds(ReadTm(TimeText(t)).value.0)) == t <==> !z.summer(z.mktime(t)) || z.shift == 3600
  {
    SecondsOfGmtime(t);
    CorrectionCancelsZone(z, t);
  }

  /** A zone with half an hour of summer time: the round trip is off by half an hour. */
  lemma HalfHourSummerTime()
    ensures var z := LocalZone(l => l - 37800, _ => 37800, _ => true, 1800);
            MktimeFinds(z, 0) && Corrected(z, 0) == -1800
  {
  }
}
