/**
  Certificate times: the two ASN.1 forms (RFC 5280, sections 4.1.2.5.1 and
  4.1.2.5.2), the fixed-format strptime, timegm by the formula of POSIX.1-2017
  (XBD section 4.16), and the conversion to FILETIME.
 */
module CertificateTime {
  import opened Wire

  // ---------------------------------------------------------------- calendar

  predicate Leap(y: int) { y % 4 == 0 && (y % 100 != 0 || y % 400 == 0) }

  function YearLength(y: int): int { if Leap(y) then 366 else 365 }

  /** Month 1 to 12. */
  function MonthLength(y: int, m: int): int {
    if m == 2 then (if Leap(y) then 29 else 28)
    else if m == 4 || m == 6 || m == 9 || m == 11 then 30
    else 31
  }

  /** Days of the year before the first of month m. */
  function DaysBefore(y: int, m: int): int
    decreases m
  {
    if m <= 1 then 0 else DaysBefore(y, m - 1) + MonthLength(y, m - 1)
  }

  /** The fields strptime fills in: years from 1900 and months from 0. */
  datatype Tm = Tm(year: int, mon: int, mday: int, hour: int, min: int, sec: int)

  /** Seconds Since the Epoch; the divisions round down, also before 1970. Months past the year carry over. */
  function Timegm(t: Tm): int {
    var year := t.year + t.mon / 12;
    var yday := DaysBefore(year + 1900, t.mon % 12 + 1) + t.mday - 1;
    t.sec + t.min * 60 + t.hour * 3600 + yday * 86400 + (year - 70) * 31536000
    + ((year - 69) / 4) * 86400 - ((year - 1) / 100) * 86400 + ((year + 299) / 400) * 86400
  }

  // ---------------------------------------------------------------- parsing

  function Digit(b: Byte): int { b as int - '0' as int }

  /** Two decimal digits. */
  function Two(s: Bytes, i: nat): int
    requires i + 1 < |s|
  {
    Digit(s[i]) * 10 + Digit(s[i + 1])
  }

  function Year(s: Bytes): int
    requires |s| >= 4
  {
    Two(s, 0) * 100 + Two(s, 2)
  }

  function TmOf(s: Bytes): Tm
    requires |s| >= 14
  {
    Tm(Year(s) - 1900, Two(s, 4) - 1, Two(s, 6), Two(s, 8), Two(s, 10), Two(s, 12))
  }

  datatype Kind = UtcTime | GeneralizedTime | OtherType

  const ZULU: Byte := 'Z' as int

  function Century(first: Byte): Bytes {
    if first >= '5' as int then ['1' as int, '9' as int] else ['2' as int, '0' as int]
  }

  /** The fourteen characters handed to strptime. */
  function Fourteen(kind: Kind, data: Bytes): (o: Option<Bytes>)
    ensures o.Some? ==> |o.value| == 14
  {
    if kind == UtcTime && |data| == 13 && data[12] == ZULU then Some(Century(data[0]) + data[..12])
    else if kind == GeneralizedTime && |data| == 15 && data[14] == ZULU then Some(data[..14])
    else None
  }

  /**
    Another type, another length, a missing Z or a NUL reads as 0. Anything else is
    taken for digits, and whatever date comes of them is converted.
   */
  function ParseTime(kind: Kind, data: Bytes): int {
    match Fourteen(kind, data)
    case None => 0
    case Some(s) => if 0 in s then 0 else Timegm(TmOf(s))
  }

  // ---------------------------------------------------------------- the fields in numbers

  /** The number that two characters stand for, each counted from 48, the code of the digit 0. */
  function TwoNumber(s: Bytes, i: nat): int
    requires i + 1 < |s|
  {
    10 * (s[i] as int - 48) + (s[i + 1] as int - 48)
  }

  function YearNumber(s: Bytes): int
    requires |s| >= 4
  {
    1000 * (s[0] as int - 48) + 100 * (s[1] as int - 48) + 10 * (s[2] as int - 48) + (s[3] as int - 48)
  }

  class StructTm {
    var tm_year: int
    var tm_mon: int
    var tm_mday: int
    var tm_hour: int
    var tm_min: int
    var tm_sec: int

    function Value(): Tm
      reads this
    {
      Tm(tm_year, tm_mon, tm_mday, tm_hour, tm_min, tm_sec)
    }

    constructor ()
      ensures Value() == Tm(0, 0, 0, 0, 0, 0)
    {
      tm_year, tm_mon, tm_mday, tm_hour, tm_min, tm_sec := 0, 0, 0, 0, 0, 0;
    }
  }

  /** strlen of a buffer that holds a NUL. */
  method StrLen(buf: array<Byte>) returns (n: nat)
    requires 0 in buf[..]
    ensures n < buf.Length && buf[n] == 0 && 0 !in buf[..n]
  {
    n := 0;
    while buf[n] != 0
      invariant n < buf.Length && 0 !in buf[..n] && 0 in buf[n..]
      decreases buf.Length - n
    {
      assert buf[n..] == [buf[n]] + buf[n + 1..];
      n := n + 1;
    }
  }

  /** strptime for the one format it knows; the format argument is that format. */
  method Strptime(buf: array<Byte>, tm: StructTm) returns (ok: bool)
    requires 0 in buf[..]
    modifies tm
    ensures ok <==> buf.Length > 14 && 0 !in buf[..14]
    ensures ok ==> tm.Value() == TmOf(buf[..14])
    ensures ok ==> tm.tm_year + 1900 == YearNumber(buf[..]) && tm.tm_mon + 1 == TwoNumber(buf[..], 4)
    ensures ok ==> tm.tm_mday == TwoNumber(buf[..], 6) && tm.tm_hour == TwoNumber(buf[..], 8)
    ensures ok ==> tm.tm_min == TwoNumber(buf[..], 10) && tm.tm_sec == TwoNumber(buf[..], 12)
    ensures !ok ==> tm.Value() == old(tm.Value())
  {
    var n := StrLen(buf);
    if n < 14 { return false; }
    assert 0 !in buf[..14] by { assert buf[..14] == buf[..n][..14]; }
    var year := (buf[0] - '0' as int) * 1000 + (buf[1] - '0' as int) * 100
                + (buf[2] - '0' as int) * 10 + (buf[3] - '0' as int);
    tm.tm_year := year - 1900;
    var month := (buf[4] - '0' as int) * 10 + (buf[5] - '0' as int);
    tm.tm_mon := month - 1;
    var day := (buf[6] - '0' as int) * 10 + (buf[7] - '0' as int);
    tm.tm_mday := day;
    var hour := (buf[8] - '0' as int) * 10 + (buf[9] - '0' as int);
    tm.tm_hour := hour;
    var minute := (buf[10] - '0' as int) * 10 + (buf[11] - '0' as int);
    tm.tm_min := minute;
    var seconds := (buf[12] - '0' as int) * 10 + (buf[13] - '0' as int);
    tm.tm_sec := seconds;
    return true;
  }

  method ParseASN1Time(kind: Kind, data: Bytes) returns (t: int)
    ensures t == ParseTime(kind, data)
  {
    var tm := new StructTm();
    var buf := new Byte[15];
    if kind == UtcTime && |data| == 13 && data[12] == ZULU {
      forall k | 0 <= k < 12 {
        buf[2 + k] := data[k];
      }
      if data[0] >= '5' as int {
        buf[0], buf[1] := '1' as int, '9' as int;
      } else {
        buf[0], buf[1] := '2' as int, '0' as int;
      }
      assert buf[..14] == Century(data[0]) + data[..12];
    } else if kind == GeneralizedTime && |data| == 15 && data[14] == ZULU {
      forall k | 0 <= k < 14 {
        buf[k] := data[k];
      }
      assert buf[..14] == data[..14];
    } else {
      return 0;
    }
    assert Fourteen(kind, data) == Some(buf[..14]);
    ghost var s := buf[..14];
    buf[14] := 0;
    assert buf[..14] == s && buf[14] in buf[..];
    var ok := Strptime(buf, tm);
    if !ok { return 0; }
    return Timegm(tm.Value());
  }

  // ---------------------------------------------------------------- valid dates

  datatype Date = Date(y: int, m: int, d: int, h: int, mi: int, s: int)

  predicate ValidDate(x: Date) {
    && 0 <= x.y <= 9999 && 1 <= x.m <= 12 && 1 <= x.d <= MonthLength(x.y, x.m)
    && 0 <= x.h <= 23 && 0 <= x.mi <= 59 && 0 <= x.s <= 59
  }

  predicate Digits(s: Bytes) {
    forall i :: 0 <= i < |s| ==> '0' as int <= s[i] <= '9' as int
  }

  function DateOf(s: Bytes): Date
    requires |s| == 14
  {
    Date(Year(s), Two(s, 4), Two(s, 6), Two(s, 8), Two(s, 10), Two(s, 12))
  }

  /** Fourteen digits that name a date of the Gregorian calendar and a time of day without leap second. */
  predicate ValidText(s: Bytes) {
    |s| == 14 && Digits(s) && ValidDate(DateOf(s))
  }

  /** Days since the epoch of the first of January. */
  function YearStart(y: int): int {
    (y - 1970) * 365 + (y - 1969) / 4 - (y - 1901) / 100 + (y - 1601) / 400
  }

  function Day(x: Date): int { YearStart(x.y) + DaysBefore(x.y, x.m) + x.d - 1 }

  function SecondOfDay(x: Date): int { x.h * 3600 + x.mi * 60 + x.s }

  function Seconds(x: Date): int { Day(x) * 86400 + SecondOfDay(x) }

  lemma TimegmIsSeconds(s: Bytes)
    requires |s| == 14 && 1 <= Two(s, 4) <= 12
    ensures Timegm(TmOf(s)) == Seconds(DateOf(s))
  {
    var t := TmOf(s);
    assert t.mon / 12 == 0 && t.mon % 12 == t.mon;
  }

  lemma FloorStep(a: int, k: int)
    requires k > 0
    ensures (a + 1) / k - a / k == if (a + 1) % k == 0 then 1 else 0
  {
    var q, r := a / k, a % k;
    assert a == k * q + r;
    if r == k - 1 {
      assert a + 1 == k * (q + 1);
      QuotientIs(a + 1, k, q + 1, 0);
    } else {
      QuotientIs(a + 1, k, q, r + 1);
    }
  }

  lemma QuotientIs(a: int, k: int, q: int, r: int)
    requires k > 0 && a == k * q + r && 0 <= r < k
    ensures a / k == q && a % k == r
  {
    var d := a / k - q;
    assert k * (a / k) + a % k == a;
    assert k * d == r - a % k;
    assert d >= 1 ==> k * d >= k;
    assert d <= -1 ==> k * d <= -k;
  }

  lemma MultiplesOf(y: int)
    ensures (y - 1968) % 4 == 0 <==> y % 4 == 0
    ensures (y - 1900) % 100 == 0 <==> y % 100 == 0
    ensures (y - 1600) % 400 == 0 <==> y % 400 == 0
  {
    QuotientIs(y - 1968, 4, y / 4 - 492, y % 4);
    QuotientIs(y - 1900, 100, y / 100 - 19, y % 100);
    QuotientIs(y - 1600, 400, y / 400 - 4, y % 400);
  }

  lemma MultiplesNest(y: int)
    ensures y % 400 == 0 ==> y % 100 == 0
    ensures y % 100 == 0 ==> y % 4 == 0
  {
  }

  lemma YearStep(y: int)
    ensures YearStart(y + 1) == YearStart(y) + YearLength(y)
  {
    MultiplesOf(y);
    MultiplesNest(y);
    LeapDays(y);
  }

  lemma LeapDays(y: int)
    ensures (y - 1968) / 4 - (y - 1969) / 4 == if (y - 1968) % 4 == 0 then 1 else 0
    ensures (y - 1900) / 100 - (y - 1901) / 100 == if (y - 1900) % 100 == 0 then 1 else 0
    ensures (y - 1600) / 400 - (y - 1601) / 400 == if (y - 1600) % 400 == 0 then 1 else 0
  {
    FloorStep(y - 1969, 4);
    FloorStep(y - 1901, 100);
    FloorStep(y - 1601, 400);
  }

  lemma {:induction false} YearsAscend(y: int, z: int)
    requires y < z
    ensures YearStart(y) + YearLength(y) <= YearStart(z)
    decreases z - y
  {
    YearStep(z - 1);
    if y < z - 1 {
      YearsAscend(y, z - 1);
    }
  }

  lemma {:induction false} MonthsAscend(y: int, m: int, n: int)
    requires 1 <= m < n
    ensures DaysBefore(y, m) + MonthLength(y, m) <= DaysBefore(y, n)
    decreases n - m
  {
    if m < n - 1 {
      MonthsAscend(y, m, n - 1);
    }
  }

  lemma MonthsFillTheYear(y: int)
    ensures DaysBefore(y, 13) == YearLength(y)
  {
    var f := MonthLength(y, 2);
    assert DaysBefore(y, 4) == 62 + f by {
      assert DaysBefore(y, 2) == DaysBefore(y, 1) + 31;
      assert DaysBefore(y, 3) == DaysBefore(y, 2) + f;
    }
    assert DaysBefore(y, 7) == DaysBefore(y, 4) + 91 by {
      assert DaysBefore(y, 5) == DaysBefore(y, 4) + 30;
      assert DaysBefore(y, 6) == DaysBefore(y, 5) + 31;
    }
    assert DaysBefore(y, 10) == DaysBefore(y, 7) + 92 by {
      assert DaysBefore(y, 8) == DaysBefore(y, 7) + 31;
      assert DaysBefore(y, 9) == DaysBefore(y, 8) + 31;
    }
    assert DaysBefore(y, 13) == DaysBefore(y, 10) + 92 by {
      assert DaysBefore(y, 11) == DaysBefore(y, 10) + 31;
      assert DaysBefore(y, 12) == DaysBefore(y, 11) + 30;
    }
  }

  /** A day of the year lies within its year. */
  lemma DayWithinYear(x: Date)
    requires ValidDate(x)
    ensures YearStart(x.y) <= Day(x) < YearStart(x.y) + YearLength(x.y)
  {
    MonthsFillTheYear(x.y);
    MonthsAscend(x.y, x.m, 13);
    if x.m > 1 { MonthsAscend(x.y, 1, x.m); }
  }

  predicate DateLess(a: Date, b: Date) {
    a.y < b.y || (a.y == b.y && (a.m < b.m || (a.m == b.m && (a.d < b.d || (a.d == b.d
    && SecondOfDay(a) < SecondOfDay(b))))))
  }

  lemma DayAscends(a: Date, b: Date)
    requires ValidDate(a) && ValidDate(b)
    requires a.y < b.y || (a.y == b.y && (a.m < b.m || (a.m == b.m && a.d < b.d)))
    ensures Day(a) < Day(b)
  {
    if a.y < b.y {
      DayWithinYear(a);
      DayWithinYear(b);
      YearsAscend(a.y, b.y);
    } else if a.m < b.m {
      MonthsAscend(a.y, a.m, b.m);
    }
  }

  lemma SecondsAscend(a: Date, b: Date)
    requires ValidDate(a) && ValidDate(b) && DateLess(a, b)
    ensures Seconds(a) < Seconds(b)
  {
    if a.y == b.y && a.m == b.m && a.d == b.d {
      assert Day(a) == Day(b);
    } else {
      DayAscends(a, b);
    }
  }

  // ---------------------------------------------------------------- order of digits

  /** Lexicographic order of byte strings. */
  predicate Before(s: Bytes, t: Bytes) {
    s != [] && t != [] && (s[0] < t[0] || (s[0] == t[0] && Before(s[1..], t[1..])))
  }

  /** Two digits at a time, lexicographic order is the order of two-digit numbers. */
  lemma BeforeByTwo(s: Bytes, t: Bytes, i: nat)
    requires |s| == |t| == 14 && Digits(s) && Digits(t) && i + 2 <= 14
    ensures Before(s[i..], t[i..]) <==>
              Two(s, i) < Two(t, i) || (Two(s, i) == Two(t, i) && Before(s[i + 2..], t[i + 2..]))
    ensures s[i..] == t[i..] <==> Two(s, i) == Two(t, i) && s[i + 2..] == t[i + 2..]
    ensures 0 <= Two(s, i) <= 99
  {
    assert s[i..][1..] == s[i + 1..] && s[i + 1..][1..] == s[i + 2..];
    assert t[i..][1..] == t[i + 1..] && t[i + 1..][1..] == t[i + 2..];
    assert s[i..] == [s[i], s[i + 1]] + s[i + 2..] && t[i..] == [t[i], t[i + 1]] + t[i + 2..];
  }

  lemma BeforeTime(s: Bytes, t: Bytes)
    requires ValidText(s) && ValidText(t)
    ensures Before(s[8..], t[8..]) <==> SecondOfDay(DateOf(s)) < SecondOfDay(DateOf(t))
    ensures s[8..] == t[8..] <==> SecondOfDay(DateOf(s)) == SecondOfDay(DateOf(t))
  {
    BeforeByTwo(s, t, 8);
    BeforeByTwo(s, t, 10);
    BeforeByTwo(s, t, 12);
    assert s[14..] == [] && t[14..] == [];
  }

  lemma BeforeYear(s: Bytes, t: Bytes)
    requires |s| == |t| == 14 && Digits(s) && Digits(t)
    ensures Before(s, t) <==> Year(s) < Year(t) || (Year(s) == Year(t) && Before(s[4..], t[4..]))
    ensures s == t <==> Year(s) == Year(t) && s[4..] == t[4..]
  {
    BeforeByTwo(s, t, 0);
    BeforeByTwo(t, s, 0);
    BeforeByTwo(s, t, 2);
    BeforeByTwo(t, s, 2);
    assert s[0..] == s && t[0..] == t;
  }

  lemma BeforeDate(s: Bytes, t: Bytes)
    requires ValidText(s) && ValidText(t)
    ensures Before(s, t) <==> DateLess(DateOf(s), DateOf(t))
    ensures s == t <==> DateOf(s) == DateOf(t)
  {
    BeforeYear(s, t);
    BeforeByTwo(s, t, 4);
    BeforeByTwo(s, t, 6);
    BeforeTime(s, t);
  }

  /** Order is preserved: fourteen-digit strings compare as their times do. */
  lemma OrderPreserved(s: Bytes, t: Bytes)
    requires ValidText(s) && ValidText(t)
    ensures Before(s, t) <==> Timegm(TmOf(s)) < Timegm(TmOf(t))
    ensures s == t <==> Timegm(TmOf(s)) == Timegm(TmOf(t))
  {
    var a, b := DateOf(s), DateOf(t);
    TimegmIsSeconds(s);
    TimegmIsSeconds(t);
    BeforeDate(s, t);
    BeforeDate(t, s);
    if DateLess(a, b) {
      SecondsAscend(a, b);
    } else if DateLess(b, a) {
      SecondsAscend(b, a);
    } else {
      BeforeTime(s, t);
    }
  }

  predicate IsValidAtTime(notBefore: int, notAfter: int, time: int) {
    time >= notBefore && time <= notAfter
  }

  function General(s: Bytes): Bytes { s + [ZULU] }

  lemma ParseGeneral(s: Bytes)
    requires |s| == 14 && Digits(s)
    ensures ParseTime(GeneralizedTime, General(s)) == Timegm(TmOf(s))
  {
    assert General(s)[..14] == s;
  }

  // ---------------------------------------------------------------- times back to digits

  /** The year, at or after y, that day d of the epoch falls in. */
  function YearOf(d: int, y: int): (z: int)
    requires YearStart(y) <= d
    ensures y <= z && YearStart(z) <= d < YearStart(z) + YearLength(z)
    decreases d - YearStart(y)
  {
    YearStep(y);
    if d < YearStart(y) + YearLength(y) then y else YearOf(d, y + 1)
  }

  /** The month, at or after m, that day d of year y falls in. */
  function MonthOf(y: int, d: int, m: int): (n: int)
    requires 1 <= m <= 12 && DaysBefore(y, m) <= d < YearLength(y)
    ensures m <= n <= 12 && DaysBefore(y, n) <= d < DaysBefore(y, n) + MonthLength(y, n)
    decreases 12 - m
  {
    MonthsFillTheYear(y);
    assert DaysBefore(y, m + 1) == DaysBefore(y, m) + MonthLength(y, m);
    if d < DaysBefore(y, m) + MonthLength(y, m) then m else MonthOf(y, d, m + 1)
  }

  const FIRST := -62167219200   // 0000-01-01 00:00:00
  const LAST := 253402300799    // 9999-12-31 23:59:59

  /** gmtime: the date and time of day of a number of seconds. */
  function DateAt(t: int): (x: Date)
    requires FIRST <= t <= LAST
    ensures ValidDate(x) && Seconds(x) == t
  {
    var day, sec := t / 86400, t % 86400;
    assert YearStart(0) == -719528 && FIRST == -719528 * 86400;
    assert YearStart(10000) == 2932897 && LAST == 2932897 * 86400 - 1;
    var y := YearOf(day, 0);
    assert y <= 9999 by {
      if y > 9999 {
        if y > 10000 { YearsAscend(10000, y); }
      }
    }
    var inYear := day - YearStart(y);
    var m := MonthOf(y, inYear, 1);
    var x := Date(y, m, inYear - DaysBefore(y, m) + 1, sec / 3600, sec / 60 % 60, sec % 60);
    assert sec / 3600 * 3600 + sec / 60 % 60 * 60 + sec % 60 == sec;
    x
  }

  function TwoDigits(n: int): Bytes
    requires 0 <= n <= 99
  {
    ['0' as int + n / 10, '0' as int + n % 10]
  }

  function Text(x: Date): (s: Bytes)
    requires ValidDate(x)
    ensures ValidText(s) && DateOf(s) == x
  {
    var s := TwoDigits(x.y / 100) + TwoDigits(x.y % 100) + TwoDigits(x.m) + TwoDigits(x.d)
             + TwoDigits(x.h) + TwoDigits(x.mi) + TwoDigits(x.s);
    assert Two(s, 0) == x.y / 100 && Two(s, 2) == x.y % 100;
    s
  }

  /** Every second of the years 0 to 9999 has digits, reading them gives it back, and they are the only ones. */
  lemma FormatThenParse(t: int)
    requires FIRST <= t <= LAST
    ensures ParseTime(GeneralizedTime, General(Text(DateAt(t)))) == t
    ensures forall s :: ValidText(s) && ParseTime(GeneralizedTime, General(s)) == t ==> s == Text(DateAt(t))
  {
    var w := Text(DateAt(t));
    ParseGeneral(w);
    TimegmIsSeconds(w);
    forall s | ValidText(s) && ParseTime(GeneralizedTime, General(s)) == t ensures s == w {
      ParseGeneral(s);
      OrderPreserved(s, w);
    }
  }

  lemma InRange(s: Bytes)
    requires ValidText(s)
    ensures FIRST <= ParseTime(GeneralizedTime, General(s)) <= LAST
  {
    var x := DateOf(s);
    ParseGeneral(s);
    TimegmIsSeconds(s);
    DayWithinYear(x);
    if x.y > 0 { YearsAscend(0, x.y); }
    YearsAscend(x.y, 10000);
    assert YearStart(0) * 86400 == FIRST && YearStart(10000) * 86400 - 1 == LAST;
  }

  /** Reading digits and formatting the time gives the digits back. */
  lemma ParseThenFormat(s: Bytes)
    requires ValidText(s)
    ensures FIRST <= ParseTime(GeneralizedTime, General(s)) <= LAST
    ensures Text(DateAt(ParseTime(GeneralizedTime, General(s)))) == s
  {
    InRange(s);
    FormatThenParse(ParseTime(GeneralizedTime, General(s)));
  }

  // ---------------------------------------------------------------- the two forms

  /** The UTCTime form: the last two digits of the year. */
  function Utc(s: Bytes): Bytes
    requires |s| == 14
  {
    s[2..] + [ZULU]
  }

  /** The fourteen characters that a UTCTime becomes, and the year they name. */
  lemma UtcReads(s: Bytes)
    requires ValidText(s)
    ensures Utc(s)[0] >= '5' as int <==> Two(s, 2) >= 50
    ensures var w := Century(Utc(s)[0]) + s[2..];
            && ParseTime(UtcTime, Utc(s)) == Timegm(TmOf(w))
            && Year(w) == (if Two(s, 2) >= 50 then 1900 else 2000) + Two(s, 2)
            && (forall i :: 2 <= i < 14 ==> w[i] == s[i])
  {
    var u := Utc(s);
    var w := Century(u[0]) + s[2..];
    assert u[..12] == s[2..];
    assert Fourteen(UtcTime, u) == Some(w);
    assert forall i :: 2 <= i < 14 ==> w[i] == s[i];
    assert 0 !in w;
  }

  /**
    For years 1950 to 2049 the two forms read as the same time, and only for
    those; looking at the first digit of YY alone is looking at YY >= 50.
   */
  lemma FormsAgree(s: Bytes)
    requires ValidText(s)
    ensures Utc(s)[0] >= '5' as int <==> Two(s, 2) >= 50
    ensures ParseTime(UtcTime, Utc(s)) == ParseTime(GeneralizedTime, General(s)) <==> 1950 <= DateOf(s).y <= 2049
  {
    UtcReads(s);
    ParseGeneral(s);
    var w := Century(Utc(s)[0]) + s[2..];
    CenturyGuess(Two(s, 0), Two(s, 2));
    if Year(w) == Year(s) {
      SameFields(s, w);
    } else {
      YearsApart(s, w);
    }
  }

  lemma CenturyGuess(a: int, b: int)
    requires 0 <= b <= 99
    ensures (if b >= 50 then 1900 else 2000) + b == a * 100 + b <==> 1950 <= a * 100 + b <= 2049
  {
  }

  lemma SameFields(s: Bytes, w: Bytes)
    requires |s| == |w| == 14 && Year(w) == Year(s) && forall i :: 4 <= i < 14 ==> w[i] == s[i]
    ensures TmOf(w) == TmOf(s)
  {
  }

  /** The same day and time of day in another year is another time, also when the day is a leap day. */
  lemma YearsApart(s: Bytes, w: Bytes)
    requires ValidText(s) && |w| == 14 && Year(w) != Year(s)
    requires forall i :: 4 <= i < 14 ==> w[i] == s[i]
    ensures Timegm(TmOf(s)) != Timegm(TmOf(w))
  {
    TimegmIsSeconds(s);
    TimegmIsSeconds(w);
    DaysApart(DateOf(s), Year(w));
    assert DateOf(w) == DateOf(s).(y := Year(w));
  }

  lemma DaysApart(x: Date, z: int)
    requires 1 <= x.m <= 12 && x.y != z
    ensures Day(x) != Day(x.(y := z))
  {
    DaysBeforeNear(x.y, z, x.m);
    if x.y < z { YearsAscend(x.y, z); } else { YearsAscend(z, x.y); }
  }

  lemma {:induction false} DaysBeforeNear(y: int, z: int, m: int)
    requires 1 <= m <= 12
    ensures -1 <= DaysBefore(y, m) - DaysBefore(z, m) <= 1
    ensures m <= 2 ==> DaysBefore(y, m) == DaysBefore(z, m)
    decreases m
  {
    if m > 1 {
      DaysBeforeNear(y, z, m - 1);
      if m > 3 {
        assert MonthLength(y, m - 1) == MonthLength(z, m - 1);
      }
    }
  }

  /** A form that can hold a date: UTCTime only for the years 1950 to 2049. */
  predicate Holds(kind: Kind, s: Bytes)
    requires |s| == 14
  {
    kind == GeneralizedTime || (kind == UtcTime && 1950 <= DateOf(s).y <= 2049)
  }

  function Encoded(kind: Kind, s: Bytes): Bytes
    requires |s| == 14
  {
    if kind == UtcTime then Utc(s) else General(s)
  }

  lemma ParseEncoded(kind: Kind, s: Bytes)
    requires ValidText(s) && Holds(kind, s)
    ensures ParseTime(kind, Encoded(kind, s)) == Timegm(TmOf(s))
  {
    ParseGeneral(s);
    FormsAgree(s);
  }

  /**
    A certificate, its bounds in either form, is valid at a time exactly when the
    digits of that time lie between the digits of the bounds.
   */
  lemma ValidityIsTextual(before: Kind, notBefore: Bytes, after: Kind, notAfter: Bytes, time: int)
    requires ValidText(notBefore) && Holds(before, notBefore) && ValidText(notAfter) && Holds(after, notAfter)
    requires FIRST <= time <= LAST
    ensures var at := Text(DateAt(time));
            IsValidAtTime(ParseTime(before, Encoded(before, notBefore)),
                          ParseTime(after, Encoded(after, notAfter)), time)
            <==> (notBefore == at || Before(notBefore, at)) && (at == notAfter || Before(at, notAfter))
  {
    var at := Text(DateAt(time));
    TimegmIsSeconds(at);
    ParseEncoded(before, notBefore);
    ParseEncoded(after, notAfter);
    OrderPreserved(notBefore, at);
    OrderPreserved(at, notAfter);
  }

  // ---------------------------------------------------------------- the calendar in numbers

  predicate IsLeapYear(y: int) {
    y % 400 == 0 || (y % 4 == 0 && y % 100 != 0)
  }

  const BEFORE_MONTH := [0, 31, 59, 90, 120, 151, 181, 212, 243, 273, 304, 334]

  const MONTH_DAYS := [31, 28, 31, 30, 31, 30, 31, 31, 30, 31, 30, 31]

  /** Seconds Since the Epoch, with the days before each month written out. */
  function EpochSeconds(y: int, m: int, d: int, h: int, mi: int, sec: int): int
    requires 1 <= m <= 12
  {
    var yday := BEFORE_MONTH[m - 1] + (if m > 2 && IsLeapYear(y) then 1 else 0) + d - 1;
    sec + mi * 60 + h * 3600 + yday * 86400 + (y - 1970) * 31536000
    + ((y - 1969) / 4) * 86400 - ((y - 1901) / 100) * 86400 + ((y - 1601) / 400) * 86400
  }

  lemma DaysBeforeAsListed(y: int)
    ensures forall m :: 1 <= m <= 12 ==>
              DaysBefore(y, m) == BEFORE_MONTH[m - 1] + if m > 2 && IsLeapYear(y) then 1 else 0
  {
    var l := if IsLeapYear(y) then 1 else 0;
    assert DaysBefore(y, 2) == 31 && DaysBefore(y, 3) == 59 + l by { assert DaysBefore(y, 1) == 0; }
    assert DaysBefore(y, 4) == 90 + l && DaysBefore(y, 5) == 120 + l;
    assert DaysBefore(y, 6) == 151 + l && DaysBefore(y, 7) == 181 + l;
    assert DaysBefore(y, 8) == 212 + l && DaysBefore(y, 9) == 243 + l;
    assert DaysBefore(y, 10) == 273 + l && DaysBefore(y, 11) == 304 + l;
    assert DaysBefore(y, 12) == 334 + l;
  }

  lemma MonthLengthAsListed(y: int, m: int)
    requires 1 <= m <= 12
    ensures MonthLength(y, m) == MONTH_DAYS[m - 1] + if m == 2 && IsLeapYear(y) then 1 else 0
  {
  }

  /** Which texts are valid, in numbers. */
  lemma ValidTextInNumbers(s: Bytes)
    requires |s| == 14
    ensures ValidText(s) <==>
              && (forall i :: 0 <= i < 14 ==> 48 <= s[i] <= 57)
              && 1 <= TwoNumber(s, 4) <= 12 && 1 <= TwoNumber(s, 6)
              && TwoNumber(s, 6) <= MONTH_DAYS[TwoNumber(s, 4) - 1]
                                    + (if TwoNumber(s, 4) == 2 && IsLeapYear(YearNumber(s)) then 1 else 0)
              && TwoNumber(s, 8) <= 23 && TwoNumber(s, 10) <= 59 && TwoNumber(s, 12) <= 59
  {
    assert Year(s) == YearNumber(s) && DateOf(s) == DateInNumbers(s);
    if 1 <= TwoNumber(s, 4) <= 12 { MonthLengthAsListed(YearNumber(s), TwoNumber(s, 4)); }
  }

  function DateInNumbers(s: Bytes): Date
    requires |s| == 14
  {
    Date(YearNumber(s), TwoNumber(s, 4), TwoNumber(s, 6), TwoNumber(s, 8), TwoNumber(s, 10), TwoNumber(s, 12))
  }

  lemma SecondsInNumbers(x: Date)
    requires 1 <= x.m <= 12
    ensures Seconds(x) == EpochSeconds(x.y, x.m, x.d, x.h, x.mi, x.s)
  {
    DaysBeforeAsListed(x.y);
  }

  /** A GeneralizedTime reads as the seconds of its fourteen characters; only the month has to be one. */
  lemma GeneralInNumbers(s: Bytes)
    requires |s| == 14 && 1 <= TwoNumber(s, 4) <= 12 && 0 !in s
    ensures ParseTime(GeneralizedTime, s + [90])
         == EpochSeconds(YearNumber(s), TwoNumber(s, 4), TwoNumber(s, 6),
                         TwoNumber(s, 8), TwoNumber(s, 10), TwoNumber(s, 12))
  {
    assert (s + [90])[..14] == s;
    assert DateOf(s) == DateInNumbers(s);
    TimegmIsSeconds(s);
    SecondsInNumbers(DateOf(s));
  }

  /** A UTCTime reads as the seconds of its twelve characters, in 19YY from YY = 50 on and in 20YY below. */
  lemma UtcInNumbers(d: Bytes)
    requires |d| == 12 && 1 <= TwoNumber(d, 2) <= 12 && 0 !in d
    requires 48 <= d[0] <= 57 && 48 <= d[1] <= 57
    ensures var yy := TwoNumber(d, 0);
            ParseTime(UtcTime, d + [90])
              == EpochSeconds(if yy >= 50 then 1900 + yy else 2000 + yy, TwoNumber(d, 2), TwoNumber(d, 4),
                              TwoNumber(d, 6), TwoNumber(d, 8), TwoNumber(d, 10))
  {
    var s := Century(d[0]) + d;
    assert (d + [90])[..12] == d && Fourteen(UtcTime, d + [90]) == Some(s);
    assert forall i :: 0 <= i < 12 ==> s[i + 2] == d[i];
    assert TwoNumber(s, 4) == TwoNumber(d, 2) && TwoNumber(s, 6) == TwoNumber(d, 4);
    assert TwoNumber(s, 8) == TwoNumber(d, 6);
    assert TwoNumber(s, 10) == TwoNumber(d, 8) && TwoNumber(s, 12) == TwoNumber(d, 10);
    CenturyInNumbers(d, s);
    assert DateOf(s) == DateInNumbers(s);
    TimegmIsSeconds(s);
    SecondsInNumbers(DateOf(s));
  }

  lemma CenturyInNumbers(d: Bytes, s: Bytes)
    requires |d| == 12 && s == Century(d[0]) + d && 48 <= d[0] <= 57 && 48 <= d[1] <= 57
    ensures YearNumber(s) == (if TwoNumber(d, 0) >= 50 then 1900 else 2000) + TwoNumber(d, 0)
    ensures 0 !in d ==> 0 !in s
  {
    assert s[2] == d[0] && s[3] == d[1];
  }

  /** Everything else reads as 0. */
  lemma OthersReadAsZero(kind: Kind, data: Bytes)
    requires kind == UtcTime ==> |data| != 13 || data[12] != 90 || exists i :: 0 <= i < 12 && data[i] == 0
    requires kind == GeneralizedTime ==> |data| != 15 || data[14] != 90 || exists i :: 0 <= i < 14 && data[i] == 0
    ensures ParseTime(kind, data) == 0
  {
    var o := Fourteen(kind, data);
    if o.Some? {
      if kind == UtcTime {
        var i :| 0 <= i < 12 && data[i] == 0;
        assert o.value[i + 2] == 0;
      } else {
        var i :| 0 <= i < 14 && data[i] == 0;
        assert o.value[i] == 0;
      }
    }
  }

  // ---------------------------------------------------------------- FILETIME

  datatype FileTime = FileTime(low: int, high: int)

  const EPOCH_1601 := 11644473600
  const SECS_TO_100NS := 10000000

  /** Unsigned 64-bit arithmetic; a negative time is converted first. */
  function FileTimeFromStdTimeT(time: int): FileTime {
    var quad := ((EPOCH_1601 + time % TWO64) % TWO64 * SECS_TO_100NS) % TWO64;
    FileTime(quad % TWO32, quad / TWO32)
  }

  function Recombined(f: FileTime): int { f.high * TWO32 + f.low }

  lemma WrapsAway(a: int, b: int)
    requires 0 <= a + b < TWO64
    ensures (a + b % TWO64) % TWO64 == a + b
  {
    var q := b / TWO64;
    assert b == q * TWO64 + b % TWO64;
    QuotientIs(a + b % TWO64, TWO64, -q, a + b);
  }

  /** The conversion is exact for exactly the times from 1601 on whose count of 100 ns units fits 64 bits. */
  lemma FileTimeExact(time: int)
    requires -0x8000_0000_0000_0000 <= time < 0x8000_0000_0000_0000
    ensures var f := FileTimeFromStdTimeT(time);
            && 0 <= f.low < TWO32 && 0 <= f.high < TWO32
            && (Recombined(f) == (EPOCH_1601 + time) * SECS_TO_100NS <==>
                0 <= (EPOCH_1601 + time) * SECS_TO_100NS < TWO64)
  {
    var f, exact := FileTimeFromStdTimeT(time), (EPOCH_1601 + time) * SECS_TO_100NS;
    var quad := ((EPOCH_1601 + time % TWO64) % TWO64 * SECS_TO_100NS) % TWO64;
    assert Recombined(f) == quad;
    if 0 <= exact < TWO64 {
      assert 0 <= EPOCH_1601 + time < TWO64;
      WrapsAway(EPOCH_1601, time);
    }
  }

  /**
    For certificate dates of the years 1601 to 9999 there is no wraparound, later
    dates have later file times, and the seconds can be recovered.
   */
  lemma FileTimeOfDates(s: Bytes, t: Bytes)
    requires ValidText(s) && ValidText(t) && 1601 <= DateOf(s).y && 1601 <= DateOf(t).y
    ensures var a, b := Timegm(TmOf(s)), Timegm(TmOf(t));
            && Recombined(FileTimeFromStdTimeT(a)) / SECS_TO_100NS - EPOCH_1601 == a
            && Recombined(FileTimeFromStdTimeT(a)) % SECS_TO_100NS == 0
            && (Before(s, t) <==> Recombined(FileTimeFromStdTimeT(a)) < Recombined(FileTimeFromStdTimeT(b)))
  {
    From1601(s);
    From1601(t);
    FileTimeExact(Timegm(TmOf(s)));
    FileTimeExact(Timegm(TmOf(t)));
    OrderPreserved(s, t);
  }

  lemma From1601(s: Bytes)
    requires ValidText(s) && 1601 <= DateOf(s).y
    ensures -EPOCH_1601 <= Timegm(TmOf(s)) <= LAST
  {
    ParseGeneral(s);
    InRange(s);
    TimegmIsSeconds(s);
    DayFrom1601(DateOf(s));
  }

  lemma DayFrom1601(x: Date)
    requires ValidDate(x) && 1601 <= x.y
    ensures -EPOCH_1601 <= Day(x) * 86400
  {
    DayWithinYear(x);
    if x.y > 1601 { YearsAscend(1601, x.y); }
    assert YearStart(1601) * 86400 == -EPOCH_1601;
  }

  /** The beginning of 1601, of 1970, and one second later. */
  lemma FileTimeInNumbers()
    ensures FileTimeFromStdTimeT(-11644473600) == FileTime(0, 0)
    ensures Recombined(FileTimeFromStdTimeT(0)) == 116444736000000000
    ensures forall t :: -11644473600 <= t < 253402300799 ==>
              Recombined(FileTimeFromStdTimeT(t + 1)) == Recombined(FileTimeFromStdTimeT(t)) + 10000000
    ensures EpochSeconds(1601, 1, 1, 0, 0, 0) == -11644473600
  {
    FileTimeExact(-11644473600);
    forall t | -11644473600 <= t < 253402300799
      ensures Recombined(FileTimeFromStdTimeT(t + 1)) == Recombined(FileTimeFromStdTimeT(t)) + 10000000
    {
      FileTimeExact(t);
      FileTimeExact(t + 1);
    }
  }
}
