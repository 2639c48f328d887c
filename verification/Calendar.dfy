// helpers_time.h and rtc.c: from the date the clock chip shows to seconds since the epoch.

module Calendar {

  predicate IsLeap(y: int) { (y % 4 == 0 && y % 100 != 0) || y % 400 == 0 }

  const DAYS_IN_MONTH: seq<nat> := [31, 28, 31, 30, 31, 30, 31, 31, 30, 31, 30, 31]

  datatype Date = Date(year: int, month: int, day: int)

  function MonthLength(year: int, month: int): nat
    requires 1 <= month <= 12
  {
    if month == 2 && IsLeap(year) then 29 else DAYS_IN_MONTH[month - 1]
  }

  predicate ValidDate(d: Date) { d.year >= 1970 && 1 <= d.month <= 12 && 1 <= d.day <= MonthLength(d.year, d.month) }

  // ---- The reference: POSIX.1-2017, XBD section 4.16 ----

  // Days before the first of each month of a common year.
  const DAYS_BEFORE: seq<nat> := [0, 31, 59, 90, 120, 151, 181, 212, 243, 273, 304, 334]

  // tm_yday
  function DayOfYear(d: Date): int
    requires 1 <= d.month <= 12
  {
    DAYS_BEFORE[d.month - 1] + (if d.month > 2 && IsLeap(d.year) then 1 else 0) + d.day - 1
  }

  // The days term of the formula for the first of January, with tm_year = year - 1900.
  function YearDays(year: int): int {
    var tm := year - 1900;
    (tm - 70) * 365 + (tm - 69) / 4 - (tm - 1) / 100 + (tm + 299) / 400
  }

  function PosixDays(d: Date): int
    requires 1 <= d.month <= 12
  {
    YearDays(d.year) + DayOfYear(d)
  }

  datatype Time = Time(date: Date, hour: int, minute: int, second: int)

  predicate ValidTime(t: Time) { ValidDate(t.date) && 0 <= t.hour < 24 && 0 <= t.minute < 60 && 0 <= t.second < 60 }

  // tm_sec + tm_min*60 + tm_hour*3600 + tm_yday*86400 + (tm_year-70)*31536000 + ((tm_year-69)/4)*86400
  // - ((tm_year-1)/100)*86400 + ((tm_year+299)/400)*86400
  function PosixSeconds(t: Time): int
    requires 1 <= t.date.month <= 12
  {
    var tm := t.date.year - 1900;
    t.second + t.minute * 60 + t.hour * 3600 + DayOfYear(t.date) * 86400 + (tm - 70) * 31536000 +
    (tm - 69) / 4 * 86400 - (tm - 1) / 100 * 86400 + (tm + 299) / 400 * 86400
  }

  // ---- The loops ----

  lemma NextYear(y: int)
    requires y >= 1970
    ensures YearDays(y + 1) == YearDays(y) + if IsLeap(y) then 366 else 365
  {
    LeapTerm(y - 1900 - 69, 4);
    LeapTerm(y - 1900 - 1, 100);
    LeapTerm(y - 1900 + 299, 400);
  }

  lemma LeapTerm(x: int, k: int)
    requires x >= 0 && k > 1
    ensures (x + 1) / k == x / k + if (x + 1) % k == 0 then 1 else 0
  {
    var q, r := x / k, x % k;
    if r + 1 < k {
      Quotient(x + 1, k, q, r + 1);
    } else {
      assert q * k + k == (q + 1) * k;
      Quotient(x + 1, k, q + 1, 0);
    }
  }

  lemma Quotient(x: int, k: int, q: int, r: int)
    requires k > 1 && x == q * k + r && 0 <= r < k
    ensures x / k == q && x % k == r
  {
    var p := x / k;
    if p < q { Multiple(q - p, k); }
    if p > q { Multiple(p - q, k); }
    assert (q - p) * k == x % k - r;
  }

  lemma Multiple(d: int, k: int)
    requires d >= 1 && k >= 0
    ensures d * k >= k && (-d) * k <= -k
  {
  }

  // days_since_epoch
  method DaysSinceEpoch(year: int, month: int, day: int) returns (days: int)
    requires ValidDate(Date(year, month, day))
    ensures days == PosixDays(Date(year, month, day))
  {
    days := 0;
    var y := 1970;
    while y < year
      invariant 1970 <= y <= year && days == YearDays(y)
    {
      NextYear(y);
      days := days + if IsLeap(y) then 366 else 365;
      y := y + 1;
    }
    var m := 1;
    while m < month
      invariant 1 <= m <= month && days == YearDays(year) + DayOfYear(Date(year, m, 1))
    {
      if m == 2 && IsLeap(year) {
        days := days + 29;
      } else {
        days := days + DAYS_IN_MONTH[m - 1];
      }
      m := m + 1;
    }
    days := days + (day - 1);
  }

  // rtc_to_timespec
  method RtcToTimespec(second: int, minute: int, hour: int, day: int, month: int, year: int,
                       century: int) returns (ts: TimeSpec)
    requires ValidTime(Time(Date(year + century * 100, month, day), hour, minute, second))
    ensures fresh(ts) && ts.nsec == 0
    ensures ts.sec == PosixSeconds(Time(Date(year + century * 100, month, day), hour, minute, second))
  {
    var fullYear := year + century * 100;
    var days := DaysSinceEpoch(fullYear, month, day);
    var sec := days * 86400 + hour * 3600 + minute * 60 + second;
    ts := new TimeSpec(sec, 0);
  }

  // ---- Order ----

  predicate Before(a: Date, b: Date) {
    a.year < b.year || (a.year == b.year && (a.month < b.month || (a.month == b.month && a.day < b.day)))
  }

  predicate Earlier(a: Time, b: Time) {
    Before(a.date, b.date) ||
      (a.date == b.date && a.hour * 3600 + a.minute * 60 + a.second < b.hour * 3600 + b.minute * 60 + b.second)
  }

  lemma {:induction false} YearsGrow(y: int, z: int)
    requires 1970 <= y < z
    ensures YearDays(y) + (if IsLeap(y) then 366 else 365) <= YearDays(z)
    decreases z
  {
    NextYear(z - 1);
    if y < z - 1 { YearsGrow(y, z - 1); }
  }

  lemma WithinYear(d: Date)
    requires ValidDate(d)
    ensures 0 <= DayOfYear(d) < if IsLeap(d.year) then 366 else 365
  {
  }

  // The day count orders valid dates as the calendar does.
  lemma DaysOrdered(a: Date, b: Date)
    requires ValidDate(a) && ValidDate(b)
    ensures Before(a, b) <==> PosixDays(a) < PosixDays(b)
    ensures PosixDays(a) == PosixDays(b) <==> a == b
  {
    WithinYear(a);
    WithinYear(b);
    if a.year < b.year { YearsGrow(a.year, b.year); }
    if b.year < a.year { YearsGrow(b.year, a.year); }
    hide YearDays;
    if a.year == b.year { MonthsOrdered(a, b); }
  }

  lemma MonthsOrdered(a: Date, b: Date)
    requires ValidDate(a) && ValidDate(b) && a.year == b.year
    ensures Before(a, b) <==> DayOfYear(a) < DayOfYear(b)
    ensures DayOfYear(a) == DayOfYear(b) <==> a == b
  {
  }

  // So do the seconds.
  lemma SecondsOrdered(a: Time, b: Time)
    requires ValidTime(a) && ValidTime(b)
    ensures Earlier(a, b) <==> PosixSeconds(a) < PosixSeconds(b)
  {
    DaysOrdered(a.date, b.date);
    SecondsOfDays(a);
    SecondsOfDays(b);
  }

  lemma SecondsOfDays(t: Time)
    requires ValidTime(t)
    ensures PosixSeconds(t) == PosixDays(t.date) * 86400 + (t.hour * 3600 + t.minute * 60 + t.second)
    ensures 0 <= t.hour * 3600 + t.minute * 60 + t.second < 86400
  {
  }

  // ---- Every day has its date ----

  function NextDate(d: Date): Date
    requires ValidDate(d)
  {
    if d.day < MonthLength(d.year, d.month) then d.(day := d.day + 1)
    else if d.month < 12 then Date(d.year, d.month + 1, 1)
    else Date(d.year + 1, 1, 1)
  }

  // The count starts at the epoch and misses no day.
  lemma NextDayCounts(d: Date)
    requires ValidDate(d)
    ensures ValidDate(NextDate(d)) && PosixDays(NextDate(d)) == PosixDays(d) + 1
    ensures PosixDays(Date(1970, 1, 1)) == 0
  {
    Epoch();
    NextYear(d.year);
    MonthEnds(d.year, d.month);
    hide YearDays, MonthLength, IsLeap;
    var n := NextDate(d);
    assert d.day < MonthLength(d.year, d.month) ==> DayOfYear(n) == DayOfYear(d) + 1;
    NextIsValid(d);
  }

  lemma Epoch()
    ensures PosixDays(Date(1970, 1, 1)) == 0
  {
  }

  lemma NextIsValid(d: Date)
    requires ValidDate(d)
    ensures ValidDate(NextDate(d))
  {
  }

  lemma MonthEnds(year: int, month: int)
    requires 1 <= month <= 12
    ensures var last := DayOfYear(Date(year, month, MonthLength(year, month)));
      if month < 12 then last + 1 == DayOfYear(Date(year, month + 1, 1))
      else last + 1 == if IsLeap(year) then 366 else 365
    ensures DayOfYear(Date(year + 1, 1, 1)) == 0
  {
  }

  // ---- The clock chip's digits ----

  // rtc_init's decoding of a binary-coded byte.
  function FromBcd(b: nat): nat { b % 16 + b / 16 * 10 }

  function ToBcd(x: nat): nat { x / 10 * 16 + x % 10 }

  lemma BcdRoundTrip(x: nat)
    requires x < 100
    ensures ToBcd(x) < 256 && FromBcd(ToBcd(x)) == x
  {
    var t, u := x / 10, x % 10;
    assert (t * 16 + u) / 16 == t && (t * 16 + u) % 16 == u;
  }

  // ---- timespec ----

  // C division and remainder truncate towards zero.
  function CDiv(a: int, b: int): int
    requires b > 0
  {
    if a >= 0 then a / b else -((-a) / b)
  }

  function CMod(a: int, b: int): int
    requires b > 0
  {
    a - CDiv(a, b) * b
  }

  class TimeSpec {
    var sec: int
    var nsec: int

    constructor (sec: int, nsec: int)
      ensures this.sec == sec && this.nsec == nsec
    {
      this.sec, this.nsec := sec, nsec;
    }

    // The instant, in nanoseconds: timespec_to_nsec without its wrap.
    function ToNsec(): int
      reads this
    {
      sec * 1000000000 + nsec
    }

    // timespec_normalize: the one representation of the same instant with 0 <= nsec < 10^9, exactly when
    // its seconds fit 64 bits.
    method Normalize()
      requires InInt64(sec) && InInt64(nsec)
      modifies this
      ensures 0 <= nsec < 1000000000 && InInt64(sec)
      ensures sec == Signed64(old(ToNsec()) / 1000000000) && nsec == old(ToNsec()) % 1000000000
      ensures ToNsec() == old(ToNsec()) <==> InInt64(old(ToNsec()) / 1000000000)
    {
      hide Signed64, CDiv, CMod, InInt64;
      ghost var total := ToNsec();
      TruncatedParts(nsec);
      ghost var s := sec + CDiv(nsec, 1000000000);
      sec := Signed64(sec + CDiv(nsec, 1000000000));
      nsec := CMod(nsec, 1000000000);
      if nsec < 0 {
        sec := Signed64(sec - 1);
        nsec := nsec + 1000000000;
        SignedPart(s, -1);
        s := s - 1;
      }
      PartsUnique(total, s, nsec);
      SignedExact(s);
    }

    // rtc_real: the boot time plus what has passed since, exactly when the nanoseconds fit a signed
    // 64-bit number, 292 years, and the seconds do.
    method Real(base: TimeSpec, nsSinceBoot: nat)
      requires base != this && InInt64(base.sec) && 0 <= base.nsec < 1000000000
      requires nsSinceBoot < 0x1_0000_0000_0000_0000
      modifies this
      ensures 0 <= nsec < 1000000000 && InInt64(sec)
      ensures var total := old(base.ToNsec()) + nsSinceBoot;
        ToNsec() == total <==> InInt64(total / 1000000000) && InInt64(old(base.nsec) + nsSinceBoot)
    {
      sec := base.sec;
      nsec := base.nsec;
      nsec := Signed64(nsec + nsSinceBoot);
      ghost var wrapped := ToNsec();
      Normalize();
      RealExact(sec, nsec, base.ToNsec() + nsSinceBoot, wrapped);
    }
  }

  // What a signed 64-bit number holds.
  predicate InInt64(x: int) { -0x8000_0000_0000_0000 <= x < 0x8000_0000_0000_0000 }

  function Signed64(x: int): int { (x + 0x8000_0000_0000_0000) % 0x1_0000_0000_0000_0000 - 0x8000_0000_0000_0000 }

  lemma SignedExact(x: int)
    ensures InInt64(Signed64(x)) && (Signed64(x) == x <==> InInt64(x))
  {
  }

  lemma SignedPart(x: int, y: int)
    ensures Signed64(Signed64(x) + y) == Signed64(x + y)
  {
  }

  lemma FloorParts(total: int)
    ensures total == total / 1000000000 * 1000000000 + total % 1000000000 && 0 <= total % 1000000000 < 1000000000
  {
  }

  lemma PartsUnique(total: int, s: int, n: int)
    requires total == s * 1000000000 + n && 0 <= n < 1000000000
    ensures s == total / 1000000000 && n == total % 1000000000
  {
  }

  // A wrap of the nanoseconds is no whole number of seconds, so no wrap of the seconds makes up for it.
  lemma RealExact(sec: int, nsec: int, total: int, wrapped: int)
    requires wrapped == total || wrapped == total - 0x1_0000_0000_0000_0000
    requires sec == Signed64(wrapped / 1000000000) && nsec == wrapped % 1000000000
    requires sec * 1000000000 + nsec == wrapped <==> InInt64(wrapped / 1000000000)
    ensures sec * 1000000000 + nsec == total <==> InInt64(total / 1000000000) && wrapped == total
  {
    var s := wrapped / 1000000000;
    FloorParts(wrapped);
    var k := (s + 0x8000_0000_0000_0000) / 0x1_0000_0000_0000_0000;
    assert sec == s - k * 0x1_0000_0000_0000_0000;
  }

  lemma TruncatedParts(a: int)
    ensures CDiv(a, 1000000000) * 1000000000 + CMod(a, 1000000000) == a
    ensures -1000000000 < CMod(a, 1000000000) < 1000000000
  {
  }
}
