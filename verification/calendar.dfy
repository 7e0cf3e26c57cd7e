/** Calendar dates, instants within a local day, and the `YYYYMMDD` stamp
    the name composer writes. A JavaScript `Date` read in local time is
    modelled as the calendar date it falls on plus the milliseconds elapsed
    since that day's midnight. */
module Calendar {
  import opened Wrappers

  datatype Date = Date(year: int, month: nat, day: nat)

  predicate IsLeapYear(y: int) {
    (y % 4 == 0 && y % 100 != 0) || y % 400 == 0
  }

  function DaysInMonth(y: int, m: nat): nat
    requires 1 <= m <= 12
  {
    if m == 2 then (if IsLeapYear(y) then 29 else 28)
    else if m == 4 || m == 6 || m == 9 || m == 11 then 30
    else 31
  }

  /** A day of the proleptic Gregorian calendar: months 1..12, `getMonth() + 1`. */
  predicate ValidDate(d: Date) {
    1 <= d.month <= 12 && 1 <= d.day <= DaysInMonth(d.year, d.month)
  }

  /** `a` is a strictly earlier calendar day than `b`. */
  predicate DateBefore(a: Date, b: Date) {
    || a.year < b.year
    || (a.year == b.year && a.month < b.month)
    || (a.year == b.year && a.month == b.month && a.day < b.day)
  }

  /** A point in local time: its calendar day and the time of day in milliseconds. */
  datatype Instant = Instant(date: Date, msOfDay: nat)

  /** The ordering `<` gives two `Date` objects of the same time zone. */
  predicate InstantBefore(a: Instant, b: Instant) {
    DateBefore(a.date, b.date) || (a.date == b.date && a.msOfDay < b.msOfDay)
  }

  /** `setHours(0, 0, 0, 0)`: the midnight that starts the instant's day. */
  function StartOfDay(i: Instant): Instant {
    Instant(i.date, 0)
  }

  /** Comparing an instant against the midnight that starts "now"'s day
      compares calendar days only: the time of day of the earlier-or-equal
      check drops out on both sides. */
  lemma BeforeStartOfDay(i: Instant, now: Instant)
    ensures InstantBefore(i, StartOfDay(now)) <==> DateBefore(i.date, now.date)
  {
  }

  /** Calendar days are totally and strictly ordered. */
  lemma DateBeforeTrichotomy(a: Date, b: Date)
    ensures !DateBefore(a, a)
    ensures DateBefore(a, b) ==> !DateBefore(b, a)
    ensures a == b || DateBefore(a, b) || DateBefore(b, a)
  {
  }

  predicate IsDigit(c: char) {
    '0' <= c <= '9'
  }

  predicate AllDigits(s: string) {
    forall k :: 0 <= k < |s| ==> IsDigit(s[k])
  }

  function DigitChar(n: nat): (c: char)
    requires n < 10
    ensures IsDigit(c)
  {
    (('0' as int) + n) as char
  }

  function DigitValue(c: char): nat
    requires IsDigit(c)
  {
    (c as int) - ('0' as int)
  }

  /** The number a string of decimal digits denotes, most significant first. */
  function DigitsValue(s: string): nat
    requires AllDigits(s)
  {
    if s == [] then 0 else DigitsValue(s[..|s| - 1]) * 10 + DigitValue(s[|s| - 1])
  }

  /** `String(n)` for a non-negative integer: its shortest decimal spelling,
      which reads back as `n` and has no leading zero. */
  function DecimalText(n: nat): (r: string)
    ensures |r| >= 1 && AllDigits(r)
    ensures DigitsValue(r) == n
    ensures r[0] == '0' ==> n == 0
    decreases n
  {
    if n < 10 then [DigitChar(n)]
    else
      var r := DecimalText(n / 10) + [DigitChar(n % 10)];
      assert r[..|r| - 1] == DecimalText(n / 10);
      r
  }

  function Pow10(k: nat): nat {
    if k == 0 then 1 else 10 * Pow10(k - 1)
  }

  /** A number between 10^(k-1) and 10^k - 1 is spelled with exactly k digits. */
  lemma {:induction false} DecimalTextLength(n: nat, k: nat)
    requires 1 <= k && Pow10(k - 1) <= n < Pow10(k)
    ensures |DecimalText(n)| == k
    decreases k
  {
    if k > 1 {
      DecimalTextLength(n / 10, k - 1);
    }
  }

  /** `String(v).padStart(2, '0')`. */
  function Pad2(n: nat): string {
    var t := DecimalText(n);
    if |t| < 2 then "0" + t else t
  }

  /** A month or day number is padded to exactly two digits that read back as itself. */
  lemma Pad2Digits(n: nat)
    requires 1 <= n <= 99
    ensures |Pad2(n)| == 2 && AllDigits(Pad2(n)) && DigitsValue(Pad2(n)) == n
  {
    if n < 10 {
      var t := DecimalText(n);
      assert Pad2(n)[..1] == "0";
    } else {
      DecimalTextLength(n, 2);
    }
  }

  /** `String(year)`: a minus sign precedes the digits of a negative year. */
  function YearText(y: int): string {
    if y < 0 then "-" + DecimalText(-y) else DecimalText(y)
  }

  /** `String(year)` reads back as the year: a leading minus sign exactly
      for a negative year, then the decimal digits of its magnitude. */
  lemma YearTextReadsBack(y: int)
    ensures var t := YearText(y);
      && t != []
      && (t[0] == '-' <==> y < 0)
      && (y >= 0 ==> AllDigits(t) && DigitsValue(t) == y)
      && (y < 0 ==> AllDigits(t[1..]) && DigitsValue(t[1..]) == -y)
  {
    if y < 0 {
      assert YearText(y)[1..] == DecimalText(-y);
    } else {
      assert IsDigit(YearText(y)[0]);
    }
  }

  /** The `YYYYMMDD` date stamp: `${year}${month}${day}` with month and day
      padded to two digits. */
  function Stamp(d: Date): string {
    YearText(d.year) + Pad2(d.month) + Pad2(d.day)
  }

  /** Reads an eight-digit `YYYYMMDD` stamp back into a date. */
  function ParseStamp(s: string): Option<Date> {
    if |s| == 8 && AllDigits(s) then
      Some(Date(DigitsValue(s[..4]), DigitsValue(s[4..6]), DigitsValue(s[6..])))
    else None
  }

  /** For years 1000..9999 the stamp is eight digits and reads back as the
      date it was written from, so distinct dates get distinct stamps. */
  lemma StampRoundTrip(d: Date)
    requires ValidDate(d) && 1000 <= d.year <= 9999
    ensures |Stamp(d)| == 8 && AllDigits(Stamp(d))
    ensures ParseStamp(Stamp(d)) == Some(d)
  {
    var y, m, dd := YearText(d.year), Pad2(d.month), Pad2(d.day);
    DecimalTextLength(d.year, 4);
    Pad2Digits(d.month);
    Pad2Digits(d.day);
    var s := Stamp(d);
    assert s[..4] == y;
    assert s[4..6] == m;
    assert s[6..] == dd;
  }

  lemma StampInjective(a: Date, b: Date)
    requires ValidDate(a) && 1000 <= a.year <= 9999
    requires ValidDate(b) && 1000 <= b.year <= 9999
    ensures Stamp(a) == Stamp(b) <==> a == b
  {
    StampRoundTrip(a);
    StampRoundTrip(b);
  }
}
