/** Dates and naive datetimes as the payload writes them, with Python's
    `date.isoformat()` and `datetime.isoformat()`. */
module IsoFormat {
  import opened Json
  import JsonParse

  /** A calendar date. Field ranges are Python's; which days each month has
      is not checked here. */
  datatype Date = Date(year: int, month: int, day: int)

  /** A naive datetime (the columns carry no time zone). */
  datatype DateTime = DateTime(date: Date, hour: int, minute: int, second: int, microsecond: int)

  predicate ValidDate(d: Date) {
    1 <= d.year <= 9999 && 1 <= d.month <= 12 && 1 <= d.day <= 31
  }

  predicate ValidDateTime(t: DateTime) {
    ValidDate(t.date) && 0 <= t.hour < 24 && 0 <= t.minute < 60 && 0 <= t.second < 60
    && 0 <= t.microsecond < 1000000
  }

  /** A date a `Date` column can hold. */
  type CalendarDate = d: Date | ValidDate(d) witness Date(1, 1, 1)

  /** A datetime a `DateTime` column can hold. */
  type Timestamp = t: DateTime | ValidDateTime(t) witness DateTime(Date(1, 1, 1), 0, 0, 0, 0)

  /** A single number that orders datetimes as time does. */
  function Instant(t: DateTime): int {
    var d := t.date;
    ((((((d.year * 13 + d.month) * 32 + d.day) * 24 + t.hour) * 60 + t.minute) * 60 + t.second)
      * 1000000 + t.microsecond)
  }

  function Zeros(n: nat): (r: string)
    ensures |r| == n && AllDigits(r)
  {
    if n == 0 then [] else Zeros(n - 1) + "0"
  }

  /** `%0<width>d`: decimal text padded on the left with zeros. */
  function Pad(n: nat, width: nat): (r: string)
    ensures AllDigits(r)
  {
    var t := NatText(n);
    if |t| >= width then t else Zeros(width - |t|) + t
  }

  function Power10(n: nat): (p: nat)
    ensures p > 0
  {
    if n == 0 then 1 else 10 * Power10(n - 1)
  }

  lemma {:induction false} NatTextLength(n: nat, width: nat)
    requires 1 <= width && n < Power10(width)
    ensures |NatText(n)| <= width
    decreases n
  {
    assert Power10(1) == 10;
    if n >= 10 {
      assert n / 10 < Power10(width - 1);
      NatTextLength(n / 10, width - 1);
    }
  }

  /** A number below 10^width fills exactly `width` digits. */
  lemma PadLength(n: nat, width: nat)
    requires 1 <= width && n < Power10(width)
    ensures |Pad(n, width)| == width
  {
    NatTextLength(n, width);
  }

  /** The four-digit year, the month and the day of a date. */
  function DateFields(d: Date): (f: (string, string, string))
    requires ValidDate(d)
    ensures |f.0| == 4 && |f.1| == 2 && |f.2| == 2
  {
    assert Power10(4) == 10000 && Power10(2) == 100;
    PadLength(d.year as nat, 4);
    PadLength(d.month as nat, 2);
    PadLength(d.day as nat, 2);
    (Pad(d.year as nat, 4), Pad(d.month as nat, 2), Pad(d.day as nat, 2))
  }

  /** `date.isoformat()`: `YYYY-MM-DD`. */
  function DateText(d: Date): (r: string)
    requires ValidDate(d)
    ensures |r| == 10
  {
    var f := DateFields(d);
    f.0 + ("-" + (f.1 + ("-" + f.2)))
  }

  /** The hour, minute and second of a datetime, and the fraction that
      follows them. */
  function TimeFields(t: DateTime): (f: (string, string, string, string))
    requires ValidDateTime(t)
    ensures |f.0| == 2 && |f.1| == 2 && |f.2| == 2
    ensures |f.3| == (if t.microsecond == 0 then 0 else 7)
  {
    assert Power10(2) == 100 && Power10(6) == 1000000;
    PadLength(t.hour as nat, 2);
    PadLength(t.minute as nat, 2);
    PadLength(t.second as nat, 2);
    PadLength(t.microsecond as nat, 6);
    (Pad(t.hour as nat, 2), Pad(t.minute as nat, 2), Pad(t.second as nat, 2),
     if t.microsecond == 0 then "" else "." + Pad(t.microsecond as nat, 6))
  }

  /** `datetime.isoformat()`: `YYYY-MM-DDTHH:MM:SS`, followed by `.ffffff`
      only when the microseconds are not zero. */
  function DateTimeText(t: DateTime): (r: string)
    requires ValidDateTime(t)
    ensures |r| == (if t.microsecond == 0 then 19 else 26)
  {
    var f := TimeFields(t);
    DateText(t.date) + ("T" + (f.0 + (":" + (f.1 + (":" + (f.2 + f.3))))))
  }

  // ---------------------------------------------------------------------
  // The texts lose nothing
  // ---------------------------------------------------------------------

  lemma Shift(pa: nat, p: nat, pb: nat, d: nat)
    ensures (pa * p + pb) * 10 + d == pa * (p * 10) + (pb * 10 + d)
  {
  }

  /** The value of digits written after other digits. */
  lemma {:induction false} ParseNatAppend(a: string, b: string)
    requires AllDigits(a) && AllDigits(b)
    ensures AllDigits(a + b)
    ensures JsonParse.ParseNat(a + b) == JsonParse.ParseNat(a) * Power10(|b|) + JsonParse.ParseNat(b)
    decreases |b|
  {
    if b == [] {
      assert a + b == a;
    } else {
      var n := |b| - 1;
      var ab := a + b;
      assert ab[..|ab| - 1] == a + b[..n];
      assert ab[|ab| - 1] == b[n];
      var d := JsonParse.DigitValue(b[n]);
      ParseNatAppend(a, b[..n]);
      var pa, pb := JsonParse.ParseNat(a), JsonParse.ParseNat(b[..n]);
      assert JsonParse.ParseNat(ab) == JsonParse.ParseNat(a + b[..n]) * 10 + d;
      assert JsonParse.ParseNat(b) == pb * 10 + d;
      assert Power10(|b|) == Power10(n) * 10;
      Shift(pa, Power10(n), pb, d);
    }
  }

  lemma {:induction false} ParseZeros(n: nat)
    ensures JsonParse.ParseNat(Zeros(n)) == 0
  {
    if n > 0 {
      ParseZeros(n - 1);
      assert Zeros(n)[..n - 1] == Zeros(n - 1);
    }
  }

  /** Leading zeros do not change the value of a number's digits. */
  lemma ParseLeadingZeros(k: nat, t: string)
    requires AllDigits(t)
    ensures JsonParse.ParseNat(Zeros(k) + t) == JsonParse.ParseNat(t)
  {
    ParseNatAppend(Zeros(k), t);
    ParseZeros(k);
    ZeroTimes(Power10(|t|));
  }

  lemma ZeroTimes(p: nat)
    ensures 0 * p == 0
  {
  }

  lemma ParsePad(n: nat, width: nat)
    ensures JsonParse.ParseNat(Pad(n, width)) == n
  {
    var t := NatText(n);
    JsonParse.ParseNatText(n);
    if |t| < width {
      ParseLeadingZeros(width - |t|, t);
    }
  }

  /** Texts that start with pieces of equal length agree piece by piece. */
  lemma CancelPrefix(a1: string, r1: string, a2: string, r2: string)
    requires |a1| == |a2| && a1 + r1 == a2 + r2
    ensures a1 == a2 && r1 == r2
  {
    assert a1 == (a1 + r1)[..|a1|] && a2 == (a2 + r2)[..|a2|];
    assert r1 == (a1 + r1)[|a1|..] && r2 == (a2 + r2)[|a2|..];
  }

  /** Distinct dates have distinct texts. */
  lemma DateTextInjective(a: Date, b: Date)
    requires ValidDate(a) && ValidDate(b)
    ensures DateText(a) == DateText(b) <==> a == b
  {
    if DateText(a) == DateText(b) {
      var fa, fb := DateFields(a), DateFields(b);
      CancelPrefix(fa.0, "-" + (fa.1 + ("-" + fa.2)), fb.0, "-" + (fb.1 + ("-" + fb.2)));
      CancelPrefix("-", fa.1 + ("-" + fa.2), "-", fb.1 + ("-" + fb.2));
      CancelPrefix(fa.1, "-" + fa.2, fb.1, "-" + fb.2);
      CancelPrefix("-", fa.2, "-", fb.2);
      ParsePad(a.year as nat, 4);
      ParsePad(b.year as nat, 4);
      ParsePad(a.month as nat, 2);
      ParsePad(b.month as nat, 2);
      ParsePad(a.day as nat, 2);
      ParsePad(b.day as nat, 2);
    }
  }

  lemma TimeFieldsInjective(a: DateTime, b: DateTime)
    requires ValidDateTime(a) && ValidDateTime(b)
    requires TimeFields(a) == TimeFields(b)
    ensures a.hour == b.hour && a.minute == b.minute && a.second == b.second
    ensures a.microsecond == b.microsecond
  {
    ParsePad(a.hour as nat, 2);
    ParsePad(b.hour as nat, 2);
    ParsePad(a.minute as nat, 2);
    ParsePad(b.minute as nat, 2);
    ParsePad(a.second as nat, 2);
    ParsePad(b.second as nat, 2);
    if a.microsecond != 0 && b.microsecond != 0 {
      var fa, fb := TimeFields(a).3, TimeFields(b).3;
      assert fa[1..] == Pad(a.microsecond as nat, 6) && fb[1..] == Pad(b.microsecond as nat, 6);
      ParsePad(a.microsecond as nat, 6);
      ParsePad(b.microsecond as nat, 6);
    }
  }

  /** Distinct datetimes have distinct texts. */
  lemma DateTimeTextInjective(a: DateTime, b: DateTime)
    requires ValidDateTime(a) && ValidDateTime(b)
    ensures DateTimeText(a) == DateTimeText(b) <==> a == b
  {
    if DateTimeText(a) == DateTimeText(b) {
      var fa, fb := TimeFields(a), TimeFields(b);
      var ta := "T" + (fa.0 + (":" + (fa.1 + (":" + (fa.2 + fa.3)))));
      var tb := "T" + (fb.0 + (":" + (fb.1 + (":" + (fb.2 + fb.3)))));
      CancelPrefix(DateText(a.date), ta, DateText(b.date), tb);
      DateTextInjective(a.date, b.date);
      TimeTextInjective(a, b);
    }
  }

  lemma TimeTextInjective(a: DateTime, b: DateTime)
    requires ValidDateTime(a) && ValidDateTime(b)
    requires var fa, fb := TimeFields(a), TimeFields(b);
      "T" + (fa.0 + (":" + (fa.1 + (":" + (fa.2 + fa.3)))))
        == "T" + (fb.0 + (":" + (fb.1 + (":" + (fb.2 + fb.3)))))
    ensures a.hour == b.hour && a.minute == b.minute && a.second == b.second
    ensures a.microsecond == b.microsecond
  {
    var fa, fb := TimeFields(a), TimeFields(b);
    CancelPrefix("T", fa.0 + (":" + (fa.1 + (":" + (fa.2 + fa.3)))), "T", fb.0 + (":" + (fb.1 + (":" + (fb.2 + fb.3)))));
    CancelPrefix(fa.0, ":" + (fa.1 + (":" + (fa.2 + fa.3))), fb.0, ":" + (fb.1 + (":" + (fb.2 + fb.3))));
    CancelPrefix(":", fa.1 + (":" + (fa.2 + fa.3)), ":", fb.1 + (":" + (fb.2 + fb.3)));
    CancelPrefix(fa.1, ":" + (fa.2 + fa.3), fb.1, ":" + (fb.2 + fb.3));
    CancelPrefix(":", fa.2 + fa.3, ":", fb.2 + fb.3);
    CancelPrefix(fa.2, fa.3, fb.2, fb.3);
    TimeFieldsInjective(a, b);
  }
}
