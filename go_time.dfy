/**
 * The part of Go's `time` package that the conversion helper relies on:
 * a `time.Time` reduced to its calendar date plus a time-of-day part that is
 * never inspected, and `Time.Format` with the one layout the code uses,
 * "2006-01-02" (zero-padded year, month and day joined by `-`).
 * Time zones are not modelled: the calendar date is taken as already given.
 */
module GoTime {

  /** The calendar date a `time.Time` reports through its `Date()` method. */
  datatype Date = Date(year: int, month: int, day: int) {

    /** What a normalised `time.Time` guarantees of month and day. */
    predicate Valid() {
      1 <= month <= 12 && 1 <= day <= 31
    }

    /** Years that the layout's four-digit year field can hold without overflowing it. */
    predicate FourDigitYear() {
      0 <= year <= 9999
    }
  }

  /** Time of day and location: carried along, never read by the code modelled here. */
  datatype Clock = Clock(hour: int, minute: int, second: int, nanosecond: int, location: string)

  datatype Time = Time(date: Date, clock: Clock)

  predicate IsDigit(c: char) {
    '0' <= c <= '9'
  }

  predicate AllDigits(s: string) {
    forall k :: 0 <= k < |s| ==> IsDigit(s[k])
  }

  function Pow10(k: nat): (p: nat)
    ensures p >= 1
  {
    if k == 0 then 1 else 10 * Pow10(k - 1)
  }

  function DigitChar(d: nat): (c: char)
    requires d < 10
    ensures IsDigit(c)
  {
    ('0' as int + d) as char
  }

  /** The decimal form of `n`, most significant digit first, without leading zeros. */
  function Digits(n: nat): (s: string)
    ensures |s| >= 1 && AllDigits(s)
    decreases n
  {
    if n < 10 then [DigitChar(n)] else Digits(n / 10) + [DigitChar(n % 10)]
  }

  /** The number a string of decimal digits denotes: the reading that `Digits` must agree with. */
  function Value(s: string): nat
    requires AllDigits(s)
  {
    if s == [] then 0 else Value(s[..|s| - 1]) * 10 + (s[|s| - 1] as int - '0' as int)
  }

  /** `k` copies of the character `0`. */
  function Zeros(k: nat): (s: string)
    ensures |s| == k && AllDigits(s)
  {
    if k == 0 then [] else Zeros(k - 1) + ['0']
  }

  /**
   * Go's internal `appendInt(nil, x, width)` used by `Format` for numeric fields:
   * a `-` for a negative `x`, then the digits of |x|, left-padded with `0` to at
   * least `width` digits. Wider numbers are written out in full, never truncated.
   */
  function AppendInt(x: int, width: nat): (r: string)
    ensures |r| >= 1 && |r| >= width
    ensures r[0] == '-' <==> x < 0
    ensures AllDigits(r[if x < 0 then 1 else 0..])
  {
    var ds := Digits(if x < 0 then -x else x);
    (if x < 0 then "-" else "") + Zeros(if width > |ds| then width - |ds| else 0) + ds
  }

  /**
   * `t.Format("2006-01-02")`: the layout's `2006`, `01` and `02` elements are the
   * year padded to 4 digits, the month padded to 2 and the day padded to 2.
   * Only the calendar date is read; the clock part is dropped.
   */
  function FormatDate(t: Time): (r: string)
    ensures |r| >= 10
  {
    AppendInt(t.date.year, 4) + "-" + AppendInt(t.date.month, 2) + "-" + AppendInt(t.date.day, 2)
  }

  /** The `YYYY-MM-DD` shape: ten characters, digits everywhere except the two dashes. */
  predicate IsDateString(s: string) {
    |s| == 10 && s[4] == '-' && s[7] == '-'
    && AllDigits(s[..4]) && AllDigits(s[5..7]) && AllDigits(s[8..])
  }

  lemma {:induction false} ValueDigits(n: nat)
    ensures Value(Digits(n)) == n
    decreases n
  {
    var s := Digits(n);
    if n >= 10 {
      ValueDigits(n / 10);
      assert s[..|s| - 1] == Digits(n / 10);
    }
  }

  lemma AllDigitsConcat(a: string, b: string)
    requires AllDigits(a) && AllDigits(b)
    ensures AllDigits(a + b)
  {
    forall i | 0 <= i < |a + b| ensures IsDigit((a + b)[i]) {
      if i < |a| { assert (a + b)[i] == a[i]; } else { assert (a + b)[i] == b[i - |a|]; }
    }
  }

  lemma {:induction false} ValueZeros(k: nat)
    ensures Value(Zeros(k)) == 0
  {
    if k > 0 {
      ValueZeros(k - 1);
      assert Zeros(k)[..k - 1] == Zeros(k - 1);
    }
  }

  /** Leading zeros do not change the value of a digit string. */
  lemma {:induction false} ValueZerosPrefix(k: nat, s: string)
    requires AllDigits(s)
    ensures AllDigits(Zeros(k) + s) && Value(Zeros(k) + s) == Value(s)
    decreases |s|
  {
    var z := Zeros(k);
    AllDigitsConcat(z, s);
    if s == [] {
      assert z + s == z;
      ValueZeros(k);
    } else {
      var init := s[..|s| - 1];
      assert AllDigits(init) by {
        forall i | 0 <= i < |init| ensures IsDigit(init[i]) { assert init[i] == s[i]; }
      }
      ValueZerosPrefix(k, init);
      var zs := z + s;
      assert zs[..|zs| - 1] == z + init;
      assert zs[|zs| - 1] == s[|s| - 1];
    }
  }

  /** The decimal form of `n` fits in `k` characters exactly when `n < 10^k`. */
  lemma {:induction false} DigitsLength(n: nat, k: nat)
    requires 1 <= k
    ensures |Digits(n)| <= k <==> n < Pow10(k)
    decreases n
  {
    if n < 10 {
      Pow10AtLeastTen(k);
    } else if k == 1 {
      assert |Digits(n)| == |Digits(n / 10)| + 1;
      assert Pow10(1) == 10;
    } else {
      DigitsLength(n / 10, k - 1);
      assert |Digits(n)| == |Digits(n / 10)| + 1;
      assert Pow10(k) == 10 * Pow10(k - 1);
      assert n / 10 < Pow10(k - 1) <==> n < 10 * Pow10(k - 1);
    }
  }

  lemma {:induction false} Pow10AtLeastTen(k: nat)
    requires 1 <= k
    ensures Pow10(k) >= 10
  {
    if k > 1 {
      Pow10AtLeastTen(k - 1);
    }
  }

  /** A numeric field is exactly `width` characters long iff the number is non-negative and below `10^width`. */
  lemma AppendIntLength(x: int, width: nat)
    requires 1 <= width
    ensures |AppendInt(x, width)| == width <==> 0 <= x < Pow10(width)
  {
    DigitsLength(if x < 0 then -x else x, width);
  }

  /** In range, a numeric field is `width` digits that read back as `x`. */
  lemma AppendIntPadded(x: nat, width: nat)
    requires 1 <= width && x < Pow10(width)
    ensures |AppendInt(x, width)| == width
    ensures AllDigits(AppendInt(x, width)) && Value(AppendInt(x, width)) == x
  {
    var ds := Digits(x);
    DigitsLength(x, width);
    ValueZerosPrefix(width - |ds|, ds);
    ValueDigits(x);
    assert AppendInt(x, width) == Zeros(width - |ds|) + ds;
  }

  /** A formatted valid date is ten characters long exactly when its year has at most four digits. */
  lemma FormatDateLength(t: Time)
    requires t.date.Valid()
    ensures |FormatDate(t)| == 10 <==> t.date.FourDigitYear()
  {
    assert Pow10(2) == 100;
    assert Pow10(4) == 10000;
    AppendIntLength(t.date.year, 4);
    AppendIntLength(t.date.month, 2);
    AppendIntLength(t.date.day, 2);
    if t.date.year < 0 {
      assert |AppendInt(t.date.year, 4)| >= 5;
    } else {
      DigitsLength(t.date.year, 4);
    }
  }

  /** For years 0 to 9999 the result has the `YYYY-MM-DD` shape and each field reads back as the date's own. */
  lemma FormatDateShape(t: Time)
    requires t.date.Valid() && t.date.FourDigitYear()
    ensures IsDateString(FormatDate(t))
    ensures Value(FormatDate(t)[..4]) == t.date.year
    ensures Value(FormatDate(t)[5..7]) == t.date.month
    ensures Value(FormatDate(t)[8..]) == t.date.day
  {
    assert Pow10(2) == 100;
    assert Pow10(4) == 10000;
    var y := AppendInt(t.date.year, 4);
    var m := AppendInt(t.date.month, 2);
    var d := AppendInt(t.date.day, 2);
    AppendIntPadded(t.date.year, 4);
    AppendIntPadded(t.date.month, 2);
    AppendIntPadded(t.date.day, 2);
    DateStringOf(y, m, d);
  }

  /** Four, two and two digits joined by `-` form a date string whose fields are those pieces. */
  lemma DateStringOf(y: string, m: string, d: string)
    requires |y| == 4 && |m| == 2 && |d| == 2
    requires AllDigits(y) && AllDigits(m) && AllDigits(d)
    ensures var s := y + "-" + m + "-" + d;
      IsDateString(s) && s[..4] == y && s[5..7] == m && s[8..] == d
  {
    var s := y + "-" + m + "-" + d;
    assert s[..4] == y;
    assert s[5..7] == m;
    assert s[8..] == d;
  }

  /** The digits after the sign read back as |x|. */
  lemma AppendIntValue(x: int, width: nat)
    ensures var r := AppendInt(x, width);
      AllDigits(r[if x < 0 then 1 else 0..]) && Value(r[if x < 0 then 1 else 0..]) == if x < 0 then -x else x
  {
    var u := if x < 0 then -x else x;
    var ds := Digits(u);
    var r := AppendInt(x, width);
    var z := Zeros(if width > |ds| then width - |ds| else 0);
    assert r[if x < 0 then 1 else 0..] == z + ds;
    ValueZerosPrefix(|z|, ds);
    ValueDigits(u);
  }

  /** A numeric field determines its number: sign first, then the digits' value. */
  lemma AppendIntInjective(x: int, y: int, width: nat)
    ensures AppendInt(x, width) == AppendInt(y, width) <==> x == y
  {
    if AppendInt(x, width) == AppendInt(y, width) {
      AppendIntValue(x, width);
      AppendIntValue(y, width);
    }
  }

  /** A `-`-joined string with two-character month and day fields splits back into its three fields. */
  lemma SplitDateFields(y1: string, m1: string, d1: string, y2: string, m2: string, d2: string)
    requires |m1| == |m2| == |d1| == |d2| == 2
    requires y1 + "-" + m1 + "-" + d1 == y2 + "-" + m2 + "-" + d2
    ensures y1 == y2 && m1 == m2 && d1 == d2
  {
    var s1, s2 := y1 + "-" + m1 + "-" + d1, y2 + "-" + m2 + "-" + d2;
    assert |y1| == |y2|;
    assert y1 == s1[..|y1|] && y2 == s2[..|y2|];
    assert m1 == s1[|y1| + 1..|y1| + 3] && m2 == s2[|y2| + 1..|y2| + 3];
    assert d1 == s1[|y1| + 4..] && d2 == s2[|y2| + 4..];
  }

  /** On valid dates the rendering loses nothing of the date: equal strings iff equal dates, whatever the year or the time of day. */
  lemma FormatDateInjective(t1: Time, t2: Time)
    requires t1.date.Valid() && t2.date.Valid()
    ensures FormatDate(t1) == FormatDate(t2) <==> t1.date == t2.date
  {
    if FormatDate(t1) == FormatDate(t2) {
      assert Pow10(2) == 100;
      AppendIntPadded(t1.date.month, 2);
      AppendIntPadded(t1.date.day, 2);
      AppendIntPadded(t2.date.month, 2);
      AppendIntPadded(t2.date.day, 2);
      SplitDateFields(AppendInt(t1.date.year, 4), AppendInt(t1.date.month, 2), AppendInt(t1.date.day, 2),
                      AppendInt(t2.date.year, 4), AppendInt(t2.date.month, 2), AppendInt(t2.date.day, 2));
      AppendIntInjective(t1.date.year, t2.date.year, 4);
      AppendIntInjective(t1.date.month, t2.date.month, 2);
      AppendIntInjective(t1.date.day, t2.date.day, 2);
    }
  }
}
