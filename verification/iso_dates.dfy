/**
 * `str(date)`: the ISO 8601 text of a date, `YYYY-MM-DD` with the year padded
 * to at least four digits, and its inverse. The round trip shows that
 * distinct dates get distinct labels, which is what makes the day buckets
 * of the statistics view distinct dictionary keys.
 */
module IsoDates {
  import opened Wrappers
  import opened Calendar

  predicate IsDigit(c: char) {
    '0' <= c <= '9'
  }

  predicate AllDigits(s: string) {
    forall i :: 0 <= i < |s| ==> IsDigit(s[i])
  }

  function DigitChar(n: int): (c: char)
    requires 0 <= n < 10
    ensures IsDigit(c)
  {
    (48 + n) as char
  }

  function DigitValue(c: char): (n: nat)
    requires IsDigit(c)
    ensures n < 10 && DigitChar(n) == c
  {
    (c as int) - 48
  }

  /** Decimal digits of n, most significant first, without leading zeros. */
  function NatDigits(n: nat): (s: string)
    ensures 1 <= |s| && AllDigits(s)
    ensures n < 10 ==> |s| == 1
    ensures 10 <= n < 100 ==> |s| == 2
  {
    if n < 10 then [DigitChar(n)] else NatDigits(n / 10) + [DigitChar(n % 10)]
  }

  /** The number a string of decimal digits denotes. */
  function DigitsValue(s: string): nat
    requires AllDigits(s)
  {
    if s == [] then 0 else DigitsValue(s[..|s| - 1]) * 10 + DigitValue(s[|s| - 1])
  }

  function Zeros(k: nat): (s: string)
    ensures |s| == k && AllDigits(s)
  {
    if k == 0 then [] else ['0'] + Zeros(k - 1)
  }

  /** `'%0*d' % (w, n)`: n in decimal, left-padded with zeros to width w. */
  function Padded(n: nat, w: nat): (s: string)
    ensures AllDigits(s) && |s| >= w
  {
    var t := NatDigits(n);
    if |t| >= w then t else Zeros(w - |t|) + t
  }

  lemma {:induction false} DigitsValueOfNatDigits(n: nat)
    ensures DigitsValue(NatDigits(n)) == n
  {
    if n >= 10 {
      var t := NatDigits(n);
      DigitsValueOfNatDigits(n / 10);
      assert t[..|t| - 1] == NatDigits(n / 10);
    }
  }

  lemma {:induction false} DigitsValueZeros(k: nat)
    ensures DigitsValue(Zeros(k)) == 0
  {
    if k > 0 {
      var z := Zeros(k);
      ZerosSnoc(k);
      assert z[..|z| - 1] == Zeros(k - 1);
      DigitsValueZeros(k - 1);
    }
  }

  lemma ZerosSnoc(k: nat)
    requires k > 0
    ensures Zeros(k) == Zeros(k - 1) + ['0']
  {
    if k > 1 {
      ZerosSnoc(k - 1);
    }
  }

  /** Leading zeros do not change the value of a digit string. */
  lemma {:induction false} DigitsValueLeadingZeros(k: nat, s: string)
    requires AllDigits(s)
    ensures DigitsValue(Zeros(k) + s) == DigitsValue(s)
    decreases |s|
  {
    var z := Zeros(k) + s;
    if s == [] {
      assert z == Zeros(k);
      DigitsValueZeros(k);
    } else {
      assert z[..|z| - 1] == Zeros(k) + s[..|s| - 1];
      DigitsValueLeadingZeros(k, s[..|s| - 1]);
    }
  }

  lemma {:induction false} PaddedValue(n: nat, w: nat)
    ensures DigitsValue(Padded(n, w)) == n
  {
    var t := NatDigits(n);
    DigitsValueOfNatDigits(n);
    if |t| < w {
      var z := Zeros(w - |t|);
      DigitsValueLeadingZeros(w - |t|, t);
      assert Padded(n, w) == z + t;
      assert DigitsValue(z + t) == n;
    } else {
      assert Padded(n, w) == t;
      assert DigitsValue(t) == n;
    }
  }

  /** The year field: four digits at least, with a minus sign before years before 0. */
  function YearText(y: int): (s: string)
    ensures |s| >= 4
  {
    if y >= 0 then Padded(y, 4) else ['-'] + Padded(-y, 4)
  }

  function YearValue(s: string): Option<int> {
    if |s| > 0 && s[0] == '-' then
      (if AllDigits(s[1..]) then var v: int := DigitsValue(s[1..]); Some(-v) else None)
    else if AllDigits(s) then Some(DigitsValue(s))
    else None
  }

  /** `str(d)` for a date d */
  function IsoLabel(d: Date): (s: string)
    ensures |s| >= 10
  {
    YearText(d.year) + "-" + Padded(d.month, 2) + "-" + Padded(d.day, 2)
  }

  /**
   * The inverse of `IsoLabel`, read from the right: two day digits, a dash,
   * two month digits, a dash, the year. It accepts any year `IsoLabel` can
   * write, signed or longer than four digits, so it is more lenient than
   * `date.fromisoformat`.
   */
  function ParseIsoLabel(s: string): Option<Date> {
    if |s| < 10 || s[|s| - 3] != '-' || s[|s| - 6] != '-' then None
    else
      var yt, mt, dt := s[..|s| - 6], s[|s| - 5..|s| - 3], s[|s| - 2..];
      if !AllDigits(mt) || !AllDigits(dt) then None
      else match YearValue(yt)
        case None => None
        case Some(y) =>
          var d := Date(y, DigitsValue(mt), DigitsValue(dt));
          if ValidDate(d) then Some(d) else None
  }

  lemma YearRoundTrip(y: int)
    ensures YearValue(YearText(y)) == Some(y)
  {
    if y >= 0 {
      PaddedValue(y, 4);
      var t := Padded(y, 4);
      assert IsDigit(t[0]);
    } else {
      PaddedValue(-y, 4);
      assert (['-'] + Padded(-y, 4))[1..] == Padded(-y, 4);
    }
  }

  /** Every label reads back as the date it was printed from. */
  lemma IsoLabelRoundTrip(d: Date)
    requires ValidDate(d)
    ensures ParseIsoLabel(IsoLabel(d)) == Some(d)
  {
    var yt, mt, dt := YearText(d.year), Padded(d.month, 2), Padded(d.day, 2);
    PaddedTwo(d.month);
    PaddedTwo(d.day);
    YearRoundTrip(d.year);
    PaddedValue(d.month, 2);
    PaddedValue(d.day, 2);
    assert IsoLabel(d) == yt + "-" + mt + "-" + dt;
    ParseFields(yt, mt, dt, d.year);
    assert Date(d.year, DigitsValue(mt), DigitsValue(dt)) == d;
  }

  lemma PaddedTwo(n: nat)
    requires n < 100
    ensures |Padded(n, 2)| == 2
  {
  }

  /** A label whose fields are well formed parses to the date of those fields, if that date exists. */
  lemma ParseFields(yt: string, mt: string, dt: string, y: int)
    requires |yt| >= 4 && |mt| == 2 && |dt| == 2 && AllDigits(mt) && AllDigits(dt)
    requires YearValue(yt) == Some(y)
    ensures var d := Date(y, DigitsValue(mt), DigitsValue(dt));
      ParseIsoLabel(yt + "-" + mt + "-" + dt) == if ValidDate(d) then Some(d) else None
  {
    LabelFields(yt, mt, dt);
  }

  /** The three fields of a label are found again at their fixed distances from its end. */
  lemma LabelFields(yt: string, mt: string, dt: string)
    requires |yt| >= 4 && |mt| == 2 && |dt| == 2
    ensures var s := yt + "-" + mt + "-" + dt;
      |s| >= 10 && s[|s| - 3] == '-' && s[|s| - 6] == '-'
      && s[..|s| - 6] == yt && s[|s| - 5..|s| - 3] == mt && s[|s| - 2..] == dt
  {
    var s := yt + "-" + mt + "-" + dt;
    assert s == yt + (['-'] + mt + ['-'] + dt);
  }

  lemma IsoLabelInjective(a: Date, b: Date)
    requires ValidDate(a) && ValidDate(b)
    ensures IsoLabel(a) == IsoLabel(b) <==> a == b
  {
    IsoLabelRoundTrip(a);
    IsoLabelRoundTrip(b);
  }
}
