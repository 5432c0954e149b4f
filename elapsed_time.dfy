/**
 * The elapsed-time label of the decay reply (app.py, lines 68-72): a sign, whole hours
 * and minutes, rendered as "+1小时5分" or "-45分".
 */
module ElapsedTime {

  /** Python's round() to an integer: nearest integer, ties to the even one. */
  function RoundHalfEven(x: real): (r: int)
    ensures -0.5 <= r as real - x <= 0.5
    ensures (r as real - x == 0.5 || x - r as real == 0.5) ==> r % 2 == 0
  {
    var f := x.Floor;
    var frac := x - f as real;
    if frac < 0.5 then f
    else if frac > 0.5 then f + 1
    else if f % 2 == 0 then f
    else f + 1
  }

  /** An integer rounds to itself. */
  lemma RoundIntegral(n: int)
    ensures RoundHalfEven(n as real) == n
  {
  }

  /** Absolute value of a real. */
  function Abs(x: real): (a: real)
    ensures a >= 0.0 && (a == x || a == -x)
  {
    if x < 0.0 then -x else x
  }

  /** The three parts of the label: '-' or '+', hours and minutes. */
  datatype Span = Span(negative: bool, hours: nat, minutes: nat)

  /**
   * The label parts exactly as app.py computes them: h = int(|d| // 60),
   * m = int(round(|d| % 60)). The minutes are rounded AFTER the hours are taken off.
   */
  function SpanAsWritten(deltaMin: real): Span
  {
    var dtAbs := Abs(deltaMin);
    var h := (dtAbs / 60.0).Floor;
    var rest := dtAbs - 60.0 * h as real;
    assert 0.0 <= rest < 60.0;
    var m := RoundHalfEven(rest);
    Span(deltaMin < 0.0, h, m)
  }

  /**
   * The as-written label can show sixty minutes: 59.6 minutes has zero hours and rounds
   * its remainder up to "60分", which should have carried into an hour.
   */
  lemma SpanAsWrittenShowsSixtyMinutes()
    ensures SpanAsWritten(59.6) == Span(false, 0, 60)
    ensures SpanAsWritten(119.7) == Span(false, 1, 60)
  {
    assert (59.6 / 60.0).Floor == 0;
    assert (119.7 / 60.0).Floor == 1;
  }

  /**
   * The evidently intended label: round the elapsed minutes once, then split the whole
   * number of minutes into hours and minutes below sixty.
   */
  function ElapsedSpan(deltaMin: real): (s: Span)
    ensures s.negative <==> deltaMin < 0.0
    ensures s.minutes < 60
    ensures s.hours * 60 + s.minutes == RoundHalfEven(Abs(deltaMin))
  {
    var total := RoundHalfEven(Abs(deltaMin));
    Span(deltaMin < 0.0, total / 60, total % 60)
  }

  /**
   * For a whole number of minutes (what the page's HH:MM fields produce) the as-written
   * and the corrected labels agree: hours = |d| div 60, minutes = |d| mod 60.
   */
  lemma WholeMinutes(d: int)
    ensures SpanAsWritten(d as real) == ElapsedSpan(d as real)
    ensures ElapsedSpan(d as real) == Span(d < 0, (if d < 0 then -d else d) / 60,
                                           (if d < 0 then -d else d) % 60)
  {
    var a := if d < 0 then -d else d;
    assert Abs(d as real) == a as real;
    RoundIntegral(a);
    var h := (a as real / 60.0).Floor;
    assert h == a / 60 by {
      assert (a / 60) as real <= a as real / 60.0 < (a / 60 + 1) as real;
    }
    RoundIntegral(a - 60 * h);
    assert a as real - 60.0 * h as real == (a - 60 * h) as real;
  }

  /** One decimal digit. */
  function DigitChar(d: nat): (c: char)
    requires d < 10
    ensures '0' <= c <= '9' && (c as int) - ('0' as int) == d
  {
    ('0' as int + d) as char
  }

  predicate IsDigits(s: string)
  {
    forall i :: 0 <= i < |s| ==> '0' <= s[i] <= '9'
  }

  /** Python's str() of a non-negative int: its decimal digits, no leading zeros. */
  function Decimal(n: nat): (s: string)
    ensures |s| >= 1 && IsDigits(s)
    ensures s[0] == '0' ==> n == 0
  {
    if n < 10 then [DigitChar(n)] else Decimal(n / 10) + [DigitChar(n % 10)]
  }

  /** Reads a string of decimal digits back as a number. */
  function DecimalValue(s: string): nat
    requires IsDigits(s)
  {
    if s == [] then 0
    else 10 * DecimalValue(s[..|s| - 1]) + ((s[|s| - 1] as int) - ('0' as int))
  }

  /** Decimal loses nothing: reading its digits gives the number back. */
  lemma {:induction false} DecimalRoundTrip(n: nat)
    ensures DecimalValue(Decimal(n)) == n
  {
    if n >= 10 {
      DecimalRoundTrip(n / 10);
      var s := Decimal(n);
      assert s[..|s| - 1] == Decimal(n / 10);
    }
  }

  /** Different numbers have different decimal forms. */
  lemma DecimalInjective(m: nat, n: nat)
    requires Decimal(m) == Decimal(n)
    ensures m == n
  {
    DecimalRoundTrip(m);
    DecimalRoundTrip(n);
  }

  /** The label f'{sign}{h}小时{m}分' when there are hours, else f'{sign}{m}分'. */
  function SpanLabel(s: Span): string
  {
    (if s.negative then "-" else "+")
    + (if s.hours > 0 then Decimal(s.hours) + "小时" + Decimal(s.minutes) + "分"
       else Decimal(s.minutes) + "分")
  }

  /** The first character is '-' exactly for a negative span; an hours part appears exactly when there are hours. */
  lemma SpanLabelShape(s: Span)
    ensures |SpanLabel(s)| >= 2
    ensures SpanLabel(s)[0] == (if s.negative then '-' else '+')
    ensures SpanLabel(s)[|SpanLabel(s)| - 1] == '分'
    ensures (exists i :: 0 <= i < |SpanLabel(s)| && SpanLabel(s)[i] == '小') <==> s.hours > 0
  {
    var l := SpanLabel(s);
    if s.hours > 0 {
      var k := 1 + |Decimal(s.hours)|;
      assert l[k] == '小';
    } else {
      var body := Decimal(s.minutes) + "分";
      assert l == [l[0]] + body;
      forall i | 0 <= i < |l| ensures l[i] != '小' {
        if i > 0 {
          assert l[i] == body[i - 1];
        }
      }
    }
  }
}
