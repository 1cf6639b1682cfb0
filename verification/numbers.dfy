/** The few pieces of JavaScript number semantics the demo relies on:
    the sign of a number, the truncating `%` operator, and the decimal
    text an integer turns into inside a template string. */
module JsNumbers {

  /** -1, 0 or 1 according to the sign of `r`. */
  function Sign(r: real): (s: int)
    ensures -1 <= s <= 1
    ensures s == 0 <==> r == 0.0
    ensures s > 0 <==> r > 0.0
  {
    if r > 0.0 then 1 else if r < 0.0 then -1 else 0
  }

  /** Multiplying by a positive factor never changes a sign. */
  lemma SignScale(k: real, r: real)
    requires k > 0.0
    ensures Sign(k * r) == Sign(r)
  {
    if r > 0.0 {
      assert k * r > 0.0;
    } else if r < 0.0 {
      assert k * (-r) > 0.0;
    }
  }

  /** JavaScript's `a % n` on integers: the remainder truncates toward zero,
      so it carries the sign of the dividend (Dafny's `%` never goes negative). */
  function Rem(a: int, n: int): (r: int)
    requires n > 0
    ensures a >= 0 ==> 0 <= r < n
    ensures a <= 0 ==> -n < r <= 0
    ensures a >= 0 ==> r == a % n
    ensures -n < a < n ==> r == a
    ensures (a - r) % n == 0
  {
    TruncRemDivides(a, n);
    if a >= 0 then a % n else -((-a) % n)
  }

  /** The truncating remainder differs from the dividend by a multiple of `n`. */
  lemma TruncRemDivides(a: int, n: int)
    requires n > 0
    ensures a >= 0 ==> (a - a % n) % n == 0
    ensures a < 0 ==> (a + (-a) % n) % n == 0
  {
    if a >= 0 {
      assert a - a % n == n * (a / n);
      MultipleRem(a / n, n);
    } else {
      var m := -a;
      assert m == n * (m / n) + m % n;
      assert a + m % n == n * (-(m / n));
      MultipleRem(-(m / n), n);
    }
  }

  /** A multiple of `n` leaves no remainder. */
  lemma MultipleRem(q: int, n: int)
    requires n > 0
    ensures (n * q) % n == 0
  {
    var x := n * q;
    var k := q - x / n;
    assert n * k == x - n * (x / n);
    if k >= 1 {
      MulAtLeast(n, k);
    } else if k <= -1 {
      MulAtLeast(n, -k);
      assert n * k == -(n * (-k));
    }
  }

  lemma {:induction false} MulAtLeast(n: int, k: int)
    requires n > 0 && k >= 1
    ensures n * k >= n
    decreases k
  {
    if k > 1 {
      MulAtLeast(n, k - 1);
      assert n * k == n * (k - 1) + n;
    }
  }

  predicate IsDigit(c: char) {
    '0' <= c <= '9'
  }

  predicate AllDigits(s: string) {
    forall i :: 0 <= i < |s| ==> IsDigit(s[i])
  }

  function DigitChar(d: int): (c: char)
    requires 0 <= d < 10
    ensures IsDigit(c)
  {
    ('0' as int + d) as char
  }

  function DigitValue(c: char): (d: nat)
    requires IsDigit(c)
    ensures d < 10
    ensures DigitChar(d) == c
  {
    c as int - '0' as int
  }

  /** Decimal text of a natural number, most significant digit first. */
  function NatToDecimal(n: nat): (s: string)
    ensures |s| >= 1
    ensures AllDigits(s)
    ensures n < 10 <==> |s| == 1
    ensures |s| > 1 ==> s[0] != '0'
    decreases n
  {
    if n < 10 then [DigitChar(n)] else NatToDecimal(n / 10) + [DigitChar(n % 10)]
  }

  /** Reading a string of digits back as a number: the inverse of `NatToDecimal`. */
  function DecimalValue(s: string): nat
    requires AllDigits(s)
    decreases |s|
  {
    if |s| == 0 then 0 else DecimalValue(s[..|s| - 1]) * 10 + DigitValue(s[|s| - 1])
  }

  lemma {:induction false} DecimalRoundTrip(n: nat)
    ensures DecimalValue(NatToDecimal(n)) == n
    decreases n
  {
    var s := NatToDecimal(n);
    if n < 10 {
      assert s[..0] == [];
    } else {
      DecimalRoundTrip(n / 10);
      assert s[..|s| - 1] == NatToDecimal(n / 10);
    }
  }

  lemma NatToDecimalInjective(a: nat, b: nat)
    ensures NatToDecimal(a) == NatToDecimal(b) ==> a == b
  {
    DecimalRoundTrip(a);
    DecimalRoundTrip(b);
  }

  /** `${n}` for an integer `n`: a leading '-' for negatives, then the digits.
      (Exponent notation, which JavaScript uses from 10^21 on, is not modelled.) */
  function IntToString(n: int): (s: string)
    ensures |s| >= 1
    ensures n >= 0 <==> IsDigit(s[0])
    ensures n < 0 ==> s[0] == '-' && AllDigits(s[1..])
    ensures n >= 0 ==> AllDigits(s)
    ensures 0 <= n < 10 ==> s == [DigitChar(n)]
  {
    if n < 0 then "-" + NatToDecimal(-n) else NatToDecimal(n)
  }

  lemma IntToStringInjective(a: int, b: int)
    ensures IntToString(a) == IntToString(b) ==> a == b
  {
    if IntToString(a) == IntToString(b) {
      if a < 0 {
        assert IntToString(a)[1..] == NatToDecimal(-a);
        assert IntToString(b)[1..] == NatToDecimal(-b);
        NatToDecimalInjective(-a, -b);
      } else {
        NatToDecimalInjective(a, b);
      }
    }
  }
}
