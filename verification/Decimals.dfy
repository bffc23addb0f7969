/** Decimal renderings of natural numbers, plain and zero-padded. */
module Decimals {
  import opened Orders

  function Digit(n: nat): char
    requires n < 10
  {
    '0' + n as char
  }

  function Decimal(n: nat): string {
    if n < 10 then [Digit(n)] else Decimal(n / 10) + [Digit(n % 10)]
  }

  predicate IsDigit(c: char) { '0' <= c <= '9' }

  ghost predicate AllDigits(s: string) {
    forall i :: 0 <= i < |s| ==> IsDigit(s[i])
  }

  ghost function DecimalValue(s: string): int {
    if s == [] then 0 else DecimalValue(s[..|s| - 1]) * 10 + (s[|s| - 1] as int - '0' as int)
  }

  lemma {:induction false} DecimalReadsBack(n: nat)
    ensures AllDigits(Decimal(n)) && Decimal(n) != []
    ensures DecimalValue(Decimal(n)) == n
  {
    if n >= 10 {
      DecimalReadsBack(n / 10);
      var s := Decimal(n);
      assert s[..|s| - 1] == Decimal(n / 10);
    } else {
      assert Decimal(n)[..0] == [];
    }
  }

  lemma DecimalInjective(m: nat, n: nat)
    requires Decimal(m) == Decimal(n)
    ensures m == n
  {
    DecimalReadsBack(m);
    DecimalReadsBack(n);
  }

  // ----- Zero padding -------------------------------------------------------

  function Zeros(n: nat): (s: string)
    ensures |s| == n
  {
    if n == 0 then "" else Zeros(n - 1) + "0"
  }

  /** `{n:0width}`: at least `width` characters, more when the number needs them. */
  function Padded(n: nat, width: nat): string {
    var s := Decimal(n);
    if |s| >= width then s else Zeros(width - |s|) + s
  }

  function Power10(k: nat): nat {
    if k == 0 then 1 else 10 * Power10(k - 1)
  }

  /** Exactly `width` digits of `n`. */
  ghost function FixedDigits(n: nat, width: nat): (s: string)
    ensures |s| == width
  {
    if width == 0 then "" else FixedDigits(n / 10, width - 1) + [Digit(n % 10)]
  }

  lemma {:induction false} ZeroDigits(width: nat)
    ensures FixedDigits(0, width) == Zeros(width)
  {
    if width > 0 {
      ZeroDigits(width - 1);
    }
  }

  /** A number that fits its width is rendered with exactly that many digits. */
  lemma {:induction false} PaddedFits(n: nat, width: nat)
    requires n < Power10(width) && width > 0
    ensures Padded(n, width) == FixedDigits(n, width)
  {
    if n < 10 {
      ZeroDigits(width - 1);
    } else {
      PaddedFits(n / 10, width - 1);
    }
  }

  lemma Power10Positive(k: nat)
    ensures Power10(k) >= 1
    ensures k > 0 ==> Power10(k) >= 10
  {
    if k > 1 {
      Power10Positive(k - 1);
    }
  }

  /** A number that does not fit gets more characters than its width. */
  lemma {:induction false} PaddedOverflows(n: nat, width: nat)
    requires n >= Power10(width)
    ensures |Padded(n, width)| > width
  {
    if n >= 10 && width > 0 {
      assert Power10(width) == 10 * Power10(width - 1);
      PaddedOverflows(n / 10, width - 1);
      assert |Decimal(n)| == |Decimal(n / 10)| + 1;
    } else {
      Power10Positive(width);
    }
  }

  lemma {:induction false} FixedDigitsValue(n: nat, width: nat)
    requires n < Power10(width)
    ensures AllDigits(FixedDigits(n, width)) && DecimalValue(FixedDigits(n, width)) == n
  {
    if width > 0 {
      FixedDigitsValue(n / 10, width - 1);
      var s := FixedDigits(n, width);
      assert s[..|s| - 1] == FixedDigits(n / 10, width - 1);
    }
  }

  // ----- Comparing texts of equal length ------------------------------------

  lemma {:induction false} CompareConcat(p: string, x: string, q: string, y: string)
    requires |p| == |q|
    ensures StringLe(p + x, q + y) <==> if p == q then StringLe(x, y) else StringLe(p, q)
  {
    if p == [] {
      assert p + x == x && q + y == y;
    } else {
      assert (p + x)[1..] == p[1..] + x && (q + y)[1..] == q[1..] + y;
      CompareConcat(p[1..], x, q[1..], y);
      assert p == [p[0]] + p[1..] && q == [q[0]] + q[1..];
    }
  }

  /** Digit strings of one width compare as the numbers do. */
  lemma {:induction false} FixedDigitsOrder(a: nat, b: nat, width: nat)
    requires a < Power10(width) && b < Power10(width)
    ensures StringLe(FixedDigits(a, width), FixedDigits(b, width)) <==> a <= b
    ensures FixedDigits(a, width) == FixedDigits(b, width) <==> a == b
  {
    FixedDigitsValue(a, width);
    FixedDigitsValue(b, width);
    if width > 0 {
      FixedDigitsOrder(a / 10, b / 10, width - 1);
      CompareConcat(FixedDigits(a / 10, width - 1), [Digit(a % 10)], FixedDigits(b / 10, width - 1), [Digit(b % 10)]);
    }
  }
}
