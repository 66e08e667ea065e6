/**
 * The JavaScript built-ins the encoder and the reference-system identifiers
 * rely on, on exact integers: `Math.trunc`, `Number.prototype.toString` of
 * an integer, `String.prototype.padStart` with a one-character fill,
 * `slice(0, k)`, and `Number.parseInt` of a single character.
 */
module Decimal {
  import opened Types

  function Pow10(k: nat): (r: nat)
    ensures r >= 1
  {
    if k == 0 then 1 else 10 * Pow10(k - 1)
  }

  predicate IsDigit(c: char) {
    '0' <= c <= '9'
  }

  predicate AllDigits(s: string) {
    forall i :: 0 <= i < |s| ==> IsDigit(s[i])
  }

  function DigitChar(d: nat): (c: char)
    requires d < 10
    ensures IsDigit(c) && c as int - '0' as int == d
  {
    ('0' as int + d) as char
  }

  /** The numeric value of a decimal digit character. */
  function CharValue(c: char): (d: nat)
    requires IsDigit(c)
    ensures d < 10 && DigitChar(d) == c
  {
    c as int - '0' as int
  }

  /**
   * `Number.parseInt` applied to a one-character string: a digit, or NaN
   * (None) for any other character.
   */
  function ParseDigit(c: char): (r: Option<nat>)
    ensures r.Some? <==> IsDigit(c)
    ensures r.Some? ==> r.value < 10 && DigitChar(r.value) == c
  {
    if IsDigit(c) then Some(CharValue(c)) else None
  }

  /** The value of a string of decimal digits, most significant first. */
  function DecimalValue(s: string): nat
    requires AllDigits(s)
  {
    if s == [] then 0 else 10 * DecimalValue(s[..|s| - 1]) + CharValue(s[|s| - 1])
  }

  /** The shortest decimal numeral of `n`, as `Number.prototype.toString` renders an integer. */
  function NatToDecimal(n: nat): (s: string)
    ensures 1 <= |s| && AllDigits(s)
    ensures s[0] == '0' <==> n == 0
  {
    if n < 10 then [DigitChar(n)] else NatToDecimal(n / 10) + [DigitChar(n % 10)]
  }

  /** `Number.prototype.toString` of an integer: a minus sign before a negative one. */
  function IntToDecimal(i: int): (s: string)
    ensures 1 <= |s|
    ensures s[0] == '-' <==> i < 0
    ensures i >= 0 ==> s == NatToDecimal(i)
  {
    if i < 0 then "-" + NatToDecimal(-i) else NatToDecimal(i)
  }

  /** `Math.trunc`: the integer part, rounding toward zero. */
  function Trunc(x: real): (r: int)
    ensures x >= 0.0 ==> 0 <= r && r as real <= x < r as real + 1.0
    ensures x < 0.0 ==> r <= 0 && r as real - 1.0 < x <= r as real
  {
    if x >= 0.0 then x.Floor else -((-x).Floor)
  }

  function Repeat(c: char, k: nat): (r: string)
    ensures |r| == k && forall i :: 0 <= i < k ==> r[i] == c
  {
    seq(k, _ => c)
  }

  /** `s.padStart(width, fill)`: prefix `fill` until the string is `width` long. */
  function PadStart(s: string, width: nat, fill: char): (r: string)
    ensures |r| == if |s| >= width then |s| else width
    ensures r[|r| - |s|..] == s
    ensures forall i :: 0 <= i < |r| - |s| ==> r[i] == fill
  {
    if |s| >= width then s else Repeat(fill, width - |s|) + s
  }

  /** `s.slice(0, k)`: the first `k` characters, or all of a shorter string. */
  function Prefix(s: string, k: nat): (r: string)
    ensures |r| == if |s| < k then |s| else k
    ensures r == s[..|r|]
  {
    if |s| < k then s else s[..k]
  }

  /** The low `w` decimal digits of `n`, zero-filled: the arithmetic place-value rendering. */
  function FixedDigits(n: nat, w: nat): (s: string)
    ensures |s| == w && AllDigits(s)
  {
    if w == 0 then [] else FixedDigits(n / 10, w - 1) + [DigitChar(n % 10)]
  }

  /** The three place-value digits hundreds, tens and ones of `q`. */
  function ThreeDigits(q: nat): (s: string)
    ensures |s| == 3 && AllDigits(s)
  {
    [DigitChar(q / 100 % 10), DigitChar(q / 10 % 10), DigitChar(q % 10)]
  }

  /** Repeatedly drops the ones digit until fewer than four digits remain. */
  function LeadingThree(n: nat): (r: nat)
    ensures r <= n
    ensures n >= 100 ==> 100 <= r < 1000
    ensures n < 1000 ==> r == n
  {
    if n < 1000 then n else LeadingThree(n / 10)
  }

  // ------------------------------------------------------------------
  // Lemmas
  // ------------------------------------------------------------------

  /** Reading back the numeral yields the number: `NatToDecimal` is injective. */
  lemma {:induction false} DecimalValueOfNatToDecimal(n: nat)
    ensures DecimalValue(NatToDecimal(n)) == n
  {
    var s := NatToDecimal(n);
    if n >= 10 {
      DecimalValueOfNatToDecimal(n / 10);
      assert s[..|s| - 1] == NatToDecimal(n / 10);
    } else {
      assert s[..0] == [];
    }
  }

  lemma {:induction false} DecimalLengthAbove(n: nat, k: nat)
    requires n >= Pow10(k)
    ensures |NatToDecimal(n)| > k
  {
    if k > 0 {
      assert n / 10 >= Pow10(k - 1);
      DecimalLengthAbove(n / 10, k - 1);
    }
  }

  lemma {:induction false} FixedDigitsOfZero(k: nat)
    ensures FixedDigits(0, k) == Repeat('0', k)
  {
    if k > 0 {
      FixedDigitsOfZero(k - 1);
    }
  }

  lemma PadStartAppend(s: string, c: char, width: nat, fill: char)
    requires width >= 1
    ensures PadStart(s + [c], width, fill) == PadStart(s, width - 1, fill) + [c]
  {
    if |s| + 1 < width {
      assert Repeat(fill, width - |s| - 1) + (s + [c]) == (Repeat(fill, width - 1 - |s|) + s) + [c];
    }
  }

  /**
   * Zero-padding the shortest numeral of `n` to `w` places gives the
   * place-value rendering, whenever `n` has at most `w` digits.
   */
  lemma {:induction false} PadStartOfDecimal(n: nat, w: nat)
    requires 1 <= w && n < Pow10(w)
    ensures PadStart(NatToDecimal(n), w, '0') == FixedDigits(n, w)
  {
    if n < 10 {
      FixedDigitsOfZero(w - 1);
      assert n / 10 == 0 && n % 10 == n;
      assert FixedDigits(n, w) == Repeat('0', w - 1) + [DigitChar(n)];
      if w > 1 {
        assert PadStart([DigitChar(n)], w, '0') == Repeat('0', w - 1) + [DigitChar(n)];
      }
    } else {
      assert Pow10(1) == 10;
      assert w >= 2;
      assert n / 10 < Pow10(w - 1);
      PadStartOfDecimal(n / 10, w - 1);
      PadStartAppend(NatToDecimal(n / 10), DigitChar(n % 10), w, '0');
    }
  }

  lemma ThreeDigitsIsFixed(q: nat)
    ensures FixedDigits(q, 3) == ThreeDigits(q)
  {
    assert q / 10 / 10 == q / 100;
    assert FixedDigits(q / 100, 1) == [DigitChar(q / 100 % 10)];
    assert FixedDigits(q / 10, 2) == FixedDigits(q / 100, 1) + [DigitChar(q / 10 % 10)];
  }

  lemma DivModUnique(n: int, d: int, quotient: int, remainder: int)
    requires 0 < d && 0 <= remainder < d && n == d * quotient + remainder
    ensures n / d == quotient && n % d == remainder
  {
    var q, r := n / d, n % d;
    assert d * (quotient - q) == r - remainder;
    if quotient > q {
      MulAtLeast(d, quotient - q);
    } else if quotient < q {
      MulAtLeast(d, q - quotient);
    }
  }

  lemma MulAtLeast(d: int, k: int)
    requires 0 < d && 1 <= k
    ensures d * k >= d
  {
    if k > 1 {
      MulAtLeast(d, k - 1);
    }
  }

  /** The value of a three-character numeral, place by place. */
  lemma DecimalValueOfThree(s: string)
    requires |s| == 3 && AllDigits(s)
    ensures DecimalValue(s) == 100 * CharValue(s[0]) + 10 * CharValue(s[1]) + CharValue(s[2])
  {
    var s2 := s[..2];
    assert DecimalValue(s) == 10 * DecimalValue(s2) + CharValue(s[2]);
    assert DecimalValue(s2) == 10 * DecimalValue(s2[..1]) + CharValue(s[1]);
    assert DecimalValue(s2[..1]) == 10 * DecimalValue(s2[..1][..0]) + CharValue(s[0]);
    assert s2[..1][..0] == [];
  }

  /** The place-value digits of a number below 1000 read back as that number. */
  lemma ThreeDigitsValue(q: nat)
    requires q < 1000
    ensures DecimalValue(ThreeDigits(q)) == q
    ensures ThreeDigits(q) == [DigitChar(q / 100), DigitChar(q / 10 % 10), DigitChar(q % 10)]
  {
    var t := q / 10;
    assert q == 10 * t + q % 10 && t == 10 * (t / 10) + t % 10;
    DivModUnique(q, 100, t / 10, 10 * (t % 10) + q % 10);
    assert q / 100 % 10 == q / 100;
    DecimalValueOfThree(ThreeDigits(q));
  }

  /** A three-digit string is the place-value rendering of its own value. */
  lemma ThreeDigitsOfValue(s: string)
    requires |s| == 3 && AllDigits(s)
    ensures DecimalValue(s) < 1000 && ThreeDigits(DecimalValue(s)) == s
  {
    var a, b, c := CharValue(s[0]), CharValue(s[1]), CharValue(s[2]);
    DecimalValueOfThree(s);
    var q := DecimalValue(s);
    assert q / 100 % 10 == a by {
      DivModUnique(q, 100, a, 10 * b + c);
      DivModUnique(a, 10, 0, a);
    }
    assert q / 10 % 10 == b && q % 10 == c by {
      DivModUnique(q, 10, 10 * a + b, c);
      DivModUnique(10 * a + b, 10, a, b);
    }
    assert ThreeDigits(q) == [DigitChar(a), DigitChar(b), DigitChar(c)];
  }

  /**
   * The first three characters of the numeral of a number of three or more
   * digits are its three leading digits.
   */
  lemma {:induction false} LeadingDigitsOfDecimal(n: nat)
    requires n >= 100
    ensures |NatToDecimal(n)| >= 3
    ensures NatToDecimal(n)[..3] == ThreeDigits(LeadingThree(n))
  {
    DecimalLengthAbove(n, 2);
    if n < 1000 {
      assert Pow10(3) == 1000;
      PadStartOfDecimal(n, 3);
      ThreeDigitsIsFixed(n);
    } else {
      var s := NatToDecimal(n / 10);
      LeadingDigitsOfDecimal(n / 10);
      assert NatToDecimal(n) == s + [DigitChar(n % 10)];
      assert (s + [DigitChar(n % 10)])[..3] == s[..3];
    }
  }
}
