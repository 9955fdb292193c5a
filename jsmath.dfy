// The numeric primitives the valuation engine relies on, over exact reals:
// integer powers, JavaScript's Math.round, the laws of Math.pow that the
// engine's formulas need, and the geometric sum behind the annuity-due factor.

module JsMath {

  /** x^n for a natural exponent. */
  function Pow(x: real, n: nat): real
  {
    if n == 0 then 1.0 else x * Pow(x, n - 1)
  }

  /** Math.round: the nearest integer, halves rounded towards +infinity. */
  function Round(x: real): (r: real)
    ensures r == r.Floor as real
    ensures x - 0.5 < r <= x + 0.5
  {
    (x + 0.5).Floor as real
  }

  /** The value 1/12 that the engine passes as the exponent of a twelfth root. */
  const OneTwelfth: real := 1.0 / 12.0

  /**
   * What the model knows of JavaScript's Math.pow, a call into the runtime:
   * on natural exponents it is the integer power, and with exponent 1/12 it
   * gives the non-negative twelfth root of a non-negative base. Other
   * arguments (fractional exponents, negative exponents, roots of negative
   * numbers) are left unconstrained.
   */
  ghost predicate IsMathPow(pow: (real, real) -> real)
  {
    (forall x: real, n: nat {:trigger Pow(x, n)} :: pow(x, n as real) == Pow(x, n)) &&
    (forall x: real :: 0.0 <= x ==> 0.0 <= pow(x, OneTwelfth) && Pow(pow(x, OneTwelfth), 12) == x)
  }

  /** g + g^2 + ... + g^n: the value of n unit payments made at the start of each period. */
  function GeomSum(g: real, n: nat): real
  {
    if n == 0 then 0.0 else GeomSum(g, n - 1) + Pow(g, n)
  }

  lemma {:induction false} PowAdd(x: real, a: nat, b: nat)
    ensures Pow(x, a + b) == Pow(x, a) * Pow(x, b)
  {
    if a > 0 {
      PowAdd(x, a - 1, b);
      assert Pow(x, a + b) == x * Pow(x, a - 1 + b);
    }
  }

  lemma {:induction false} PowOfOne(n: nat)
    ensures Pow(1.0, n) == 1.0
  {
    if n > 0 {
      PowOfOne(n - 1);
    }
  }

  lemma {:induction false} PowPositive(x: real, n: nat)
    requires 0.0 < x
    ensures 0.0 < Pow(x, n)
  {
    if n > 0 {
      PowPositive(x, n - 1);
    }
  }

  lemma {:induction false} PowNonNegative(x: real, n: nat)
    requires 0.0 <= x
    ensures 0.0 <= Pow(x, n)
  {
    if n > 0 {
      PowNonNegative(x, n - 1);
    }
  }

  lemma {:induction false} PowBelowOne(x: real, n: nat)
    requires 0.0 <= x <= 1.0
    ensures 0.0 <= Pow(x, n) <= 1.0
    ensures x < 1.0 && 0 < n ==> Pow(x, n) < 1.0
  {
    if n > 0 {
      PowBelowOne(x, n - 1);
      assert x * Pow(x, n - 1) <= 1.0 * Pow(x, n - 1);
    }
  }

  lemma {:induction false} PowAboveOne(x: real, n: nat)
    requires 1.0 <= x
    ensures 1.0 <= Pow(x, n)
    ensures 1.0 < x && 0 < n ==> 1.0 < Pow(x, n)
  {
    if n > 0 {
      PowAboveOne(x, n - 1);
      assert x * Pow(x, n - 1) >= x * 1.0;
    }
  }

  /** (x^k)^m == x^(k * m). */
  lemma {:induction false} PowMul(x: real, k: nat, m: nat)
    ensures Pow(Pow(x, k), m) == Pow(x, k * m)
  {
    if m > 0 {
      PowMul(x, k, m - 1);
      PowAdd(x, k, k * (m - 1));
      assert k + k * (m - 1) == k * m;
    }
  }

  /** A positive power is strictly increasing on non-negative bases. */
  lemma {:induction false} PowStrictlyMonotone(x: real, y: real, n: nat)
    requires 0.0 <= x < y && 0 < n
    ensures Pow(x, n) < Pow(y, n)
  {
    if n > 1 {
      PowStrictlyMonotone(x, y, n - 1);
      PowNonNegative(x, n - 1);
      var px, py := Pow(x, n - 1), Pow(y, n - 1);
      assert x * px <= y * px;
      assert y * px < y * py;
    }
  }

  /** So comparing positive powers of non-negative bases compares the bases. */
  lemma PowOrderReflects(x: real, y: real, n: nat)
    requires 0.0 <= x && 0.0 <= y && 0 < n
    requires Pow(x, n) < Pow(y, n)
    ensures x < y
  {
    if y < x {
      PowStrictlyMonotone(y, x, n);
    }
  }

  /**
   * A non-negative g with g^12 == c is above, at or below 1 exactly as c is:
   * the twelfth root preserves the sign of a rate.
   */
  lemma TwelfthRootOrder(g: real, c: real)
    requires 0.0 <= g && Pow(g, 12) == c
    ensures c < 1.0 <==> g < 1.0
    ensures c == 1.0 <==> g == 1.0
    ensures c > 1.0 <==> g > 1.0
  {
    if g < 1.0 {
      PowBelowOne(g, 12);
    } else if g == 1.0 {
      PowOfOne(12);
    } else {
      PowAboveOne(g, 12);
    }
  }

  /** With ratio 1 the geometric sum counts the periods. */
  lemma {:induction false} GeomSumOfOne(n: nat)
    ensures GeomSum(1.0, n) == n as real
  {
    if n > 0 {
      GeomSumOfOne(n - 1);
      PowOfOne(n);
    }
  }

  /** The annuity-due factor ((1+i)^n - 1) / i * (1+i) is the geometric sum (1+i) + ... + (1+i)^n. */
  lemma AnnuityDueFactor(g: real, n: nat)
    requires g != 1.0
    ensures (Pow(g, n) - 1.0) / (g - 1.0) * g == GeomSum(g, n)
  {
    GeomSumClosedForm(g, n);
    var s := GeomSum(g, n);
    var q := (Pow(g, n) - 1.0) / (g - 1.0);
    assert Pow(g, n) - 1.0 == q * (g - 1.0);
    assert (g - 1.0) * s == (g - 1.0) * (q * g);
    Cancel(g - 1.0, s, q * g);
  }

  /** Cancelling a non-zero factor (stated over plain reals, where the solver's nonlinear reasoning needs no help). */
  lemma Cancel(c: real, a: real, b: real)
    requires c != 0.0 && c * a == c * b
    ensures a == b
  {
  }

  /** (g - 1) * (g + ... + g^n) == (g^n - 1) * g, the division-free form. */
  lemma {:induction false} GeomSumClosedForm(g: real, n: nat)
    ensures (g - 1.0) * GeomSum(g, n) == (Pow(g, n) - 1.0) * g
  {
    if n > 0 {
      GeomSumClosedForm(g, n - 1);
      var p := Pow(g, n - 1);
      assert Pow(g, n) == g * p;
      calc {
        (g - 1.0) * GeomSum(g, n);
        (g - 1.0) * (GeomSum(g, n - 1) + g * p);
        (g - 1.0) * GeomSum(g, n - 1) + (g - 1.0) * g * p;
        (p - 1.0) * g + (g - 1.0) * g * p;
        (g * p - 1.0) * g;
      }
    }
  }

  /** With a non-negative ratio the geometric sum is non-negative. */
  lemma {:induction false} GeomSumNonNegative(g: real, n: nat)
    requires 0.0 <= g
    ensures 0.0 <= GeomSum(g, n)
  {
    if n > 0 {
      GeomSumNonNegative(g, n - 1);
      if g == 0.0 {
        assert Pow(g, n) == 0.0;
      } else {
        PowPositive(g, n);
      }
    }
  }

  /** With ratio at least 1, j more periods add at least j (and strictly more than j when g > 1). */
  lemma {:induction false} GeomSumGrows(g: real, n: nat, j: nat)
    requires 1.0 <= g
    ensures GeomSum(g, n) + j as real <= GeomSum(g, n + j)
    ensures 1.0 < g && 0 < j ==> GeomSum(g, n) + j as real < GeomSum(g, n + j)
  {
    if j > 0 {
      GeomSumGrows(g, n, j - 1);
      PowAboveOne(g, n + j);
    }
  }

  lemma RoundMonotone(x: real, y: real)
    requires x <= y
    ensures Round(x) <= Round(y)
  {
    var a, b := (x + 0.5).Floor, (y + 0.5).Floor;
    assert a as real <= x + 0.5;
    assert y + 0.5 < b as real + 1.0;
    assert a < b + 1;
  }

  /** Rounding an integer leaves it unchanged. */
  lemma RoundOfInteger(x: real)
    requires x == x.Floor as real
    ensures Round(x) == x
  {
    var k := x.Floor;
    assert (x + 0.5).Floor == k;
  }

  /** A value at least one above another rounds to something strictly greater. */
  lemma RoundStrict(x: real, y: real)
    requires x + 1.0 <= y
    ensures Round(x) < Round(y)
  {
  }
}
