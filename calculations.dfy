// The valuation engine: a monthly SIP (a recurring contribution at the start
// of every month, compounded at the monthly rate equivalent to the annual
// return) and a lumpsum (one sum compounded annually). Amounts, rates and
// durations are exact reals; the result of Math.round is the only rounding.

module Calculations {
  import opened JsMath

  /** The record both engine functions return. */
  datatype Projection = Projection(investedAmount: real, estimatedReturns: real, totalValue: real)

  /**
   * The monthly rate derived from the annual rate in percent by compound
   * conversion, (1 + rate/100)^(1/12) - 1, not by dividing by 12: twelve
   * months at this rate compound to exactly the annual rate, and it has the
   * sign of the annual rate.
   */
  function MonthlyRate(expectedReturnRate: real, pow: (real, real) -> real): (i: real)
    requires IsMathPow(pow)
    requires expectedReturnRate >= -100.0
    ensures 0.0 <= 1.0 + i
    ensures expectedReturnRate > 0.0 <==> i > 0.0
    ensures expectedReturnRate == 0.0 <==> i == 0.0
    ensures expectedReturnRate < 0.0 <==> i < 0.0
  {
    var annualRate := expectedReturnRate / 100.0;
    var i := pow(1.0 + annualRate, OneTwelfth) - 1.0;
    TwelfthRootOrder(1.0 + i, 1.0 + annualRate);
    i
  }

  /** Twelve months at the monthly rate compound to exactly the annual rate. */
  lemma MonthlyRateCompounds(expectedReturnRate: real, pow: (real, real) -> real)
    requires IsMathPow(pow)
    requires expectedReturnRate >= -100.0
    ensures Pow(1.0 + MonthlyRate(expectedReturnRate, pow), 12) == 1.0 + expectedReturnRate / 100.0
  {
  }

  /**
   * The value the SIP total rounds: monthlyInvestment times the annuity-due
   * factor ((1+i)^n - 1) / i * (1+i) over n = timePeriodYears * 12 months.
   */
  function SipFutureValue(monthlyInvestment: real, expectedReturnRate: real, timePeriodYears: real,
                          pow: (real, real) -> real): real
    requires IsMathPow(pow)
    requires expectedReturnRate >= -100.0 && expectedReturnRate != 0.0
  {
    var n := timePeriodYears * 12.0;
    var i := MonthlyRate(expectedReturnRate, pow);
    monthlyInvestment * ((pow(1.0 + i, n) - 1.0) / i) * (1.0 + i)
  }

  /**
   * The SIP projection: monthlyInvestment paid at the start of each of
   * timePeriodYears * 12 months. Below an annual rate of -100 % the twelfth
   * root is not a real number (the source computes NaN there).
   */
  function CalculateSIP(monthlyInvestment: real, expectedReturnRate: real, timePeriodYears: real,
                        pow: (real, real) -> real): (p: Projection)
    requires IsMathPow(pow)
    requires expectedReturnRate >= -100.0
    ensures p.investedAmount == monthlyInvestment * (timePeriodYears * 12.0)
    ensures p.estimatedReturns == p.totalValue - p.investedAmount
    ensures expectedReturnRate == 0.0 ==> p.estimatedReturns == 0.0 && p.totalValue == p.investedAmount
    ensures expectedReturnRate != 0.0 ==> p.totalValue == p.totalValue.Floor as real
  {
    var n := timePeriodYears * 12.0;
    var investedAmount := monthlyInvestment * n;
    if expectedReturnRate == 0.0 then
      Projection(investedAmount, 0.0, investedAmount)
    else
      var totalValue := Round(SipFutureValue(monthlyInvestment, expectedReturnRate, timePeriodYears, pow));
      Projection(investedAmount, totalValue - investedAmount, totalValue)
  }

  /** The value the lumpsum total rounds: totalInvestment * (1 + rate/100)^timePeriodYears. */
  function LumpsumFutureValue(totalInvestment: real, expectedReturnRate: real, timePeriodYears: real,
                              pow: (real, real) -> real): real
  {
    var i := expectedReturnRate / 100.0;
    var n := timePeriodYears;
    totalInvestment * pow(1.0 + i, n)
  }

  /** The lumpsum projection: totalInvestment compounded once a year for timePeriodYears years. */
  function CalculateLumpsum(totalInvestment: real, expectedReturnRate: real, timePeriodYears: real,
                            pow: (real, real) -> real): (p: Projection)
    ensures p.investedAmount == totalInvestment
    ensures p.estimatedReturns == p.totalValue - p.investedAmount
    ensures expectedReturnRate == 0.0 ==> p.estimatedReturns == 0.0 && p.totalValue == totalInvestment
    ensures expectedReturnRate != 0.0 ==> p.totalValue == p.totalValue.Floor as real
  {
    if expectedReturnRate == 0.0 then
      Projection(totalInvestment, 0.0, totalInvestment)
    else
      var totalValue := Round(LumpsumFutureValue(totalInvestment, expectedReturnRate, timePeriodYears, pow));
      Projection(totalInvestment, totalValue - totalInvestment, totalValue)
  }

  /**
   * Reference definition of a SIP's worth before rounding: each of the
   * 12 * years monthly payments grows for the months left after it is paid,
   * including the month it is paid in, so the k-th month from the end
   * contributes m * (1 + i)^k.
   */
  ghost function AnnuityDueValue(m: real, expectedReturnRate: real, years: nat, pow: (real, real) -> real): real
    requires IsMathPow(pow)
    requires expectedReturnRate >= -100.0
  {
    m * GeomSum(1.0 + MonthlyRate(expectedReturnRate, pow), 12 * years)
  }

  /** Over a whole number of years Math.pow agrees with the integer power, in months and in years. */
  lemma PowOnWholeYears(pow: (real, real) -> real, x: real, years: nat)
    requires IsMathPow(pow)
    ensures pow(x, years as real * 12.0) == Pow(x, 12 * years)
    ensures pow(x, years as real) == Pow(x, years)
  {
    assert years as real * 12.0 == (12 * years) as real;
    assert pow(x, (12 * years) as real) == Pow(x, 12 * years);
    assert pow(x, years as real) == Pow(x, years);
  }

  /**
   * The closed form of the source, m * ((1+i)^n - 1) / i * (1+i), is the
   * annuity-due sum over a whole number of years.
   */
  lemma SipFutureValueIsAnnuityDue(m: real, expectedReturnRate: real, years: nat, pow: (real, real) -> real)
    requires IsMathPow(pow)
    requires expectedReturnRate >= -100.0 && expectedReturnRate != 0.0
    ensures SipFutureValue(m, expectedReturnRate, years as real, pow) == AnnuityDueValue(m, expectedReturnRate, years, pow)
  {
    var i := MonthlyRate(expectedReturnRate, pow);
    var n := 12 * years;
    PowOnWholeYears(pow, 1.0 + i, years);
    AnnuityDueFactor(1.0 + i, n);
    var f := (Pow(1.0 + i, n) - 1.0) / i;
    assert f * (1.0 + i) == GeomSum(1.0 + i, n);
    assert m * f * (1.0 + i) == m * (f * (1.0 + i));
  }

  /**
   * The same identity for any period that is a whole number of months (2.5
   * years is 30 months): the closed form is m times the annuity-due sum over
   * those months.
   */
  lemma SipFutureValueOverMonths(m: real, expectedReturnRate: real, timePeriodYears: real, months: nat,
                                 pow: (real, real) -> real)
    requires IsMathPow(pow)
    requires expectedReturnRate >= -100.0 && expectedReturnRate != 0.0
    requires timePeriodYears * 12.0 == months as real
    ensures SipFutureValue(m, expectedReturnRate, timePeriodYears, pow)
              == m * GeomSum(1.0 + MonthlyRate(expectedReturnRate, pow), months)
  {
    var i := MonthlyRate(expectedReturnRate, pow);
    assert pow(1.0 + i, months as real) == Pow(1.0 + i, months);
    AnnuityDueFactor(1.0 + i, months);
    var f := (Pow(1.0 + i, months) - 1.0) / i;
    assert f * (1.0 + i) == GeomSum(1.0 + i, months);
    assert m * f * (1.0 + i) == m * (f * (1.0 + i));
  }

  /**
   * For a whole number of years the SIP total is the reference value
   * rounded once; at rate 0 (where the source takes its shortcut) it is the
   * reference value itself, m * 12 * years.
   */
  lemma SipIsAnnuityDue(m: real, expectedReturnRate: real, years: nat, pow: (real, real) -> real)
    requires IsMathPow(pow)
    requires expectedReturnRate >= -100.0
    ensures expectedReturnRate != 0.0 ==>
      CalculateSIP(m, expectedReturnRate, years as real, pow).totalValue
        == Round(AnnuityDueValue(m, expectedReturnRate, years, pow))
    ensures expectedReturnRate == 0.0 ==>
      CalculateSIP(m, expectedReturnRate, years as real, pow).totalValue
        == AnnuityDueValue(m, expectedReturnRate, years, pow)
  {
    if expectedReturnRate == 0.0 {
      GeomSumOfOne(12 * years);
      assert years as real * 12.0 == (12 * years) as real;
    } else {
      SipFutureValueIsAnnuityDue(m, expectedReturnRate, years, pow);
    }
  }

  /** Zero years: nothing invested, nothing earned, for every rate and amount. */
  lemma SipZeroYears(m: real, expectedReturnRate: real, pow: (real, real) -> real)
    requires IsMathPow(pow)
    requires expectedReturnRate >= -100.0
    ensures CalculateSIP(m, expectedReturnRate, 0.0, pow) == Projection(0.0, 0.0, 0.0)
  {
    SipIsAnnuityDue(m, expectedReturnRate, 0, pow);
    assert AnnuityDueValue(m, expectedReturnRate, 0, pow) == 0.0;
    RoundOfInteger(0.0);
  }

  /**
   * For a positive rate and amount the unrounded worth is at least the
   * amount paid in (m per month), strictly more once a year has passed,
   * and every further year adds more than its twelve payments.
   */
  lemma AnnuityDueGrowth(m: real, expectedReturnRate: real, years: nat, pow: (real, real) -> real)
    requires IsMathPow(pow)
    requires expectedReturnRate > 0.0 && m > 0.0
    ensures AnnuityDueValue(m, expectedReturnRate, years, pow) >= m * (years as real * 12.0)
    ensures years > 0 ==> AnnuityDueValue(m, expectedReturnRate, years, pow) > m * (years as real * 12.0)
    ensures AnnuityDueValue(m, expectedReturnRate, years + 1, pow)
              > AnnuityDueValue(m, expectedReturnRate, years, pow) + 12.0 * m
  {
    var g := 1.0 + MonthlyRate(expectedReturnRate, pow);
    var n := 12 * years;
    GeomSumGrows(g, 0, n);
    GeomSumGrows(g, n, 12);
    assert n + 12 == 12 * (years + 1);
    var s0, s1 := GeomSum(g, n), GeomSum(g, 12 * (years + 1));
    var v0, v1 := AnnuityDueValue(m, expectedReturnRate, years, pow), AnnuityDueValue(m, expectedReturnRate, years + 1, pow);
    ScaleBy(years as real * 12.0, s0, m, m * (years as real * 12.0), v0);
    ScaleBy(s0 + 12.0, s1, m, v0 + 12.0 * m, v1);
  }

  /**
   * Multiplying by a non-negative factor c keeps order, strictly when c is
   * positive and a < b; va and vb name the products a * c and b * c.
   */
  lemma ScaleBy(a: real, b: real, c: real, va: real, vb: real)
    requires a <= b && 0.0 <= c && va == a * c && vb == b * c
    ensures va <= vb
    ensures a < b && 0.0 < c ==> va < vb
  {
    var d := b - a;
    assert vb - va == d * c;
    if a < b && 0.0 < c {
      assert d * c > 0.0;
    } else {
      assert d * c >= 0.0;
    }
  }

  /**
   * A SIP with a non-negative rate and a whole amount never reports negative
   * returns over a whole number of years.
   */
  lemma SipReturnsNonNegative(m: real, expectedReturnRate: real, years: nat, pow: (real, real) -> real)
    requires IsMathPow(pow)
    requires expectedReturnRate >= 0.0
    requires m >= 0.0 && m == m.Floor as real
    ensures CalculateSIP(m, expectedReturnRate, years as real, pow).estimatedReturns >= 0.0
  {
    if expectedReturnRate > 0.0 {
      var p := CalculateSIP(m, expectedReturnRate, years as real, pow);
      SipInvestedWhole(m, expectedReturnRate, years, pow);
      AnnuityDueAtLeastInvested(m, expectedReturnRate, years, pow);
      SipIsAnnuityDue(m, expectedReturnRate, years, pow);
      RoundedAboveWhole(p.investedAmount, m * (years as real * 12.0),
                        AnnuityDueValue(m, expectedReturnRate, years, pow), p.totalValue, p.estimatedReturns);
    }
  }

  /** For a non-negative rate and amount the unrounded worth is at least the amount paid in. */
  lemma AnnuityDueAtLeastInvested(m: real, expectedReturnRate: real, years: nat, pow: (real, real) -> real)
    requires IsMathPow(pow)
    requires expectedReturnRate >= 0.0 && m >= 0.0
    ensures m * (years as real * 12.0) <= AnnuityDueValue(m, expectedReturnRate, years, pow)
  {
    var g := 1.0 + MonthlyRate(expectedReturnRate, pow);
    var n := 12 * years;
    GeomSumGrows(g, 0, n);
    assert 0 + n == n;
    assert years as real * 12.0 == n as real;
    ScaleBy(years as real * 12.0, GeomSum(g, n), m, m * (years as real * 12.0),
            AnnuityDueValue(m, expectedReturnRate, years, pow));
  }

  /** Rounding a value at least a whole number w (= x) gives at least w: the difference d is non-negative. */
  lemma RoundedAboveWhole(w: real, x: real, v: real, r: real, d: real)
    requires w == w.Floor as real && w == x && x <= v && r == Round(v) && d == r - w
    ensures d >= 0.0
  {
    RoundMonotone(w, v);
    RoundOfInteger(w);
  }

  /** A whole monthly amount over whole years is a whole amount invested. */
  lemma SipInvestedWhole(m: real, expectedReturnRate: real, years: nat, pow: (real, real) -> real)
    requires IsMathPow(pow)
    requires expectedReturnRate >= -100.0
    requires m == m.Floor as real
    ensures var x := CalculateSIP(m, expectedReturnRate, years as real, pow).investedAmount;
      x == x.Floor as real
  {
    var n := years as real * 12.0;
    assert n == (12 * years) as real;
    WholeTimes(m, n, CalculateSIP(m, expectedReturnRate, years as real, pow).investedAmount);
  }

  /** The product of two whole numbers is whole. */
  lemma WholeTimes(a: real, b: real, c: real)
    requires a == a.Floor as real && b == b.Floor as real && c == a * b
    ensures c == c.Floor as real
  {
    assert a * b == (a.Floor * b.Floor) as real;
  }

  /**
   * For a positive rate and a monthly amount of at least 1/12 the rounded
   * SIP total strictly increases with every added year.
   */
  lemma SipTotalIncreasing(m: real, expectedReturnRate: real, years: nat, pow: (real, real) -> real)
    requires IsMathPow(pow)
    requires expectedReturnRate > 0.0 && 12.0 * m >= 1.0
    ensures CalculateSIP(m, expectedReturnRate, years as real, pow).totalValue
              < CalculateSIP(m, expectedReturnRate, (years + 1) as real, pow).totalValue
  {
    AnnuityDueGrowth(m, expectedReturnRate, years, pow);
    SipIsAnnuityDue(m, expectedReturnRate, years, pow);
    SipIsAnnuityDue(m, expectedReturnRate, years + 1, pow);
    RoundStrict(AnnuityDueValue(m, expectedReturnRate, years, pow),
                AnnuityDueValue(m, expectedReturnRate, years + 1, pow));
  }

  /** For a fixed rate and whole duration, a larger monthly amount never gives a smaller total. */
  lemma SipMonotoneInAmount(m1: real, m2: real, expectedReturnRate: real, years: nat, pow: (real, real) -> real)
    requires IsMathPow(pow)
    requires expectedReturnRate >= -100.0
    requires m1 <= m2
    ensures CalculateSIP(m1, expectedReturnRate, years as real, pow).totalValue
              <= CalculateSIP(m2, expectedReturnRate, years as real, pow).totalValue
  {
    AnnuityDueMonotoneInAmount(m1, m2, expectedReturnRate, years, pow);
    SipIsAnnuityDue(m1, expectedReturnRate, years, pow);
    SipIsAnnuityDue(m2, expectedReturnRate, years, pow);
    if expectedReturnRate != 0.0 {
      RoundMonotone(AnnuityDueValue(m1, expectedReturnRate, years, pow),
                    AnnuityDueValue(m2, expectedReturnRate, years, pow));
    }
  }

  /**
   * At a non-negative rate and after at least a year, monthly amounts at
   * least 1/12 apart give strictly ordered totals: the unrounded worths
   * differ by the amounts' gap times a sum of at least 12 months, so by at
   * least 1, and rounding cannot merge them.
   */
  lemma SipStrictlyMonotoneInAmount(m1: real, m2: real, expectedReturnRate: real, years: nat,
                                    pow: (real, real) -> real)
    requires IsMathPow(pow)
    requires expectedReturnRate >= 0.0 && years >= 1
    requires 12.0 * (m2 - m1) >= 1.0
    ensures CalculateSIP(m1, expectedReturnRate, years as real, pow).totalValue
              < CalculateSIP(m2, expectedReturnRate, years as real, pow).totalValue
  {
    var g := 1.0 + MonthlyRate(expectedReturnRate, pow);
    var n := 12 * years;
    GeomSumGrows(g, 0, n);
    assert 0 + n == n;
    var s := GeomSum(g, n);
    var v1, v2 := AnnuityDueValue(m1, expectedReturnRate, years, pow), AnnuityDueValue(m2, expectedReturnRate, years, pow);
    var d := m2 - m1;
    assert v2 - v1 == d * s;
    ScaleBy(12.0, s, d, 12.0 * d, d * s);
    SipIsAnnuityDue(m1, expectedReturnRate, years, pow);
    SipIsAnnuityDue(m2, expectedReturnRate, years, pow);
    if expectedReturnRate != 0.0 {
      RoundStrict(v1, v2);
    }
  }

  /** The unrounded worth is monotone in the monthly amount. */
  lemma AnnuityDueMonotoneInAmount(m1: real, m2: real, expectedReturnRate: real, years: nat,
                                   pow: (real, real) -> real)
    requires IsMathPow(pow)
    requires expectedReturnRate >= -100.0
    requires m1 <= m2
    ensures AnnuityDueValue(m1, expectedReturnRate, years, pow) <= AnnuityDueValue(m2, expectedReturnRate, years, pow)
  {
    var g := 1.0 + MonthlyRate(expectedReturnRate, pow);
    GeomSumNonNegative(g, 12 * years);
    ScaleBy(m1, m2, GeomSum(g, 12 * years), AnnuityDueValue(m1, expectedReturnRate, years, pow),
            AnnuityDueValue(m2, expectedReturnRate, years, pow));
  }

  /** Recurring contributions at rate 0: 1000 a month for 5 years is 60,000 in, 60,000 out. */
  lemma SipZeroRateExample(pow: (real, real) -> real)
    requires IsMathPow(pow)
    ensures CalculateSIP(1000.0, 0.0, 5.0, pow) == Projection(60000.0, 0.0, 60000.0)
  {
  }

  /**
   * 25,000 a month at 12 % for 10 years: 3,000,000 paid in, a total of
   * 5,600,897 and returns of 2,600,897. The twelfth root of 1.12 lies strictly
   * between 1.0094887925 and 1.0094887935, and that pins the unrounded worth
   * inside (5600896.9, 5600897.5).
   */
  lemma SipExample(pow: (real, real) -> real)
    requires IsMathPow(pow)
    ensures CalculateSIP(25000.0, 12.0, 10.0, pow) == Projection(3000000.0, 2600897.0, 5600897.0)
  {
    var i := MonthlyRate(12.0, pow);
    var g := 1.0 + i;
    assert 1.0 + 12.0 / 100.0 == 1.12;
    assert Pow(g, 12) == 1.12;
    TwelfthRootOfOnePointTwelve(g);
    PowMul(g, 12, 10);
    assert Pow(1.12, 10) == 3.10584820834420916224 by {
      assert Pow(1.12, 2) == 1.2544;
      PowAdd(1.12, 2, 2);
      PowAdd(1.12, 4, 4);
      PowAdd(1.12, 8, 2);
    }
    PowOnWholeYears(pow, g, 10);
    SipExampleWorth(i, SipFutureValue(25000.0, 12.0, 10.0, pow));
  }

  /** The twelfth root of 1.12 to nine decimal places. */
  lemma TwelfthRootOfOnePointTwelve(g: real)
    requires 0.0 <= g && Pow(g, 12) == 1.12
    ensures 1.0094887925 < g < 1.0094887935
  {
    var lo, hi := 1.0094887925, 1.0094887935;
    assert Pow(lo, 12) < 1.12 by {
      assert Pow(lo, 2) == lo * lo;
      PowAdd(lo, 2, 2);
      PowAdd(lo, 4, 4);
      PowAdd(lo, 8, 4);
    }
    assert Pow(hi, 12) > 1.12 by {
      assert Pow(hi, 2) == hi * hi;
      PowAdd(hi, 2, 2);
      PowAdd(hi, 4, 4);
      PowAdd(hi, 8, 4);
    }
    PowOrderReflects(lo, g, 12);
    PowOrderReflects(g, hi, 12);
  }

  /**
   * The arithmetic of SipExample: with i between the two bounds, the worth
   * 25000 * ((1.12^10 - 1) / i) * (1 + i) lies in [5600896.5, 5600897.5).
   */
  lemma SipExampleWorth(i: real, v: real)
    requires 0.0094887925 < i < 0.0094887935
    requires v == 25000.0 * ((3.10584820834420916224 - 1.0) / i) * (1.0 + i)
    ensures 5600896.5 <= v < 5600897.5
  {
    var c := 25000.0 * (3.10584820834420916224 - 1.0);
    var r := 1.0 / i;
    assert v == c * r + c;
    assert r < 1.0 / 0.0094887925 && r > 1.0 / 0.0094887935;
  }

  /** Reference definition of a lumpsum's worth before rounding: P * (1 + rate/100)^years for whole years. */
  function CompoundValue(totalInvestment: real, expectedReturnRate: real, years: nat): real
  {
    totalInvestment * Pow(1.0 + expectedReturnRate / 100.0, years)
  }

  /** With a non-zero rate and whole years the lumpsum total is P * (1 + rate/100)^years, rounded once. */
  lemma LumpsumCompounds(p: real, expectedReturnRate: real, years: nat, pow: (real, real) -> real)
    requires IsMathPow(pow)
    requires expectedReturnRate != 0.0
    ensures LumpsumFutureValue(p, expectedReturnRate, years as real, pow) == CompoundValue(p, expectedReturnRate, years)
    ensures CalculateLumpsum(p, expectedReturnRate, years as real, pow).totalValue
              == Round(CompoundValue(p, expectedReturnRate, years))
  {
  }

  /** Zero years: a whole sum comes back unchanged, with no returns, at every rate. */
  lemma LumpsumZeroYears(p: real, expectedReturnRate: real, pow: (real, real) -> real)
    requires IsMathPow(pow)
    requires p == p.Floor as real
    ensures CalculateLumpsum(p, expectedReturnRate, 0.0, pow) == Projection(p, 0.0, p)
  {
    if expectedReturnRate != 0.0 {
      LumpsumCompounds(p, expectedReturnRate, 0, pow);
      RoundOfInteger(p);
    }
  }

  /**
   * A non-negative sum compounded at a positive rate is at least the sum
   * and never falls with a further year, strictly growing when the sum is
   * positive.
   */
  lemma CompoundGrowth(p: real, expectedReturnRate: real, years: nat)
    requires p >= 0.0 && expectedReturnRate > 0.0
    ensures p <= CompoundValue(p, expectedReturnRate, years) <= CompoundValue(p, expectedReturnRate, years + 1)
    ensures p > 0.0 ==> CompoundValue(p, expectedReturnRate, years) < CompoundValue(p, expectedReturnRate, years + 1)
  {
    var g := 1.0 + expectedReturnRate / 100.0;
    PowGrows(g, years);
    var v0, v1 := CompoundValue(p, expectedReturnRate, years), CompoundValue(p, expectedReturnRate, years + 1);
    ScaleBy(1.0, Pow(g, years), p, p, v0);
    ScaleBy(Pow(g, years), Pow(g, years + 1), p, v0, v1);
  }

  /**
   * For a positive rate and a non-negative sum, whole or not, the rounded
   * total never falls from one year to the next.
   */
  lemma LumpsumTotalGrows(p: real, expectedReturnRate: real, years: nat, pow: (real, real) -> real)
    requires IsMathPow(pow)
    requires expectedReturnRate > 0.0 && p >= 0.0
    ensures CalculateLumpsum(p, expectedReturnRate, years as real, pow).totalValue
              <= CalculateLumpsum(p, expectedReturnRate, (years + 1) as real, pow).totalValue
  {
    CompoundGrowth(p, expectedReturnRate, years);
    LumpsumCompounds(p, expectedReturnRate, years, pow);
    LumpsumCompounds(p, expectedReturnRate, years + 1, pow);
    RoundMonotone(CompoundValue(p, expectedReturnRate, years), CompoundValue(p, expectedReturnRate, years + 1));
  }

  /**
   * For a non-negative rate and a non-negative whole sum the returns are
   * never negative over whole years (LumpsumNegativeReturnsExample shows why
   * the sum must be whole).
   */
  lemma LumpsumReturnsNonNegative(p: real, expectedReturnRate: real, years: nat, pow: (real, real) -> real)
    requires IsMathPow(pow)
    requires expectedReturnRate >= 0.0
    requires p >= 0.0 && p == p.Floor as real
    ensures CalculateLumpsum(p, expectedReturnRate, years as real, pow).estimatedReturns >= 0.0
  {
    if expectedReturnRate > 0.0 {
      var q := CalculateLumpsum(p, expectedReturnRate, years as real, pow);
      CompoundGrowth(p, expectedReturnRate, years);
      LumpsumCompounds(p, expectedReturnRate, years, pow);
      RoundedAboveWhole(p, p, CompoundValue(p, expectedReturnRate, years), q.totalValue, q.estimatedReturns);
    }
  }

  /** Above 1, the power is at least 1 and one more year of compounding strictly increases it. */
  lemma PowGrows(g: real, n: nat)
    requires g > 1.0
    ensures 1.0 <= Pow(g, n) < Pow(g, n + 1)
  {
    PowAboveOne(g, n);
    assert Pow(g, n + 1) == g * Pow(g, n);
    ScaleBy(1.0, g, Pow(g, n), Pow(g, n), Pow(g, n + 1));
  }

  /** With a rate of at least -100 % a larger sum never gives a smaller total. */
  lemma LumpsumMonotoneInAmount(p1: real, p2: real, expectedReturnRate: real, years: nat,
                                pow: (real, real) -> real)
    requires IsMathPow(pow)
    requires expectedReturnRate >= -100.0
    requires p1 <= p2
    ensures CalculateLumpsum(p1, expectedReturnRate, years as real, pow).totalValue
              <= CalculateLumpsum(p2, expectedReturnRate, years as real, pow).totalValue
  {
    if expectedReturnRate != 0.0 {
      var g := 1.0 + expectedReturnRate / 100.0;
      PowNonNegative(g, years);
      ScaleBy(p1, p2, Pow(g, years), CompoundValue(p1, expectedReturnRate, years),
              CompoundValue(p2, expectedReturnRate, years));
      LumpsumCompounds(p1, expectedReturnRate, years, pow);
      LumpsumCompounds(p2, expectedReturnRate, years, pow);
      RoundMonotone(CompoundValue(p1, expectedReturnRate, years), CompoundValue(p2, expectedReturnRate, years));
    }
  }

  /**
   * At a non-negative rate a sum at least one unit larger gives a strictly
   * larger total, for every whole duration: the unrounded worths are at
   * least one unit apart.
   */
  lemma LumpsumStrictlyMonotoneInAmount(p1: real, p2: real, expectedReturnRate: real, years: nat,
                                        pow: (real, real) -> real)
    requires IsMathPow(pow)
    requires expectedReturnRate >= 0.0
    requires p1 + 1.0 <= p2
    ensures CalculateLumpsum(p1, expectedReturnRate, years as real, pow).totalValue
              < CalculateLumpsum(p2, expectedReturnRate, years as real, pow).totalValue
  {
    if expectedReturnRate != 0.0 {
      var g := 1.0 + expectedReturnRate / 100.0;
      PowAboveOne(g, years);
      var v1, v2 := CompoundValue(p1, expectedReturnRate, years), CompoundValue(p2, expectedReturnRate, years);
      ScaleBy(p1 + 1.0, p2, Pow(g, years), v1 + Pow(g, years), v2);
      LumpsumCompounds(p1, expectedReturnRate, years, pow);
      LumpsumCompounds(p2, expectedReturnRate, years, pow);
      RoundStrict(v1, v2);
    }
  }

  /** One-time investment of 100,000 at 12 % for 10 years: 310,585 in total, 210,585 returns. */
  lemma LumpsumExample(pow: (real, real) -> real)
    requires IsMathPow(pow)
    ensures CalculateLumpsum(100000.0, 12.0, 10.0, pow) == Projection(100000.0, 210585.0, 310585.0)
  {
    LumpsumCompounds(100000.0, 12.0, 10, pow);
    assert 1.0 + 12.0 / 100.0 == 1.12;
    assert Pow(1.12, 2) == 1.2544;
    assert Pow(1.12, 4) == 1.57351936 by {
      PowAdd(1.12, 2, 2);
    }
    assert Pow(1.12, 8) == 2.4759631762948096 by {
      PowAdd(1.12, 4, 4);
    }
    assert Pow(1.12, 10) == 3.10584820834420916224 by {
      PowAdd(1.12, 8, 2);
    }
    var x := CompoundValue(100000.0, 12.0, 10);
    assert x == 310584.820834420916224;
    assert (x + 0.5).Floor == 310585;
  }

  /**
   * Rounding can hide a year of growth at a positive rate: 1 at 1 % is worth
   * 1.01 after one year and 1.0201 after two, and both round to 1.
   */
  lemma LumpsumFlatAcrossYearsExample(pow: (real, real) -> real)
    requires IsMathPow(pow)
    ensures CalculateLumpsum(1.0, 1.0, 1.0, pow).totalValue == 1.0
    ensures CalculateLumpsum(1.0, 1.0, 2.0, pow).totalValue == 1.0
  {
    LumpsumCompounds(1.0, 1.0, 1, pow);
    LumpsumCompounds(1.0, 1.0, 2, pow);
    assert 1.0 + 1.0 / 100.0 == 1.01;
    assert Pow(1.01, 2) == 1.0201;
    assert CompoundValue(1.0, 1.0, 1) == 1.01;
    assert CompoundValue(1.0, 1.0, 2) == 1.0201;
  }

  /**
   * Rounding can make returns negative at a positive rate: 0.4 at 1 % for a
   * year is worth 0.404, which rounds to 0, so the returns are -0.4.
   */
  lemma LumpsumNegativeReturnsExample(pow: (real, real) -> real)
    requires IsMathPow(pow)
    ensures CalculateLumpsum(0.4, 1.0, 1.0, pow) == Projection(0.4, -0.4, 0.0)
  {
    LumpsumCompounds(0.4, 1.0, 1, pow);
    assert 1.0 + 1.0 / 100.0 == 1.01;
    assert CompoundValue(0.4, 1.0, 1) == 0.404;
  }

  /**
   * Rounding can merge sums less than a unit apart at a positive rate: 1 and
   * 1.2 at 1 % are worth 1.01 and 1.212 after a year, and both round to 1.
   */
  lemma LumpsumCloseAmountsExample(pow: (real, real) -> real)
    requires IsMathPow(pow)
    ensures CalculateLumpsum(1.0, 1.0, 1.0, pow).totalValue == 1.0
    ensures CalculateLumpsum(1.2, 1.0, 1.0, pow).totalValue == 1.0
  {
    LumpsumCompounds(1.0, 1.0, 1, pow);
    LumpsumCompounds(1.2, 1.0, 1, pow);
    assert 1.0 + 1.0 / 100.0 == 1.01;
    assert CompoundValue(1.0, 1.0, 1) == 1.01;
    assert CompoundValue(1.2, 1.0, 1) == 1.212;
  }
}
