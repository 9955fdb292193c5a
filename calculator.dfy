// The non-rendering logic of the calculator component: the state of its
// inputs, the normalisation of an input that may be empty, the dispatch to
// the valuation engine by mode, the year-by-year series, the clamping change
// handlers and the adjustments made when the mode tab is switched.

module Calculator {
  import opened JsMath
  import opened Calculations

  /** The two modes of the calculator tab. */
  datatype CalcType = Sip | Lumpsum

  /** An input's state: a number, or empty while the user has cleared the box. */
  datatype Field = Blank | Num(value: real)

  /** What a numeric input box reports on change: the empty string or a number. */
  datatype Entry = EmptyEntry | NumberEntry(num: real)

  /**
   * What the engine gives for the current inputs: a projection, or
   * NotFinite on the inputs where the engine's result is not a finite
   * number (see NonFiniteInputs); the model keeps those cases apart instead
   * of giving them a value.
   */
  datatype Valuation = Value(p: Projection) | NotFinite

  /**
   * The inputs on which the engine's results are not finite numbers.
   * SIP: below -100 % the twelfth root of a negative base is NaN. At exactly
   * -100 % the monthly factor 1 + i is 0, and with a negative period
   * Math.pow(0, n) is Infinity, which times 0 is NaN. Lumpsum: below -100 %
   * a period that is not whole raises a negative base to a non-integer
   * power, for which Math.pow gives NaN (even where a real odd root exists:
   * a double that is not whole never has an odd denominator). At exactly
   * -100 % a negative period raises 0 to a negative power (Infinity, or NaN
   * for a zero sum). The zero-rate shortcut of both modes lies outside these
   * cases. Floating-point rounding and overflow add further cases, which the
   * model does not capture.
   */
  predicate NonFiniteInputs(calcType: CalcType, rate: real, years: real)
  {
    match calcType
    case Sip => rate < -100.0 || (rate == -100.0 && years < 0.0)
    case Lumpsum => (rate < -100.0 && years != years.Floor as real) || (rate == -100.0 && years < 0.0)
  }

  /** One row of the year-by-year table: a year and the engine's result after that many years. */
  datatype Row = Row(year: int, result: Valuation)

  /** The largest investment each mode's handler accepts. */
  function InvestmentCap(calcType: CalcType): (cap: real)
    ensures cap == 1000000.0 || cap == 10000000.0
    ensures calcType == Sip <==> cap == 1000000.0
  {
    match calcType
    case Sip => 1000000.0
    case Lumpsum => 10000000.0
  }

  const RateCap: real := 30.0
  const YearsCap: real := 40.0

  /** The smallest lumpsum the tab switch lets stand. */
  const LumpsumFloor: real := 500.0

  /**
   * Number(x) || 0: an empty input counts as 0 and a number as itself
   * (the `|| 0` also turns NaN into 0; over the reals -0 is 0 and NaN does not arise).
   */
  function Safe(f: Field): (r: real)
    ensures f.Blank? ==> r == 0.0
    ensures f.Num? ==> r == f.value
  {
    match f
    case Blank => 0.0
    case Num(v) => v
  }

  /**
   * What a change handler stores: an empty entry stays empty, a number is
   * kept when at most the cap and replaced by the cap otherwise. There is no
   * lower bound.
   */
  function Clamped(e: Entry, cap: real): (f: Field)
    ensures e.EmptyEntry? <==> f.Blank?
    ensures e.NumberEntry? ==> f.value <= cap
    ensures e.NumberEntry? && e.num <= cap ==> f.value == e.num
    ensures e.NumberEntry? && e.num > cap ==> f.value == cap
  {
    match e
    case EmptyEntry => Blank
    case NumberEntry(num) => if num <= cap then Num(num) else Num(cap)
  }

  /** The entry the input box shows for a stored field. */
  function EntryOf(f: Field): (e: Entry)
    ensures f.Blank? <==> e.EmptyEntry?
    ensures f.Num? ==> e.num == f.value
  {
    match f
    case Blank => EmptyEntry
    case Num(v) => NumberEntry(v)
  }

  /** Clamping what was already clamped changes nothing. */
  lemma ClampedIdempotent(e: Entry, cap: real)
    ensures Clamped(EntryOf(Clamped(e, cap)), cap) == Clamped(e, cap)
  {
  }

  /** A stored field's safe value never exceeds the cap, and any number at most the cap, however negative, is kept. */
  lemma ClampedBounds(e: Entry, cap: real)
    requires 0.0 <= cap
    ensures Safe(Clamped(e, cap)) <= cap
    ensures forall v: real :: v <= cap ==> Clamped(NumberEntry(v), cap) == Num(v)
  {
  }

  /**
   * The number of rows of the table for a time period t: the years
   * 1, 2, ... that are at most t.
   */
  function YearCount(t: real): (n: nat)
    ensures t < 1.0 ==> n == 0
    ensures t >= 1.0 ==> n >= 1 && n as real <= t < n as real + 1.0
  {
    if t < 1.0 then 0 else t.Floor
  }

  /** For a whole time period of at least one year there is one row per year. */
  lemma YearCountOfWhole(k: nat)
    requires 1 <= k
    ensures YearCount(k as real) == k
  {
  }

  /**
   * The calculator's state. The foreign Math.pow is fixed at construction;
   * the mode and the three inputs are what the handlers update.
   */
  class CalculatorState {
    const pow: (real, real) -> real
    var calcType: CalcType
    var investment: Field
    var returnRate: Field
    var timePeriod: Field

    /** The fixed power function behaves as Math.pow. */
    ghost predicate UsesMathPow()
    {
      IsMathPow(pow)
    }

    /**
     * Every input at or below the cap its handler enforces in the current
     * mode. The clamping handlers and the tab switches keep it, but it is not
     * a class invariant: the sliders' own setters, which are outside this
     * model, store values without clamping.
     */
    predicate WithinCaps()
      reads this
    {
      Safe(investment) <= InvestmentCap(calcType) && Safe(returnRate) <= RateCap && Safe(timePeriod) <= YearsCap
    }

    /** Within the caps the time period is at most 40, so the table has at most 40 rows. */
    lemma RowCountWithinCaps()
      requires WithinCaps()
      ensures YearCount(Safe(timePeriod)) <= 40
    {
    }

    /** SIP mode, 25,000 a month, 12 % a year, 10 years. */
    constructor (pow: (real, real) -> real)
      requires IsMathPow(pow)
      ensures UsesMathPow() && WithinCaps()
      ensures this.pow == pow
      ensures calcType == Sip && investment == Num(25000.0) && returnRate == Num(12.0) && timePeriod == Num(10.0)
    {
      this.pow := pow;
      calcType := Sip;
      investment := Num(25000.0);
      returnRate := Num(12.0);
      timePeriod := Num(10.0);
    }

    /**
     * The engine's result after `years` years on the normalised inputs:
     * SIP mode invests the amount every month, lumpsum mode once; both
     * report returns as total minus invested. Exactly the inputs of
     * NonFiniteInputs have no value.
     */
    function ResultsAt(years: real): (v: Valuation)
      reads this
      requires UsesMathPow()
      ensures v.NotFinite? <==> NonFiniteInputs(calcType, Safe(returnRate), years)
      ensures v.Value? && calcType == Sip ==> v.p == CalculateSIP(Safe(investment), Safe(returnRate), years, pow)
      ensures v.Value? && calcType == Lumpsum ==> v.p == CalculateLumpsum(Safe(investment), Safe(returnRate), years, pow)
      ensures v.Value? && calcType == Sip ==> v.p.investedAmount == Safe(investment) * (years * 12.0)
      ensures v.Value? && calcType == Lumpsum ==> v.p.investedAmount == Safe(investment)
      ensures v.Value? ==> v.p.estimatedReturns == v.p.totalValue - v.p.investedAmount
      ensures v.Value? && Safe(returnRate) == 0.0 ==> v.p.totalValue == v.p.investedAmount
    {
      var m, r := Safe(investment), Safe(returnRate);
      if NonFiniteInputs(calcType, r, years) then NotFinite
      else
        match calcType
        case Sip => Value(CalculateSIP(m, r, years, pow))
        case Lumpsum => Value(CalculateLumpsum(m, r, years, pow))
    }

    /**
     * The result shown for the current time period: the SIP engine's in SIP
     * mode and the lumpsum engine's otherwise, on the normalised inputs.
     */
    function Results(): (v: Valuation)
      reads this
      requires UsesMathPow()
      ensures v.NotFinite? <==> NonFiniteInputs(calcType, Safe(returnRate), Safe(timePeriod))
      ensures v.Value? && calcType == Sip ==>
        v.p == CalculateSIP(Safe(investment), Safe(returnRate), Safe(timePeriod), pow)
      ensures v.Value? && calcType == Lumpsum ==>
        v.p == CalculateLumpsum(Safe(investment), Safe(returnRate), Safe(timePeriod), pow)
    {
      ResultsAt(Safe(timePeriod))
    }

    /**
     * Over a whole number of years the shown result is the engine's
     * reference value: the annuity-due sum, rounded once, in SIP mode; the
     * compounded sum, rounded once, in lumpsum mode.
     */
    lemma ResultsAreReferenceValues(years: nat)
      requires UsesMathPow()
      requires Safe(returnRate) != 0.0
      ensures calcType == Sip && Safe(returnRate) >= -100.0 ==>
        ResultsAt(years as real).p.totalValue
          == Round(AnnuityDueValue(Safe(investment), Safe(returnRate), years, pow))
      ensures calcType == Lumpsum ==>
        ResultsAt(years as real).p.totalValue == Round(CompoundValue(Safe(investment), Safe(returnRate), years))
    {
      if calcType == Sip && Safe(returnRate) >= -100.0 {
        SipIsAnnuityDue(Safe(investment), Safe(returnRate), years, pow);
      } else if calcType == Lumpsum {
        LumpsumCompounds(Safe(investment), Safe(returnRate), years, pow);
      }
    }

    /**
     * Down the table's rows, in SIP mode with a positive rate and at least
     * 1/12 a month, the total strictly increases from one year to the next;
     * in lumpsum mode with a positive rate and a non-negative sum it never
     * decreases.
     */
    lemma SeriesTotalsIncrease(years: nat)
      requires UsesMathPow()
      requires Safe(returnRate) > 0.0
      ensures calcType == Sip && 12.0 * Safe(investment) >= 1.0 ==>
        ResultsAt(years as real).p.totalValue < ResultsAt((years + 1) as real).p.totalValue
      ensures calcType == Lumpsum && Safe(investment) >= 0.0 ==>
        ResultsAt(years as real).p.totalValue <= ResultsAt((years + 1) as real).p.totalValue
    {
      var m, r := Safe(investment), Safe(returnRate);
      if calcType == Sip && 12.0 * m >= 1.0 {
        SipTotalIncreasing(m, r, years, pow);
      } else if calcType == Lumpsum && m >= 0.0 {
        LumpsumTotalGrows(m, r, years, pow);
      }
    }

    /**
     * The year-by-year table: one row for each of the years 1, 2, ... up to
     * the time period, in ascending order, each holding the engine's result
     * for that year in the current mode.
     */
    method YearlyData() returns (data: seq<Row>)
      requires UsesMathPow()
      ensures |data| == YearCount(Safe(timePeriod))
      ensures forall k :: 0 <= k < |data| ==> data[k].year == k + 1
      ensures forall k :: 0 <= k < |data| ==> data[k].result == ResultsAt((k + 1) as real)
      ensures Safe(timePeriod) >= 1.0 && Safe(timePeriod) == Safe(timePeriod).Floor as real ==>
        |data| as real == Safe(timePeriod) && data[|data| - 1].result == Results()
    {
      var m, r, t := Safe(investment), Safe(returnRate), Safe(timePeriod);
      data := [];
      var year := 1;
      while year as real <= t
        invariant 1 <= year && |data| == year - 1
        invariant year == 1 || (year - 1) as real <= t
        invariant forall k :: 0 <= k < |data| ==> data[k] == Row(k + 1, ResultsAt((k + 1) as real))
        decreases t.Floor - year + 1
      {
        var res: Valuation;
        if calcType == Sip {
          res := if NonFiniteInputs(Sip, r, year as real) then NotFinite else Value(CalculateSIP(m, r, year as real, pow));
        } else {
          res := if NonFiniteInputs(Lumpsum, r, year as real) then NotFinite
                 else Value(CalculateLumpsum(m, r, year as real, pow));
        }
        data := data + [Row(year, res)];
        year := year + 1;
      }
    }

    /** Typing in the investment box: the entry clamped to the current mode's cap. */
    method HandleInvestmentChange(e: Entry)
      modifies this
      ensures investment == Clamped(e, InvestmentCap(calcType))
      ensures calcType == old(calcType) && returnRate == old(returnRate) && timePeriod == old(timePeriod)
      ensures Safe(investment) <= InvestmentCap(calcType)
      ensures old(WithinCaps()) ==> WithinCaps()
    {
      if e.EmptyEntry? {
        investment := Blank;
        return;
      }
      var num := e.num;
      var max := if calcType == Sip then 1000000.0 else 10000000.0;
      if num <= max {
        investment := Num(num);
      } else {
        investment := Num(max);
      }
    }

    /** Typing in the rate box: the entry clamped to 30 %. */
    method HandleReturnRateChange(e: Entry)
      modifies this
      ensures returnRate == Clamped(e, RateCap)
      ensures calcType == old(calcType) && investment == old(investment) && timePeriod == old(timePeriod)
      ensures old(WithinCaps()) ==> WithinCaps()
    {
      if e.EmptyEntry? {
        returnRate := Blank;
        return;
      }
      var num := e.num;
      if num <= 30.0 {
        returnRate := Num(num);
      } else {
        returnRate := Num(30.0);
      }
    }

    /** Typing in the time-period box: the entry clamped to 40 years. */
    method HandleTimePeriodChange(e: Entry)
      modifies this
      ensures timePeriod == Clamped(e, YearsCap)
      ensures calcType == old(calcType) && investment == old(investment) && returnRate == old(returnRate)
      ensures old(WithinCaps()) ==> WithinCaps()
    {
      if e.EmptyEntry? {
        timePeriod := Blank;
        return;
      }
      var num := e.num;
      if num <= 40.0 {
        timePeriod := Num(num);
      } else {
        timePeriod := Num(40.0);
      }
    }

    /** The SIP tab: switch mode and bring an investment above the SIP cap down to it. */
    method SelectSip()
      modifies this
      ensures calcType == Sip
      ensures investment == if Safe(old(investment)) > 1000000.0 then Num(1000000.0) else old(investment)
      ensures returnRate == old(returnRate) && timePeriod == old(timePeriod)
      ensures Safe(investment) <= InvestmentCap(Sip)
      ensures old(WithinCaps()) ==> WithinCaps()
    {
      calcType := Sip;
      if Safe(investment) > 1000000.0 {
        investment := Num(1000000.0);
      }
    }

    /** The lumpsum tab: switch mode and raise an investment below 500 (an empty one included) to 500. */
    method SelectLumpsum()
      modifies this
      ensures calcType == Lumpsum
      ensures investment == if Safe(old(investment)) < 500.0 then Num(500.0) else old(investment)
      ensures returnRate == old(returnRate) && timePeriod == old(timePeriod)
      ensures Safe(investment) >= LumpsumFloor
      ensures old(WithinCaps()) ==> WithinCaps()
    {
      calcType := Lumpsum;
      if Safe(investment) < 500.0 {
        investment := Num(500.0);
      }
    }
  }
}
