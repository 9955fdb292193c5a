# SIP and lumpsum calculator: a verified model

This project models a client-side investment calculator in Dafny. It covers two pieces.

The first is the **valuation engine**, `src/utils/calculations.ts`:

- `calculateSIP` is the future value of a monthly SIP (systematic investment plan). The SIP is an annuity-due: one contribution at the start of every month, compounded at the monthly rate equivalent to the annual rate.
- `calculateLumpsum` compounds one sum annually.
- Both return `{investedAmount, estimatedReturns, totalValue}` and round once, on the total.

The second is the **orchestration logic** of `src/components/Calculator.tsx`, excluding rendering:

- the normalisation of an input that may be empty (`number | ''`);
- the dispatch of the shown result by mode;
- the loop that builds the year-by-year table;
- the three clamping change handlers;
- the investment adjustments made when the SIP or lumpsum tab is clicked.

The model has three files:

- `jsmath.dfy` (module `JsMath`): integer powers, `Math.round`, the geometric sum, and the laws of `Math.pow` the engine relies on.
- `calculations.dfy` (module `Calculations`): the two engine functions, their reference definitions, and the lemmas relating them.
- `calculator.dfy` (module `Calculator`): the input datatypes, and a class `CalculatorState` holding the component's state fields. Its handlers are methods that update those fields. The table builder is a loop method.

Arithmetic is over exact reals. `Math.round(x)` is `(x + 0.5).Floor`, which rounds halves towards +∞ as JavaScript does.

`Math.pow` is a call into the runtime, so the engine functions take it as a parameter `pow`. The predicate `IsMathPow(pow)` says what the model assumes of it:

- on natural exponents it is the integer power `Pow`;
- with exponent 1/12 it gives the non-negative twelfth root of a non-negative base.

Other exponents (fractional, negative) and the twelfth root of a negative base are left unconstrained.

From this the model proves that the monthly rate `i` compounds to the annual rate, `(1+i)^12 == 1 + rate/100`, and has the sign of the annual rate. It also proves that over whole years the source's closed form `m * ((1+i)^n - 1) / i * (1+i)` equals the annuity-due sum `m * ((1+i) + (1+i)^2 + ... + (1+i)^n)`. So the SIP total is that sum rounded once, and zero years give 0 without any division concern.

Where the code and its written description differ, the model follows the code:

- The description gives ranges such as [500, 1,000,000] for the amount and [1, 30] for the rate. The change handlers apply only the upper bound. The model keeps that: `Clamped` has no lower bound, and `ClampedBounds` shows that negative entries are stored as typed.
- The description calls the engine total over non-negative inputs. The rate and time-period handlers have no lower bound, so negative values reach the engine, and on some of them the result is not a finite number. Three of these cases have no finite value even over the exact reals; in the fourth, `Math.pow` gives NaN. The predicate `NonFiniteInputs` names these inputs:
  - SIP below -100 %: the twelfth root of a negative base is NaN.
  - SIP at exactly -100 % with a negative period: `Math.pow(0, n)` is Infinity, and times `1 + i = 0` it is NaN.
  - Lumpsum below -100 % with a period that is not whole: `Math.pow` gives NaN for a negative base and a non-integer exponent, even where a real odd root exists (a period of 0.2), since a non-whole double never has an odd denominator.
  - Lumpsum at exactly -100 % with a negative period: 0 to a negative power is Infinity (NaN for a zero sum).

  The model requires `expectedReturnRate >= -100` of `CalculateSIP`, and the component's `ResultsAt` yields `NotFinite` on exactly these inputs.
- The description promises a total strictly increasing in the amount. Rounding breaks that for amounts close together: lumpsums of 1 and 1.2 at 1 % both total 1 after a year (`LumpsumCloseAmountsExample`). Sufficient gaps are proved: for SIP after at least a year at a non-negative rate, monthly amounts at least 1/12 apart (`SipStrictlyMonotoneInAmount`); for lumpsum at a non-negative rate, sums at least one unit apart (`LumpsumStrictlyMonotoneInAmount`). `SipMonotoneInAmount` and `LumpsumMonotoneInAmount` prove the `<=` for every pair.
- The description promises a lumpsum total strictly increasing in the duration at a positive rate. Rounding breaks that: 1 at 1 % gives a total of 1 after both one and two years (`LumpsumFlatAcrossYearsExample`). The model proves the `<=` (`LumpsumTotalGrows`). For SIP the strict form holds once 12 × the monthly amount is at least 1 (`SipTotalIncreasing`).
- The description promises returns that are never negative at a non-negative rate. Rounding breaks that for fractional amounts: 0.4 at 1 % for one year gives total 0 and returns -0.4 (`LumpsumNegativeReturnsExample`). The model proves non-negative returns for whole amounts (`SipReturnsNonNegative`, `LumpsumReturnsNonNegative`).
- The description expects a total of about 5,796,000 (±1) for 25,000 a month at 12 % for 10 years. The formula at line 13 of `src/utils/calculations.ts` gives 5,600,897, about 195,000 less (`SipExample`). The model follows the code.
- In the zero-rate branches the totals are `investedAmount`, which need not be a whole number. The model proves totals integral only in the rounding branches.

## Model

| member | source | states |
|---|---|---|
| JsMath.IsMathPow | src/utils/calculations.ts:11-13 | the laws assumed of Math.pow: the integer power on natural exponents, and the non-negative twelfth root of a non-negative base with exponent 1/12 |
| JsMath.Round | src/utils/calculations.ts:13 | Math.round gives an integer within half a unit of its argument (halves go up) |
| JsMath.AnnuityDueFactor | src/utils/calculations.ts:13 | the factor ((1+i)^n - 1)/i * (1+i) equals the geometric sum (1+i) + ... + (1+i)^n for every i != 0 |
| JsMath.GeomSumClosedForm | src/utils/calculations.ts:13 | division-free form of the annuity-due factor: (g-1) * sum == (g^n - 1) * g |
| JsMath.TwelfthRootOrder | src/utils/calculations.ts:11 | a non-negative twelfth root is above, at or below 1 exactly when its twelfth power is |
| JsMath.RoundMonotone | src/utils/calculations.ts:13 | Math.round never reverses order |
| JsMath.RoundOfInteger | src/utils/calculations.ts:26 | Math.round leaves a whole number unchanged |
| Calculations.MonthlyRate | src/utils/calculations.ts:10-11 | the compound monthly rate is positive, zero or negative exactly as the annual rate is, and 1 + i >= 0 |
| Calculations.MonthlyRateCompounds | src/utils/calculations.ts:10-11 | twelve months at the monthly rate compound to exactly 1 + rate/100 |
| Calculations.CalculateSIP | src/utils/calculations.ts:1-17 | invested is monthly amount × (years × 12); returns are total − invested; rate 0 gives returns 0 and total = invested; otherwise the total is a whole number |
| Calculations.SipFutureValueIsAnnuityDue | src/utils/calculations.ts:9-13 | over whole years the unrounded closed form equals m × the annuity-due sum over 12 × years months |
| Calculations.SipFutureValueOverMonths | src/utils/calculations.ts:2-13 | for any period that is a whole number of months (2.5 years is 30), the unrounded closed form equals m × the annuity-due sum over those months |
| Calculations.SipIsAnnuityDue | src/utils/calculations.ts:1-17 | over whole years the SIP total is the annuity-due sum rounded once (exactly that sum, m × 12 × years, at rate 0) |
| Calculations.SipZeroYears | src/utils/calculations.ts:1-17 | zero years give (0, 0, 0) for every amount and every rate >= -100 % (below that the source gives NaN), through the annuity-due sum over zero months |
| Calculations.AnnuityDueGrowth | src/utils/calculations.ts:9-13 | for rate > 0 and m > 0 the unrounded value is at least m × n, strictly more after a year, and each further year adds more than 12m |
| Calculations.SipInvestedWhole | src/utils/calculations.ts:2-3 | a whole monthly amount over whole years gives a whole invested amount |
| Calculations.AnnuityDueAtLeastInvested | src/utils/calculations.ts:2-13 | for rate >= 0 and m >= 0 the unrounded SIP value is at least the amount invested, m × years × 12 |
| Calculations.SipReturnsNonNegative | src/utils/calculations.ts:13-14 | rate >= 0 and a whole non-negative monthly amount give non-negative returns |
| Calculations.SipTotalIncreasing | src/utils/calculations.ts:13 | rate > 0 and 12m >= 1: the rounded total strictly increases with each year |
| Calculations.AnnuityDueMonotoneInAmount | src/utils/calculations.ts:13 | the unrounded SIP value is monotone in the monthly amount |
| Calculations.SipMonotoneInAmount | src/utils/calculations.ts:1-17 | a larger monthly amount never gives a smaller total |
| Calculations.SipStrictlyMonotoneInAmount | src/utils/calculations.ts:1-17 | rate >= 0 and at least one year: monthly amounts at least 1/12 apart give strictly ordered totals |
| Calculations.SipZeroRateExample | src/utils/calculations.ts:5-7 | 1000 a month at 0 % for 5 years gives (60000, 0, 60000) |
| Calculations.SipExample | src/utils/calculations.ts:1-17 | 25,000 a month at 12 % for 10 years gives (3000000, 2600897, 5600897), for every Math.pow obeying the assumed laws |
| Calculations.CalculateLumpsum | src/utils/calculations.ts:19-30 | invested is the sum for every rate and duration; returns are total − invested; rate 0 gives total = sum and returns 0; otherwise the total is whole |
| Calculations.LumpsumCompounds | src/utils/calculations.ts:24-26 | for rate != 0 and whole years the unrounded value is the reference value P × (1 + rate/100)^years and the total is that value rounded once |
| Calculations.LumpsumZeroYears | src/utils/calculations.ts:19-29 | zero years and a whole sum give (P, 0, P) at every rate |
| Calculations.CompoundGrowth | src/utils/calculations.ts:24-26 | rate > 0, P >= 0: the reference value P × (1 + r/100)^years is at least P and never falls with a further year (strictly grows for P > 0) |
| Calculations.LumpsumTotalGrows | src/utils/calculations.ts:24-26 | rate > 0 and any P >= 0: the rounded total never falls with a further year |
| Calculations.LumpsumReturnsNonNegative | src/utils/calculations.ts:19-29 | rate >= 0 and a whole P >= 0: the returns are non-negative over whole years |
| Calculations.LumpsumMonotoneInAmount | src/utils/calculations.ts:24-26 | rate >= -100: a larger sum never gives a smaller total |
| Calculations.LumpsumStrictlyMonotoneInAmount | src/utils/calculations.ts:19-29 | rate >= 0: a sum at least 1 larger gives a strictly larger total, for every whole duration |
| Calculations.LumpsumExample | src/utils/calculations.ts:19-30 | 100,000 at 12 % for 10 years gives (100000, 210585, 310585) |
| Calculations.LumpsumFlatAcrossYearsExample | src/utils/calculations.ts:24-26 | 1 at 1 % has total 1 after one year and after two: the total is not strictly increasing in years |
| Calculations.LumpsumNegativeReturnsExample | src/utils/calculations.ts:24-27 | 0.4 at 1 % for one year gives (0.4, -0.4, 0): returns can be negative at a positive rate |
| Calculations.LumpsumCloseAmountsExample | src/utils/calculations.ts:24-26 | sums of 1 and 1.2 at 1 % both total 1 after a year: the total is not strictly increasing in the amount |
| Calculator.InvestmentCap | src/components/Calculator.tsx:72 | the investment cap is 1,000,000 exactly in SIP mode and 10,000,000 otherwise |
| Calculator.Safe | src/components/Calculator.tsx:14-16 | an empty input normalises to 0, a number to itself |
| Calculator.Clamped | src/components/Calculator.tsx:65-106 | empty stays empty; a number is stored as itself when at most the cap and as the cap otherwise, so never above the cap |
| Calculator.EntryOf | src/components/Calculator.tsx:66-70 | the stored field shown back as an entry: empty for empty, the number for a number |
| Calculator.ClampedIdempotent | src/components/Calculator.tsx:80-106 | clamping a clamped value again changes nothing |
| Calculator.ClampedBounds | src/components/Calculator.tsx:65-106 | the normalised stored value never exceeds the cap, and every number at most the cap (negative ones too) is kept: no lower bound |
| Calculator.YearCount | src/components/Calculator.tsx:33 | the number of years 1, 2, ... at most t: 0 below 1, otherwise the n with n <= t < n + 1 |
| Calculator.YearCountOfWhole | src/components/Calculator.tsx:33 | a whole time period k >= 1 gives exactly k rows |
| Calculator.CalculatorState.RowCountWithinCaps | src/components/Calculator.tsx:33 | while every input is within its cap the year-by-year table has at most 40 rows |
| Calculator.CalculatorState.constructor | src/components/Calculator.tsx:6-11 | the initial state is SIP mode, 25,000, 12 %, 10 years, within every cap |
| Calculator.CalculatorState.ResultsAt | src/components/Calculator.tsx:18-24 | a value is the SIP engine's result in SIP mode and the lumpsum engine's otherwise, on the normalised inputs; SIP mode invests amount × years × 12 and lumpsum mode the amount; returns = total − invested; the result is NotFinite exactly on the non-finite inputs of `NonFiniteInputs` (SIP below -100 %, or at -100 % with a negative period; lumpsum below -100 % with a non-whole period, or at -100 % with a negative period) |
| Calculator.CalculatorState.Results | src/components/Calculator.tsx:14-24 | the shown result is the SIP engine's in SIP mode and the lumpsum engine's in lumpsum mode, on the normalised inputs and the current period, and NotFinite exactly on the non-finite inputs of `NonFiniteInputs` |
| Calculator.CalculatorState.ResultsAreReferenceValues | src/components/Calculator.tsx:18-24 | at a non-zero rate (at least -100 % in SIP mode) over whole years, the shown total is the rounded annuity-due sum in SIP mode and the rounded P × (1 + r/100)^years in lumpsum mode; at rate 0 the engines do not round, and the total is the invested amount (see ResultsAt) |
| Calculator.CalculatorState.SeriesTotalsIncrease | src/components/Calculator.tsx:31-53 | with a positive rate, successive rows' totals strictly increase in SIP mode (12m >= 1) and never decrease in lumpsum mode (P >= 0) |
| Calculator.CalculatorState.YearlyData | src/components/Calculator.tsx:31-53 | one row per year 1..⌊T⌋ in ascending order (none when T < 1); row k holds year k+1 and the engine's result for that year in the current mode; for a whole T >= 1 there are T rows and the last equals the shown result |
| Calculator.CalculatorState.HandleInvestmentChange | src/components/Calculator.tsx:65-78 | stores the entry clamped to the current mode's cap (empty kept empty) and changes nothing else; keeps the caps invariant |
| Calculator.CalculatorState.HandleReturnRateChange | src/components/Calculator.tsx:80-92 | stores the entry clamped to 30 (empty kept empty), changes nothing else, keeps the caps invariant |
| Calculator.CalculatorState.HandleTimePeriodChange | src/components/Calculator.tsx:94-106 | stores the entry clamped to 40 (empty kept empty), changes nothing else, keeps the caps invariant |
| Calculator.CalculatorState.SelectSip | src/components/Calculator.tsx:121-124 | switches to SIP mode; a normalised investment above 1,000,000 becomes 1,000,000, otherwise it is unchanged; afterwards it is within the SIP cap |
| Calculator.CalculatorState.SelectLumpsum | src/components/Calculator.tsx:132-135 | switches to lumpsum mode; a normalised investment below 500 (an empty one included) becomes 500, otherwise it is unchanged; afterwards it is at least 500 |

## Left out

- Rendering (JSX, the recharts pie chart, the table markup) and the `showTable` toggle: presentation only, with no behaviour to state.
- `formatCurrency`: a call into `Intl.NumberFormat`, whose locale behaviour is not visible.
- React's `useState`/`useMemo`: the state becomes fields of `CalculatorState`, and memoised values become functions recomputed on demand (`ResultsAt`, `Results`) or a method re-run on demand (`YearlyData`).
- The range sliders' own `onChange` setters (`setInvestment(Number(e.target.value))` and the two like it): they store unclamped values, and their `min`/`max`/`step` bounds are enforced by the browser, not by the code. Their setters can break `WithinCaps`; the modelled handlers preserve it.
- IEEE-754 floating point: the model computes over exact reals, so rounding errors in `Math.pow` and multiplication, overflow, and -0 are not modelled. The inputs on which the engine's result is not a finite number for reasons other than rounding are kept apart as `NotFinite` by the component (`NonFiniteInputs`), without the finite `investedAmount` JavaScript would still compute alongside. Rounding and overflow give NaN or Infinity on further inputs where the model reports a value. One case is a rate so close to 0 (say 1e-15) that `1 + rate/100`, or its twelfth root, rounds to 1: then `i` is 0 and the SIP factor is 0/0 = NaN. Another is a large negative period, such as -2000 years at -50 %: `Math.pow(0.5, -2000)` overflows to Infinity in both modes.
- Calculations.CalculateSIP: requires `expectedReturnRate >= -100`, because below that the source computes NaN, which has no real value. At exactly -100 % with a negative period it gives the total 0 where the source gives NaN; `ResultsAt` reports `NotFinite` there.
- Calculations.CalculateLumpsum: below -100 % with a period that is not whole, or at -100 % with a negative period, its total is whatever the unconstrained `pow` gives where the source gives NaN or an infinity; `ResultsAt` reports `NotFinite` there.
- `Math.pow` with a fractional exponent other than 1/12 (a fractional number of months or years), with a negative exponent, or with a negative base and a fractional exponent is left unconstrained. The closed-form identity is proved for any whole number of months (`SipFutureValueOverMonths`); the other properties are proved over whole years.
- Number parsing of the text box (`Number(e.target.value)`): the box reports either the empty string or a number, modelled by `Entry`.
