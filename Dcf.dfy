/** The discounted-cash-flow card of a stock's page (frontend/src/stocks/dcf.jsx).

    The component picks three figures from the stock's statement history
    (the latest positive capital structure, free cash flow and operating cash
    flow), keeps seven user-editable valuation parameters in its state, and on
    every render projects the operating cash flow over `project_year + 1`
    periods in two growth phases, discounts each period at the WACC, adds a
    guarded Gordon-growth terminal value and divides by the share count.

    Arithmetic is on `real`. A JavaScript result that is not a finite number
    (a division by zero, or `undefined` free cash flow reaching the terminal
    value) is `None`, and it spreads to every figure computed from it. */
module Dcf {
  import opened Wrappers
  import opened Lists

  /** A balance-sheet row; `None` is a missing (`null`) figure. */
  datatype Balance = Balance(capitalStructure: Option<real>)

  /** A cash-flow statement row. */
  datatype CashFlowStatement = CashFlowStatement(freeCashFlow: Option<real>, operatingCashFlow: Option<real>)

  /** The `stock` prop: statement rows oldest first, and the market figures. */
  datatype Stock = Stock(
    balances: seq<Balance>,
    cashes: seq<CashFlowStatement>,
    beta: real,
    taxRate: real,
    sharesOutstanding: real,
    latestClosePrice: real)

  /** The component state: the seven inputs and the selected free cash flow. */
  datatype DcfState = DcfState(
    riskFree: real,
    marketPremium: real,
    costOfDebt: real,
    growthRate: real,
    projectYear: int,
    fcf: Option<real>,
    terminalGrowthRate: real,
    capitalStructure: real)

  /** What one render computes; a `None` figure is not a finite number. */
  datatype Valuation = Valuation(
    costOfEquity: real,
    wacc: real,
    cashFlow: real,
    income: Option<real>,
    terminalValue: Option<real>,
    dcf: Option<real>,
    dcfLastPrice: Option<real>)

  // ---------------------------------------------------------------------------
  // latest positive figure
  // ---------------------------------------------------------------------------

  /** `x > 0`: a missing figure compares as not positive. */
  predicate IsPositive(x: Option<real>) {
    x.Some? && x.value > 0.0
  }

  /** `filter(reverse(xs), x => x > 0)[0]`: the first positive figure when
      the rows are read newest first. */
  function LatestPositive(xs: seq<Option<real>>): Option<real> {
    var newestFirst := Filter(Reverse(xs), IsPositive);
    if newestFirst == [] then None else newestFirst[0]
  }

  /** The newest positive figure: none exactly when no row has a positive
      figure, and otherwise that of the last row that has one. */
  lemma LatestPositiveSpec(xs: seq<Option<real>>)
    ensures LatestPositive(xs).None? <==> forall i :: 0 <= i < |xs| ==> !IsPositive(xs[i])
    ensures forall i :: LastSatisfying(xs, IsPositive, i) ==> LatestPositive(xs) == xs[i]
    ensures LatestPositive(xs).Some? ==> LatestPositive(xs).value > 0.0
  {
    FilterReverseHead(xs, IsPositive);
    if LatestPositive(xs).Some? {
      var k :| LastSatisfying(xs, IsPositive, k) && Filter(Reverse(xs), IsPositive)[0] == xs[k];
    }
    forall i | LastSatisfying(xs, IsPositive, i) ensures LatestPositive(xs) == xs[i] {
      var k :| LastSatisfying(xs, IsPositive, k) && Filter(Reverse(xs), IsPositive)[0] == xs[k];
      LastSatisfyingUnique(xs, IsPositive, i, k);
    }
  }

  function CapitalStructures(balances: seq<Balance>): (r: seq<Option<real>>)
    ensures |r| == |balances| && forall i :: 0 <= i < |r| ==> r[i] == balances[i].capitalStructure
  {
    seq(|balances|, i requires 0 <= i < |balances| => balances[i].capitalStructure)
  }

  function FreeCashFlows(cashes: seq<CashFlowStatement>): (r: seq<Option<real>>)
    ensures |r| == |cashes| && forall i :: 0 <= i < |r| ==> r[i] == cashes[i].freeCashFlow
  {
    seq(|cashes|, i requires 0 <= i < |cashes| => cashes[i].freeCashFlow)
  }

  function OperatingCashFlows(cashes: seq<CashFlowStatement>): (r: seq<Option<real>>)
    ensures |r| == |cashes| && forall i :: 0 <= i < |r| ==> r[i] == cashes[i].operatingCashFlow
  {
    seq(|cashes|, i requires 0 <= i < |cashes| => cashes[i].operatingCashFlow)
  }

  /** The constructor's capital structure: the floor of the latest positive
      figure, or 0 when there is none. */
  function CapitalStructureOf(stock: Stock): int {
    match LatestPositive(CapitalStructures(stock.balances))
    case None => 0
    case Some(v) => v.Floor
  }

  /** The constructor's free cash flow; `undefined` (`None`) when no row has
      a positive one. */
  function FreeCashFlowOf(stock: Stock): Option<real> {
    LatestPositive(FreeCashFlows(stock.cashes))
  }

  /** The render's operating cash flow, or 0 when no row has a positive one. */
  function OperatingCashFlowOf(stock: Stock): real {
    LatestPositive(OperatingCashFlows(stock.cashes)).GetOr(0.0)
  }

  /** The capital structure is the floor of the newest positive figure, or 0
      when no balance sheet has one; it is never negative. */
  lemma CapitalStructureSpec(stock: Stock)
    ensures CapitalStructureOf(stock) >= 0
    ensures (forall i :: 0 <= i < |stock.balances| ==> !IsPositive(stock.balances[i].capitalStructure))
      ==> CapitalStructureOf(stock) == 0
    ensures forall i :: LastSatisfying(CapitalStructures(stock.balances), IsPositive, i) ==>
      CapitalStructureOf(stock) == stock.balances[i].capitalStructure.value.Floor
  {
    LatestPositiveSpec(CapitalStructures(stock.balances));
  }

  /** The free cash flow is missing exactly when no statement has a positive
      one, and is otherwise the newest positive one. */
  lemma FreeCashFlowSpec(stock: Stock)
    ensures FreeCashFlowOf(stock).None? <==> forall i :: 0 <= i < |stock.cashes| ==> !IsPositive(stock.cashes[i].freeCashFlow)
    ensures forall i :: LastSatisfying(FreeCashFlows(stock.cashes), IsPositive, i) ==>
      FreeCashFlowOf(stock) == stock.cashes[i].freeCashFlow
  {
    LatestPositiveSpec(FreeCashFlows(stock.cashes));
  }

  /** The operating cash flow is the newest positive one, or 0 when no
      statement has one; it is never negative. */
  lemma OperatingCashFlowSpec(stock: Stock)
    ensures OperatingCashFlowOf(stock) >= 0.0
    ensures (forall i :: 0 <= i < |stock.cashes| ==> !IsPositive(stock.cashes[i].operatingCashFlow))
      ==> OperatingCashFlowOf(stock) == 0.0
    ensures forall i :: LastSatisfying(OperatingCashFlows(stock.cashes), IsPositive, i) ==>
      OperatingCashFlowOf(stock) == stock.cashes[i].operatingCashFlow.value
  {
    LatestPositiveSpec(OperatingCashFlows(stock.cashes));
  }

  // ---------------------------------------------------------------------------
  // rates
  // ---------------------------------------------------------------------------

  function CostOfEquity(riskFree: real, beta: real, marketPremium: real): real {
    riskFree / 100.0 + beta * marketPremium / 100.0
  }

  function DebtCost(costOfDebt: real, taxRate: real): real {
    costOfDebt / 100.0 * (1.0 - taxRate)
  }

  /** The weighted average cost of capital, `capitalStructure` being the debt
      share in percent. */
  function Wacc(costOfEquity: real, debtCost: real, capitalStructure: real): real {
    costOfEquity * (1.0 - capitalStructure / 100.0) + debtCost * capitalStructure / 100.0
  }

  /** Without debt the WACC is the cost of equity, with only debt it is the
      debt cost, and for a share between 0% and 100% it lies between the two. */
  lemma WaccWeights(coe: real, dc: real, cs: real)
    ensures cs == 0.0 ==> Wacc(coe, dc, cs) == coe
    ensures cs == 100.0 ==> Wacc(coe, dc, cs) == dc
    ensures 0.0 <= cs <= 100.0 && coe <= dc ==> coe <= Wacc(coe, dc, cs) <= dc
    ensures 0.0 <= cs <= 100.0 && dc <= coe ==> dc <= Wacc(coe, dc, cs) <= coe
  {
    var w := cs / 100.0;
    var d := dc - coe;
    assert Wacc(coe, dc, cs) == coe + d * w;
    if 0.0 <= cs <= 100.0 {
      if coe <= dc {
        MulNonNegative(d, w);
        MulNonNegative(d, 1.0 - w);
      } else {
        MulNonNegative(-d, w);
        MulNonNegative(-d, 1.0 - w);
      }
    }
  }

  lemma MulNonNegative(a: real, b: real)
    requires a >= 0.0 && b >= 0.0
    ensures a * b >= 0.0
  {
  }

  // ---------------------------------------------------------------------------
  // projection
  // ---------------------------------------------------------------------------

  /** `Math.pow(x, n)` for the exponents the loops use (0 and up). */
  function Pow(x: real, n: int): real
    decreases n
  {
    if n <= 0 then 1.0 else x * Pow(x, n - 1)
  }

  /** A power is zero exactly when the base is zero and the exponent positive. */
  lemma {:induction false} PowZero(x: real, n: int)
    ensures Pow(x, n) == 0.0 <==> x == 0.0 && n >= 1
    decreases n
  {
    if n > 0 {
      PowZero(x, n - 1);
    }
  }

  function OptAdd(a: Option<real>, b: Option<real>): Option<real> {
    if a.Some? && b.Some? then Some(a.value + b.value) else None
  }

  lemma OptAddAssociative(a: Option<real>, b: Option<real>, c: Option<real>)
    ensures OptAdd(OptAdd(a, b), c) == OptAdd(a, OptAdd(b, c))
  {
  }

  /** One period: the cash flow grown `i` times at `rate` and discounted `i`
      times at `wacc`; `None` when the discount factor is zero. */
  function Discounted(cashFlow: real, rate: real, wacc: real, i: int): Option<real> {
    var d := Pow(1.0 + wacc, i);
    if d == 0.0 then None else Some(cashFlow * Pow(1.0 + rate, i) / d)
  }

  /** The sum of the periods `lo..hi`, both included, added in that order. */
  function DiscountedSum(cashFlow: real, rate: real, wacc: real, lo: int, hi: int): Option<real>
    decreases hi - lo
  {
    if hi < lo then Some(0.0)
    else OptAdd(DiscountedSum(cashFlow, rate, wacc, lo, hi - 1), Discounted(cashFlow, rate, wacc, hi))
  }

  /** `income`: periods `0..⌊py/2⌋` grow at the full rate, periods
      `⌊py/2⌋+1..py` at half of it. */
  function Income(cashFlow: real, growthRate: real, wacc: real, projectYear: int): Option<real> {
    var half := projectYear / 2;
    OptAdd(DiscountedSum(cashFlow, growthRate / 100.0, wacc, 0, half),
           DiscountedSum(cashFlow, growthRate / 200.0, wacc, half + 1, projectYear))
  }

  /** Number of periods summed: with no growth and no discounting each
      period is worth the cash flow, so `income` is `project_year + 1` times
      it (and nothing for a negative horizon). */
  lemma IncomeCountsPeriods(cashFlow: real, projectYear: int)
    ensures Income(cashFlow, 0.0, 0.0, projectYear)
      == Some(if projectYear < 0 then 0.0 else Repeat(cashFlow, projectYear + 1))
  {
    var half := projectYear / 2;
    var next := half + 1;
    var start := 0;
    assert 0.0 / 100.0 == 0.0 && 0.0 / 200.0 == 0.0;
    var first := DiscountedSum(cashFlow, 0.0, 0.0, start, half);
    var second := DiscountedSum(cashFlow, 0.0, 0.0, next, projectYear);
    assert Income(cashFlow, 0.0, 0.0, projectYear) == OptAdd(first, second);
    if projectYear >= 0 {
      var a, b := half - start + 1, projectYear - next + 1;
      FlatSum(cashFlow, start, half);
      assert first == Some(Repeat(cashFlow, a));
      FlatSum(cashFlow, next, projectYear);
      assert second == Some(Repeat(cashFlow, b));
      var n := a + b;
      assert n == projectYear + 1;
      RepeatAdd(cashFlow, a, b);
      assert Repeat(cashFlow, a) + Repeat(cashFlow, b) == Repeat(cashFlow, n);

    } else {
      assert first == Some(0.0);
      assert second == Some(0.0);
    }
  }

  /** `k` copies of `c` added one after the other; `RepeatIsProduct` shows it
      is `k * c`. */
  function Repeat(c: real, k: nat): real {
    if k == 0 then 0.0 else Repeat(c, k - 1) + c
  }

  lemma {:induction false} RepeatAdd(c: real, a: nat, b: nat)
    ensures Repeat(c, a) + Repeat(c, b) == Repeat(c, a + b)
    decreases b
  {
    if b > 0 {
      RepeatAdd(c, a, b - 1);
    }
  }

  lemma {:induction false} RepeatIsProduct(c: real, k: nat)
    ensures Repeat(c, k) == k as real * c
    decreases k
  {
    if k > 0 {
      var j := k - 1;
      RepeatIsProduct(c, j);
      assert Repeat(c, j) == j as real * c;
      CountStep(c, j);
      assert Repeat(c, k) == Repeat(c, j) + c;
    }
  }

  lemma CountStep(c: real, j: nat)
    ensures j as real * c + c == (j + 1) as real * c
  {
  }

  /** A run of `hi - lo + 1` flat periods sums to that many cash flows. */
  lemma {:induction false} FlatSum(cashFlow: real, lo: int, hi: int)
    requires 0 <= lo <= hi + 1
    ensures DiscountedSum(cashFlow, 0.0, 0.0, lo, hi) == Some(Repeat(cashFlow, hi - lo + 1))
    decreases hi - lo
  {
    if hi >= lo {
      var h := hi - 1;
      FlatSum(cashFlow, lo, h);
      assert DiscountedSum(cashFlow, 0.0, 0.0, lo, h) == Some(Repeat(cashFlow, h - lo + 1));
      DiscountedFlat(cashFlow, hi);
      assert DiscountedSum(cashFlow, 0.0, 0.0, lo, hi)
        == OptAdd(DiscountedSum(cashFlow, 0.0, 0.0, lo, h), Discounted(cashFlow, 0.0, 0.0, hi));
    }
  }

  /** With no growth and no discounting a period is worth the cash flow. */
  lemma DiscountedFlat(cashFlow: real, i: int)
    ensures Discounted(cashFlow, 0.0, 0.0, i) == Some(cashFlow)
  {
    PowOne(i);
    var p := Pow(1.0 + 0.0, i);
    assert p == 1.0;
    assert Discounted(cashFlow, 0.0, 0.0, i).value == cashFlow * p / p;
  }

  lemma {:induction false} PowOne(n: int)
    ensures Pow(1.0, n) == 1.0
    decreases n
  {
    if n > 0 {
      PowOne(n - 1);
    }
  }

  /** The sum is undefined exactly when some period's discount factor is
      zero: a WACC of -100% with a period of 1 or more in range. */
  lemma {:induction false} DiscountedSumDefined(cashFlow: real, rate: real, wacc: real, lo: int, hi: int)
    requires lo >= 0
    ensures DiscountedSum(cashFlow, rate, wacc, lo, hi).None? <==> wacc == -1.0 && hi >= lo && hi >= 1
    decreases hi - lo
  {
    if hi >= lo {
      var h := hi - 1;
      DiscountedSumDefined(cashFlow, rate, wacc, lo, h);
      PowZero(1.0 + wacc, hi);
    }
  }

  /** Zero propagation: a zero cash flow projects to zero, unless a zero
      discount factor makes the sum undefined. */
  lemma {:induction false} DiscountedSumZero(rate: real, wacc: real, lo: int, hi: int)
    requires lo >= 0
    ensures DiscountedSum(0.0, rate, wacc, lo, hi) == if wacc == -1.0 && hi >= lo && hi >= 1 then None else Some(0.0)
    decreases hi - lo
  {
    DiscountedSumDefined(0.0, rate, wacc, lo, hi);
    if hi >= lo {
      var h := hi - 1;
      DiscountedSumZero(rate, wacc, lo, h);
    }
  }

  lemma IncomeZeroCashFlow(growthRate: real, wacc: real, projectYear: int)
    ensures Income(0.0, growthRate, wacc, projectYear) == if wacc == -1.0 && projectYear >= 1 then None else Some(0.0)
  {
    var half := projectYear / 2;
    if half + 1 >= 0 {
      DiscountedSumZero(growthRate / 100.0, wacc, 0, half);
      DiscountedSumZero(growthRate / 200.0, wacc, half + 1, projectYear);
    } else {
      DiscountedSumZero(growthRate / 100.0, wacc, 0, half);
    }
  }

  /** The two `for` loops that accumulate `income`. A zero discount factor
      makes JavaScript's `income` infinite or NaN for good; `finite` records
      that. */
  method ProjectIncome(cashFlow: real, growthRate: real, wacc: real, projectYear: int) returns (income: Option<real>)
    ensures income == Income(cashFlow, growthRate, wacc, projectYear)
  {
    var sum := 0.0;
    var finite := true;
    var half := projectYear / 2;
    // year 0 to ⌊py/2⌋ at the full growth rate
    var rate := growthRate / 100.0;
    var i := 0;
    while i <= half
      invariant 0 <= i && (i <= half + 1 || i == 0)
      invariant (if finite then Some(sum) else None) == DiscountedSum(cashFlow, rate, wacc, 0, i - 1)
    {
      var period := Discounted(cashFlow, rate, wacc, i);
      if period.None? {
        finite := false;
      } else {
        sum := sum + period.value;
      }
      assert DiscountedSum(cashFlow, rate, wacc, 0, i)
        == OptAdd(DiscountedSum(cashFlow, rate, wacc, 0, i - 1), Discounted(cashFlow, rate, wacc, i));
      i := i + 1;
    }
    ghost var first := DiscountedSum(cashFlow, rate, wacc, 0, half);
    assert (if finite then Some(sum) else None) == first;
    // the remaining years at half the growth rate
    rate := growthRate / 200.0;
    var next := half + 1;
    i := next;
    while i <= projectYear
      invariant next <= i && (i <= projectYear + 1 || i == next)
      invariant (if finite then Some(sum) else None) == OptAdd(first, DiscountedSum(cashFlow, rate, wacc, next, i - 1))
    {
      var period := Discounted(cashFlow, rate, wacc, i);
      ghost var before := DiscountedSum(cashFlow, rate, wacc, next, i - 1);
      ghost var sofar := if finite then Some(sum) else None;
      if period.None? {
        finite := false;
      } else {
        sum := sum + period.value;
      }
      assert (if finite then Some(sum) else None) == OptAdd(sofar, period);
      OptAddAssociative(first, before, period);
      assert DiscountedSum(cashFlow, rate, wacc, next, i) == OptAdd(before, period);
      i := i + 1;
    }
    assert DiscountedSum(cashFlow, rate, wacc, next, projectYear) == DiscountedSum(cashFlow, rate, wacc, next, i - 1);
    income := if finite then Some(sum) else None;
  }

  // ---------------------------------------------------------------------------
  // terminal value and per-share figures
  // ---------------------------------------------------------------------------

  /** The Gordon-growth terminal value, computed only when the WACC exceeds
      the terminal growth; an `undefined` free cash flow makes it NaN. */
  function TerminalValue(fcf: Option<real>, wacc: real, terminalGrowthRate: real): Option<real> {
    var terminal := terminalGrowthRate / 100.0;
    if wacc > terminal then Gordon(fcf, wacc, terminal) else Some(0.0)
  }

  /** `fcf * (1 + terminal) / (wacc - terminal)`. */
  function Gordon(fcf: Option<real>, wacc: real, terminal: real): Option<real> {
    if fcf.None? || wacc == terminal then None else Some(fcf.value * (1.0 + terminal) / (wacc - terminal))
  }

  /** The guard: no terminal value without a positive spread, the Gordon
      formula with one, and a positive value for a positive cash flow whose
      growth stays above -100%. */
  lemma TerminalValueGuard(fcf: Option<real>, wacc: real, tgr: real)
    ensures wacc <= tgr / 100.0 ==> TerminalValue(fcf, wacc, tgr) == Some(0.0)
    ensures wacc > tgr / 100.0 && fcf.Some? ==>
      && TerminalValue(fcf, wacc, tgr).Some?
      && TerminalValue(fcf, wacc, tgr).value * (wacc - tgr / 100.0) == fcf.value * (1.0 + tgr / 100.0)
    ensures wacc > tgr / 100.0 && fcf.None? ==> TerminalValue(fcf, wacc, tgr).None?
    ensures wacc > tgr / 100.0 && fcf.Some? && fcf.value > 0.0 && tgr > -100.0 ==>
      TerminalValue(fcf, wacc, tgr).value > 0.0
  {
    var t := tgr / 100.0;
    if wacc > t && fcf.Some? && fcf.value > 0.0 && tgr > -100.0 {
      assert fcf.value * (1.0 + t) > 0.0;
    }
  }

  /** `a / b`, not a finite number when `b` is zero or `a` is not finite. */
  function Divide(a: Option<real>, b: real): Option<real> {
    if a.None? || b == 0.0 then None else Some(a.value / b)
  }

  /** Dividing and multiplying back gives the dividend. */
  lemma DivideRoundTrip(a: Option<real>, b: real)
    ensures Divide(a, b).Some? <==> a.Some? && b != 0.0
    ensures Divide(a, b).Some? ==> Divide(a, b).value * b == a.value
  {
  }

  /** What a render shows for a stock and a state: nothing for a stock
      without balance sheets (an ETF), otherwise the whole valuation. */
  function Valuate(stock: Stock, state: DcfState): Option<Valuation> {
    if |stock.balances| == 0 then None
    else
      var coe := CostOfEquity(state.riskFree, stock.beta, state.marketPremium);
      var wacc := Wacc(coe, DebtCost(state.costOfDebt, stock.taxRate), state.capitalStructure);
      var cashFlow := OperatingCashFlowOf(stock);
      var income := Income(cashFlow, state.growthRate, wacc, state.projectYear);
      var tv := TerminalValue(state.fcf, wacc, state.terminalGrowthRate);
      var dcf := Divide(OptAdd(income, tv), stock.sharesOutstanding);
      Some(Valuation(coe, wacc, cashFlow, income, tv, dcf, Divide(dcf, stock.latestClosePrice)))
  }

  /** The per-share figures of a valuation: the intrinsic value per share is
      defined exactly when the shares outstanding are not zero and both the
      projected income and the terminal value are defined, and it is then
      their sum divided by the shares; the ratio to the last close price is
      defined exactly when that value is and the price is not zero, and
      multiplying it back by the price gives the value per share. A missing
      terminal value comes only from a missing free cash flow under the
      guard. */
  lemma ValuationPerShare(stock: Stock, state: DcfState)
    ensures Valuate(stock, state).Some? ==>
      var v := Valuate(stock, state).value;
      && (v.dcf.None? <==> stock.sharesOutstanding == 0.0 || v.income.None? || v.terminalValue.None?)
      && (v.dcf.Some? ==> v.dcf.value == (v.income.value + v.terminalValue.value) / stock.sharesOutstanding)
      && (v.dcfLastPrice.None? <==> v.dcf.None? || stock.latestClosePrice == 0.0)
      && (v.dcfLastPrice.Some? ==> v.dcfLastPrice.value * stock.latestClosePrice == v.dcf.value)
      && (v.terminalValue.None? <==> state.fcf.None? && v.wacc > state.terminalGrowthRate / 100.0)
  {
    if Valuate(stock, state).Some? {
      var v := Valuate(stock, state).value;
      TerminalValueGuard(state.fcf, v.wacc, state.terminalGrowthRate);
      DivideRoundTrip(OptAdd(v.income, v.terminalValue), stock.sharesOutstanding);
      DivideRoundTrip(v.dcf, stock.latestClosePrice);
    }
  }

  /** A stock without balance sheets (an ETF) gets no valuation. */
  lemma ValuateNotApplicable(stock: Stock, state: DcfState)
    ensures Valuate(stock, state).None? <==> |stock.balances| == 0
  {
  }

  /** The component: the stock prop and the state the inputs edit. */
  class DcfView {
    const stock: Stock
    var state: DcfState

    /** Default parameters, with the capital structure and free cash flow
        selected from the statements. */
    constructor(stock: Stock)
      ensures this.stock == stock
      ensures state == DcfState(1.242, 7.0, 10.0, 7.0, 5, FreeCashFlowOf(stock), 1.0, CapitalStructureOf(stock) as real)
    {
      this.stock := stock;
      state := DcfState(1.242, 7.0, 10.0, 7.0, 5, FreeCashFlowOf(stock), 1.0, CapitalStructureOf(stock) as real);
    }

    method RiskFreeChange(value: real)
      modifies this
      ensures state == old(state).(riskFree := value)
    {
      state := state.(riskFree := value);
    }

    method MarketPremiumChange(value: real)
      modifies this
      ensures state == old(state).(marketPremium := value)
    {
      state := state.(marketPremium := value);
    }

    method CostOfDebtChange(value: real)
      modifies this
      ensures state == old(state).(costOfDebt := value)
    {
      state := state.(costOfDebt := value);
    }

    method GrowthRateChange(value: real)
      modifies this
      ensures state == old(state).(growthRate := value)
    {
      state := state.(growthRate := value);
    }

    method CapitalStructureChange(value: real)
      modifies this
      ensures state == old(state).(capitalStructure := value)
    {
      state := state.(capitalStructure := value);
    }

    method ProjectYearChange(value: int)
      modifies this
      ensures state == old(state).(projectYear := value)
    {
      state := state.(projectYear := value);
    }

    method TerminalGrowthChange(value: real)
      modifies this
      ensures state == old(state).(terminalGrowthRate := value)
    {
      state := state.(terminalGrowthRate := value);
    }

    /** The figures of one render, computed step by step as `render` does. */
    method Render() returns (r: Option<Valuation>)
      ensures r == Valuate(stock, state)
    {
      if |stock.balances| == 0 {
        return None;
      }
      var costOfEquity := CostOfEquity(state.riskFree, stock.beta, state.marketPremium);
      var debtCost := DebtCost(state.costOfDebt, stock.taxRate);
      var wacc := Wacc(costOfEquity, debtCost, state.capitalStructure);
      var cashFlow := OperatingCashFlowOf(stock);
      var income := ProjectIncome(cashFlow, state.growthRate, wacc, state.projectYear);
      var terminalValue: Option<real> := Some(0.0);
      var terminal := state.terminalGrowthRate / 100.0;
      if wacc > terminal {
        terminalValue := Gordon(state.fcf, wacc, terminal);
      }
      var dcf := Divide(OptAdd(income, terminalValue), stock.sharesOutstanding);
      var dcfLastPrice := Divide(dcf, stock.latestClosePrice);
      r := Some(Valuation(costOfEquity, wacc, cashFlow, income, terminalValue, dcf, dcfLastPrice));
    }
  }
}
