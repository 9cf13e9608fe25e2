/** simulate_scenario in utils/calculations.py: applies a what-if (extra hires,
    a change of monthly marketing spend, a percentage price change) to a loaded
    baseline by straight-line arithmetic, and returns the new figures together
    with a snapshot of the baseline they came from. */
module Scenario {
  import opened Wrappers
  import opened Runways
  import opened Loader
  import Decimal

  /** The baseline values the result carries for before/after comparison,
      copied from the input as they are; the runway is None when the input has none. */
  datatype Snapshot = Snapshot(cash: Value, monthlyBurn: Value, revenue: Value, expenses: Value,
                               runway: Option<Value>)

  datatype ScenarioResult = ScenarioResult(
    newHires: real,
    hireCostChange: real,
    newMonthlyMarketing: real,
    newExpenses: real,
    newPrice: real,
    newRevenue: real,
    newMonthlyBurn: real,
    newRunway: Runway,
    newProfit: real,
    baseline: Snapshot)

  predicate IsNum(f: Finances, k: string) {
    k in f && f[k].Num?
  }

  /** All nine required fields are present (Python reads each one, raising
      KeyError otherwise) and the six that enter the arithmetic are numbers. */
  predicate Numeric(f: Finances) {
    && "cash" in f && "monthly_burn" in f && "revenue" in f
    && IsNum(f, "expenses") && IsNum(f, "monthly_marketing") && IsNum(f, "current_hires")
    && IsNum(f, "avg_cost_per_hire") && IsNum(f, "baseline_price") && IsNum(f, "units_sold")
  }

  function Amount(f: Finances, k: string): real
    requires IsNum(f, k)
  {
    f[k].n
  }

  /** int(add_hires) times the cost of one hire. */
  function HireCostChange(f: Finances, addHires: real): real
    requires Numeric(f)
  {
    Decimal.Trunc(addHires) as real * Amount(f, "avg_cost_per_hire")
  }

  /** Baseline expenses plus the hires' cost plus the marketing change. */
  function NewExpenses(f: Finances, addHires: real, deltaMarketing: real): real
    requires Numeric(f)
  {
    Amount(f, "expenses") + HireCostChange(f, addHires) + deltaMarketing
  }

  function NewPrice(f: Finances, priceChangePct: real): real
    requires Numeric(f)
  {
    Amount(f, "baseline_price") * (1.0 + priceChangePct / 100.0)
  }

  /** Units sold are held constant: only the price moves the revenue. */
  function NewRevenue(f: Finances, priceChangePct: real): real
    requires Numeric(f)
  {
    NewPrice(f, priceChangePct) * Amount(f, "units_sold")
  }

  function NewMonthlyBurn(f: Finances, addHires: real, deltaMarketing: real, priceChangePct: real): real
    requires Numeric(f)
  {
    NewExpenses(f, addHires, deltaMarketing) - NewRevenue(f, priceChangePct)
  }

  /** What simulate_scenario needs to run without raising: the cash is divided
      only when the new burn is positive, so only then must it be a number. */
  predicate CanSimulate(f: Finances, addHires: real, deltaMarketing: real, priceChangePct: real) {
    Numeric(f) && (NewMonthlyBurn(f, addHires, deltaMarketing, priceChangePct) > 0.0 ==> IsNum(f, "cash"))
  }

  /** The what-if. The added hires are int(addHires); their cost is that many
      times the cost of one hire; the marketing change enters the marketing
      line and the expenses alike; the price scales by the percentage and the
      revenue with it; burn is expenses less revenue and profit its negation;
      the runway is unbounded exactly when the scenario is not losing money,
      and otherwise lasts cash / burn months; the snapshot is the input's. */
  function SimulateScenario(f: Finances, addHires: real, deltaMarketing: real, priceChangePct: real)
    : (r: ScenarioResult)
    requires CanSimulate(f, addHires, deltaMarketing, priceChangePct)
    ensures r.newHires - Amount(f, "current_hires") == Decimal.Trunc(addHires) as real
    ensures r.hireCostChange == (r.newHires - Amount(f, "current_hires")) * Amount(f, "avg_cost_per_hire")
    ensures r.newMonthlyMarketing - Amount(f, "monthly_marketing") == deltaMarketing
    ensures r.newExpenses - Amount(f, "expenses")
            == r.hireCostChange + (r.newMonthlyMarketing - Amount(f, "monthly_marketing"))
    ensures r.newPrice * 100.0 == Amount(f, "baseline_price") * (100.0 + priceChangePct)
    ensures r.newRevenue == r.newPrice * Amount(f, "units_sold")
    ensures r.newMonthlyBurn == r.newExpenses - r.newRevenue
    ensures r.newProfit == -r.newMonthlyBurn
    ensures r.newRunway.Unbounded? <==> r.newProfit >= 0.0
    ensures r.newRunway.Finite? ==> IsNum(f, "cash") && r.newRunway.months * r.newMonthlyBurn == Amount(f, "cash")
    ensures r.baseline.cash == f["cash"] && r.baseline.monthlyBurn == f["monthly_burn"]
    ensures r.baseline.revenue == f["revenue"] && r.baseline.expenses == f["expenses"]
    ensures r.baseline.runway == if "runway" in f then Some(f["runway"]) else None
  {
    var hires := Decimal.Trunc(addHires);
    var newExpenses := NewExpenses(f, addHires, deltaMarketing);
    var newRevenue := NewRevenue(f, priceChangePct);
    var newMonthlyBurn := newExpenses - newRevenue;
    ScenarioResult(
      newHires := Amount(f, "current_hires") + hires as real,
      hireCostChange := HireCostChange(f, addHires),
      newMonthlyMarketing := Amount(f, "monthly_marketing") + deltaMarketing,
      newExpenses := newExpenses,
      newPrice := NewPrice(f, priceChangePct),
      newRevenue := newRevenue,
      newMonthlyBurn := newMonthlyBurn,
      newRunway := if newMonthlyBurn > 0.0 then ComputeRunway(Amount(f, "cash"), newMonthlyBurn) else Unbounded,
      newProfit := newRevenue - newExpenses,
      baseline := Snapshot(f["cash"], f["monthly_burn"], f["revenue"], f["expenses"],
                           if "runway" in f then Some(f["runway"]) else None))
  }

  /** The guard in front of the runway changes nothing: the new runway is
      compute_runway of the cash at the new burn. */
  lemma NewRunwayIsComputeRunway(f: Finances, addHires: real, deltaMarketing: real, priceChangePct: real)
    requires CanSimulate(f, addHires, deltaMarketing, priceChangePct)
    ensures var r := SimulateScenario(f, addHires, deltaMarketing, priceChangePct);
      r.newRunway == ComputeRunway(if IsNum(f, "cash") then Amount(f, "cash") else 0.0, r.newMonthlyBurn)
  {
  }

  /** With no change at all the scenario reproduces the baseline's hires,
      marketing and expenses, and prices the baseline units at the baseline price. */
  lemma ZeroDeltaScenario(f: Finances)
    requires CanSimulate(f, 0.0, 0.0, 0.0)
    ensures var r := SimulateScenario(f, 0.0, 0.0, 0.0);
      && r.hireCostChange == 0.0
      && r.newHires == Amount(f, "current_hires")
      && r.newMonthlyMarketing == Amount(f, "monthly_marketing")
      && r.newExpenses == Amount(f, "expenses")
      && r.newPrice == Amount(f, "baseline_price")
      && r.newRevenue == Amount(f, "baseline_price") * Amount(f, "units_sold")
  {
  }

  /** When the baseline's burn is its expenses less price times units and its
      runway was computed from that burn (as the loader does), doing nothing
      gives back the baseline burn and the baseline runway. */
  lemma ZeroDeltaKeepsConsistentRunway(f: Finances)
    requires Numeric(f) && IsNum(f, "cash") && IsNum(f, "monthly_burn")
    requires Amount(f, "monthly_burn")
             == Amount(f, "expenses") - Amount(f, "baseline_price") * Amount(f, "units_sold")
    requires "runway" in f && f["runway"] == Months(ComputeRunway(Amount(f, "cash"), Amount(f, "monthly_burn")))
    ensures var r := SimulateScenario(f, 0.0, 0.0, 0.0);
      r.newMonthlyBurn == Amount(f, "monthly_burn") && r.baseline.runway == Some(Months(r.newRunway))
  {
  }

  /** Only whole hires count: a fractional number of hires acts as its truncation. */
  lemma FractionalHiresTruncated(f: Finances, addHires: real, deltaMarketing: real, priceChangePct: real)
    requires CanSimulate(f, addHires, deltaMarketing, priceChangePct)
    ensures CanSimulate(f, Decimal.Trunc(addHires) as real, deltaMarketing, priceChangePct)
    ensures SimulateScenario(f, addHires, deltaMarketing, priceChangePct)
            == SimulateScenario(f, Decimal.Trunc(addHires) as real, deltaMarketing, priceChangePct)
  {
  }

  /** The three levers act independently on the burn: each hire adds its cost,
      marketing adds one for one, and each price point removes a hundredth of
      the baseline sales. */
  lemma BurnDecomposes(f: Finances, addHires: real, deltaMarketing: real, priceChangePct: real)
    requires Numeric(f)
    ensures NewMonthlyBurn(f, addHires, deltaMarketing, priceChangePct)
            == NewMonthlyBurn(f, 0.0, 0.0, 0.0) + HireCostChange(f, addHires) + deltaMarketing
               - Amount(f, "baseline_price") * Amount(f, "units_sold") * priceChangePct / 100.0
  {
  }

  /** Hiring more at a non-negative cost per hire never lengthens the runway. */
  lemma MoreHiresNoLonger(f: Finances, addHires: real, addHires': real, deltaMarketing: real, priceChangePct: real)
    requires Numeric(f) && IsNum(f, "cash") && Amount(f, "cash") >= 0.0
    requires Amount(f, "avg_cost_per_hire") >= 0.0 && addHires <= addHires'
    ensures var r, r' := SimulateScenario(f, addHires, deltaMarketing, priceChangePct),
                         SimulateScenario(f, addHires', deltaMarketing, priceChangePct);
      r.newExpenses <= r'.newExpenses && NoLonger(r'.newRunway, r.newRunway)
  {
    Decimal.TruncMonotone(addHires, addHires');
    var c := Amount(f, "avg_cost_per_hire");
    var n, n' := Decimal.Trunc(addHires) as real, Decimal.Trunc(addHires') as real;
    assert n * c <= n' * c by {
      assert (n' - n) * c >= 0.0;
    }
    NewRunwayIsComputeRunway(f, addHires, deltaMarketing, priceChangePct);
    NewRunwayIsComputeRunway(f, addHires', deltaMarketing, priceChangePct);
    MoreBurnNoLonger(Amount(f, "cash"), NewMonthlyBurn(f, addHires, deltaMarketing, priceChangePct),
      NewMonthlyBurn(f, addHires', deltaMarketing, priceChangePct));
  }

  /** With non-negative cash, spending more on marketing raises expenses one for
      one and never lengthens the runway. */
  lemma MoreMarketingNoLonger(f: Finances, addHires: real, deltaMarketing: real, deltaMarketing': real, priceChangePct: real)
    requires Numeric(f) && IsNum(f, "cash") && Amount(f, "cash") >= 0.0
    requires deltaMarketing <= deltaMarketing'
    ensures var r, r' := SimulateScenario(f, addHires, deltaMarketing, priceChangePct),
                         SimulateScenario(f, addHires, deltaMarketing', priceChangePct);
      r'.newExpenses - r.newExpenses == deltaMarketing' - deltaMarketing && NoLonger(r'.newRunway, r.newRunway)
  {
    NewRunwayIsComputeRunway(f, addHires, deltaMarketing, priceChangePct);
    NewRunwayIsComputeRunway(f, addHires, deltaMarketing', priceChangePct);
    MoreBurnNoLonger(Amount(f, "cash"), NewMonthlyBurn(f, addHires, deltaMarketing, priceChangePct),
      NewMonthlyBurn(f, addHires, deltaMarketing', priceChangePct));
  }

  /** With non-negative cash, price and units sold, raising the price never
      lowers the revenue and never shortens the runway. */
  lemma HigherPriceNoShorter(f: Finances, addHires: real, deltaMarketing: real, priceChangePct: real, priceChangePct': real)
    requires Numeric(f) && IsNum(f, "cash") && Amount(f, "cash") >= 0.0
    requires Amount(f, "baseline_price") >= 0.0 && Amount(f, "units_sold") >= 0.0
    requires priceChangePct <= priceChangePct'
    ensures var r, r' := SimulateScenario(f, addHires, deltaMarketing, priceChangePct),
                         SimulateScenario(f, addHires, deltaMarketing, priceChangePct');
      r.newRevenue <= r'.newRevenue && NoLonger(r.newRunway, r'.newRunway)
  {
    var p, u := Amount(f, "baseline_price"), Amount(f, "units_sold");
    BurnDecomposes(f, addHires, deltaMarketing, priceChangePct);
    BurnDecomposes(f, addHires, deltaMarketing, priceChangePct');
    var pu := p * u;
    assert pu >= 0.0;
    assert pu * priceChangePct / 100.0 <= pu * priceChangePct' / 100.0 by {
      assert pu * (priceChangePct' - priceChangePct) >= 0.0;
    }
    assert NewRevenue(f, priceChangePct) == p * u + p * u * priceChangePct / 100.0 by {
      assert p * (1.0 + priceChangePct / 100.0) * u == p * u + p * u * (priceChangePct / 100.0);
    }
    assert NewRevenue(f, priceChangePct') == p * u + p * u * priceChangePct' / 100.0 by {
      assert p * (1.0 + priceChangePct' / 100.0) * u == p * u + p * u * (priceChangePct' / 100.0);
    }
    NewRunwayIsComputeRunway(f, addHires, deltaMarketing, priceChangePct);
    NewRunwayIsComputeRunway(f, addHires, deltaMarketing, priceChangePct');
    MoreBurnNoLonger(Amount(f, "cash"), NewMonthlyBurn(f, addHires, deltaMarketing, priceChangePct'),
      NewMonthlyBurn(f, addHires, deltaMarketing, priceChangePct));
  }

  /** The baseline of the worked example: 100000 in cash, burning 20000 a month. */
  function ExampleBaseline(): (f: Finances)
    ensures Numeric(f) && IsNum(f, "cash")
  {
    map["cash" := Num(100000.0), "monthly_burn" := Num(20000.0), "revenue" := Num(50000.0),
        "expenses" := Num(70000.0), "monthly_marketing" := Num(10000.0), "current_hires" := Num(5.0),
        "avg_cost_per_hire" := Num(2000.0), "baseline_price" := Num(100.0), "units_sold" := Num(500.0),
        "runway" := Months(ComputeRunway(100000.0, 20000.0))]
  }

  /** Two hires, 5000 more marketing and a 10% price rise on the example
      baseline: 79000 expenses against 55000 revenue, a burn of 24000 and
      100000 / 24000 months of runway instead of 5. */
  lemma WorkedExample()
    ensures ComputeRunway(100000.0, 20000.0) == Finite(5.0)
    ensures var r := SimulateScenario(ExampleBaseline(), 2.0, 5000.0, 10.0);
      && r.hireCostChange == 4000.0 && r.newHires == 7.0 && r.newMonthlyMarketing == 15000.0
      && r.newExpenses == 79000.0 && r.newPrice == 110.0 && r.newRevenue == 55000.0
      && r.newMonthlyBurn == 24000.0 && r.newRunway == Finite(100000.0 / 24000.0)
      && r.newProfit == -24000.0 && r.baseline.runway == Some(Months(Finite(5.0)))
  {
  }
}
