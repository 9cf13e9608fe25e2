/** pretty_summary in utils/calculations.py: the six lines that describe a
    scenario result, in a fixed order. A line is kept as the figures it shows;
    the text around them and the number formats are not part of this model. */
module Summary {
  import opened Wrappers
  import opened Runways
  import opened Loader
  import opened Scenario
  import Decimal

  datatype Line =
    | HiresLine(hires: int, addedCost: int)
    | MarketingLine(amount: int)
    | ExpensesLine(amount: int)
    | RevenueLine(amount: int)
    | RunwayInfinite                            // the fixed "profitable, infinite runway" message
    | RunwayChange(before: Value, after: real)  // "before months → after months"
    | RunwayAfter(after: real)                  // "after months"
    | ProfitLine(amount: int)

  predicate IsRunwayLine(l: Line) {
    l.RunwayInfinite? || l.RunwayChange? || l.RunwayAfter?
  }

  /** The runway line: the fixed message exactly when the new runway is
      unbounded, so an unbounded runway is never shown as a number; otherwise
      the transition from the baseline runway when the result carries one,
      and the new months alone when it does not. */
  function RunwayLine(before: Option<Value>, after: Runway): (l: Line)
    ensures IsRunwayLine(l)
    ensures l.RunwayInfinite? <==> after.Unbounded?
    ensures l.RunwayChange? <==> after.Finite? && before.Some?
    ensures l.RunwayChange? ==> l.before == before.value && l.after == after.months
    ensures l.RunwayAfter? ==> l.after == after.months
  {
    if after.Unbounded? then RunwayInfinite
    else if before.Some? then RunwayChange(before.value, after.months)
    else RunwayAfter(after.months)
  }

  /** Builds the lines one by one: hires with their added cost, marketing,
      expenses, revenue, runway, profit, each amount cut to a whole number as
      int() does. */
  method PrettySummary(r: ScenarioResult) returns (lines: seq<Line>)
    ensures |lines| == 6
    ensures lines[0] == HiresLine(Decimal.Trunc(r.newHires), Decimal.Trunc(r.hireCostChange))
    ensures lines[1] == MarketingLine(Decimal.Trunc(r.newMonthlyMarketing))
    ensures lines[2] == ExpensesLine(Decimal.Trunc(r.newExpenses))
    ensures lines[3] == RevenueLine(Decimal.Trunc(r.newRevenue))
    ensures lines[4] == RunwayLine(r.baseline.runway, r.newRunway)
    ensures lines[5] == ProfitLine(Decimal.Trunc(r.newProfit))
    ensures forall i :: 0 <= i < |lines| ==> (IsRunwayLine(lines[i]) <==> i == 4)
  {
    var oldRunway := r.baseline.runway;
    lines := [];
    lines := lines + [HiresLine(Decimal.Trunc(r.newHires), Decimal.Trunc(r.hireCostChange))];
    lines := lines + [MarketingLine(Decimal.Trunc(r.newMonthlyMarketing))];
    lines := lines + [ExpensesLine(Decimal.Trunc(r.newExpenses))];
    lines := lines + [RevenueLine(Decimal.Trunc(r.newRevenue))];
    if r.newRunway.Unbounded? {
      lines := lines + [RunwayInfinite];
    } else if oldRunway.Some? {
      lines := lines + [RunwayChange(oldRunway.value, r.newRunway.months)];
    } else {
      lines := lines + [RunwayAfter(r.newRunway.months)];
    }
    lines := lines + [ProfitLine(Decimal.Trunc(r.newProfit))];
  }

  /** For a simulated scenario the summary shows the profitability message
      exactly when the scenario does not lose money, and a finite runway line
      otherwise. */
  lemma ProfitableSummary(f: Finances, addHires: real, deltaMarketing: real, priceChangePct: real)
    requires CanSimulate(f, addHires, deltaMarketing, priceChangePct)
    ensures var r := SimulateScenario(f, addHires, deltaMarketing, priceChangePct);
      (RunwayLine(r.baseline.runway, r.newRunway) == RunwayInfinite <==> r.newProfit >= 0.0)
      && (r.newProfit < 0.0 ==> RunwayLine(r.baseline.runway, r.newRunway).after * -r.newProfit
                                == Amount(f, "cash"))
  {
  }
}
