/** Runway: how many months the cash lasts at a given net monthly burn
    (compute_runway in utils/calculations.py). Python returns float('inf') for
    a burn that is not positive; here that case is its own variant, so it can
    never be used as a number. */
module Runways {

  datatype Runway = Finite(months: real) | Unbounded

  /** Unbounded exactly when the burn is zero or negative; otherwise the months m for which
      m monthly burns use up the cash. */
  function ComputeRunway(cash: real, burn: real): (r: Runway)
    ensures r.Unbounded? <==> burn <= 0.0
    ensures r.Finite? ==> r.months * burn == cash
    ensures r.Finite? && cash >= 0.0 ==> r.months >= 0.0
  {
    if burn <= 0.0 then Unbounded else Finite(cash / burn)
  }

  /** Runway a ends no later than runway b. */
  predicate NoLonger(a: Runway, b: Runway) {
    match (a, b)
    case (_, Unbounded) => true
    case (Unbounded, Finite(_)) => false
    case (Finite(x), Finite(y)) => x <= y
  }

  /** With cash on hand, burning more never makes the runway longer. */
  lemma MoreBurnNoLonger(cash: real, burn: real, burn': real)
    requires cash >= 0.0 && burn <= burn'
    ensures NoLonger(ComputeRunway(cash, burn'), ComputeRunway(cash, burn))
  {
  }

  /** At the same burn, more cash never makes the runway shorter. */
  lemma MoreCashNoShorter(cash: real, cash': real, burn: real)
    requires cash <= cash'
    ensures NoLonger(ComputeRunway(cash, burn), ComputeRunway(cash', burn))
  {
  }
}
