/** `calculate_variance` and `determine_status`: how far the current quantity is from the PFEP target,
    and the three-way classification against a tolerance given in percent. */
module Variance {

  /** The three labels the analyzer assigns: "Within Norms", "Excess Inventory" and "Short Inventory". */
  datatype Status = WithinNorms | Excess | Short

  /** Variance in percent of the target, and the absolute difference. */
  datatype Deviation = Deviation(percent: real, value: real)

  function Abs(x: real): real {
    if x < 0.0 then -x else x
  }

  /** With a zero target both parts are zero; otherwise `value` is current minus target and `percent` is
      that difference as a percentage of the target. */
  function CalculateVariance(currentQty: real, rmQty: real): (d: Deviation)
    ensures rmQty == 0.0 ==> d == Deviation(0.0, 0.0)
    ensures rmQty != 0.0 ==> d.value + rmQty == currentQty && d.percent * rmQty == d.value * 100.0
  {
    if rmQty == 0.0 then Deviation(0.0, 0.0)
    else Deviation((currentQty - rmQty) / rmQty * 100.0, currentQty - rmQty)
  }

  /** Within norms on the closed band [-tolerance, tolerance]; excess above the tolerance; short otherwise. */
  function DetermineStatus(percent: real, tolerance: real): (s: Status)
    ensures s == WithinNorms <==> -tolerance <= percent <= tolerance
    ensures s == Excess <==> percent > tolerance
    ensures s == Short <==> percent < -tolerance && percent <= tolerance
  {
    if Abs(percent) <= tolerance then WithinNorms
    else if percent > tolerance then Excess
    else Short
  }

  /** For a non-negative tolerance the three labels split the line at -tolerance and tolerance, both
      boundaries counting as within norms. */
  lemma StatusBands(percent: real, tolerance: real)
    requires tolerance >= 0.0
    ensures DetermineStatus(percent, tolerance) == Short <==> percent < -tolerance
    ensures DetermineStatus(percent, tolerance) == Excess <==> percent > tolerance
    ensures DetermineStatus(tolerance, tolerance) == WithinNorms
    ensures DetermineStatus(-tolerance, tolerance) == WithinNorms
  {
  }

  /** A negative tolerance leaves no band: every percentage is excess or short. */
  lemma NegativeToleranceNoBand(percent: real, tolerance: real)
    requires tolerance < 0.0
    ensures DetermineStatus(percent, tolerance) != WithinNorms
    ensures DetermineStatus(percent, tolerance) == Short <==> percent <= tolerance
  {
  }

  /** Widening the tolerance never takes an item out of norms. */
  lemma WiderToleranceKeepsNorms(percent: real, t1: real, t2: real)
    requires t1 <= t2 && DetermineStatus(percent, t1) == WithinNorms
    ensures DetermineStatus(percent, t2) == WithinNorms
  {
  }

  /** Holding exactly the target is within norms for any non-negative tolerance, and so is a zero target. */
  lemma OnTargetWithinNorms(qty: real, rmQty: real, tolerance: real)
    requires tolerance >= 0.0
    requires qty == rmQty || rmQty == 0.0
    ensures CalculateVariance(qty, rmQty).percent == 0.0
    ensures DetermineStatus(CalculateVariance(qty, rmQty).percent, tolerance) == WithinNorms
  {
  }

  /** For a positive target, the status is decided by the current quantity against the target scaled by
      one plus or minus the tolerance. */
  lemma {:induction false} StatusByQuantity(qty: real, rmQty: real, tolerance: real)
    requires rmQty > 0.0
    ensures var s := DetermineStatus(CalculateVariance(qty, rmQty).percent, tolerance);
            && (s == Excess <==> qty * 100.0 > rmQty * (100.0 + tolerance))
            && (s == Short <==> qty * 100.0 < rmQty * (100.0 - tolerance) && qty * 100.0 <= rmQty * (100.0 + tolerance))
  {
    var d := CalculateVariance(qty, rmQty);
    assert d.percent * rmQty == (qty - rmQty) * 100.0;
    assert d.percent > tolerance <==> d.percent * rmQty > tolerance * rmQty;
    assert d.percent < -tolerance <==> d.percent * rmQty < -tolerance * rmQty;
    assert d.percent <= tolerance <==> d.percent * rmQty <= tolerance * rmQty;
  }
}
