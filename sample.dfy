/** Worked cases: the first row of the built-in sample data, a case-insensitive match, and a two-part
    end-to-end run through matching, processing and the status tally. */
module Sample {
  import opened Wrappers
  import opened Text
  import opened Seqs
  import opened Standardize
  import opened Matching
  import opened Variance
  import opened Summary

  /** Sample part AC0303020106: target 4, current 5.23, so 30.75 % over target, excess at a 30 % tolerance. */
  lemma SampleRowIsExcess()
    ensures CalculateVariance(5.23, 4.0) == Deviation(30.75, 1.23)
    ensures DetermineStatus(30.75, 30.0) == Excess
    ensures DetermineStatus(30.75, 31.0) == WithinNorms
  {
  }

  /** Part numbers and descriptions are compared upper-cased: "a1"/"widget" finds "A1"/"Widget" by its
      exact key, and 12 against a target of 10 is 20 % over. */
  lemma CaseInsensitiveMatch()
    ensures var pfep := [PfepItem("A1", "Widget", 10.0, "V1", "Vendor", "", "")];
            var c := CurrentItem("a1", "widget", 12.0, 100);
            && MatchFor(pfep, c) == Some(pfep[0])
            && Process(MatchedRow(c, pfep[0]), 0.0).variancePercent == 20.0
  {
    var pfep := [PfepItem("A1", "Widget", 10.0, "V1", "Vendor", "", "")];
    var c := CurrentItem("a1", "widget", 12.0, 100);
    assert Upper("a1") == "A1" && Upper("A1") == "A1";
    assert Upper("widget") == "WIDGET" && Upper("Widget") == "WIDGET";
    ExactHitWins(pfep, c, 0);
  }

  /** Two parts, both above target at a 30 % tolerance: the tally holds two excess rows worth 496 + 1984. */
  lemma EndToEnd()
    ensures var pfep := [PfepItem("A", "", 4.0, "", "", "", ""), PfepItem("B", "", 6.0, "", "", "", "")];
            var current := [CurrentItem("A", "", 5.23, 496), CurrentItem("B", "", 8.36, 1984)];
            var processed := ProcessAll(FilterMap(current, MatchedRowOf(pfep)), 30.0);
            && |processed| == 2
            && processed[0].status == Excess && processed[1].status == Excess
            && TallyOf(processed) == Tally(Bucket(0, 0), Bucket(2, 2480), Bucket(0, 0))
  {
    var pfep := [PfepItem("A", "", 4.0, "", "", "", ""), PfepItem("B", "", 6.0, "", "", "", "")];
    var current := [CurrentItem("A", "", 5.23, 496), CurrentItem("B", "", 8.36, 1984)];
    assert Upper("A") == "A" && Upper("B") == "B" && Upper("") == "";
    ExactHitWins(pfep, current[0], 0);
    ExactHitWins(pfep, current[1], 1);
    FilterMapStep(current, 0, MatchedRowOf(pfep));
    FilterMapStep(current, 1, MatchedRowOf(pfep));
    assert current[..2] == current;
    var m := FilterMap(current, MatchedRowOf(pfep));
    assert m == [MatchedRow(current[0], pfep[0]), MatchedRow(current[1], pfep[1])];
    var processed := ProcessAll(m, 30.0);
    assert processed[0].status == Excess && processed[1].status == Excess;
    assert processed[..1][..0] == [];
    assert TallyOf(processed[..1]) == Tally(Bucket(0, 0), Bucket(1, 496), Bucket(0, 0));
  }
}
