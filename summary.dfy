/** `process_matched_data`: attach variance and status to every matched row and tally, per status, the
    number of rows and their stock value. */
module Summary {
  import opened Wrappers
  import opened Seqs
  import opened Matching
  import opened Variance

  /** A matched row with its variance and status. */
  datatype ProcessedItem = ProcessedItem(
    partNo: string, description: string, currentQty: real, rmQty: real,
    variancePercent: real, varianceValue: real, status: Status, stockValue: int,
    vendorCode: string, vendorName: string, city: string, state: string)

  /** One row of the processing loop: every field of `m` is carried over, the variance is that of the
      current quantity against the target, and the status is derived from that variance. */
  function Process(m: MatchedItem, tolerance: real): (p: ProcessedItem)
    ensures p.status == DetermineStatus(p.variancePercent, tolerance)
    ensures p.variancePercent == CalculateVariance(m.currentQty, m.rmQty).percent
    ensures p.varianceValue == CalculateVariance(m.currentQty, m.rmQty).value
    ensures m.rmQty == 0.0 ==> p.variancePercent == 0.0 && p.varianceValue == 0.0
    ensures m.rmQty != 0.0 ==> p.varianceValue == m.currentQty - m.rmQty && p.variancePercent * m.rmQty == p.varianceValue * 100.0
    ensures p.partNo == m.partNo && p.description == m.description
    ensures p.currentQty == m.currentQty && p.rmQty == m.rmQty && p.stockValue == m.stockValue
    ensures p.vendorCode == m.vendorCode && p.vendorName == m.vendorName && p.city == m.city && p.state == m.state
  {
    var d := CalculateVariance(m.currentQty, m.rmQty);
    ProcessedItem(m.partNo, m.description, m.currentQty, m.rmQty, d.percent, d.value,
                  DetermineStatus(d.percent, tolerance), m.stockValue,
                  m.vendorCode, m.vendorName, m.city, m.state)
  }

  function ProcessAll(matched: seq<MatchedItem>, tolerance: real): (ps: seq<ProcessedItem>)
    ensures |ps| == |matched|
    ensures forall i :: 0 <= i < |matched| ==> ps[i] == Process(matched[i], tolerance)
  {
    seq(|matched|, i requires 0 <= i < |matched| => Process(matched[i], tolerance))
  }

  /** Row count and summed stock value for one status. */
  datatype Bucket = Bucket(count: nat, value: int)

  /** `summary_data`: a dictionary whose three keys are fixed from the start. */
  datatype Tally = Tally(within: Bucket, excess: Bucket, short: Bucket) {
    function Get(s: Status): Bucket {
      match s
      case WithinNorms => within
      case Excess => excess
      case Short => short
    }

    /** Count one more row of status `s` worth `value`. */
    function Add(s: Status, value: int): (t: Tally)
      ensures t.Get(s) == Bucket(Get(s).count + 1, Get(s).value + value)
      ensures forall o :: o != s ==> t.Get(o) == Get(o)
    {
      var b := Bucket(Get(s).count + 1, Get(s).value + value);
      match s
      case WithinNorms => this.(within := b)
      case Excess => this.(excess := b)
      case Short => this.(short := b)
    }
  }

  const EmptyTally := Tally(Bucket(0, 0), Bucket(0, 0), Bucket(0, 0))

  /** The tally after adding every processed row in turn. */
  function TallyOf(ps: seq<ProcessedItem>): Tally
    decreases |ps|
  {
    if ps == [] then EmptyTally
    else
      var p := ps[|ps| - 1];
      TallyOf(ps[..|ps| - 1]).Add(p.status, p.stockValue)
  }

  method ProcessMatchedData(matched: seq<MatchedItem>, tolerance: real)
    returns (processed: seq<ProcessedItem>, summary: Tally)
    ensures processed == ProcessAll(matched, tolerance)
    ensures summary == TallyOf(processed)
  {
    processed, summary := [], EmptyTally;
    var i := 0;
    while i < |matched|
      invariant 0 <= i <= |matched|
      invariant processed == ProcessAll(matched[..i], tolerance)
      invariant summary == TallyOf(processed)
    {
      var item := Process(matched[i], tolerance);
      processed := processed + [item];
      summary := summary.Add(item.status, item.stockValue);
      assert processed[..|processed| - 1] == ProcessAll(matched[..i], tolerance);
      i := i + 1;
    }
    assert matched[..i] == matched;
  }

  // ---------------------------------------------------------------- reference definitions

  function HasStatus(s: Status): ProcessedItem -> Option<ProcessedItem> {
    (p: ProcessedItem) => if p.status == s then Some(p) else None
  }

  /** The processed rows with status `s`, in order. */
  function WithStatus(ps: seq<ProcessedItem>, s: Status): seq<ProcessedItem> {
    FilterMap(ps, HasStatus(s))
  }

  function StockTotal(ps: seq<ProcessedItem>): int
    decreases |ps|
  {
    if ps == [] then 0 else StockTotal(ps[..|ps| - 1]) + ps[|ps| - 1].stockValue
  }

  lemma StockTotalSnoc(ps: seq<ProcessedItem>, p: ProcessedItem)
    ensures StockTotal(ps + [p]) == StockTotal(ps) + p.stockValue
  {
    assert (ps + [p])[..|ps|] == ps;
  }

  /** Each status's bucket counts exactly the rows with that status and sums exactly their stock value. */
  lemma {:induction false} TallyIsFilter(ps: seq<ProcessedItem>, s: Status)
    ensures TallyOf(ps).Get(s) == Bucket(|WithStatus(ps, s)|, StockTotal(WithStatus(ps, s)))
    decreases |ps|
  {
    if ps != [] {
      var n := |ps| - 1;
      TallyTotalsStep(ps, s);
      TallyIsFilter(ps[..n], s);
      if ps[n].status == s {
        StockTotalSnoc(WithStatus(ps[..n], s), ps[n]);
      }
    }
  }

  lemma TallyTotalsStep(ps: seq<ProcessedItem>, s: Status)
    requires ps != []
    ensures WithStatus(ps, s) == WithStatus(ps[..|ps| - 1], s) + (if ps[|ps| - 1].status == s then [ps[|ps| - 1]] else [])
  {
    FilterMapStep(ps, |ps| - 1, HasStatus(s));
    assert ps[..|ps|] == ps;
  }

  /** The three buckets together count every processed row once and sum the stock value of them all. */
  lemma {:induction false} TallyTotals(ps: seq<ProcessedItem>)
    ensures var t := TallyOf(ps);
            && t.within.count + t.excess.count + t.short.count == |ps|
            && t.within.value + t.excess.value + t.short.value == StockTotal(ps)
    decreases |ps|
  {
    if ps != [] {
      TallyTotals(ps[..|ps| - 1]);
    }
  }
}
