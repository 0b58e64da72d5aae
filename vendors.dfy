/** `get_vendor_summary`: one row per vendor name, holding the vendor's code and location (taken from its
    first processed row) and running totals of parts, quantities and stock value, split by status. */
module Vendors {
  import opened Wrappers
  import opened Seqs
  import opened Variance
  import opened Summary

  datatype VendorEntry = VendorEntry(
    vendorCode: string, city: string, state: string,
    totalParts: nat, totalCurrentQty: real, totalRmQty: real, totalValue: int,
    shortParts: nat, excessParts: nat, normalParts: nat,
    shortValue: int, excessValue: int, normalValue: int)

  /** The row created when a vendor is first seen: header from `p`, every total zero. */
  function NewEntry(p: ProcessedItem): VendorEntry {
    VendorEntry(p.vendorCode, p.city, p.state, 0, 0.0, 0.0, 0, 0, 0, 0, 0, 0, 0)
  }

  /** Add one processed row to a vendor's totals; a row neither short nor excess counts as normal. */
  function AddToEntry(e: VendorEntry, p: ProcessedItem): VendorEntry {
    var e1 := e.(totalParts := e.totalParts + 1, totalCurrentQty := e.totalCurrentQty + p.currentQty,
                 totalRmQty := e.totalRmQty + p.rmQty, totalValue := e.totalValue + p.stockValue);
    if p.status == Short then e1.(shortParts := e1.shortParts + 1, shortValue := e1.shortValue + p.stockValue)
    else if p.status == Excess then e1.(excessParts := e1.excessParts + 1, excessValue := e1.excessValue + p.stockValue)
    else e1.(normalParts := e1.normalParts + 1, normalValue := e1.normalValue + p.stockValue)
  }

  /** `vendor_summary`, a Python dict keyed by vendor name: `order` lists the names by first appearance. */
  datatype VendorTable = VendorTable(order: seq<string>, entries: map<string, VendorEntry>)

  function Record(t: VendorTable, p: ProcessedItem): VendorTable {
    var name := p.vendorName;
    if name in t.entries then VendorTable(t.order, t.entries[name := AddToEntry(t.entries[name], p)])
    else VendorTable(t.order + [name], t.entries[name := AddToEntry(NewEntry(p), p)])
  }

  function VendorSummaryOf(ps: seq<ProcessedItem>): VendorTable
    decreases |ps|
  {
    if ps == [] then VendorTable([], map[]) else Record(VendorSummaryOf(ps[..|ps| - 1]), ps[|ps| - 1])
  }

  method GetVendorSummary(ps: seq<ProcessedItem>) returns (order: seq<string>, entries: map<string, VendorEntry>)
    ensures VendorTable(order, entries) == VendorSummaryOf(ps)
  {
    order, entries := [], map[];
    var i := 0;
    while i < |ps|
      invariant 0 <= i <= |ps|
      invariant VendorTable(order, entries) == VendorSummaryOf(ps[..i])
    {
      var item := ps[i];
      var vendor := item.vendorName;
      if vendor !in entries {
        order := order + [vendor];
        entries := entries[vendor := NewEntry(item)];
      }
      entries := entries[vendor := AddToEntry(entries[vendor], item)];
      assert ps[..i + 1][..i] == ps[..i];
      i := i + 1;
    }
    assert ps[..i] == ps;
  }

  // ---------------------------------------------------------------- reference definitions

  function FromVendor(name: string): ProcessedItem -> Option<ProcessedItem> {
    (p: ProcessedItem) => if p.vendorName == name then Some(p) else None
  }

  /** The processed rows of one vendor, in order. */
  function OfVendor(ps: seq<ProcessedItem>, name: string): seq<ProcessedItem> {
    FilterMap(ps, FromVendor(name))
  }

  lemma OfVendorStep(ps: seq<ProcessedItem>, name: string)
    requires ps != []
    ensures OfVendor(ps, name) ==
            OfVendor(ps[..|ps| - 1], name) + (if ps[|ps| - 1].vendorName == name then [ps[|ps| - 1]] else [])
  {
    FilterMapStep(ps, |ps| - 1, FromVendor(name));
    assert ps[..|ps|] == ps;
  }

  function QtyTotal(ps: seq<ProcessedItem>): real
    decreases |ps|
  {
    if ps == [] then 0.0 else QtyTotal(ps[..|ps| - 1]) + ps[|ps| - 1].currentQty
  }

  function RmTotal(ps: seq<ProcessedItem>): real
    decreases |ps|
  {
    if ps == [] then 0.0 else RmTotal(ps[..|ps| - 1]) + ps[|ps| - 1].rmQty
  }

  /** Adding the rows `qs` one after another to the entry `e`. */
  function Accumulate(e: VendorEntry, qs: seq<ProcessedItem>): VendorEntry
    decreases |qs|
  {
    if qs == [] then e else AddToEntry(Accumulate(e, qs[..|qs| - 1]), qs[|qs| - 1])
  }

  /** Every name in the order once, and the order lists exactly the stored names. */
  ghost predicate ValidTable(t: VendorTable) {
    && (forall i, j :: 0 <= i < j < |t.order| ==> t.order[i] != t.order[j])
    && (forall k :: k in t.entries <==> k in t.order)
  }

  // ---------------------------------------------------------------- properties

  lemma {:induction false} VendorTableValid(ps: seq<ProcessedItem>)
    ensures ValidTable(VendorSummaryOf(ps))
    decreases |ps|
  {
    if ps != [] {
      VendorTableValid(ps[..|ps| - 1]);
    }
  }

  /** The table has a row for a name exactly when some processed row carries that vendor name. */
  lemma {:induction false} VendorKeys(ps: seq<ProcessedItem>, name: string)
    ensures name in VendorSummaryOf(ps).entries <==> OfVendor(ps, name) != []
    decreases |ps|
  {
    if ps != [] {
      VendorKeys(ps[..|ps| - 1], name);
      OfVendorStep(ps, name);
    }
  }

  /** A vendor's row is its first processed row's header followed by the totals of exactly its own rows. */
  lemma {:induction false} VendorEntryIsFilter(ps: seq<ProcessedItem>, name: string)
    requires name in VendorSummaryOf(ps).entries
    ensures OfVendor(ps, name) != []
    ensures VendorSummaryOf(ps).entries[name] == Accumulate(NewEntry(OfVendor(ps, name)[0]), OfVendor(ps, name))
    decreases |ps|
  {
    VendorKeys(ps, name);
    var n := |ps| - 1;
    var init := ps[..n];
    OfVendorStep(ps, name);
    VendorKeys(init, name);
    if name in VendorSummaryOf(init).entries {
      VendorEntryIsFilter(init, name);
      var qs := OfVendor(init, name);
      if ps[n].vendorName == name {
        assert (qs + [ps[n]])[..|qs|] == qs;
      }
    } else {
      assert OfVendor(ps, name) == [ps[n]];
      assert [ps[n]][..0] == [];
    }
  }

  /** What adding the rows `qs` does to each total of an entry. */
  lemma {:induction false} AccumulateTotals(e: VendorEntry, qs: seq<ProcessedItem>)
    ensures var r := Accumulate(e, qs);
            && r.vendorCode == e.vendorCode && r.city == e.city && r.state == e.state
            && r.totalParts == e.totalParts + |qs|
            && r.totalCurrentQty == e.totalCurrentQty + QtyTotal(qs)
            && r.totalRmQty == e.totalRmQty + RmTotal(qs)
            && r.totalValue == e.totalValue + StockTotal(qs)
            && r.shortParts == e.shortParts + |WithStatus(qs, Short)|
            && r.excessParts == e.excessParts + |WithStatus(qs, Excess)|
            && r.shortValue == e.shortValue + StockTotal(WithStatus(qs, Short))
            && r.excessValue == e.excessValue + StockTotal(WithStatus(qs, Excess))
    decreases |qs|
  {
    if qs != [] {
      var n := |qs| - 1;
      AccumulateTotals(e, qs[..n]);
      TallyTotalsStep(qs, Short);
      TallyTotalsStep(qs, Excess);
      StockTotalSnoc(WithStatus(qs[..n], Short), qs[n]);
      StockTotalSnoc(WithStatus(qs[..n], Excess), qs[n]);
    }
  }

  /** Short, excess and normal rows add up to all rows, and their values to the total value. */
  predicate Consistent(e: VendorEntry) {
    && e.shortParts + e.excessParts + e.normalParts == e.totalParts
    && e.shortValue + e.excessValue + e.normalValue == e.totalValue
  }

  lemma {:induction false} AccumulateConsistent(e: VendorEntry, qs: seq<ProcessedItem>)
    requires Consistent(e)
    ensures Consistent(Accumulate(e, qs))
    decreases |qs|
  {
    if qs != [] {
      AccumulateConsistent(e, qs[..|qs| - 1]);
    }
  }

  /** Every vendor row is consistent, and it totals exactly the rows with that vendor name: parts, on-hand
      and target quantities, stock value, and the short and excess counts and values. */
  lemma VendorEntrySpec(ps: seq<ProcessedItem>, name: string)
    requires name in VendorSummaryOf(ps).entries
    ensures var e := VendorSummaryOf(ps).entries[name];
            var qs := OfVendor(ps, name);
            && qs != []
            && e.vendorCode == qs[0].vendorCode && e.city == qs[0].city && e.state == qs[0].state
            && Consistent(e)
            && e.totalParts == |qs|
            && e.totalCurrentQty == QtyTotal(qs) && e.totalRmQty == RmTotal(qs)
            && e.totalValue == StockTotal(qs)
            && e.shortParts == |WithStatus(qs, Short)| && e.shortValue == StockTotal(WithStatus(qs, Short))
            && e.excessParts == |WithStatus(qs, Excess)| && e.excessValue == StockTotal(WithStatus(qs, Excess))
  {
    VendorEntryIsFilter(ps, name);
    var qs := OfVendor(ps, name);
    AccumulateTotals(NewEntry(qs[0]), qs);
    AccumulateConsistent(NewEntry(qs[0]), qs);
  }

  // ---------------------------------------------------------------- the parts add up

  function PartsOf(entries: map<string, VendorEntry>, name: string): nat {
    if name in entries then entries[name].totalParts else 0
  }

  /** The sum of `total_parts` over the listed vendors. */
  function PartsOver(order: seq<string>, entries: map<string, VendorEntry>): nat
    decreases |order|
  {
    if order == [] then 0 else PartsOver(order[..|order| - 1], entries) + PartsOf(entries, order[|order| - 1])
  }

  lemma {:induction false} PartsOverFrame(order: seq<string>, e1: map<string, VendorEntry>, e2: map<string, VendorEntry>)
    requires forall i :: 0 <= i < |order| ==> PartsOf(e1, order[i]) == PartsOf(e2, order[i])
    ensures PartsOver(order, e1) == PartsOver(order, e2)
    decreases |order|
  {
    if order != [] {
      var init := order[..|order| - 1];
      assert forall i :: 0 <= i < |init| ==> init[i] == order[i];
      PartsOverFrame(init, e1, e2);
    }
  }

  lemma {:induction false} PartsOverBump(order: seq<string>, entries: map<string, VendorEntry>, name: string, e: VendorEntry)
    requires forall i, j :: 0 <= i < j < |order| ==> order[i] != order[j]
    requires name in order && name in entries && e.totalParts == entries[name].totalParts + 1
    ensures PartsOver(order, entries[name := e]) == PartsOver(order, entries) + 1
    decreases |order|
  {
    var n := |order| - 1;
    var init := order[..n];
    assert forall i :: 0 <= i < |init| ==> init[i] == order[i];
    if order[n] == name {
      assert name !in init;
      PartsOverFrame(init, entries[name := e], entries);
    } else {
      PartsOverBump(init, entries, name, e);
    }
  }

  /** Summed over the vendors, `total_parts` is the number of processed rows. */
  lemma {:induction false} VendorPartsTotal(ps: seq<ProcessedItem>)
    ensures PartsOver(VendorSummaryOf(ps).order, VendorSummaryOf(ps).entries) == |ps|
    decreases |ps|
  {
    if ps != [] {
      var init := ps[..|ps| - 1];
      var p := ps[|ps| - 1];
      var t := VendorSummaryOf(init);
      VendorPartsTotal(init);
      VendorTableValid(init);
      if p.vendorName in t.entries {
        PartsOverBump(t.order, t.entries, p.vendorName, AddToEntry(t.entries[p.vendorName], p));
      } else {
        var e2 := t.entries[p.vendorName := AddToEntry(NewEntry(p), p)];
        PartsOverFrame(t.order, e2, t.entries);
        assert (t.order + [p.vendorName])[..|t.order|] == t.order;
      }
    }
  }
}
