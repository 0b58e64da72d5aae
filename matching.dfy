/** `match_inventory_data`: join each current-inventory item to a PFEP item. A lookup keyed on the upper-cased
    (part number, description) is built first; an item takes the entry under its own key if there is one,
    otherwise the first entry, in insertion order, whose part number matches, otherwise it is unmatched. */
module Matching {
  import opened Wrappers
  import opened Text
  import opened Seqs
  import opened Standardize

  /** A lookup key: upper-cased part number and upper-cased description. */
  datatype Key = Key(part: string, desc: string)

  function PfepKey(p: PfepItem): Key {
    Key(Upper(p.partNo), Upper(p.description))
  }

  function CurrentKey(c: CurrentItem): Key {
    Key(Upper(c.partNo), Upper(c.description))
  }

  /** `pfep_lookup`, a Python dict: `order` lists the keys by first insertion, `entries` holds the values.
      Storing under a key already present replaces the value and leaves the key where it was. */
  datatype Lookup = Lookup(order: seq<Key>, entries: map<Key, PfepItem>)

  function Put(l: Lookup, k: Key, v: PfepItem): Lookup {
    Lookup(if k in l.entries then l.order else l.order + [k], l.entries[k := v])
  }

  /** The lookup after storing every PFEP item under its key, in order. */
  function BuildLookup(pfep: seq<PfepItem>): Lookup
    decreases |pfep|
  {
    if pfep == [] then Lookup([], map[])
    else Put(BuildLookup(pfep[..|pfep| - 1]), PfepKey(pfep[|pfep| - 1]), pfep[|pfep| - 1])
  }

  /** Every key appears once in the order, and the order lists exactly the stored keys. */
  ghost predicate ValidLookup(l: Lookup) {
    && (forall i, j :: 0 <= i < j < |l.order| ==> l.order[i] != l.order[j])
    && (forall k :: k in l.entries <==> k in l.order)
  }

  /** The position of the first key in `order` whose part is `part`, or `|order|`: the scan with `break`. */
  function FirstPartIndex(order: seq<Key>, part: string): (i: nat)
    ensures i <= |order|
    ensures forall j :: 0 <= j < i ==> order[j].part != part
    ensures i < |order| ==> order[i].part == part
    decreases |order|
  {
    if order == [] then 0
    else if order[0].part == part then 0
    else 1 + FirstPartIndex(order[1..], part)
  }

  lemma FirstPartIndexSnoc(order: seq<Key>, k: Key, part: string)
    ensures FirstPartIndex(order + [k], part) ==
            if FirstPartIndex(order, part) < |order| then FirstPartIndex(order, part)
            else if k.part == part then |order| else |order| + 1
  {
    var o := order + [k];
    var i := FirstPartIndex(order, part);
    if i < |order| {
      assert o[i] == order[i];
    } else if k.part == part {
      assert o[|order|] == k;
    }
  }

  // ---------------------------------------------------------------- the lookup

  lemma {:induction false} LookupValid(pfep: seq<PfepItem>)
    ensures ValidLookup(BuildLookup(pfep))
    decreases |pfep|
  {
    if pfep != [] {
      LookupValid(pfep[..|pfep| - 1]);
    }
  }

  /** Every PFEP item's key is stored; each stored value is a PFEP item filed under its own key. */
  lemma {:induction false} LookupEntries(pfep: seq<PfepItem>)
    ensures forall i :: 0 <= i < |pfep| ==> PfepKey(pfep[i]) in BuildLookup(pfep).entries
    ensures forall k :: k in BuildLookup(pfep).entries ==>
              PfepKey(BuildLookup(pfep).entries[k]) == k && BuildLookup(pfep).entries[k] in pfep
    decreases |pfep|
  {
    if pfep != [] {
      var init := pfep[..|pfep| - 1];
      LookupEntries(init);
      assert forall i :: 0 <= i < |init| ==> init[i] == pfep[i];
      assert forall x :: x in init ==> x in pfep;
    }
  }

  /** A later PFEP item with the same key overwrites an earlier one: the stored value is the last item with that key. */
  lemma {:induction false} LookupLastWins(pfep: seq<PfepItem>, i: nat)
    requires i < |pfep|
    requires forall j :: i < j < |pfep| ==> PfepKey(pfep[j]) != PfepKey(pfep[i])
    ensures PfepKey(pfep[i]) in BuildLookup(pfep).entries && BuildLookup(pfep).entries[PfepKey(pfep[i])] == pfep[i]
    decreases |pfep|
  {
    LookupEntries(pfep);
    if i < |pfep| - 1 {
      var init := pfep[..|pfep| - 1];
      assert init[i] == pfep[i];
      forall j | i < j < |init| ensures PfepKey(init[j]) != PfepKey(init[i]) {
        assert init[j] == pfep[j];
      }
      LookupLastWins(init, i);
    }
  }

  /** When no PFEP item has the part, the scan over the keys in insertion order runs off the end. */
  lemma {:induction false} LookupNoPart(pfep: seq<PfepItem>, part: string)
    requires forall i :: 0 <= i < |pfep| ==> Upper(pfep[i].partNo) != part
    ensures FirstPartIndex(BuildLookup(pfep).order, part) == |BuildLookup(pfep).order|
    decreases |pfep|
  {
    if pfep != [] {
      var init := pfep[..|pfep| - 1];
      var p := pfep[|pfep| - 1];
      assert forall i :: 0 <= i < |init| ==> init[i] == pfep[i];
      LookupNoPart(init, part);
      FirstPartIndexSnoc(BuildLookup(init).order, PfepKey(p), part);
    }
  }

  /** The first key in insertion order with a given part is the key of the first PFEP item with that part. */
  lemma {:induction false} LookupFirstPart(pfep: seq<PfepItem>, part: string, i: nat)
    requires i < |pfep| && Upper(pfep[i].partNo) == part
    requires forall j :: 0 <= j < i ==> Upper(pfep[j].partNo) != part
    ensures FirstPartIndex(BuildLookup(pfep).order, part) < |BuildLookup(pfep).order|
    ensures BuildLookup(pfep).order[FirstPartIndex(BuildLookup(pfep).order, part)] == PfepKey(pfep[i])
    decreases |pfep|
  {
    var n := |pfep| - 1;
    var init := pfep[..n];
    var p := pfep[n];
    var l := BuildLookup(init);
    assert forall j :: 0 <= j < |init| ==> init[j] == pfep[j];
    if i == n {
      LookupNoPart(init, part);
      LookupEntries(init);
      forall k | k in l.entries ensures k.part != part {
        var j :| 0 <= j < |init| && init[j] == l.entries[k];
      }
      FirstPartIndexSnoc(l.order, PfepKey(p), part);
    } else {
      LookupFirstPart(init, part, i);
      FirstPartIndexSnoc(l.order, PfepKey(p), part);
    }
  }

  // ---------------------------------------------------------------- one item

  /** The PFEP item matched to `c`, if any (the body of the loop over current items). */
  function FindMatch(l: Lookup, c: CurrentItem): Option<PfepItem>
    requires ValidLookup(l)
  {
    var key := CurrentKey(c);
    if key in l.entries then Some(l.entries[key])
    else
      var i := FirstPartIndex(l.order, Upper(c.partNo));
      if i < |l.order| then Some(l.entries[l.order[i]]) else None
  }

  /** The PFEP item `c` is matched to against the lookup built from `pfep`; when there is one, it is a PFEP
      item with the same upper-cased part number. */
  function MatchFor(pfep: seq<PfepItem>, c: CurrentItem): (r: Option<PfepItem>)
    ensures r.Some? ==> r.value in pfep && Upper(r.value.partNo) == Upper(c.partNo)
  {
    LookupValid(pfep);
    LookupEntries(pfep);
    FindMatch(BuildLookup(pfep), c)
  }

  /** An item is unmatched exactly when no PFEP item has its part number, compared upper-cased. */
  lemma UnmatchedIff(pfep: seq<PfepItem>, c: CurrentItem)
    ensures MatchFor(pfep, c).None? <==> forall i :: 0 <= i < |pfep| ==> Upper(pfep[i].partNo) != Upper(c.partNo)
  {
    var up := Upper(c.partNo);
    if i :| 0 <= i < |pfep| && Upper(pfep[i].partNo) == up {
      var f := FirstWithPart(pfep, up, i);
      LookupValid(pfep);
      LookupFirstPart(pfep, up, f);
      assert FindMatch(BuildLookup(pfep), c).Some?;
    }
  }

  /** The first PFEP item with a given part, when some item at or before `i` has it. */
  lemma FirstWithPart(pfep: seq<PfepItem>, part: string, i: nat) returns (f: nat)
    requires i < |pfep| && Upper(pfep[i].partNo) == part
    ensures f <= i && Upper(pfep[f].partNo) == part
    ensures forall j :: 0 <= j < f ==> Upper(pfep[j].partNo) != part
    decreases i
  {
    if j :| 0 <= j < i && Upper(pfep[j].partNo) == part {
      f := FirstWithPart(pfep, part, j);
    } else {
      f := i;
    }
  }

  /** An exact (part, description) hit wins, and it yields the last PFEP item filed under that key. */
  lemma ExactHitWins(pfep: seq<PfepItem>, c: CurrentItem, i: nat)
    requires i < |pfep| && PfepKey(pfep[i]) == CurrentKey(c)
    requires forall j :: i < j < |pfep| ==> PfepKey(pfep[j]) != CurrentKey(c)
    ensures MatchFor(pfep, c) == Some(pfep[i])
  {
    LookupEntries(pfep);
    LookupLastWins(pfep, i);
  }

  /** Without an exact hit, the match is found through the first PFEP item (in input order) with the same
      part number: it is the last PFEP item sharing that first item's (part, description) key. */
  lemma PartOnlyHit(pfep: seq<PfepItem>, c: CurrentItem, i: nat, j: nat)
    requires forall k :: 0 <= k < |pfep| ==> PfepKey(pfep[k]) != CurrentKey(c)
    requires i < |pfep| && Upper(pfep[i].partNo) == Upper(c.partNo)
    requires forall k :: 0 <= k < i ==> Upper(pfep[k].partNo) != Upper(c.partNo)
    requires i <= j < |pfep| && PfepKey(pfep[j]) == PfepKey(pfep[i])
    requires forall k :: j < k < |pfep| ==> PfepKey(pfep[k]) != PfepKey(pfep[i])
    ensures MatchFor(pfep, c) == Some(pfep[j])
  {
    LookupEntries(pfep);
    LookupValid(pfep);
    LookupFirstPart(pfep, Upper(c.partNo), i);
    LookupLastWins(pfep, j);
    assert CurrentKey(c) !in BuildLookup(pfep).entries;
  }

  // ---------------------------------------------------------------- the whole join

  /** One matched row: quantity and stock value from the current item, target quantity, vendor and location
      from the PFEP item, and the current description unless it is empty. */
  datatype MatchedItem = MatchedItem(
    partNo: string, description: string, currentQty: real, rmQty: real, stockValue: int,
    vendorCode: string, vendorName: string, city: string, state: string)

  function MatchedRow(c: CurrentItem, p: PfepItem): MatchedItem {
    MatchedItem(c.partNo, if c.description != "" then c.description else p.description,
                c.currentQty, p.rmQty, c.stockValue, p.vendorCode, p.vendorName, p.city, p.state)
  }

  function MatchedRowOf(pfep: seq<PfepItem>): CurrentItem -> Option<MatchedItem> {
    c => match MatchFor(pfep, c)
         case Some(p) => Some(MatchedRow(c, p))
         case None => None
  }

  function UnmatchedOf(pfep: seq<PfepItem>): CurrentItem -> Option<CurrentItem> {
    c => if MatchFor(pfep, c).None? then Some(c) else None
  }

  /** The first loop of `match_inventory_data`: file every PFEP item under its key. */
  method BuildPfepLookup(pfep: seq<PfepItem>) returns (order: seq<Key>, entries: map<Key, PfepItem>)
    ensures Lookup(order, entries) == BuildLookup(pfep)
  {
    order, entries := [], map[];
    var i := 0;
    while i < |pfep|
      invariant 0 <= i <= |pfep|
      invariant Lookup(order, entries) == BuildLookup(pfep[..i])
    {
      var key := PfepKey(pfep[i]);
      if key !in entries {
        order := order + [key];
      }
      entries := entries[key := pfep[i]];
      assert pfep[..i + 1][..i] == pfep[..i];
      i := i + 1;
    }
    assert pfep[..i] == pfep;
  }

  /** The lookup for one current item: its own key, else a scan of the keys in insertion order. */
  method LookUp(order: seq<Key>, entries: map<Key, PfepItem>, item: CurrentItem) returns (found: Option<PfepItem>)
    requires ValidLookup(Lookup(order, entries))
    ensures found == FindMatch(Lookup(order, entries), item)
  {
    var key := CurrentKey(item);
    if key in entries {
      return Some(entries[key]);
    }
    var part := Upper(item.partNo);
    var j := 0;
    while j < |order| && order[j].part != part
      invariant 0 <= j <= |order|
      invariant forall m :: 0 <= m < j ==> order[m].part != part
    {
      j := j + 1;
    }
    found := if j < |order| then Some(entries[order[j]]) else None;
  }

  method MatchInventoryData(pfep: seq<PfepItem>, current: seq<CurrentItem>)
    returns (matched: seq<MatchedItem>, unmatched: seq<CurrentItem>)
    ensures matched == FilterMap(current, MatchedRowOf(pfep))
    ensures unmatched == FilterMap(current, UnmatchedOf(pfep))
    ensures |matched| + |unmatched| == |current|
  {
    var order, entries := BuildPfepLookup(pfep);
    LookupValid(pfep);
    matched, unmatched := [], [];
    var n := 0;
    while n < |current|
      invariant 0 <= n <= |current|
      invariant matched == FilterMap(current[..n], MatchedRowOf(pfep))
      invariant unmatched == FilterMap(current[..n], UnmatchedOf(pfep))
    {
      var item := current[n];
      var found := LookUp(order, entries, item);
      assert found == MatchFor(pfep, item);
      if found.Some? {
        matched := matched + [MatchedRow(item, found.value)];
      } else {
        unmatched := unmatched + [item];
      }
      FilterMapStep(current, n, MatchedRowOf(pfep));
      FilterMapStep(current, n, UnmatchedOf(pfep));
      n := n + 1;
    }
    assert current[..n] == current;
    FilterMapPartition(current, MatchedRowOf(pfep), UnmatchedOf(pfep));
  }

  /** The matched rows follow the current items they come from, in input order; each takes its quantities
      from that item and its target quantity and vendor fields from a PFEP item with the same upper-cased
      part number. */
  lemma MatchedProvenance(pfep: seq<PfepItem>, current: seq<CurrentItem>)
    ensures var matched, idx := FilterMap(current, MatchedRowOf(pfep)), KeptIndices(current, MatchedRowOf(pfep));
            && |idx| == |matched|
            && (forall k, l :: 0 <= k < l < |idx| ==> idx[k] < idx[l])
            && (forall k :: 0 <= k < |idx| ==>
                  && idx[k] < |current|
                  && MatchFor(pfep, current[idx[k]]).Some?
                  && MatchFor(pfep, current[idx[k]]).value in pfep
                  && Upper(MatchFor(pfep, current[idx[k]]).value.partNo) == Upper(current[idx[k]].partNo)
                  && matched[k] == MatchedRow(current[idx[k]], MatchFor(pfep, current[idx[k]]).value))
  {
    FilterMapProvenance(current, MatchedRowOf(pfep));
  }

  /** The unmatched items are, in input order, exactly the current items no PFEP part number matches. */
  lemma UnmatchedProvenance(pfep: seq<PfepItem>, current: seq<CurrentItem>)
    ensures var unmatched, idx := FilterMap(current, UnmatchedOf(pfep)), KeptIndices(current, UnmatchedOf(pfep));
            && |idx| == |unmatched|
            && (forall k, l :: 0 <= k < l < |idx| ==> idx[k] < idx[l])
            && (forall k :: 0 <= k < |idx| ==> idx[k] < |current| && unmatched[k] == current[idx[k]])
            && (forall i :: 0 <= i < |current| ==>
                  (i in idx <==> forall j :: 0 <= j < |pfep| ==> Upper(pfep[j].partNo) != Upper(current[i].partNo)))
  {
    var idx := KeptIndices(current, UnmatchedOf(pfep));
    FilterMapProvenance(current, UnmatchedOf(pfep));
    forall i | 0 <= i < |current|
      ensures i in idx <==> forall j :: 0 <= j < |pfep| ==> Upper(pfep[j].partNo) != Upper(current[i].partNo)
    {
      UnmatchedIff(pfep, current[i]);
      if i in idx {
        var k :| 0 <= k < |idx| && idx[k] == i;
      }
    }
  }
}
