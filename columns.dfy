/** Column resolution (`find_column` and the `available_columns` table built before it): each field has a list of
    accepted header spellings in priority order, and a header is compared after `lower()` and space-to-'_'. */
module Columns {
  import opened Wrappers
  import opened Text

  const PartAliases: seq<string> := ["part_no", "part_number", "material", "material_code", "item_code", "code"]
  const DescAliases: seq<string> :=
    ["description", "item_description", "part_description", "desc", "part description", "material_description"]
  const RmAliases: seq<string> :=
    ["rm_in_qty", "rm_qty", "required_qty", "norm_qty", "target_qty", "rm", "ri_in_qty"]
  const VendorCodeAliases: seq<string> := ["vendor_code", "vendor_id", "supplier_code", "supplier_id"]
  const VendorNameAliases: seq<string> := ["vendor_name", "vendor", "supplier_name", "supplier"]
  const CityAliases: seq<string> := ["city", "vendor_city", "supplier_city"]
  const StateAliases: seq<string> := ["state", "vendor_state", "supplier_state"]
  const QtyAliases: seq<string> := ["current_qty", "qty", "quantity", "stock_qty", "on_hand_qty"]
  const ValueAliases: seq<string> := ["stock_value", "value", "amount", "cost", "inventory_value"]

  /** A header as the code compares it: lower-cased, every space replaced by '_'. Nothing else changes. */
  function Normalize(h: string): (k: string)
    ensures |k| == |h| && ' ' !in k
  {
    ReplaceChar(Lower(h), ' ', '_')
  }

  /** Normalising a normalised header changes nothing. */
  lemma NormalizeIdempotent(h: string)
    ensures Normalize(Normalize(h)) == Normalize(h)
  {
    var k := Normalize(h);
    forall i | 0 <= i < |k|
      ensures Normalize(k)[i] == k[i]
    {
      assert k[i] == (if LowerChar(h[i]) == ' ' then '_' else LowerChar(h[i]));
    }
  }

  /** The `{normalised header: header}` table. Built left to right as the dict comprehension does,
      so of two headers with the same normalised form the later one is kept. */
  function AvailableColumns(headers: seq<string>): (m: map<string, string>)
    ensures forall k :: k in m ==> Normalize(m[k]) == k && m[k] in headers
    ensures forall i :: 0 <= i < |headers| ==> Normalize(headers[i]) in m
    decreases |headers|
  {
    if headers == [] then map[]
    else
      var h := headers[|headers| - 1];
      AvailableColumns(headers[..|headers| - 1])[Normalize(h) := h]
  }

  /** A header no later header shadows is the one the table keeps for its normalised form. */
  lemma {:induction false} AvailableLastWins(headers: seq<string>, i: nat)
    requires i < |headers|
    requires forall j :: i < j < |headers| ==> Normalize(headers[j]) != Normalize(headers[i])
    ensures AvailableColumns(headers)[Normalize(headers[i])] == headers[i]
    decreases |headers|
  {
    if i < |headers| - 1 {
      var init := headers[..|headers| - 1];
      assert init[i] == headers[i];
      forall j | i < j < |init| ensures Normalize(init[j]) != Normalize(init[i]) {
        assert init[j] == headers[j];
      }
      AvailableLastWins(init, i);
    }
  }

  /** The position of the first alias present in `available`, or `|aliases|`: the loop with early return. */
  function FirstAlias(aliases: seq<string>, available: map<string, string>): (i: nat)
    ensures i <= |aliases|
    ensures forall j :: 0 <= j < i ==> aliases[j] !in available
    ensures i < |aliases| ==> aliases[i] in available
    decreases |aliases|
  {
    if aliases == [] then 0
    else if aliases[0] in available then 0
    else 1 + FirstAlias(aliases[1..], available)
  }

  /** `find_column`: the source header of the first alias present, or `None`. */
  function FindColumn(aliases: seq<string>, available: map<string, string>): Option<string> {
    var i := FirstAlias(aliases, available);
    if i < |aliases| then Some(available[aliases[i]]) else None
  }

  /** Resolving a field against a table's headers. */
  function Resolve(aliases: seq<string>, headers: seq<string>): Option<string> {
    FindColumn(aliases, AvailableColumns(headers))
  }

  /** A field resolves exactly when some header normalises to one of its aliases; the header found is a
      header of the table, normalises to the first alias (in priority order) that any header matches, and
      is never empty, so the code's `if not col` test is a test for `None`. */
  lemma ResolveSpec(aliases: seq<string>, headers: seq<string>)
    requires forall a :: a in aliases ==> a != ""
    ensures Resolve(aliases, headers).None? <==>
            forall i, j :: 0 <= i < |aliases| && 0 <= j < |headers| ==> Normalize(headers[j]) != aliases[i]
    ensures Resolve(aliases, headers).Some? ==>
              var h := Resolve(aliases, headers).value;
              var i := FirstAlias(aliases, AvailableColumns(headers));
              && i < |aliases| && h in headers && h != "" && Normalize(h) == aliases[i]
              && forall j, k :: 0 <= j < i && 0 <= k < |headers| ==> Normalize(headers[k]) != aliases[j]
  {
    var m := AvailableColumns(headers);
    var i := FirstAlias(aliases, m);
    if i < |aliases| {
      assert aliases[i] in aliases;
      var h := m[aliases[i]];
      var j :| 0 <= j < |headers| && headers[j] == h;
      assert Normalize(headers[j]) == aliases[i];
    } else {
      forall a, j | 0 <= a < |aliases| && 0 <= j < |headers|
        ensures Normalize(headers[j]) != aliases[a]
      {
        assert Normalize(headers[j]) in m;
      }
    }
  }

  /** The alias "part description" is dead: a normalised header never holds a space. */
  lemma SpacedAliasNeverMatches(headers: seq<string>)
    ensures "part description" !in AvailableColumns(headers)
  {
  }
}
