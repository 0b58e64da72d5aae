/** `standardize_pfep_data` and `standardize_current_inventory`: resolve the columns of an uploaded table,
    then walk its rows and keep, in order, each row with a usable part number and a non-negative quantity. */
module Standardize {
  import opened Wrappers
  import opened Text
  import opened Coercion
  import opened Columns
  import opened Seqs

  /** One row of an uploaded table, from header to cell. */
  type Row = map<string, Cell>

  datatype Table = Table(columns: seq<string>, rows: seq<Row>)

  /** A reference (PFEP) item: the target quantity `rmQty` and the vendor and location of one part. */
  datatype PfepItem = PfepItem(
    partNo: string, description: string, rmQty: real,
    vendorCode: string, vendorName: string, city: string, state: string)

  /** A current-inventory item: on-hand quantity and stock value of one part. */
  datatype CurrentItem = CurrentItem(partNo: string, description: string, currentQty: real, stockValue: int)

  /** `record.get(col, default)`. */
  function Get(row: Row, col: string, default: Cell): Cell {
    if col in row then row[col] else default
  }

  /** `str(record.get(col, '')).strip() if col else ''`. */
  function OptionalText(row: Row, col: Option<string>): string {
    match col
    case Some(c) => Strip(CellText(Get(row, c, Str(""))))
    case None => ""
  }

  /** `str(record.get(part_col, '')).strip()`. */
  function PartText(row: Row, col: string): string {
    Strip(CellText(Get(row, col, Str(""))))
  }

  /** `safe_float_convert(record.get(qty_col, 0))`. */
  function Quantity(row: Row, col: string): real {
    SafeFloatConvert(Get(row, col, Str("0")))
  }

  /** A stripped part number the code accepts: non-empty and not "nan" in any letter case. */
  predicate UsablePart(part: string) {
    part != "" && Lower(part) != "nan"
  }

  /** `df is None or df.empty`: no rows or no columns. */
  predicate IsEmptyTable(t: Table) {
    |t.columns| == 0 || |t.rows| == 0
  }

  // ---------------------------------------------------------------- PFEP master data

  /** The headers chosen for each PFEP field; part number and target quantity are required. */
  datatype PfepColumns = PfepColumns(
    part: string, desc: Option<string>, rm: string,
    vendorCode: Option<string>, vendorName: Option<string>, city: Option<string>, state: Option<string>)

  function ResolvePfepColumns(headers: seq<string>): Option<PfepColumns> {
    var part := Resolve(PartAliases, headers);
    var rm := Resolve(RmAliases, headers);
    if part.None? || rm.None? then None
    else Some(PfepColumns(
      part.value, Resolve(DescAliases, headers), rm.value, Resolve(VendorCodeAliases, headers),
      Resolve(VendorNameAliases, headers), Resolve(CityAliases, headers), Resolve(StateAliases, headers)))
  }

  /** The item one row becomes, or `None` when the row is dropped. */
  function PfepRecord(cols: PfepColumns, row: Row): Option<PfepItem> {
    var part := PartText(row, cols.part);
    var rm := Quantity(row, cols.rm);
    if UsablePart(part) && rm >= 0.0 then
      Some(PfepItem(part, OptionalText(row, cols.desc), rm, OptionalText(row, cols.vendorCode),
                    OptionalText(row, cols.vendorName), OptionalText(row, cols.city), OptionalText(row, cols.state)))
    else None
  }

  function PfepRecordOf(cols: PfepColumns): Row -> Option<PfepItem> {
    row => PfepRecord(cols, row)
  }

  /** What `standardize_pfep_data` returns. */
  function StandardizedPfep(t: Table): seq<PfepItem> {
    if IsEmptyTable(t) then []
    else match ResolvePfepColumns(t.columns)
      case None => []
      case Some(cols) => FilterMap(t.rows, PfepRecordOf(cols))
  }

  /** The body of the row loop of `standardize_pfep_data`: skip the row, or build its item. */
  method StandardizePfepRow(cols: PfepColumns, row: Row) returns (kept: Option<PfepItem>)
    ensures kept == PfepRecord(cols, row)
  {
    var part := Strip(CellText(Get(row, cols.part, Str(""))));
    var rm := SafeFloatConvert(Get(row, cols.rm, Str("0")));
    if part != "" && Lower(part) != "nan" && rm >= 0.0 {
      kept := Some(PfepItem(part, OptionalText(row, cols.desc), rm, OptionalText(row, cols.vendorCode),
                            OptionalText(row, cols.vendorName), OptionalText(row, cols.city),
                            OptionalText(row, cols.state)));
    } else {
      kept := None;
    }
  }

  method StandardizePfepData(t: Table) returns (items: seq<PfepItem>)
    ensures items == StandardizedPfep(t)
  {
    if IsEmptyTable(t) {
      return [];
    }
    var resolved := ResolvePfepColumns(t.columns);
    if resolved.None? {
      return [];
    }
    var cols := resolved.value;
    items := [];
    var i := 0;
    while i < |t.rows|
      invariant 0 <= i <= |t.rows|
      invariant items == FilterMap(t.rows[..i], PfepRecordOf(cols))
    {
      var kept := StandardizePfepRow(cols, t.rows[i]);
      if kept.Some? {
        items := items + [kept.value];
      }
      FilterMapStep(t.rows, i, PfepRecordOf(cols));
      i := i + 1;
    }
    assert t.rows[..i] == t.rows;
  }

  /** Without a part-number or a target-quantity column nothing is produced. */
  lemma PfepMissingColumn(t: Table)
    requires Resolve(PartAliases, t.columns).None? || Resolve(RmAliases, t.columns).None?
    ensures StandardizedPfep(t) == []
  {
  }

  /** The output is the kept rows, converted, in input order: item k comes from row `KeptIndices(...)[k]`,
      those row positions increase, and every kept item has a usable part number, a non-negative target
      quantity, and empty text in each optional field whose column was not found. */
  lemma PfepOutputSpec(t: Table)
    requires !IsEmptyTable(t) && ResolvePfepColumns(t.columns).Some?
    ensures var cols := ResolvePfepColumns(t.columns).value;
            var items, idx := StandardizedPfep(t), KeptIndices(t.rows, PfepRecordOf(cols));
            && |idx| == |items| <= |t.rows|
            && (forall k :: 0 <= k < |idx| ==> idx[k] < |t.rows| && PfepRecord(cols, t.rows[idx[k]]) == Some(items[k]))
            && (forall k, l :: 0 <= k < l < |idx| ==> idx[k] < idx[l])
            && (forall k :: 0 <= k < |items| ==> ValidPfepItem(items[k], cols))
  {
    var cols := ResolvePfepColumns(t.columns).value;
    FilterMapProvenance(t.rows, PfepRecordOf(cols));
    FilterMapAll(t.rows, PfepRecordOf(cols), (p: PfepItem) => ValidPfepItem(p, cols));
  }

  lemma PfepRecordKept(cols: PfepColumns, row: Row)
    ensures PfepRecord(cols, row).Some? <==> UsablePart(PartText(row, cols.part)) && Quantity(row, cols.rm) >= 0.0
  {
  }

  /** A row is kept exactly when its stripped part number is usable and its target quantity is at least 0. */
  lemma PfepKeptExactly(t: Table)
    requires !IsEmptyTable(t) && ResolvePfepColumns(t.columns).Some?
    ensures var cols := ResolvePfepColumns(t.columns).value;
            var idx := KeptIndices(t.rows, PfepRecordOf(cols));
            forall i :: 0 <= i < |t.rows| ==>
              (i in idx <==> UsablePart(PartText(t.rows[i], cols.part)) && Quantity(t.rows[i], cols.rm) >= 0.0)
  {
    var cols := ResolvePfepColumns(t.columns).value;
    var idx := KeptIndices(t.rows, PfepRecordOf(cols));
    FilterMapProvenance(t.rows, PfepRecordOf(cols));
    forall i | 0 <= i < |t.rows|
      ensures i in idx <==> UsablePart(PartText(t.rows[i], cols.part)) && Quantity(t.rows[i], cols.rm) >= 0.0
    {
      PfepRecordKept(cols, t.rows[i]);
      if i in idx {
        var k :| 0 <= k < |idx| && idx[k] == i;
      }
    }
  }

  predicate ValidPfepItem(p: PfepItem, cols: PfepColumns) {
    && UsablePart(p.partNo) && p.rmQty >= 0.0
    && (cols.desc.None? ==> p.description == "")
    && (cols.vendorCode.None? ==> p.vendorCode == "")
    && (cols.vendorName.None? ==> p.vendorName == "")
    && (cols.city.None? ==> p.city == "")
    && (cols.state.None? ==> p.state == "")
  }

  // ---------------------------------------------------------------- current inventory

  /** The headers chosen for each current-inventory field; part number and quantity are required. */
  datatype CurrentColumns = CurrentColumns(part: string, desc: Option<string>, qty: string, value: Option<string>)

  function ResolveCurrentColumns(headers: seq<string>): Option<CurrentColumns> {
    var part := Resolve(PartAliases, headers);
    var qty := Resolve(QtyAliases, headers);
    if part.None? || qty.None? then None
    else Some(CurrentColumns(part.value, Resolve(DescAliases, headers), qty.value, Resolve(ValueAliases, headers)))
  }

  /** `safe_int_convert(record.get(value_col, 0)) if value_col else 0`. */
  function StockValue(row: Row, col: Option<string>): int {
    match col
    case Some(c) => SafeIntConvert(Get(row, c, Str("0")))
    case None => 0
  }

  function CurrentRecord(cols: CurrentColumns, row: Row): Option<CurrentItem> {
    var part := PartText(row, cols.part);
    var qty := Quantity(row, cols.qty);
    if UsablePart(part) && qty >= 0.0 then
      Some(CurrentItem(part, OptionalText(row, cols.desc), qty, StockValue(row, cols.value)))
    else None
  }

  function CurrentRecordOf(cols: CurrentColumns): Row -> Option<CurrentItem> {
    row => CurrentRecord(cols, row)
  }

  /** What `standardize_current_inventory` returns. */
  function StandardizedCurrent(t: Table): seq<CurrentItem> {
    if IsEmptyTable(t) then []
    else match ResolveCurrentColumns(t.columns)
      case None => []
      case Some(cols) => FilterMap(t.rows, CurrentRecordOf(cols))
  }

  /** The body of the row loop of `standardize_current_inventory`: skip the row, or build its item. */
  method StandardizeCurrentRow(cols: CurrentColumns, row: Row) returns (kept: Option<CurrentItem>)
    ensures kept == CurrentRecord(cols, row)
  {
    var part := Strip(CellText(Get(row, cols.part, Str(""))));
    var qty := SafeFloatConvert(Get(row, cols.qty, Str("0")));
    if part != "" && Lower(part) != "nan" && qty >= 0.0 {
      kept := Some(CurrentItem(part, OptionalText(row, cols.desc), qty, StockValue(row, cols.value)));
    } else {
      kept := None;
    }
  }

  method StandardizeCurrentInventory(t: Table) returns (items: seq<CurrentItem>)
    ensures items == StandardizedCurrent(t)
  {
    if IsEmptyTable(t) {
      return [];
    }
    var resolved := ResolveCurrentColumns(t.columns);
    if resolved.None? {
      return [];
    }
    var cols := resolved.value;
    items := [];
    var i := 0;
    while i < |t.rows|
      invariant 0 <= i <= |t.rows|
      invariant items == FilterMap(t.rows[..i], CurrentRecordOf(cols))
    {
      var kept := StandardizeCurrentRow(cols, t.rows[i]);
      if kept.Some? {
        items := items + [kept.value];
      }
      FilterMapStep(t.rows, i, CurrentRecordOf(cols));
      i := i + 1;
    }
    assert t.rows[..i] == t.rows;
  }

  /** Without a part-number or a quantity column nothing is produced. */
  lemma CurrentMissingColumn(t: Table)
    requires Resolve(PartAliases, t.columns).None? || Resolve(QtyAliases, t.columns).None?
    ensures StandardizedCurrent(t) == []
  {
  }

  predicate ValidCurrentItem(c: CurrentItem, cols: CurrentColumns) {
    && UsablePart(c.partNo) && c.currentQty >= 0.0
    && (cols.desc.None? ==> c.description == "")
    && (cols.value.None? ==> c.stockValue == 0)
  }

  /** As `PfepOutputSpec`, for current inventory: an order-preserving selection of the rows, each kept item
      with a usable part number, a non-negative quantity, and defaults for unresolved optional fields. */
  lemma CurrentOutputSpec(t: Table)
    requires !IsEmptyTable(t) && ResolveCurrentColumns(t.columns).Some?
    ensures var cols := ResolveCurrentColumns(t.columns).value;
            var items, idx := StandardizedCurrent(t), KeptIndices(t.rows, CurrentRecordOf(cols));
            && |idx| == |items| <= |t.rows|
            && (forall k :: 0 <= k < |idx| ==> idx[k] < |t.rows| && CurrentRecord(cols, t.rows[idx[k]]) == Some(items[k]))
            && (forall k, l :: 0 <= k < l < |idx| ==> idx[k] < idx[l])
            && (forall k :: 0 <= k < |items| ==> ValidCurrentItem(items[k], cols))
  {
    var cols := ResolveCurrentColumns(t.columns).value;
    FilterMapProvenance(t.rows, CurrentRecordOf(cols));
    FilterMapAll(t.rows, CurrentRecordOf(cols), (c: CurrentItem) => ValidCurrentItem(c, cols));
  }

  lemma CurrentRecordKept(cols: CurrentColumns, row: Row)
    ensures CurrentRecord(cols, row).Some? <==> UsablePart(PartText(row, cols.part)) && Quantity(row, cols.qty) >= 0.0
  {
  }

  /** A row is kept exactly when its stripped part number is usable and its quantity is at least 0. */
  lemma CurrentKeptExactly(t: Table)
    requires !IsEmptyTable(t) && ResolveCurrentColumns(t.columns).Some?
    ensures var cols := ResolveCurrentColumns(t.columns).value;
            var idx := KeptIndices(t.rows, CurrentRecordOf(cols));
            forall i :: 0 <= i < |t.rows| ==>
              (i in idx <==> UsablePart(PartText(t.rows[i], cols.part)) && Quantity(t.rows[i], cols.qty) >= 0.0)
  {
    var cols := ResolveCurrentColumns(t.columns).value;
    var idx := KeptIndices(t.rows, CurrentRecordOf(cols));
    FilterMapProvenance(t.rows, CurrentRecordOf(cols));
    forall i | 0 <= i < |t.rows|
      ensures i in idx <==> UsablePart(PartText(t.rows[i], cols.part)) && Quantity(t.rows[i], cols.qty) >= 0.0
    {
      CurrentRecordKept(cols, t.rows[i]);
      if i in idx {
        var k :| 0 <= k < |idx| && idx[k] == i;
      }
    }
  }
}
