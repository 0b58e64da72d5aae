# PFEP inventory analyzer — verified model of the analysis core

The analyzer compares a company's on-hand stock with its PFEP (Plan For Every Part) master data.
The PFEP table gives each part a target quantity (`RM_IN_QTY`), a vendor and a location. The
current-inventory table gives each part an on-hand quantity and a stock value. The core of
`PFEPInventoryAnalyzer` in `quality.py` works in five steps:

1. **Coercion** (`safe_float_convert`, `safe_int_convert`). A spreadsheet cell becomes a number.
   Missing cells, empty cells and unreadable text all give 0.
2. **Standardisation** (`standardize_pfep_data`, `standardize_current_inventory`, and the nested
   `find_column`). Each table's columns are resolved through lists of header aliases. Every row then
   becomes a record or is dropped.
3. **Matching** (`match_inventory_data`). Each inventory item is joined to a PFEP item. An exact
   (part number, description) key is tried first. Without one, the first key in insertion order with
   the same part number is used. Comparisons are upper-cased.
4. **Classification** (`calculate_variance`, `determine_status`, `process_matched_data`). Each matched
   row gets a variance against its target and a status: within norms, excess or short. The rows are
   tallied per status.
5. **Vendor roll-up** (`get_vendor_summary`). The processed rows are grouped by vendor name.

The modules follow these steps:

- `Text` — `strip`, `lower`, `upper` and `replace`.
- `Coercion` — the two converters.
- `Columns` — header normalisation and alias resolution.
- `Standardize` — the two row loops.
- `Matching` — the lookup and the join.
- `Variance` — variance and status.
- `Summary` — processing and the status tally.
- `Vendors` — the vendor table.
- `Sample` — worked cases.

`Wrappers` holds `Option`. `Seqs` holds `FilterMap`, a keep-or-drop map over a sequence. The
standardising loops and the matching loop are proved against `FilterMap`. The other loops are proved
against their own recursive functions: `BuildLookup`, `FindMatch`, `ProcessAll` with `TallyOf`, and
`VendorSummaryOf`. `StandardizePfepRow`, `StandardizeCurrentRow` and `LookUp` are the bodies of those
loops, split out as helper methods.

The Python dictionaries whose order matters are modelled as an insertion order plus a map. These are
the PFEP lookup and the vendor table. Storing under a key that is already present replaces the value
and leaves the key in place, as a Python dict does. The loops of the source are methods with loop
invariants. Each method's `ensures` ties its result to a recursive specification function, and
lemmas state what the source promises about that function.

Quantities are mathematical reals and stock values are unbounded integers. A spreadsheet cell is
either missing or its text.

The code, and so the model, does not do the following:

- Strip currency symbols.
- Read accounting parentheses as negative numbers.
- Raise an error for a missing required column. The step returns an empty list instead.
- Normalise headers beyond lower-casing them and turning spaces into underscores.
- Collect the PFEP parts that never matched. Only unmatched inventory items are collected.
- Merge vendors whose names differ only in case or spacing. Vendors are keyed by the exact name.

`Coercion.CurrencyNotStripped`, `Coercion.ParenthesesNotNegated` and `Columns.SpacedAliasNeverMatches`
state three of these points.

## Model

| member | source | states |
|---|---|---|
| Text.Strip | quality.py:141 | the result of `strip()` is no longer than its input |
| Text.StripSpec | quality.py:141 | `strip()` keeps a contiguous slice that has no whitespace at either end, and everything it drops after that slice is whitespace |
| Text.StripSplit | quality.py:141 | the input is the leading whitespace, then the stripped text, then the trailing whitespace |
| Text.RemoveAllMembers | quality.py:142 | `replace(c, '')` keeps exactly the characters other than `c`, and `c` no longer occurs |
| Text.RemoveAllConcat | quality.py:142 | removing a character distributes over concatenation |
| Text.Lower | quality.py:255 | `lower()` keeps the length and maps each character through the ASCII lower-case map |
| Text.RemoveAll | quality.py:142 | `replace(c, '')` never lengthens the text; `RemoveAllMembers` says what it keeps |
| Text.ReplaceChar | quality.py:255 | `replace(' ', '_')` keeps the length and changes exactly the spaces, each to '_' |
| Text.Upper | quality.py:367 | `upper()` keeps the length and maps each character through the ASCII upper-case map |
| Text.UpperIdempotent | quality.py:367-372 | upper-casing twice is upper-casing once |
| Coercion.Trunc | quality.py:161 | `int()` of a float truncates toward zero, for both signs |
| Coercion.EmptyIsZero | quality.py:138-139 | a missing or empty cell gives 0.0 in the float converter and 0 in the int converter |
| Coercion.SafeFloatConvert | quality.py:136-149 | definition: missing or empty gives 0.0; otherwise the cleaned text, less one trailing '%', is parsed, and a failed parse gives 0.0 |
| Coercion.SafeIntConvert | quality.py:150-163 | definition: missing or empty gives 0; otherwise the cleaned text is parsed and truncated, and a failed parse gives 0 |
| Coercion.Cleaned | quality.py:141-142 | definition: `strip()`, then every comma removed, then every space removed |
| Coercion.DropPercent | quality.py:144-145 | a text ending in '%' is the result followed by '%'; any other text is left as it is |
| Coercion.ParseFloat | quality.py:147-149 | definition of `float()` on finite decimal text: surrounding whitespace, one optional sign, digits with an optional '.', an optional exponent, and at least one digit |
| Coercion.SameCleanedSameValue | quality.py:136-163 | two non-empty texts with the same cleaned form convert to the same value in both converters |
| Coercion.RejectedIsZero | quality.py:147-163 | text whose cleaned form `float()` rejects gives 0.0 from the float converter and 0 from the int converter, never an error |
| Coercion.LeadingWhitespaceIgnored | quality.py:141 | leading whitespace changes neither the cleaned text nor what either converter returns |
| Coercion.IntTruncatesFloat | quality.py:136-163 | when the cleaned text does not end in '%', the int converter is the truncation of the float converter |
| Coercion.CleanedIgnoresStrip | quality.py:141-142 | when the only whitespace is the plain space, the strip before removing spaces changes nothing |
| Coercion.ParseFloatCharset | quality.py:147-149 | the modelled `float()` succeeds only on text made of ASCII digits, signs, '.', 'e' and 'E' once stripped |
| Coercion.ParseFloatRejects | quality.py:147-149 | any other character makes the modelled `float()` fail |
| Coercion.ParseDigits | quality.py:148 | a plain digit string parses to the number it spells |
| Coercion.PercentRejected | quality.py:161 | `float()` refuses a number followed by '%' |
| Coercion.SafeFloatGrouped | quality.py:136-149 | digits with thousands separators and spaces, with or without a trailing '%', read as the number their digits spell |
| Coercion.SafeIntGrouped | quality.py:150-163 | the int converter reads grouped digits as the same whole number, but a trailing '%' makes it give 0 |
| Coercion.CurrencyNotStripped | quality.py:141-149 | a leading '$' or '₹' is not removed, so the converter gives 0.0 |
| Coercion.ParenthesesNotNegated | quality.py:141-149 | "(500)" gives 0.0, not -500 |
| Columns.Normalize | quality.py:255 | a normalised header has the original length and contains no space |
| Columns.NormalizeIdempotent | quality.py:255 | normalising a normalised header changes nothing |
| Columns.AvailableColumns | quality.py:255 | every header's normal form is a key, and each key maps to a header with that normal form |
| Columns.AvailableLastWins | quality.py:255 | when two headers share a normal form, the later one is kept, as the dict comprehension does |
| Columns.FirstAlias | quality.py:258-262 | the scan returns the first alias present; no earlier alias is present |
| Columns.FindColumn | quality.py:258-262 | definition: the header stored under the first alias present, or nothing |
| Columns.Resolve | quality.py:255-270 | definition: `find_column` over the table built from a table's headers |
| Columns.ResolveSpec | quality.py:258-270 | a field resolves exactly when some header normalises to one of its aliases; the header found is non-empty, comes from the table, and answers the earliest alias that has any match |
| Columns.SpacedAliasNeverMatches | quality.py:247 | the alias "part description" can never match, because normalised headers hold no space |
| Standardize.PfepRecord | quality.py:284-297 | definition: the item a PFEP row becomes, or nothing when the row is dropped |
| Standardize.StandardizePfepData | quality.py:240-302 | the loop returns the row-by-row selection: an empty table or a missing required column gives [], otherwise each row's item or nothing, in order |
| Standardize.PfepMissingColumn | quality.py:272-278 | without a part-number or target-quantity column, nothing is produced |
| Standardize.PfepOutputSpec | quality.py:281-302 | the output is an order-preserving selection of the rows; every item has a usable part number, a target of at least 0, and empty text for each unresolved optional column |
| Standardize.PfepKeptExactly | quality.py:282-297 | a PFEP row is kept exactly when its stripped part number is non-empty and not "nan" in any case, and its target quantity is at least 0 |
| Standardize.CurrentRecord | quality.py:342-352 | definition: the item an inventory row becomes, or nothing when the row is dropped; the stock value is 0 without a value column |
| Standardize.StandardizeCurrentInventory | quality.py:304-357 | the loop returns the row-by-row selection, with [] for an empty table or a missing required column |
| Standardize.CurrentMissingColumn | quality.py:330-336 | without a part-number or quantity column, nothing is produced |
| Standardize.CurrentOutputSpec | quality.py:339-357 | the output is an order-preserving selection of the rows; every item has a usable part number, a quantity of at least 0, and defaults for unresolved optional columns |
| Standardize.CurrentKeptExactly | quality.py:340-352 | an inventory row is kept exactly when its stripped part number is usable and its quantity is at least 0 |
| Matching.BuildLookup | quality.py:365-368 | definition: each PFEP item stored in turn under its upper-cased (part, description) key; a new key goes to the end of the order, a repeated key only replaces the value |
| Matching.BuildPfepLookup | quality.py:365-368 | the loop builds exactly the lookup that storing every PFEP item under its key, in order, produces |
| Matching.LookupValid | quality.py:365-368 | each key appears once in the insertion order, and the order lists exactly the stored keys |
| Matching.LookupEntries | quality.py:365-368 | every PFEP item's key is stored, and each stored value is a PFEP item filed under its own key |
| Matching.LookupLastWins | quality.py:368 | the stored value for a key is the last PFEP item with that key |
| Matching.LookupNoPart | quality.py:382-385 | when no PFEP item has the part, the scan over the keys finds nothing |
| Matching.LookupFirstPart | quality.py:365-385 | the first key in insertion order with a given part is the key of the first PFEP item with that part |
| Matching.FirstPartIndex | quality.py:382-385 | the scan with `break` stops at the first key with the part, or runs off the end |
| Matching.LookUp | quality.py:372-385 | one inventory item's lookup: the exact key if stored, otherwise the value of the first key in insertion order with the same part |
| Matching.FindMatch | quality.py:372-385 | definition: the value under the item's own key, else the value under the first key in insertion order with the same part, else nothing |
| Matching.MatchFor | quality.py:372-385 | a match, when there is one, is a PFEP item with the same upper-cased part number |
| Matching.UnmatchedIff | quality.py:375-401 | an item is unmatched exactly when no PFEP part number equals its own, upper-cased |
| Matching.ExactHitWins | quality.py:378-379 | an exact (part, description) hit is used, and it gives the last PFEP item with that key |
| Matching.PartOnlyHit | quality.py:380-385 | without an exact hit, the match is the last PFEP item that shares the key of the first PFEP item with the same part |
| Matching.MatchedRow | quality.py:388-398 | definition: part number, quantity and stock value from the inventory item, its description unless empty, the rest from the PFEP item |
| Matching.MatchInventoryData | quality.py:359-403 | the two lists are the matched rows and the unmatched items, each in input order, and their lengths add up to the number of inventory items |
| Matching.MatchedProvenance | quality.py:387-399 | each matched row comes, in order, from an inventory item: quantity and stock value from that item, the description unless it is empty, and the target, vendor and location from a PFEP item with the same upper-cased part |
| Matching.UnmatchedProvenance | quality.py:400-401 | the unmatched list is, in order, exactly the inventory items that no PFEP part number matches |
| Variance.CalculateVariance | quality.py:405-412 | a zero target gives (0, 0); otherwise the value is current minus target, and the percentage is that value as a percentage of the target |
| Variance.DetermineStatus | quality.py:414-421 | within norms exactly on [-tolerance, tolerance]; excess exactly above the tolerance; short exactly below -tolerance and not above the tolerance |
| Variance.StatusBands | quality.py:414-421 | for a tolerance of at least 0, the labels split at -tolerance and tolerance, and both boundaries are within norms |
| Variance.NegativeToleranceNoBand | quality.py:414-421 | a negative tolerance leaves no band: every item is excess or short |
| Variance.WiderToleranceKeepsNorms | quality.py:414-421 | raising the tolerance never takes an item out of norms |
| Variance.OnTargetWithinNorms | quality.py:405-421 | holding exactly the target, or having a zero target, gives 0 % and within norms for any tolerance of at least 0 |
| Variance.StatusByQuantity | quality.py:405-421 | for a positive target, excess means a quantity above target × (1 + tolerance/100), and short means one below target × (1 - tolerance/100) |
| Summary.Process | quality.py:434-456 | a processed row carries every field of its matched row; its variance is that of its quantity against its target (zero for a zero target, otherwise the difference and that difference in percent of the target); its status is the status of that variance |
| Summary.ProcessAll | quality.py:433-457 | one processed row per matched row, in order |
| Summary.Tally.Add | quality.py:460-461 | counting a row under a status adds one to that bucket's count and its stock value to the bucket's value, and leaves the other buckets alone |
| Summary.TallyOf | quality.py:426-462 | definition: the three buckets start at zero and each processed row is added in turn |
| Summary.ProcessMatchedData | quality.py:423-464 | the loop returns every matched row processed, in order, and the status tally of those rows |
| Summary.TallyIsFilter | quality.py:426-462 | each status's bucket counts exactly the rows with that status and sums exactly their stock values |
| Summary.TallyTotals | quality.py:426-462 | the three buckets count every processed row once, and their values add up to the total stock value |
| Vendors.AddToEntry | quality.py:482-502 | definition: one row added to a vendor's totals, counted under short, excess or, otherwise, normal |
| Vendors.Record | quality.py:468-486 | definition: a new vendor name gets a zeroed entry with the row's code and location and goes to the end of the order; then the row is added to its vendor's entry |
| Vendors.GetVendorSummary | quality.py:466-504 | the loop builds exactly the vendor table that adding the processed rows one by one produces |
| Vendors.VendorTableValid | quality.py:471-486 | each vendor name appears once in the table's order, and the order lists exactly the stored names |
| Vendors.VendorKeys | quality.py:469-472 | the table has a row for a name exactly when some processed row carries that vendor name |
| Vendors.VendorEntryIsFilter | quality.py:469-502 | a vendor's row is the header of its first processed row, followed by the totals of exactly its own rows |
| Vendors.AccumulateTotals | quality.py:488-502 | adding rows raises the part count by their number, the on-hand and target quantities by their sums, the total value by their stock sum, and the short and excess counts and values by those of the rows with that status |
| Vendors.AccumulateConsistent | quality.py:488-502 | short, excess and normal parts add up to the total parts, and their values add up to the total value |
| Vendors.VendorEntrySpec | quality.py:466-504 | every vendor row is consistent, takes code, city and state from that vendor's first row, and totals exactly that vendor's rows: parts, on-hand quantity, target quantity and value overall, and count and value for short and for excess |
| Vendors.VendorPartsTotal | quality.py:466-504 | summed over all vendors, `total_parts` is the number of processed rows |
| Sample.SampleRowIsExcess | quality.py:405-421 | the sample part AC0303020106 (target 4, on hand 5.23) is 30.75 % over target: excess at tolerance 30, within norms at 31 |
| Sample.CaseInsensitiveMatch | quality.py:367-379 | "a1"/"widget" matches "A1"/"Widget" by its exact key, and 12 against a target of 10 is 20 % over |
| Sample.EndToEnd | quality.py:359-464 | two parts at 5.23 of 4 and 8.36 of 6, tolerance 30: both are excess, and the tally is two excess rows worth 2480 with nothing else |

## Left out

- User interface, authentication, session state, charts, export and file upload. Tables reach the model already split into headers and rows of cells.
- The sample-data loaders. The quantities of two of their rows (AC0303020106 and AC0303020105) appear only as worked cases in `Sample`.
- UI-side filtering, sorting and number formatting of the results.
- Coercion.SafeFloatConvert: `float()` is modelled on finite decimal text only. Python's `float()` also accepts "inf", "nan", "infinity", digit-group underscores, and non-ASCII decimal digits such as "१२" or full-width "１２" (both 12.0); the model gives 0.0 for all of these. Python also turns finite text too large for a double, such as "1e400", into inf, where the model gives the exact value. A PFEP or inventory row whose quantity text is "nan" is therefore kept by the model, while the source drops it because NaN is not at least 0.
- Coercion.SafeIntConvert: for the same reason the model does not raise on "inf". In the source, `int(float('inf'))` raises an OverflowError that the converter does not catch, so the outer `try` of the standardising loop drops the row.
- IEEE rounding: quantities are exact reals, so variance percentages carry no rounding error. For example, 30.75 is exact here.
- Numeric cells: a cell is modelled as its text. A cell pandas has already read as a number is represented by the text `str()` gives it.
- Headers are assumed to be strings. Case mapping covers ASCII letters only, and whitespace is the set Python's `str.isspace()` accepts.
- The outer `try/except` of both standardising loops. Apart from the overflow case above, nothing inside it can raise.
- The error messages shown for a missing column. The model returns the empty list, as the code does.
- The truthiness test on a matched PFEP item (`if pfep_match`). A standardised item is a non-empty dict, so it is always true.
- A list of reference parts that never matched, and a zero-overlap readiness check: the source has neither, so the model has neither.
