# DBHandler: a verified model of the result-set helpers and the filter compiler

DBHandler is a static C# helper class around SQL Server access. This project models
its in-memory core in Dafny and proves properties of the model:

- **applyFilter** turns a list of user-interface filters (`FilterViewModel`) into SQL.
  It appends bracketed conditions to an initial command. It binds option, range and
  checkbox operands to fresh `@guid` parameters in the caller's dictionary, and a select
  on a "bit" column binds its parsed Int16. A select on a "string" column reads its
  operand as a flag and binds nothing. No operand text enters the command. It sets an
  item's `allowNull` to 1 when one of its operands is blank.
- **hideColumn** (both overloads) drops named columns from a header and its data.
  It keeps the rest in lockstep and rebuilds the column-name index `entries`.
- **trimLength** (both overloads) cuts long cells to `limit` characters plus `"..."`.
  It spares exempt columns and `<a href=` links.
- **addTimeSpan** (the multi-row overload) cuts the start and end times to dates
  for full-day rows. It inserts "Working days" and "Pub Holidays" after "End Time",
  in every row and in the header, and rebuilds `entries`.
- **toString**, **toInt32** and **toBool** coerce one boxed database value.

Module layout:

- `Wrappers`: `Option`, `Result` and the exception kinds (`Fault`).
- `Text`: `String.Join`, `Trim`, `ToLower`, `Contains` and decimal digits.
- `Numbers`: `Int16.TryParse` and the `(Int32)` conversion of a `Decimal`.
- `Runtime`: the boxed values a reader returns, plus a `Platform` bundle for the
  framework calls the model takes as given: culture formatting and parsing, `Convert.*`,
  and the external `Holiday.holidayCount`.
- `Coercion`: the three coercion functions.
- `Tables`: the header/data/entries containers. These are classes `Record` (one row)
  and `Table` (many rows), whose methods update the fields in place as the C# updates
  its lists. Each method is proved against a specification function: `Kept`/`Pick`,
  `Index`, `TrimRow`, `ExtendedRow`.
- `Filter`: applyFilter.
  - `FilterViewModel` and `ParamDictionary` are classes with the fields the method
    writes.
  - `Run` folds a `Step` over the items. It threads the tokens of the command, the
    parameters, every item object's `allowNull`, the number of GUIDs drawn, and the
    fault.
  - The method `ApplyFilter` is proved to end in the state `Run` describes.
  - Tokens record where each piece of text comes from: `Command`, `Literal`, `Column`,
    `Name`, `NameList`.
- `FilterLemmas`: the properties of `Run`.

`Guid.NewGuid()` is modelled by a parameter `guids: nat -> string`. It gives the
parameter name of the k-th draw; the C# builds it as `@` followed by the GUID without
dashes, and the model does not constrain its form. Draws are counted across the
whole call.

## Model

| member | source | states |
|---|---|---|
| Filter.ApplyFilter | DBHandler/DBHandler.cs:935-1046 | The method returns `Ok(String.Join(" ", lstCmd))` for the tokens of `Run` over all items. On the exception an item with too few operands throws, it returns `Err(IndexOutOfRange)`. Either way, `param` and every item's `allowNull` end as `Run` says, including writes made before the exception. |
| Filter.ApplyItems | DBHandler/DBHandler.cs:941-1044 | The loop over the items matches `Run` item by item: the text list, the draws, the dictionary and each item object's `allowNull`. After a fault, no later item is processed. |
| Filter.ApplyStep | DBHandler/DBHandler.cs:943-1044 | One pass of the loop is one `Step`. An item whose type is not allowed is skipped. No item object other than the current one is changed. |
| Filter.ApplyGroup | DBHandler/DBHandler.cs:948-1043 | A recognised item appends `"\n and (("`, runs the switch, and then removes the opening again or closes the group. Exactly the rendered `ItemTokens` are appended. |
| Filter.CloseGroup | DBHandler/DBHandler.cs:1031-1043 | Without a condition, `RemoveAt(quotePosition)` deletes the opening bracket. With one, `")"`, the `or col is NULL` alternative when `allowNull == 1`, and `")"` are appended. |
| Filter.Group | DBHandler/DBHandler.cs:1031-1043 | A closed group has 3 or 6 more elements than its condition. It opens with `"\n and (("`, holds the condition unchanged, and ends with `")"`. |
| Filter.ApplyItem | DBHandler/DBHandler.cs:950-1030 | The switch on the item type dispatches to the four cases. Each case's effect equals the per-item function `ItemStep`. |
| Filter.ApplyOption | DBHandler/DBHandler.cs:952-967 | `col in (names)` has one fresh name per value, in order. Each name is bound to its value. `allowNull` becomes 1 exactly when some value is blank. |
| Filter.ApplyRange | DBHandler/DBHandler.cs:968-985 | `col >= n0 \n and col <= n1` binds both operands. A missing `value[0]` faults after one draw; a missing `value[1]` faults after two draws and the binding of `value[0]`. A blank operand sets `allowNull`. |
| Filter.ApplyCheckbox | DBHandler/DBHandler.cs:986-995 | `col = n`: a missing operand faults after one draw, and a blank operand sets `allowNull`. |
| Filter.ApplySelect | DBHandler/DBHandler.cs:996-1029 | A blank value only sets `allowNull`. A parsed Int16 other than 32767 gives the text test ("string") or `col = n` bound to the number ("bit"). Anything else adds nothing. A missing operand faults. |
| Filter.ItemStep | DBHandler/DBHandler.cs:950-1030 | Every item keeps the discipline. Draws only grow. `allowNull` stays or becomes 1. A fault emits nothing and leaves `allowNull`. Without a fault, the names bound and the names in the condition are exactly the names drawn, in order. |
| Filter.OptionBindingNames | DBHandler/DBHandler.cs:955-963 | The option bindings use the drawn names in draw order. |
| Filter.RunStopsAtFault | DBHandler/DBHandler.cs:941-1044 | Once an item has thrown, the later items change nothing. |
| FilterLemmas.FaultIffShort | DBHandler/DBHandler.cs:950-1030 | applyFilter throws exactly when some item of an allowed type has fewer operands than it reads: two for number/date/text, one for checkbox and select, none for option. The exception is always the index fault. |
| FilterLemmas.ItemFaultIffShort | DBHandler/DBHandler.cs:950-1030 | One item throws exactly when it is short of operands. |
| FilterLemmas.Unrecognised | DBHandler/DBHandler.cs:936-947 | An empty filter, or one whose types are all outside the allowed set, gives back `initialCmd` unchanged. It binds nothing and touches no `allowNull`. |
| FilterLemmas.SilentItem | DBHandler/DBHandler.cs:1031-1032 | An item that emits no condition leaves the command text as it was. |
| FilterLemmas.TokensGrow | DBHandler/DBHandler.cs:941-1044 | The text only grows: later items never change what earlier items appended. |
| FilterLemmas.CommandFirst | DBHandler/DBHandler.cs:941 | The command always starts with `initialCmd`. |
| FilterLemmas.ItemOrder | DBHandler/DBHandler.cs:948-1043 | An item's tokens follow those of the items before it. They are the opening, the condition in switch order, `")"`, and a closing `")"` at the very end. A silent item appends nothing. |
| FilterLemmas.ItemConditionTokens | DBHandler/DBHandler.cs:952-1029 | A condition consists only of the item's column, fixed SQL pieces and parameter names. |
| FilterLemmas.NullAlternative | DBHandler/DBHandler.cs:1034-1041 | `" is NULL "` is among an item's tokens exactly when the item emitted a condition and its `allowNull` is 1. |
| FilterLemmas.TextOrigin | DBHandler/DBHandler.cs:935-1046 | No operand value enters the command text. Every piece is `initialCmd`, fixed SQL, some item's column, or parameter names. |
| FilterLemmas.NoOperandText | DBHandler/DBHandler.cs:935-1046 | In the text applyFilter returns, every token is `initialCmd`, fixed SQL or some item's column, or carries only parameter names this call drew. No operand value is among them. |
| FilterLemmas.ItemTokensOrigin | DBHandler/DBHandler.cs:948-1043 | The same, for the tokens of one item. |
| FilterLemmas.NamesDrawn | DBHandler/DBHandler.cs:952-1029 | Without a fault, the parameter names in the command are exactly the names drawn, in draw order. |
| FilterLemmas.SupplyDistinct | DBHandler/DBHandler.cs:958 | With distinct GUIDs, the drawn names are pairwise distinct, so each name appears once. |
| FilterLemmas.ParamsDrawn | DBHandler/DBHandler.cs:952-1029 | Without a fault, the dictionary holds the caller's keys plus exactly the drawn names. |
| FilterLemmas.BindKeys | DBHandler/DBHandler.cs:960 | Assigning through the indexer adds exactly the bound names as keys. |
| FilterLemmas.OptionValuesBound | DBHandler/DBHandler.cs:955-963 | Each option value is bound, unchanged, to the name drawn for it. |
| FilterLemmas.SelectString | DBHandler/DBHandler.cs:998-1019 | On a "string" column, choice 1 tests for text present and any other choice tests for text absent. No parameter is bound. |
| FilterLemmas.SelectBit | DBHandler/DBHandler.cs:1020-1027 | On a "bit" column, the item compares with one fresh parameter bound to the parsed number. |
| FilterLemmas.SelectSilent | DBHandler/DBHandler.cs:996-1029 | A select emits nothing exactly when its value is blank, is not an Int16, is 32767, or its data type is neither "string" nor "bit". Then it binds nothing, and `allowNull` is 1 only if the value was blank. |
| FilterLemmas.ItemAllowNull | DBHandler/DBHandler.cs:960-1000 | An item that does not throw sets `allowNull` to 1 exactly on a blank operand and otherwise keeps it. |
| FilterLemmas.AllowNullOnlyRises | DBHandler/DBHandler.cs:935-1046 | `allowNull` is never reset: each value stays or becomes 1, and a 1 remains 1. |
| FilterLemmas.AllowNullIff | DBHandler/DBHandler.cs:935-1046 | Without a fault, an item object ends with `allowNull` 1 exactly when it started with 1 or appears in the list with a blank operand. This also covers one object listed twice. |
| Tables.Record.HideColumn | DBHandler/DBHandler.cs:805-819 | Header and data keep the non-hidden positions, in order. `entries` is the index of the new header. |
| Tables.Table.HideColumn | DBHandler/DBHandler.cs:821-842 | The header keeps its non-hidden names. Each row keeps exactly its cells in non-hidden columns. `entries` is rebuilt. |
| Tables.Table.KeepCells | DBHandler/DBHandler.cs:836-839 | The inner loop keeps exactly the cells of one row whose column is not hidden. |
| Tables.HideRecordLockstep | DBHandler/DBHandler.cs:805-819 | New header and data have equal length. The k-th name labels the k-th cell, both taken from the same surviving position. Every non-hidden position survives. |
| Tables.HideRowLockstep | DBHandler/DBHandler.cs:821-842 | A row as long as the header stays as long as the new header and keeps the cells of the surviving positions. |
| Tables.PickAt | DBHandler/DBHandler.cs:811-818 | Filtering takes exactly the cells at the surviving positions, in increasing order. |
| Tables.KeptIndices | DBHandler/DBHandler.cs:811-818 | The surviving positions increase, are not hidden, and include every position that is not hidden. |
| Tables.Index | DBHandler/DBHandler.cs:908-910 | The rebuilt `entries` holds exactly the header's names. Each maps to a position holding that name, the last such position. |
| Tables.IndexDistinct | DBHandler/DBHandler.cs:908-910 | With distinct names, `entries[header[k]] == k`. |
| Tables.KeptDistinct | DBHandler/DBHandler.cs:805-842 | Hiding keeps distinct names distinct. |
| Tables.KeptIdempotent | DBHandler/DBHandler.cs:805-842 | Hiding the same columns twice is hiding them once. |
| Tables.KeptNothing | DBHandler/DBHandler.cs:805-842 | Hiding columns the header does not have changes nothing. |
| Tables.KeptConcat | DBHandler/DBHandler.cs:805-842 | Hiding distributes over concatenated headers. |
| Tables.TrimCell | DBHandler/DBHandler.cs:913-932 | A cell is cut to `cell[..limit] + "..."` exactly when it is longer than `limit`, its column is not exempt, and it does not start with `<a href=`. Otherwise it is kept. The cases where the C# throws are the index fault. Lengths are counted in characters (see "## Left out"). |
| Tables.TrimCellSafe | DBHandler/DBHandler.cs:913-932 | With `limit >= 7`, and a header label for every exempt-checked column, trimming never throws. |
| Tables.TrimCellIdempotent | DBHandler/DBHandler.cs:913-932 | Trimming a cell twice gives the same string as trimming it once (for `limit >= 5`). |
| Tables.TrimRowIdempotent | DBHandler/DBHandler.cs:913-932 | Trimming a row twice is trimming it once. |
| Tables.Record.TrimLength | DBHandler/DBHandler.cs:923-932 | Every cell of the row becomes its `TrimCell`. |
| Tables.Table.TrimLength | DBHandler/DBHandler.cs:913-921 | Every cell of every row becomes its `TrimCell`. |
| Tables.InsertTwo | DBHandler/DBHandler.cs:901-906 | Two consecutive inserts put the two values at `k` and `k+1`. Removing them gives back the list. |
| Tables.Reformatted | DBHandler/DBHandler.cs:888-897 | Unless `isFullDay` is `"false"`, the start and end cells become their dates, formatted with `dateFormat`. With `"false"`, the row is unchanged. |
| Tables.ExtendedRow | DBHandler/DBHandler.cs:888-902 | Each row gains two cells after "End Time", and removing them gives the reformatted row. |
| Tables.Table.AddTimeSpan | DBHandler/DBHandler.cs:879-911 | Without an `isFullDay` column, nothing changes. Otherwise every row becomes its `ExtendedRow`, the header gains "Working days" and "Pub Holidays" after "End Time", and `entries` is rebuilt from the new header. |
| Tables.Table.ExtendRow | DBHandler/DBHandler.cs:888-902 | The loop body on one row computes `ExtendedRow`. |
| Tables.Table.Reindex | DBHandler/DBHandler.cs:908-910 | `entries.Clear()` and reassigning every position rebuild `Index(header)`. |
| Tables.HideInsertedColumns | DBHandler/DBHandler.cs:905-906 | The two inserted header names are exactly what hideColumn of those names removes again. |
| Coercion.ToString | DBHandler/DBHandler.cs:459-482 | A null value gives `""`. Types other than Boolean, DateTime and TimeSpan give `obj.ToString()`. Failures are only the invalid cast, `ContainsKey(null)`, the missing label and the `FormatException` of a date pattern `DateTime.ToString` refuses; the last happens exactly for a DateTime value whose pattern is refused. |
| Coercion.BooleanLabels | DBHandler/DBHandler.cs:467-471 | A Boolean without labels for its column shows as "true"/"false"; with them, as its label. A missing label throws `KeyNotFound`. |
| Coercion.DateTimePattern | DBHandler/DBHandler.cs:472-476 | The date-and-time pattern is used exactly when the column name spells "time" in any case. A pattern the framework refuses gives `FormatException`. |
| Coercion.DateTimePatternExamples | DBHandler/DBHandler.cs:459-476 | "EndTime" gets date plus time, and no header gets the date alone. With the default arguments, "EndTime" gets `"dd/MM/yyyy HH:mm"` and "Name" gets `"dd/MM/yyyy"`. |
| Coercion.TimeSpanDisplay | DBHandler/DBHandler.cs:477-478 | A span of d days, h hours and m minutes, in either direction, shows as `hh:mm`. Its fields read back as h and m. |
| Coercion.ClockReadsBack | DBHandler/DBHandler.cs:477-478 | The two fields of `hh:mm` read back as the hours and minutes. |
| Coercion.ToBool | DBHandler/DBHandler.cs:496-503 | Null gives false. A non-String Boolean gives itself. The only failure is the invalid cast of a non-String, non-Boolean value. |
| Coercion.ToBoolString | DBHandler/DBHandler.cs:500-501 | For a String value, toBool is true exactly when the text is "1" or "true" in any case, padded only with white space. |
| Coercion.ToBoolReadsTrimmed | DBHandler/DBHandler.cs:500-501 | toBool reads the trimmed text. Lower-casing and trimming commute. |
| Coercion.TrueWordPadding | DBHandler/DBHandler.cs:500-501 | The trimmed text is a true word exactly when the text is a true word padded with white space. |
| Coercion.BooleanRoundTrip | DBHandler/DBHandler.cs:459-503 | What toString shows for a Boolean without labels, toBool reads back as the same value. |
| Coercion.ToInt32 | DBHandler/DBHandler.cs:484-494 | Null gives 0. A Decimal column is narrowed by the explicit conversion. An Int32 value on any other column gives itself. |
| Coercion.ToInt32DecimalExamples | DBHandler/DBHandler.cs:488-491 | 2.7 gives 2, -2.7 gives -2, and 2^31 overflows. |
| Numbers.DecimalToInt32 | DBHandler/DBHandler.cs:490 | `(Int32)decimal` truncates toward zero. It succeeds exactly inside the Int32 range and otherwise overflows. |
| Numbers.DecimalToInt32Exact | DBHandler/DBHandler.cs:490 | A whole-number Decimal converts exactly, at any scale. |
| Numbers.TruncateTowardZero | DBHandler/DBHandler.cs:490 | The integral part: its magnitude times 10^scale is within one unit below the mantissa's, with the mantissa's sign. |
| Numbers.TryParseInt16 | DBHandler/DBHandler.cs:1000 | A parsed value lies in the Int16 range. |
| Numbers.ParseInt16IgnoresWhite | DBHandler/DBHandler.cs:1000 | White space before and after the number does not change what is parsed. |
| Numbers.ParseRendered | DBHandler/DBHandler.cs:1000 | The decimal text of any integer parses to it exactly when it fits into 16 bits, and is refused otherwise. |
| Numbers.ParseInt16IgnoresTrailingNul | DBHandler/DBHandler.cs:1000 | A `'\0'` after the text does not change what is parsed. |
| Numbers.ParseInt16RoundTrip | DBHandler/DBHandler.cs:1000 | Every rendered 16-bit value parses back to itself. |
| Numbers.ParseInt16RejectsWide | DBHandler/DBHandler.cs:1000 | A number outside 16 bits is refused. |
| Text.TrimPadded | DBHandler/DBHandler.cs:501 | `Trim` gives back exactly the word inside white-space padding. |
| Text.TrimSplits | DBHandler/DBHandler.cs:501 | Every string is its trimmed form padded with white space. |
| Text.ContainsWindow | DBHandler/DBHandler.cs:473 | `String.Contains` holds exactly when some window of the string spells the other. |

## Left out

- Everything that talks to SQL Server (`getString`, `getInt32`, `getDouble`, `getBool`, `ExecuteNonQuery`, their async forms, `countID`, `getConnStr`, `refreshCRMSQL2` and the reader loops): I/O.
- The single-row `addTimeSpan` (DBHandler/DBHandler.cs:845-874): only the multi-row overload is modelled.
- `FilterViewModel` and `Holiday.holidayCount` are not part of this model's sources. The model gives `FilterViewModel` the four properties applyFilter reads and the `allowNull` it writes. It takes `holidayCount` as a given function.
- Null strings, null lists and null elements: strings are never null in the model. The null `header` of toString and the null `boolStr`/`except` are `Option`s. `string.IsNullOrEmpty` therefore reads as "is empty".
- Culture-dependent formatting and parsing (`DateTime.ToString`, `ParseExact`, `Object.ToString` of values other than strings and Int32s, `Convert.*` on other types) are given functions of `Platform`.
- Runtime.ObjectToString: an Int32 is rendered with invariant-culture digits and an ASCII `'-'`. The C# `Int32.ToString()` uses the current culture's negative sign, which some cultures give as U+2212; the model does not capture that. Whether `DateTime.ToString` accepts a pattern is part of that given function: `None` stands for its `FormatException`.
- Numbers.TryParseInt16: the sign is ASCII `'-'` or `'+'` only. `Int16.TryParse(string, out short)` matches the current culture's `NegativeSign` and `PositiveSign`, so under a culture whose negative sign is U+2212 the C# also reads "−5"; the model refuses it.
- Case and white space are modelled for Latin-1 only. `ToLower` maps ASCII letters only and is taken as the invariant culture. Under a culture such as tr-TR, `"TIME".ToLower()` gives a dotless `ı`, so the C# would not see "time", and the model does not capture that.
- `Guid.NewGuid()` is the parameter `guids`. That its draws differ from each other is a property of GUIDs, assumed where needed (`Injective`). The model does not assume that a draw differs from the caller's own keys. If one did collide, the indexer assignment would overwrite the caller's entry, and `ParamsDrawn` states the keys with that overwrite included.
- The values in `param`: `ParamValue` holds only the text and Int16 values applyFilter writes. An entry the caller put in beforehand is kept as is, but the model can only represent it as one of these two kinds, not as an arbitrary `object`.
- The 96-bit bound of `System.Decimal`: the mantissa is unbounded.
- Aliasing between the row lists of one table, and between `header` and `data`: the containers are distinct fields.
- Filter.ApplyFilter: on the fault path it returns `Err` and the partial `lstCmd` is dropped, as the C# exception drops it. `param` and `allowNull` keep the earlier writes, as in the C#.
- Filter.CloseGroup: when no condition was added, the removal of the opening is stated for whatever condition was appended. In the C# that condition is always empty.
- Tables.Table.AddTimeSpan: requires every row to have the three columns in range, both times to parse, and, on a full-day row, both dates to format with `dateFormat` (`RowReady`). The C# throws (`KeyNotFound`, `ArgumentOutOfRange`, `FormatException`) otherwise, and those exception paths are not modelled.
- Tables.Table.HideColumn: requires no row to be longer than the header. A longer row makes the C# throw on `tempHeader[j]`.
- Tables.Record.HideColumn: requires a data cell for every kept header position, as the C#'s `tempData[i]` needs.
- Tables.Record.TrimLength: requires every cell to be trimmable without a fault (`RowTrimmable`). The faults are modelled one cell at a time by `Tables.TrimCell`.
- Tables.Table.TrimLength: requires every row to be trimmable, as above.
- Tables.TrimCell: lengths and cuts are counted in Unicode characters, the elements of a Dafny `string`. The C# `Length` and `Substring` count UTF-16 code units. For text inside the Basic Multilingual Plane the two agree. A character outside it, such as an emoji, is two code units in the C#, so both the fault (`Substring(0, 8)` on a short cell) and the cut position can differ. A cut between the two halves of such a character, which the C# can make, is not representable in a Dafny `string`.
- Tables.Record.TrimLength: inherits the character-versus-UTF-16-unit difference of `Tables.TrimCell`.
- Tables.Table.TrimLength: inherits the character-versus-UTF-16-unit difference of `Tables.TrimCell`.
- FilterLemmas.NamesDrawn: "each name appears once" is proved at the level of the token list, with `SupplyDistinct`. It is not proved for the joined string, where a name could in principle occur inside `initialCmd` or a column name.
