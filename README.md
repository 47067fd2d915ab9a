# CsvMapper in Dafny

CsvMapper maps the lines of a csv file onto objects of a class `T`. A
mapping gives each property of `T` a column position. The mapping is set
field by field with `SetField`, or inferred from the header line ("autoset"):
each header cell is stripped of spaces and double quotes and matched to a
property name. Each data line is split on a single separator character. A
fresh `T` then gets one property per mapping entry, set from the cell
converted to the property's type. An empty cell gives the type's default
value.

The repository contains three mappers:

- `CsvManager<T>` (CvsManager.cs) and `CsvMap<T>` (CvsMap.cs) are the current
  ones. They keep a `Dictionary<string,int>`, match header cells ignoring
  case, and stream records from `Load`.
- The legacy `CsvManager<T>` (CsvManager.cs with CsvReader.cs) keeps an
  append-only list of targets, matches header cells case-sensitively, and
  returns a whole list from `GetObjectList`.

How reflection, files and selectors are represented:

- Reflection is replaced by an explicit schema. A schema is the sequence of
  the class's properties, each with a name and a type tag:
  - `string`,
  - a value type (`int`, `long`, `bool`),
  - or `Nullable<>` of a value type.
- An object is a map from property name to value.
- The file system is a map from path to the lines `ReadLine` returns.
- A property selector (`x => x.Name`) is the property's name.
- Constructors that can throw become static factory methods returning a
  `Result`. Every other exception path is a `Result` or `Option` error naming
  the .NET exception (`Wrappers.Error`).
- Mutable objects are Dafny classes: the managers, the reader, the
  configuration object and the shared target list.

Files:
- `text.dfy`: Split, Replace, case folding and Trim.
- `wrappers.dfy`: Option, Result and the .NET exceptions (`Error`).
- `values.dfy`: the type tags, the converter and .NET parsing.
- `schema.dfy`: property lookup.
- `materializer.dfy`: the row materialiser.
- `header_inference.dfy`: autoset for the current mappers.
- `streaming.dfy`: files and the `Load` loop.
- The classes: `configuration.dfy`, `cvs_manager.dfy`, `cvs_map.dfy`,
  `legacy_reader.dfy` and `legacy_manager.dfy`.

## Model

| member | source | states |
|---|---|---|
| Text.Split | CsvMapper/CvsManager.cs:118 | `line.Split(sep)` keeps empty cells: there is one more cell than separators, and no cell contains the separator |
| Text.JoinSplit | CsvMapper/CsvReader.cs:69 | splitting loses nothing: joining the cells with the separator gives back the line |
| Text.SplitJoin | CsvMapper/CsvReader.cs:69 | cells free of the separator come back unchanged from splitting their join |
| Text.SplitPrefix | CsvMapper/CsvReader.cs:69 | a separator-free first cell followed by the separator splits off as exactly that cell |
| Text.SplitNoSeparator | CsvMapper/CsvReader.cs:69 | a line without the separator is one cell |
| Text.RemoveAll | CsvMapper/CvsManager.cs:134 | `Replace(c, "")` never lengthens the text |
| Text.RemoveAllSpec | CsvMapper/CvsManager.cs:134 | `Replace(c, "")` leaves no `c`, adds no character, keeps every other character's count, and shortens by the count of `c` |
| Text.RemoveAllConcat | CsvMapper/CvsManager.cs:134 | `Replace(c, "")` works piece by piece, so the characters it keeps stay in order |
| Text.StripSpacesAndQuotes | CsvMapper/CvsManager.cs:134 | a cleaned header cell holds no space and no double quote |
| Text.StripKeepsOthers | CsvMapper/CvsMap.cs:127 | the clean-up keeps every other character as often as it occurred |
| Text.StripConcat | CsvMapper/CvsMap.cs:127 | the clean-up of a concatenation is the concatenation of the clean-ups, so kept characters stay in order ("First Name" cleans to "FirstName") |
| Text.StripKeepsChar | CsvMapper/CsvManager.cs:132 | a single character other than a space or a double quote survives the clean-up |
| Text.RemoveAllAbsent | CsvMapper/CvsManager.cs:134 | replacing an absent character changes nothing |
| Text.StripCleanCell | CsvMapper/CsvManager.cs:132 | a cell without spaces and quotes is its own cleaned text |
| Text.StripIdempotent | CsvMapper/CsvManager.cs:132 | cleaning twice is cleaning once |
| Text.Lower | CsvMapper/CsvMapperReflectionUtils.cs:68 | case folding keeps the length and folds each character |
| Text.TrimNoWhite | CsvMapper/CsvMapperReflectionUtils.cs:106 | a text free of the trimmed characters is its own trim |
| Text.TrimPadded | CsvMapper/CsvMapperReflectionUtils.cs:106 | trimming removes exactly the white padding around a word that neither starts nor ends with white space |
| Text.TrimStartAllWhite | CsvMapper/CsvMapperReflectionUtils.cs:106 | leading trim empties a text made only of white space |
| Text.TrimAllWhite | CsvMapper/CsvMapperReflectionUtils.cs:106 | a text made only of white space trims to nothing |
| Values.Zero | CsvMapper/CsvMapperReflectionUtils.cs:116 | `Activator.CreateInstance` of a value type gives a value of that type |
| Values.DefaultValue | CsvMapper/CsvMapperReflectionUtils.cs:114-117 | GetDefaultValue fits the type, and is null exactly for `string` and `Nullable<>` types |
| Values.ParseInteger | CsvMapper/CsvMapperReflectionUtils.cs:106 | `Convert.ChangeType` to an integer type succeeds only in the type's range, and a blank text is a FormatException |
| Values.ParseBoolean | CsvMapper/CsvMapperReflectionUtils.cs:106 | `Boolean.Parse` succeeds exactly when the text, less `char.IsWhiteSpace` and NUL padding, is "true" or "false" in any case, and gives the matching value |
| Values.ParseBooleanPadded | CsvMapper/CsvMapperReflectionUtils.cs:106 | "True"/"False" padded with white space or NUL ("true\0", a no-break space before "False") parse to the boolean |
| Values.ParseKind | CsvMapper/CsvMapperReflectionUtils.cs:106 | a parsed value has the requested value type |
| Values.ConvertTo | CsvMapper/CsvMapperReflectionUtils.cs:106 | `Convert.ChangeType` gives a value of the target type or an exception |
| Values.Underlying | CsvMapper/CsvMapperReflectionUtils.cs:101-104 | `Nullable.GetUnderlyingType`: `U` for `Nullable<U>`, the type itself otherwise, never a nullable type |
| Values.ChangeType | CsvMapper/CsvMapperReflectionUtils.cs:84-107 | the converted cell fits the property type, and an empty cell gives the type's default |
| Values.EmptyCellDefaults | CsvMapper/CsvMapperReflectionUtils.cs:89-97 | an empty cell gives 0 or false for a value type, and null (not "") for `string` and `Nullable<>` |
| Values.NonEmptyCell | CsvMapper/CsvMapperReflectionUtils.cs:99-106 | a non-empty cell is kept verbatim for `string` and converted as `U` for `Nullable<U>` |
| Values.BlankCellIsNotEmpty | CsvMapper/CsvMapperReflectionUtils.cs:89 | a cell of blanks is not defaulted and fails numeric conversion, for plain and nullable types alike |
| Values.LegacyChangeType | CsvMapper/CsvManager.cs:95-118 | the legacy converter's result fits the property type, and an empty cell gives the type's default |
| Values.LegacyChangeTypeAgrees | CsvMapper/CsvManager.cs:95-118 | the legacy converter, with its null test inside the nullable branch, agrees with the current one on every cell and type |
| Values.ShowNat | CsvMapper/CsvMapperReflectionUtils.cs:106 | decimal formatting gives a non-empty digit string |
| Values.DigitsValueShowNat | CsvMapper/CsvMapperReflectionUtils.cs:106 | the digits of a formatted number denote that number |
| Values.ParseShowInt | CsvMapper/CsvMapperReflectionUtils.cs:106 | integer parsing inverts formatting for numbers in range |
| Values.ChangeTypeShowInt32 | CsvMapper/CsvMapperReflectionUtils.cs:84-107 | a formatted `int` cell converts back to the same number for `int` and `int?` properties |
| Values.ChangeTypeShowBool | CsvMapper/CsvMapperReflectionUtils.cs:84-107 | "True"/"False" convert back to the boolean |
| Schema.Names | CsvMapper/CsvMapperReflectionUtils.cs:28 | the property names are exactly the names of the schema's properties |
| Schema.FindExact | CsvMapper/CsvMapperReflectionUtils.cs:28 | `GetProperty(name)` finds a property with exactly that name, or none when no property has it |
| Schema.MatchesIgnoringCaseSpec | CsvMapper/CsvMapperReflectionUtils.cs:68 | the case-insensitive candidates are exactly the properties equal to the name ignoring case |
| Schema.GetPropertyName | CsvMapper/CsvMapperReflectionUtils.cs:64-76 | the only exception is AmbiguousMatch, and a non-empty result is a declared property name equal to the argument ignoring case |
| Schema.GetPropertyNameSpec | CsvMapper/CsvMapperReflectionUtils.cs:64-76 | GetPropertyName gives "" exactly when no property matches ignoring case; a non-empty result is the declared name of a matching property; a matching property is found unless the match is ambiguous |
| Schema.FreshRecord | CsvMapper/CsvMapperReflectionUtils.cs:22 | `new T()` of a class without initialisers has every property, null exactly for the `string` and `Nullable<>` ones |
| Schema.FreshRecordWellTyped | CsvMapper/CsvMapperReflectionUtils.cs:22 | a fresh object is well typed |
| Materializer.EntryValue | CsvMapper/CsvMapperReflectionUtils.cs:28-32 | one entry converts `row[pos]` to the property's type; an unknown property or a position outside the row fails |
| Materializer.Populated | CsvMapper/CsvMapperReflectionUtils.cs:20-37 | the materialised object is well typed; each mapped property holds its converted cell; every other property keeps its fresh value |
| Materializer.SetPropertiesViaReflection | CsvMapper/CsvMapperReflectionUtils.cs:20-37 | the loop, in any dictionary order, succeeds exactly when every entry converts, and then returns Populated; otherwise it raises a failing entry's exception |
| Materializer.ShortRowFails | CsvMapper/CsvMapperReflectionUtils.cs:32 | a mapped position at or past the end of the row makes the row fail with IndexOutOfRange |
| Materializer.PopulatedLocal | CsvMapper/CsvMapperReflectionUtils.cs:25-33 | remapping one property changes that property only |
| Materializer.PopulatedCharacterized | CsvMapper/CsvMapperReflectionUtils.cs:20-37 | Populated is the only object with the converted cells in mapped properties and defaults elsewhere |
| HeaderInference.Resolutions | CsvMapper/CvsManager.cs:131-136 | one lookup result per header cell, that of its cleaned text |
| HeaderInference.HeaderResolutions | CsvMapper/CvsManager.cs:131 | a header line has one lookup per cell, one more than its separators |
| HeaderInference.AddHeaderColumns | CsvMapper/CvsManager.cs:129-148 | autoset completes exactly when no column fails, and then keeps old entries, maps each matched property to its column and adds nothing else, all below the column count; otherwise it raises the first failing column's exception |
| HeaderInference.UnmatchedColumnNeverFails | CsvMapper/CvsMap.cs:134-138 | a header cell matching no property resolves to "" and never makes autoset fail |
| HeaderInference.SameFieldTwiceFails | CsvMapper/CvsManager.cs:140 | two columns resolving to the same property make `Dictionary.Add` fail |
| HeaderInference.AutoSetStoresDeclaredName | CsvMapper/CvsMap.cs:127-132 | every key autoset adds is a declared property name matching its column's cleaned text ignoring case |
| HeaderInference.AutoSetFindsMatch | CsvMapper/CvsMap.cs:127-132 | once autoset succeeds, a column matching a property ignoring case maps that property's declared name to the column |
| Streaming.ValidateFilePath | CsvMapper/CvsManager.cs:43-53 | an empty path is a NullReferenceException, a missing file a FileNotFoundException, and a path passes exactly when the StreamReader can open it |
| Streaming.OpenLines | CsvMapper/CvsManager.cs:107 | opening gives the file's lines, or the StreamReader's exception |
| Streaming.FirstLine | CsvMapper/CvsManager.cs:59 | the first `ReadLine` is null exactly for an empty file, and otherwise the first line |
| Streaming.DataLines | CsvMapper/CvsManager.cs:109-113 | skipping the header drops exactly the first line, none of an empty file, so the count is `|lines|-1` or `|lines|` |
| Streaming.StreamRecords | CsvMapper/CvsManager.cs:114-122 | the loop yields the populated record of each data line, in file order, up to the first line that fails, whose exception ends it |
| Streaming.RowFailsWithMeansNotOk | CsvMapper/CvsManager.cs:119 | a line that raises is a line that cannot be materialised |
| Streaming.StreamedCompletes | CsvMapper/CvsManager.cs:116-121 | enumeration completes exactly when every data line can be materialised |
| Streaming.StreamedDeterministic | CsvMapper/CsvMapperReflectionUtils.cs:25-33 | the records and whether loading fails do not depend on the dictionary's enumeration order |
| Streaming.JoinedLineLoads | CsvMapper/CvsManager.cs:118-119 | a line joined from separator-free cells loads as those cells would |
| Configuration.CsvMapperConfiguration.constructor | CsvMapper/CsvMapperConfiguration.cs:15-20 | the defaults are AutoSet = false, FirstLineHeader = false, Separator = ',' |
| CvsManager.CsvManager.constructor | CsvMapper/CvsManager.cs:19-25 | an empty mapping and a fresh default configuration |
| CvsManager.CsvManager.Open | CsvMapper/CvsManager.cs:19-25 | the path-only constructor fails as ValidateFilePath says, otherwise has an empty mapping and the defaults |
| CvsManager.CsvManager.OpenWithConfiguration | CsvMapper/CvsManager.cs:32-41 | adopts the caller's configuration object; with AutoSet it autosets from the first line and then sets the caller's FirstLineHeader to true; an empty file raises NullReference and a failing header the first failing column's exception, and then FirstLineHeader is left as it was; without AutoSet the mapping is empty |
| CvsManager.CsvManager.InitializeAutoSet | CsvMapper/CvsManager.cs:55-62 | autosets from the first line; an empty file gives NullReference |
| CvsManager.CsvManager.AutoSetPropertyFields | CsvMapper/CvsManager.cs:129-148 | the dictionary changes as AddHeaderColumns states for the header split on the configured separator |
| CvsManager.CsvManager.SetField | CsvMapper/CvsManager.cs:70-81 | `map[name] == position`, every other entry unchanged (last write wins); returns the same instance |
| CvsManager.CsvManager.RemoveFieldFromMapping | CsvMapper/CvsManager.cs:88-98 | the name is no longer a key, every other entry unchanged, a no-op for an absent name; returns the same instance |
| CvsManager.CsvManager.Load | CsvMapper/CvsManager.cs:105-123 | skips one line when FirstLineHeader or AutoSet, then streams the records of the remaining lines under the current mapping and separator |
| CvsMap.CsvMap.constructor | CsvMapper/CvsMap.cs:43-57 | `_firstLineHeader` is true under autoset and `isFirstLineHeader` otherwise; the mapping starts empty |
| CvsMap.CsvMap.Open | CsvMapper/CvsMap.cs:32-58 | fails on an empty or missing path before any state exists; defaults header = true, ',' and no autoset; with autoset the mapping comes from the first line, an empty file raises NullReference and a failing header the first failing column's exception |
| CvsMap.CsvMap.InitializeAutoSet | CsvMapper/CvsMap.cs:61-68 | autosets from the first line; an empty file gives NullReference |
| CvsMap.CsvMap.AutoSetPropertyFields | CsvMapper/CvsMap.cs:121-140 | the dictionary changes as AddHeaderColumns states: declared names, ignoring case, unmatched columns skipped |
| CvsMap.CsvMap.SetField | CsvMapper/CvsMap.cs:79-90 | `map[name] == position`, every other entry unchanged, so it overrides an autoset position for that field only; returns this |
| CvsMap.CsvMap.Load | CsvMapper/CvsMap.cs:97-115 | skips one line when `_firstLineHeader` or `_autoSet`, then streams one record per remaining line, in order |
| LegacyReader.FieldTargetList.constructor | CsvMapper/CsvManager.cs:31 | the target list starts empty |
| LegacyReader.FieldTargetList.Add | CsvMapper/CsvManager.cs:163-167 | `List.Add` appends one target |
| LegacyReader.FieldResults | CsvMapper/CsvReader.cs:81-97 | one result per target, in target order, copying name and position and reading `row[Position]` |
| LegacyReader.RowsOf | CsvMapper/CsvReader.cs:61-74 | one row per line, in file order |
| LegacyReader.SkipHeader | CsvMapper/CsvReader.cs:48 | `Skip(1)` drops exactly the first row when the header flag is set, none otherwise |
| LegacyReader.CsvReader.constructor | CsvMapper/CsvReader.cs:30-37 | stores path, the shared target list, separator and header flag; CsvRowsResult starts empty |
| LegacyReader.CsvReader.GetHeaderColumn | CsvMapper/CsvManager.cs:74 | the header line is the file's first line, null for an empty file |
| LegacyReader.CsvReader.BuildCsvRow | CsvMapper/CsvReader.cs:81-97 | succeeds exactly when every target position is inside the row, then gives FieldResults; otherwise IndexOutOfRange |
| LegacyReader.CsvReader.GetCsvRowIterator | CsvMapper/CsvReader.cs:61-74 | every line, the first included, is split and built; it succeeds exactly when every line fits the targets |
| LegacyReader.CsvReader.ReadCsvRows | CsvMapper/CsvReader.cs:46-50 | the rows less the first when the header flag is set, stored in CsvRowsResult; on an exception CsvRowsResult is not assigned |
| LegacyReader.ShortHeaderFails | CsvMapper/CsvReader.cs:48 | a header with too few cells for a target makes the read fail although Skip(1) would drop it |
| LegacyReader.HeaderRowDropped | CsvMapper/CsvReader.cs:48 | with a header, row `i` comes from line `i + 1` and there are `|lines|-1` rows |
| LegacyManager.AutoSetTargets | CsvMapper/CsvManager.cs:128-146 | the legacy autoset adds at most one target per header column |
| LegacyManager.AutoSetTargetsOrdered | CsvMapper/CsvManager.cs:130-141 | targets come in strictly increasing column order, at most one per column, each below the column count, so a later column naming the same property comes last |
| LegacyManager.AutoSetTargetsSound | CsvMapper/CsvManager.cs:130-141 | every autoset target names a property exactly, is a column of the header, and its name is that column's cleaned text |
| LegacyManager.AutoSetTargetsComplete | CsvMapper/CsvManager.cs:130-141 | every column whose cleaned text is exactly a property name gets its target |
| LegacyManager.CaseMismatchSkipped | CsvMapper/CsvManager.cs:133 | matching is case-sensitive: a column whose cleaned text is not exactly a property name gets no target |
| LegacyManager.ApplyFieldResults | CsvMapper/CsvManager.cs:187-198 | applying field results fails only with the exceptions of `prop.PropertyType` on a missing property (NullReference) or of the conversion |
| LegacyManager.ApplyFieldResultsSetsFields | CsvMapper/CsvManager.cs:190-196 | a successful application keeps every property and sets a declared property for every field result |
| LegacyManager.ApplyFieldResultsWellTyped | CsvMapper/CsvManager.cs:187-198 | setting field results keeps an object well typed |
| LegacyManager.UnnamedFieldKept | CsvMapper/CsvManager.cs:190-196 | a property no field result names keeps its value |
| LegacyManager.LastResultWins | CsvMapper/CsvManager.cs:190-196 | results are applied in list order, so the last result for a property decides its value |
| LegacyManager.MappingOfLast | CsvMapper/CsvManager.cs:161-168 | the dictionary a target list amounts to has a key exactly for the named fields, with the last target's position |
| LegacyManager.MappedFieldConverts | CsvMapper/CsvManager.cs:190-196 | on any starting object, a mapped field ends up holding the legacy conversion of the cell its last target reads |
| LegacyManager.MappedFieldAgrees | CsvMapper/CsvManager.cs:187-198 | a mapped property gets the same value from the legacy and the current materialiser |
| LegacyManager.UnmappedFieldAgrees | CsvMapper/CsvManager.cs:187-198 | an unmapped property keeps its fresh value in the legacy materialiser |
| LegacyManager.LegacyAgreesWithCurrent | CsvMapper/CsvManager.cs:187-198 | when the legacy materialiser succeeds on a row, the current one succeeds with the equivalent dictionary and builds the same object |
| LegacyManager.CsvManager.constructor | CsvMapper/CsvManager.cs:29-37 | stores the settings, AutoSet false by default, with an empty target list |
| LegacyManager.CsvManager.WithHeader | CsvMapper/CsvManager.cs:45 | the two-argument constructor means header = true, separator ',' by default and AutoSet = true |
| LegacyManager.CsvManager.SetField | CsvMapper/CsvManager.cs:54-62 | ignored under AutoSet, otherwise appends the target |
| LegacyManager.CsvManager.RegisterFieldToMap | CsvMapper/CsvManager.cs:161-168 | appends exactly one target and leaves earlier ones untouched, even for a field already mapped |
| LegacyManager.CsvManager.AutoSetPropertyFields | CsvMapper/CsvManager.cs:124-148 | does nothing unless the first line holds column names; a null header fails; otherwise appends the exact matches with the cleaned text as field name |
| LegacyManager.CsvManager.SetPropertiesViaReflection | CsvMapper/CsvManager.cs:187-198 | applies the row's field results to the object in list order |
| LegacyManager.CsvManager.MaterializeRows | CsvMapper/CsvManager.cs:78-86 | one object per row, in row order, each from a fresh object; fails exactly when some row fails, with the first failing row's exception |
| LegacyManager.CsvManager.GetObjectList | CsvMapper/CsvManager.cs:68-87 | the reader shares the target list; autoset under AutoSet; one object per row the reader returns, in the same order; errors: the StreamReader's, NullReference for an empty file under autoset, IndexOutOfRange when a line is too short for a target, else the first failing row's exception |

## Left out

- File I/O is a map from path to lines. Line terminators, encodings, `using` and handle release are not modelled. A file cannot change between construction and `Load`, except by passing a different map.
- Laziness: `Load` is modelled as enumerating to the end. The result is the records before the first failing line plus that line's exception. How far a caller pulls the enumeration, and when the file is opened, are not modelled.
- Reflection is replaced by the schema. Only public instance properties of type `string`, `int`, `long`, `bool` and their `Nullable<>` forms are modelled. `double`, `float`, `DateTime` and culture-dependent parsing are left out because floating point and dates are out of scope.
- Values.ParseInteger: follows `NumberStyles.Integer` for ASCII digits, a leading `+`/`-` and the white space U+0009–U+000D and U+0020. Trailing NUL characters, other Unicode white space and culture-specific signs are not modelled.
- Text.Lower: case-insensitive matching, in property lookup and in `Boolean.Parse`, folds ASCII letters only. Unicode case folding is not modelled.
- Schema.FreshRecord: `new T()` is taken to leave every property at its type's default, so a `T` whose property initialisers or constructor body set values is not modelled; the unmapped properties of such a `T` would keep those values.
- Expression selectors (`GetPropertyNameFromExpression`, `GetMemberInfo`): a selector is the property's name. The ArgumentException for a non-member expression is not modelled.
- CvsMap.CsvMap.SetField: CvsMap.cs:81 passes the expression to `GetPropertyName(string)`, which does not accept it. The model follows the evident intent and uses the selected property's name, as CvsManager.cs:72 does.
- LegacyReader.CsvReader.GetHeaderColumn: CsvReader.cs does not define this method. It is modelled as the file's first line, null for an empty file, failing as opening the file fails.
- CvsManager.CsvManager.AutoSetPropertyFields and CvsMap.CsvMap.AutoSetPropertyFields: on failure the model leaves the dictionary as it was. The source keeps the entries added before the failing column. The exception always escapes the constructor, so no caller can see the difference.
- Materializer.SetPropertiesViaReflection: the error is stated only as that of some failing entry, because the dictionary's enumeration order is not specified.
- Null strings: a null path is modelled like an empty one; a null header line is `None`. Other null arguments are not modelled.
- Public setters of the legacy manager's `CsvFieldsToMap` list are not modelled: the list object is fixed at construction. Its `FilePath` and `DefaultSeparator` are plain fields.
- `Console.WriteLine` diagnostics for unmatched header cells are not modelled.
- The test fixtures and record classes are used only as examples of schemas.
