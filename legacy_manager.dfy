/** The legacy mapper, CsvManager<T> of CsvManager.cs: the mapping is an
    append-only list of targets, autoset matches header cells to properties
    case-sensitively, and GetObjectList reads every row through a CsvReader
    and materialises the rows in file order. */
module LegacyManager {
  import opened Wrappers
  import opened Text
  import opened Values
  import opened Schema
  import opened Streaming
  import opened LegacyReader
  import opened Materializer

  /** The targets autoset adds for the first `n` header cells: one per cell
      whose cleaned text is exactly a property name (case-sensitive), in
      column order, with that cleaned text as field name. */
  function AutoSetTargets(s: Schema, columns: seq<string>, n: nat): (targets: seq<CsvFieldTarget>)
    requires n <= |columns|
    ensures |targets| <= n
  {
    if n == 0 then []
    else
      var propName := StripSpacesAndQuotes(columns[n - 1]);
      AutoSetTargets(s, columns, n - 1) + (if FindExact(s, propName).Some? then [CsvFieldTarget(propName, n - 1)] else [])
  }

  /** Strictly increasing positions below `n`: at most one target per
      column among the first `n`, listed in column order. */
  predicate InColumnOrder(targets: seq<CsvFieldTarget>, n: int)
  {
    && (forall i :: 0 <= i < |targets| ==> 0 <= targets[i].position < n)
    && (forall i, j :: 0 <= i < j < |targets| ==> targets[i].position < targets[j].position)
  }

  lemma AutoSetTargetsStep(prefix: seq<CsvFieldTarget>, s: Schema, columns: seq<string>, i: nat,
                           before: seq<CsvFieldTarget>, after: seq<CsvFieldTarget>)
    requires i < |columns| && before == prefix + AutoSetTargets(s, columns, i)
    requires var propName := StripSpacesAndQuotes(columns[i]);
      after == before + (if FindExact(s, propName).Some? then [CsvFieldTarget(propName, i)] else [])
    ensures after == prefix + AutoSetTargets(s, columns, i + 1)
  {
  }

  /** Autoset lists its targets in column order, at most one per column, so
      when two columns name the same property the later column's target
      comes last (and LastResultWins makes it decide the value). */
  lemma {:induction false} AutoSetTargetsOrdered(s: Schema, columns: seq<string>, n: nat)
    requires n <= |columns|
    ensures InColumnOrder(AutoSetTargets(s, columns, n), n)
  {
    if n > 0 {
      AutoSetTargetsOrdered(s, columns, n - 1);
    }
  }

  /** Autoset targets name declared properties exactly, and each reads the
      column whose cleaned text is its name. */
  lemma {:induction false} AutoSetTargetsSound(s: Schema, columns: seq<string>, n: nat)
    requires n <= |columns|
    ensures forall t :: t in AutoSetTargets(s, columns, n) ==>
              t.fieldName in Names(s) && 0 <= t.position < n &&
              t.fieldName == StripSpacesAndQuotes(columns[t.position])
  {
    if n > 0 {
      AutoSetTargetsSound(s, columns, n - 1);
    }
  }

  /** Every column whose cleaned text is exactly a property name gets its target. */
  lemma {:induction false} AutoSetTargetsComplete(s: Schema, columns: seq<string>, n: nat, k: int)
    requires n <= |columns| && 0 <= k < n && StripSpacesAndQuotes(columns[k]) in Names(s)
    ensures CsvFieldTarget(StripSpacesAndQuotes(columns[k]), k) in AutoSetTargets(s, columns, n)
  {
    var propName := StripSpacesAndQuotes(columns[n - 1]);
    var rest := AutoSetTargets(s, columns, n - 1);
    var last := if FindExact(s, propName).Some? then [CsvFieldTarget(propName, n - 1)] else [];
    assert AutoSetTargets(s, columns, n) == rest + last;
    if k < n - 1 {
      AutoSetTargetsComplete(s, columns, n - 1, k);
    } else {
      assert propName == StripSpacesAndQuotes(columns[k]);
      assert FindExact(s, propName).Some?;
      assert last[0] == CsvFieldTarget(propName, k);
    }
  }

  /** Matching is case-sensitive: a cell whose cleaned text is not exactly a
      property name (for instance "id" for a property "Id") gets no target. */
  lemma CaseMismatchSkipped(s: Schema, columns: seq<string>, k: int)
    requires 0 <= k < |columns| && StripSpacesAndQuotes(columns[k]) !in Names(s)
    ensures forall t :: t in AutoSetTargets(s, columns, |columns|) ==> t.position != k
  {
    AutoSetTargetsSound(s, columns, |columns|);
  }

  /** Legacy SetPropertiesViaReflection: the field results are applied to the
      object one after the other, in list order. A field name that is not a
      property fails on `prop.PropertyType`. */
  function ApplyFieldResults(s: Schema, destination: Record, results: seq<CsvFieldResult>): (r: Result<Record, Error>)
    ensures r.Err? ==> r.error.PropertyNotFound? || r.error.FormatError? || r.error.OverflowError? || r.error.InvalidCast?
    decreases |results|
  {
    if results == [] then Ok(destination)
    else
      match FindExact(s, results[0].fieldName)
      case None => Err(PropertyNotFound)
      case Some(p) =>
        var converted := LegacyChangeType(results[0].fieldValue, p.tag);
        if converted.Err? then Err(converted.error)
        else ApplyFieldResults(s, destination[results[0].fieldName := converted.value], results[1..])
  }

  /** Every field result names a declared property, and the record has it. */
  predicate SetsEveryField(s: Schema, results: seq<CsvFieldResult>, rec: Record)
  {
    forall i :: 0 <= i < |results| ==> results[i].fieldName in Names(s) && results[i].fieldName in rec
  }

  /** A successful application keeps every property of the object and sets
      a declared property for every field result. */
  lemma {:induction false} ApplyFieldResultsSetsFields(s: Schema, destination: Record, results: seq<CsvFieldResult>)
    requires ApplyFieldResults(s, destination, results).Ok?
    ensures destination.Keys <= ApplyFieldResults(s, destination, results).value.Keys
    ensures SetsEveryField(s, results, ApplyFieldResults(s, destination, results).value)
    decreases |results|
  {
    if results != [] {
      var p := FindExact(s, results[0].fieldName).value;
      var next := destination[results[0].fieldName := LegacyChangeType(results[0].fieldValue, p.tag).value];
      ApplyFieldResultsSetsFields(s, next, results[1..]);
      assert forall i :: 1 <= i < |results| ==> results[i] == results[1..][i - 1];
    }
  }

  /** A well-typed record stays well typed. */
  lemma {:induction false} ApplyFieldResultsWellTyped(s: Schema, destination: Record, results: seq<CsvFieldResult>)
    requires WellTyped(s, destination)
    ensures var r := ApplyFieldResults(s, destination, results); r.Ok? ==> WellTyped(s, r.value)
  {
    if results != [] {
      var p := FindExact(s, results[0].fieldName);
      if p.Some? {
        var converted := LegacyChangeType(results[0].fieldValue, p.value.tag);
        if converted.Ok? {
          LegacyChangeTypeAgrees(results[0].fieldValue, p.value.tag);
          var name := results[0].fieldName;
          assert p.value == FindExact(s, name).value;
          ApplyFieldResultsWellTyped(s, destination[name := converted.value], results[1..]);
        }
      }
    }
  }

  /** A field no result names keeps its value. */
  lemma {:induction false} UnnamedFieldKept(s: Schema, destination: Record, results: seq<CsvFieldResult>, name: string)
    requires ApplyFieldResults(s, destination, results).Ok? && name in destination
    requires forall j :: 0 <= j < |results| ==> results[j].fieldName != name
    ensures var rec := ApplyFieldResults(s, destination, results).value;
      name in rec && rec[name] == destination[name]
    decreases |results|
  {
    if results != [] {
      var first := results[0];
      var p := FindExact(s, first.fieldName).value;
      var converted := LegacyChangeType(first.fieldValue, p.tag);
      assert forall j :: 0 <= j < |results| - 1 ==> results[1..][j] == results[j + 1];
      UnnamedFieldKept(s, destination[first.fieldName := converted.value], results[1..], name);
    }
  }

  /** The last result for a field decides its value, whatever earlier
      results for the same field said. */
  lemma {:induction false} LastResultWins(s: Schema, destination: Record, results: seq<CsvFieldResult>, name: string, j: int)
    requires ApplyFieldResults(s, destination, results).Ok?
    requires 0 <= j < |results| && results[j].fieldName == name
    requires forall k :: j < k < |results| ==> results[k].fieldName != name
    ensures var rec := ApplyFieldResults(s, destination, results).value;
      name in Names(s) && name in rec && LegacyChangeType(results[j].fieldValue, TypeOf(s, name)) == Ok(rec[name])
    decreases |results|
  {
    var first := results[0];
    var p := FindExact(s, first.fieldName).value;
    var converted := LegacyChangeType(first.fieldValue, p.tag);
    var next := destination[first.fieldName := converted.value];
    assert forall k :: 0 <= k < |results| - 1 ==> results[1..][k] == results[k + 1];
    if j == 0 {
      UnnamedFieldKept(s, next, results[1..], name);
    } else {
      LastResultWins(s, next, results[1..], name, j - 1);
    }
  }

  /** The dictionary a target list amounts to when a later target for a
      field replaces an earlier one. */
  function MappingOf(targets: seq<CsvFieldTarget>): map<string, int>
  {
    if targets == [] then map[]
    else
      var last := targets[|targets| - 1];
      MappingOf(targets[..|targets| - 1])[last.fieldName := last.position]
  }

  /** A field is a key of MappingOf exactly when some target names it, and
      its position is that of the last such target. */
  lemma {:induction false} MappingOfLast(targets: seq<CsvFieldTarget>, name: string)
    ensures name !in MappingOf(targets) <==> forall j :: 0 <= j < |targets| ==> targets[j].fieldName != name
    ensures name in MappingOf(targets) ==>
              exists j :: 0 <= j < |targets| && targets[j].fieldName == name &&
                          targets[j].position == MappingOf(targets)[name] &&
                          forall k :: j < k < |targets| ==> targets[k].fieldName != name
  {
    if targets != [] {
      var init := targets[..|targets| - 1];
      MappingOfLast(init, name);
      assert forall j :: 0 <= j < |init| ==> init[j] == targets[j];
      if targets[|targets| - 1].fieldName != name && name in MappingOf(targets) {
        var j :| 0 <= j < |init| && init[j].fieldName == name &&
                 init[j].position == MappingOf(init)[name] &&
                 forall k :: j < k < |init| ==> init[k].fieldName != name;
        assert targets[j].position == MappingOf(targets)[name];
      }
    }
  }

  /** A mapped field holds the converted cell of its last target. */
  lemma MappedFieldAgrees(s: Schema, targets: seq<CsvFieldTarget>, row: seq<string>, n: string)
    requires Fits(targets, row)
    requires ApplyFieldResults(s, FreshRecord(s), FieldResults(targets, row)).Ok?
    requires n in MappingOf(targets)
    ensures var rec := ApplyFieldResults(s, FreshRecord(s), FieldResults(targets, row)).value;
      n in rec && EntryValue(s, row, n, MappingOf(targets)[n]) == Ok(rec[n])
  {
    MappedFieldConverts(s, FreshRecord(s), targets, row, n);
    var pos := MappingOf(targets)[n];
    LegacyChangeTypeAgrees(row[pos], TypeOf(s, n));
    assert EntryValue(s, row, n, pos) == ChangeType(row[pos], TypeOf(s, n));
  }

  /** On any starting object, a mapped field ends up holding the legacy
      conversion of the cell its last target reads. */
  lemma MappedFieldConverts(s: Schema, destination: Record, targets: seq<CsvFieldTarget>, row: seq<string>, n: string)
    requires Fits(targets, row)
    requires ApplyFieldResults(s, destination, FieldResults(targets, row)).Ok?
    requires n in MappingOf(targets)
    ensures 0 <= MappingOf(targets)[n] < |row|
    ensures var rec := ApplyFieldResults(s, destination, FieldResults(targets, row)).value;
      n in Names(s) && n in rec && LegacyChangeType(row[MappingOf(targets)[n]], TypeOf(s, n)) == Ok(rec[n])
  {
    var results := FieldResults(targets, row);
    MappingOfLast(targets, n);
    var j :| 0 <= j < |targets| && targets[j].fieldName == n && targets[j].position == MappingOf(targets)[n] &&
             forall k :: j < k < |targets| ==> targets[k].fieldName != n;
    assert results[j].fieldValue == row[targets[j].position];
    LastResultWins(s, destination, results, n, j);
  }

  /** An unmapped field keeps the value `new T()` gave it. */
  lemma UnmappedFieldAgrees(s: Schema, targets: seq<CsvFieldTarget>, row: seq<string>, n: string)
    requires Fits(targets, row)
    requires ApplyFieldResults(s, FreshRecord(s), FieldResults(targets, row)).Ok?
    requires n in Names(s) && n !in MappingOf(targets)
    ensures var rec := ApplyFieldResults(s, FreshRecord(s), FieldResults(targets, row)).value;
      n in rec && rec[n] == FreshRecord(s)[n]
  {
    MappingOfLast(targets, n);
    UnnamedFieldKept(s, FreshRecord(s), FieldResults(targets, row), n);
  }

  /** When the legacy materialiser succeeds on a row, the current one
      succeeds on the same cells with the equivalent dictionary and builds
      the same object. */
  lemma LegacyAgreesWithCurrent(s: Schema, targets: seq<CsvFieldTarget>, row: seq<string>)
    requires Fits(targets, row)
    requires ApplyFieldResults(s, FreshRecord(s), FieldResults(targets, row)).Ok?
    ensures MaterializeOk(s, row, MappingOf(targets))
    ensures ApplyFieldResults(s, FreshRecord(s), FieldResults(targets, row)).value == Populated(s, row, MappingOf(targets))
  {
    var rec := ApplyFieldResults(s, FreshRecord(s), FieldResults(targets, row)).value;
    var m := MappingOf(targets);
    forall n | n in m
      ensures n in rec && EntryValue(s, row, n, m[n]) == Ok(rec[n])
    {
      MappedFieldAgrees(s, targets, row, n);
    }
    forall n | n in Names(s) && n !in m
      ensures n in rec && rec[n] == FreshRecord(s)[n]
    {
      UnmappedFieldAgrees(s, targets, row, n);
    }
    FreshRecordWellTyped(s);
    ApplyFieldResultsWellTyped(s, FreshRecord(s), FieldResults(targets, row));
    PopulatedCharacterized(s, row, m, rec);
  }

  class CsvManager {
    /** The target type T. */
    const schema: Schema
    var defaultSeparator: char
    const csvFieldsToMap: FieldTargetList
    var filePath: string
    var reader: CsvReader?
    const isFirstLineColumnName: bool
    const autoSet: bool

    /** `CsvManager(filePath, isFirstLineColumnName, separator, autoSetColumns = false)`:
        stores the settings, with an empty target list. The path is not
        checked here. */
    constructor (schema: Schema, filePath: string, isFirstLineColumnName: bool, separator: char,
                 autoSetColumns: bool := false)
      ensures this.schema == schema && this.filePath == filePath
      ensures this.isFirstLineColumnName == isFirstLineColumnName && defaultSeparator == separator
      ensures autoSet == autoSetColumns && reader == null
      ensures fresh(csvFieldsToMap) && csvFieldsToMap.items == []
    {
      this.schema := schema;
      this.filePath := filePath;
      this.isFirstLineColumnName := isFirstLineColumnName;
      defaultSeparator := separator;
      autoSet := autoSetColumns;
      reader := null;
      csvFieldsToMap := new FieldTargetList();
    }

    /** `CsvManager(filePath, separator = ',')`: a header line and autoset. */
    constructor WithHeader(schema: Schema, filePath: string, separator: char := ',')
      ensures this.schema == schema && this.filePath == filePath
      ensures isFirstLineColumnName && defaultSeparator == separator
      ensures autoSet && reader == null
      ensures fresh(csvFieldsToMap) && csvFieldsToMap.items == []
    {
      this.schema := schema;
      this.filePath := filePath;
      isFirstLineColumnName := true;
      defaultSeparator := separator;
      autoSet := true;
      reader := null;
      csvFieldsToMap := new FieldTargetList();
    }

    /** SetField: ignored when autoset is on, otherwise registers the target. */
    method SetField(propertyName: string, position: int)
      modifies csvFieldsToMap
      ensures csvFieldsToMap.items ==
                if autoSet then old(csvFieldsToMap.items)
                else old(csvFieldsToMap.items) + [CsvFieldTarget(propertyName, position)]
    {
      if !autoSet {
        RegisterFieldToMap(propertyName, position);
      }
    }

    /** RegisterFieldToMap: appends, even when the property already has a
        target; earlier targets are untouched. */
    method RegisterFieldToMap(propertyName: string, position: int)
      modifies csvFieldsToMap
      ensures csvFieldsToMap.items == old(csvFieldsToMap.items) + [CsvFieldTarget(propertyName, position)]
    {
      csvFieldsToMap.Add(CsvFieldTarget(propertyName, position));
    }

    /** AutoSetPropertyFields: nothing unless the first line holds column
        names; then the header line (null for an empty file, on which Split
        throws) is split and the exact matches are appended. */
    method AutoSetPropertyFields(headerLine: Option<string>) returns (failure: Option<Error>)
      modifies csvFieldsToMap
      ensures !isFirstLineColumnName ==> failure.None? && csvFieldsToMap.items == old(csvFieldsToMap.items)
      ensures isFirstLineColumnName && headerLine.None? ==>
                failure == Some(NullReference) && csvFieldsToMap.items == old(csvFieldsToMap.items)
      ensures isFirstLineColumnName && headerLine.Some? ==>
                failure.None? &&
                var columns := Split(headerLine.value, defaultSeparator);
                csvFieldsToMap.items == old(csvFieldsToMap.items) + AutoSetTargets(schema, columns, |columns|)
    {
      if !isFirstLineColumnName {
        return None;
      }
      if headerLine.None? {
        return Some(NullReference);
      }
      var columns := Split(headerLine.value, defaultSeparator);
      var i := 0;
      while i < |columns|
        invariant 0 <= i <= |columns|
        invariant csvFieldsToMap.items == old(csvFieldsToMap.items) + AutoSetTargets(schema, columns, i)
      {
        var propName := StripSpacesAndQuotes(columns[i]);
        var prop := FindExact(schema, propName);
        ghost var before := csvFieldsToMap.items;
        if prop.Some? {
          csvFieldsToMap.Add(CsvFieldTarget(propName, i));
        }
        AutoSetTargetsStep(old(csvFieldsToMap.items), schema, columns, i, before, csvFieldsToMap.items);
        i := i + 1;
      }
      failure := None;
    }

    /** GetObjectList: creates the reader over the manager's own target list,
        autosets from the header line when autoset is on (the reader sees the
        targets appended), reads the rows and materialises each one on a
        fresh object, in row order. Any exception ends the call and no list
        is returned. */
    method GetObjectList(fs: FileSystem) returns (r: Result<seq<Record>, Error>)
      modifies this, csvFieldsToMap
      ensures defaultSeparator == old(defaultSeparator) && filePath == old(filePath)
      ensures reader != null && fresh(reader)
      ensures reader.csvFieldTargets == csvFieldsToMap && reader.filePath == filePath
      ensures reader.separator == defaultSeparator && reader.isFirstLineColumnName == isFirstLineColumnName
      ensures var contents := OpenLines(fs, filePath);
        contents.Err? ==> r == Err(contents.error) && csvFieldsToMap.items == old(csvFieldsToMap.items)
      ensures var contents := OpenLines(fs, filePath);
        contents.Ok? ==>
          var lines := contents.value;
          csvFieldsToMap.items == old(csvFieldsToMap.items) +
                                  AutoSetAdded(schema, autoSet, isFirstLineColumnName, lines, defaultSeparator)
      ensures var contents := OpenLines(fs, filePath);
        contents.Ok? && autoSet && isFirstLineColumnName && contents.value == [] ==> r == Err(NullReference)
      ensures var contents := OpenLines(fs, filePath);
        contents.Ok? && !(autoSet && isFirstLineColumnName && contents.value == []) ==>
          var lines := contents.value;
          var targets := csvFieldsToMap.items;
          (r.Ok? <==> AllFit(targets, lines, defaultSeparator) &&
                      forall i :: 0 <= i < |reader.csvRowsResult| ==> RowApplies(schema, reader.csvRowsResult[i])) &&
          (AllFit(targets, lines, defaultSeparator) ==>
             reader.csvRowsResult == SkipHeader(RowsOf(targets, lines, defaultSeparator), isFirstLineColumnName)) &&
          (!AllFit(targets, lines, defaultSeparator) ==> r == Err(IndexOutOfRange)) &&
          (AllFit(targets, lines, defaultSeparator) && r.Err? ==> FirstRowFails(schema, reader.csvRowsResult, r.error)) &&
          (r.Ok? ==> ObjectsOf(schema, reader.csvRowsResult, r.value))
    {
      var newReader := new CsvReader(filePath, csvFieldsToMap, defaultSeparator, isFirstLineColumnName);
      reader := newReader;
      if autoSet {
        var headerLine := newReader.GetHeaderColumn(fs);
        if headerLine.Err? {
          return Err(headerLine.error);
        }
        var failure := AutoSetPropertyFields(headerLine.value);
        if failure.Some? {
          return Err(failure.value);
        }
      }
      var csvRows := newReader.ReadCsvRows(fs);
      if csvRows.Err? {
        return Err(csvRows.error);
      }
      r := MaterializeRows(csvRows.value);
    }

    /** Legacy SetPropertiesViaReflection on a fresh object. */
    method SetPropertiesViaReflection(destination: Record, csvRow: CsvRow) returns (r: Result<Record, Error>)
      ensures r == ApplyFieldResults(schema, destination, csvRow.csvFieldsResult)
    {
      var results := csvRow.csvFieldsResult;
      var current := destination;
      var i := 0;
      while i < |results|
        invariant 0 <= i <= |results|
        invariant ApplyFieldResults(schema, destination, results) == ApplyFieldResults(schema, current, results[i..])
      {
        var csvFieldResult := results[i];
        var prop := FindExact(schema, csvFieldResult.fieldName);
        if prop.None? {
          return Err(PropertyNotFound);
        }
        var convertedValue := LegacyChangeType(csvFieldResult.fieldValue, prop.value.tag);
        if convertedValue.Err? {
          return Err(convertedValue.error);
        }
        assert results[i..][1..] == results[i + 1..];
        current := current[csvFieldResult.fieldName := convertedValue.value];
        i := i + 1;
      }
      r := Ok(current);
    }

    /** The objects of a list of rows, one fresh object per row. */
    method MaterializeRows(csvRows: seq<CsvRow>) returns (r: Result<seq<Record>, Error>)
      ensures r.Ok? <==> forall i :: 0 <= i < |csvRows| ==> RowApplies(schema, csvRows[i])
      ensures r.Ok? ==> ObjectsOf(schema, csvRows, r.value)
      ensures r.Err? ==> FirstRowFails(schema, csvRows, r.error)
    {
      var resultList: seq<Record> := [];
      var i := 0;
      while i < |csvRows|
        invariant 0 <= i <= |csvRows| && |resultList| == i
        invariant forall j :: 0 <= j < i ==> RowYields(schema, csvRows[j], resultList[j])
      {
        var destinationObject := FreshRecord(schema);
        var createdObj := SetPropertiesViaReflection(destinationObject, csvRows[i]);
        if createdObj.Err? {
          assert forall j :: 0 <= j < i ==> RowApplies(schema, csvRows[j]);
          return Err(createdObj.error);
        }
        resultList := resultList + [createdObj.value];
        i := i + 1;
      }
      r := Ok(resultList);
    }
  }

  /** The targets GetObjectList's autoset appends for a file: those of the
      first line with autoset on and a header line, none otherwise. */
  function AutoSetAdded(s: Schema, autoSet: bool, isFirstLineColumnName: bool, lines: seq<string>, sep: char): seq<CsvFieldTarget>
  {
    if autoSet && isFirstLineColumnName && lines != [] then
      var columns := Split(lines[0], sep);
      AutoSetTargets(s, columns, |columns|)
    else []
  }

  /** The row can be applied to a fresh object. */
  predicate RowApplies(s: Schema, row: CsvRow)
  {
    ApplyFieldResults(s, FreshRecord(s), row.csvFieldsResult).Ok?
  }

  /** `obj` is the object the row yields. */
  predicate RowYields(s: Schema, row: CsvRow, obj: Record)
  {
    ApplyFieldResults(s, FreshRecord(s), row.csvFieldsResult) == Ok(obj)
  }

  /** Row `i` is the first row that cannot be applied, and `e` is the
      exception applying it raises. */
  predicate FirstRowFails(s: Schema, rows: seq<CsvRow>, e: Error)
  {
    exists i :: (0 <= i < |rows| && (forall j :: 0 <= j < i ==> RowApplies(s, rows[j])) &&
                 ApplyFieldResults(s, FreshRecord(s), rows[i].csvFieldsResult) == Err(e))
  }

  /** One object per row, in row order. */
  predicate ObjectsOf(s: Schema, rows: seq<CsvRow>, objects: seq<Record>)
  {
    |objects| == |rows| && forall i :: 0 <= i < |rows| ==> RowYields(s, rows[i], objects[i])
  }
}
