/** The legacy reader of CsvReader.cs and the row records of CsvModels.cs: the
    mapping is a list of (field name, position) targets, and every line of the
    file becomes a row holding one field result per target. */
module LegacyReader {
  import opened Wrappers
  import opened Text
  import opened Streaming

  /** CsvFieldTarget: a field name and the column it is read from. */
  datatype CsvFieldTarget = CsvFieldTarget(fieldName: string, position: int)

  /** CsvFieldResult: a target together with the text of its cell. */
  datatype CsvFieldResult = CsvFieldResult(fieldName: string, position: int, fieldValue: string)

  /** CsvRow: the field results of one line, in target order. */
  datatype CsvRow = CsvRow(csvFieldsResult: seq<CsvFieldResult>)

  /** `List<CsvFieldTarget>`: the manager and its reader hold the same list,
      so targets the manager appends after creating the reader are seen by
      the reader. */
  class FieldTargetList {
    var items: seq<CsvFieldTarget>

    constructor ()
      ensures items == []
    {
      items := [];
    }

    method Add(target: CsvFieldTarget)
      modifies this
      ensures items == old(items) + [target]
    {
      items := items + [target];
    }
  }

  /** Every target position is a valid index of the row. */
  predicate Fits(targets: seq<CsvFieldTarget>, row: seq<string>)
  {
    forall i :: 0 <= i < |targets| ==> 0 <= targets[i].position < |row|
  }

  /** The field results of a row that fits: one per target, in target order,
      each copying the target and reading the cell at its position. */
  function FieldResults(targets: seq<CsvFieldTarget>, row: seq<string>): (results: seq<CsvFieldResult>)
    requires Fits(targets, row)
    ensures |results| == |targets|
    ensures forall i :: 0 <= i < |targets| ==>
              results[i] == CsvFieldResult(targets[i].fieldName, targets[i].position, row[targets[i].position])
  {
    if targets == [] then []
    else [CsvFieldResult(targets[0].fieldName, targets[0].position, row[targets[0].position])]
         + FieldResults(targets[1..], row)
  }

  /** Every line, split on `sep`, fits the targets. */
  predicate AllFit(targets: seq<CsvFieldTarget>, lines: seq<string>, sep: char)
  {
    forall i :: 0 <= i < |lines| ==> Fits(targets, Split(lines[i], sep))
  }

  /** The row of every line, in file order. */
  function RowsOf(targets: seq<CsvFieldTarget>, lines: seq<string>, sep: char): (rows: seq<CsvRow>)
    requires AllFit(targets, lines, sep)
    ensures |rows| == |lines|
    ensures forall i :: 0 <= i < |lines| ==> rows[i] == CsvRow(FieldResults(targets, Split(lines[i], sep)))
  {
    if lines == [] then []
    else [CsvRow(FieldResults(targets, Split(lines[0], sep)))] + RowsOf(targets, lines[1..], sep)
  }

  /** `row` is the row built from the line. */
  predicate RowOfLine(targets: seq<CsvFieldTarget>, line: string, sep: char, row: CsvRow)
  {
    Fits(targets, Split(line, sep)) && row == CsvRow(FieldResults(targets, Split(line, sep)))
  }

  lemma RowOfLineAppend(targets: seq<CsvFieldTarget>, lines: seq<string>, sep: char, rows: seq<CsvRow>, row: CsvRow)
    requires |rows| < |lines|
    requires forall j :: 0 <= j < |rows| ==> RowOfLine(targets, lines[j], sep, rows[j])
    requires RowOfLine(targets, lines[|rows|], sep, row)
    ensures forall j :: 0 <= j < |rows| + 1 ==> RowOfLine(targets, lines[j], sep, (rows + [row])[j])
  {
  }

  lemma RowsOfCharacterized(targets: seq<CsvFieldTarget>, lines: seq<string>, sep: char, rows: seq<CsvRow>)
    requires |rows| == |lines|
    requires forall j :: 0 <= j < |rows| ==> RowOfLine(targets, lines[j], sep, rows[j])
    ensures AllFit(targets, lines, sep) && rows == RowsOf(targets, lines, sep)
  {
  }

  /** `Skip(1)` when the first line holds column names. */
  function SkipHeader(rows: seq<CsvRow>, isFirstLineColumnName: bool): (kept: seq<CsvRow>)
    ensures isFirstLineColumnName && rows != [] ==> kept == rows[1..]
    ensures !isFirstLineColumnName || rows == [] ==> kept == rows
  {
    if isFirstLineColumnName && rows != [] then rows[1..] else rows
  }

  class CsvReader {
    const csvFieldTargets: FieldTargetList
    var csvRowsResult: seq<CsvRow>
    const separator: char
    const isFirstLineColumnName: bool
    const filePath: string

    /** Stores the path, the (shared) target list, the separator and the
        header flag; no rows have been read yet. */
    constructor (filePath: string, csvFieldTargets: FieldTargetList, separator: char, isFirstLineColumnName: bool)
      ensures this.filePath == filePath && this.csvFieldTargets == csvFieldTargets
      ensures this.separator == separator && this.isFirstLineColumnName == isFirstLineColumnName
      ensures csvRowsResult == []
    {
      this.filePath := filePath;
      this.csvFieldTargets := csvFieldTargets;
      this.separator := separator;
      this.isFirstLineColumnName := isFirstLineColumnName;
      csvRowsResult := [];
    }

    /** The header line a legacy manager autosets from: the first line of the
        file, null for an empty file. */
    method GetHeaderColumn(fs: FileSystem) returns (r: Result<Option<string>, Error>)
      ensures var contents := OpenLines(fs, filePath);
        if contents.Err? then r == Err(contents.error) else r == Ok(FirstLine(contents.value))
    {
      var contents := OpenLines(fs, filePath);
      if contents.Err? {
        return Err(contents.error);
      }
      r := Ok(FirstLine(contents.value));
    }

    /** BuildCsvRow: one field result per target, in target order; reading a
        cell outside the row throws IndexOutOfRangeException. */
    method BuildCsvRow(row: seq<string>) returns (r: Result<CsvRow, Error>)
      ensures r.Ok? <==> Fits(csvFieldTargets.items, row)
      ensures r.Ok? ==> r.value == CsvRow(FieldResults(csvFieldTargets.items, row))
      ensures r.Err? ==> r.error == IndexOutOfRange
    {
      var targets := csvFieldTargets.items;
      var fields: seq<CsvFieldResult> := [];
      var i := 0;
      while i < |targets|
        invariant 0 <= i <= |targets| && |fields| == i
        invariant Fits(targets[..i], row)
        invariant forall j :: 0 <= j < i ==>
                    fields[j] == CsvFieldResult(targets[j].fieldName, targets[j].position, row[targets[j].position])
      {
        var csvField := targets[i];
        if !(0 <= csvField.position < |row|) {
          return Err(IndexOutOfRange);
        }
        fields := fields + [CsvFieldResult(csvField.fieldName, csvField.position, row[csvField.position])];
        i := i + 1;
        assert targets[..i] == targets[..i - 1] + [csvField];
      }
      assert targets[..i] == targets;
      r := Ok(CsvRow(fields));
    }

    /** GetCsvRowIterator, enumerated to the end: every line of the file,
        the first included, is split on the separator and built into a row. */
    method GetCsvRowIterator(fs: FileSystem) returns (r: Result<seq<CsvRow>, Error>)
      ensures var contents := OpenLines(fs, filePath);
        if contents.Err? then r == Err(contents.error)
        else (r.Ok? <==> AllFit(csvFieldTargets.items, contents.value, separator)) &&
             (r.Ok? ==> r.value == RowsOf(csvFieldTargets.items, contents.value, separator)) &&
             (r.Err? ==> r.error == IndexOutOfRange)
    {
      var contents := OpenLines(fs, filePath);
      if contents.Err? {
        return Err(contents.error);
      }
      var lines := contents.value;
      var targets := csvFieldTargets.items;
      var rows: seq<CsvRow> := [];
      var i := 0;
      while i < |lines|
        invariant 0 <= i <= |lines| && |rows| == i
        invariant forall j :: 0 <= j < i ==> RowOfLine(targets, lines[j], separator, rows[j])
      {
        var row := Split(lines[i], separator);
        var resultRow := BuildCsvRow(row);
        if resultRow.Err? {
          assert !Fits(targets, Split(lines[i], separator));
          return Err(resultRow.error);
        }
        RowOfLineAppend(targets, lines, separator, rows, resultRow.value);
        rows := rows + [resultRow.value];
        i := i + 1;
      }
      RowsOfCharacterized(targets, lines, separator, rows);
      r := Ok(rows);
    }

    /** ReadCsvRows: all rows, less the first when the first line holds the
        column names, stored in CsvRowsResult and returned. If building any
        row throws, CsvRowsResult is not assigned. */
    method ReadCsvRows(fs: FileSystem) returns (r: Result<seq<CsvRow>, Error>)
      modifies this
      ensures var contents := OpenLines(fs, filePath);
        if contents.Err? then r == Err(contents.error)
        else (r.Ok? <==> AllFit(csvFieldTargets.items, contents.value, separator)) &&
             (r.Ok? ==> r.value == SkipHeader(RowsOf(csvFieldTargets.items, contents.value, separator), isFirstLineColumnName)) &&
             (r.Err? ==> r.error == IndexOutOfRange)
      ensures r.Ok? ==> csvRowsResult == r.value
      ensures r.Err? ==> csvRowsResult == old(csvRowsResult)
    {
      var all := GetCsvRowIterator(fs);
      if all.Err? {
        return Err(all.error);
      }
      csvRowsResult := SkipHeader(all.value, isFirstLineColumnName);
      r := Ok(csvRowsResult);
    }
  }

  /** The header line is built like every other line before Skip(1) drops
      it: a header with too few cells for a target makes the read fail even
      though its row would be discarded. */
  lemma ShortHeaderFails(targets: seq<CsvFieldTarget>, lines: seq<string>, sep: char, k: int)
    requires lines != [] && 0 <= k < |targets|
    requires targets[k].position >= Count(sep, lines[0]) + 1
    ensures !AllFit(targets, lines, sep)
  {
    assert !Fits(targets, Split(lines[0], sep));
  }

  /** With a header, the i-th row returned comes from line i + 1 of the file;
      the number of rows is the number of data lines. */
  lemma HeaderRowDropped(targets: seq<CsvFieldTarget>, lines: seq<string>, sep: char, i: int)
    requires AllFit(targets, lines, sep) && 0 <= i < |lines| - 1
    ensures |SkipHeader(RowsOf(targets, lines, sep), true)| == |lines| - 1
    ensures SkipHeader(RowsOf(targets, lines, sep), true)[i] == CsvRow(FieldResults(targets, Split(lines[i + 1], sep)))
  {
  }
}
