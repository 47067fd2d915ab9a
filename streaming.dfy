/** The file system as the mapper sees it, and the row loop of `Load` shared by
    the two current variants (CvsManager.cs and CvsMap.cs): open the file,
    skip the header line when asked, then split every further line on the
    separator and materialise it. */
module Streaming {
  import opened Wrappers
  import opened Text
  import opened Schema
  import opened Materializer

  /** Every existing file, by path, as the lines `StreamReader.ReadLine`
      returns one after the other (the last call returns null). */
  type FileSystem = map<string, seq<string>>

  /** The checks both current constructors make before anything else:
      `string.IsNullOrEmpty(path)` throws NullReferenceException and
      `!File.Exists(path)` throws FileNotFoundException. */
  function ValidateFilePath(fs: FileSystem, path: string): (failure: Option<Error>)
    ensures failure.None? <==> path != "" && path in fs
    ensures failure.None? <==> OpenLines(fs, path).Ok?
    ensures path == "" ==> failure == Some(NullReference)
    ensures path != "" && path !in fs ==> failure == Some(FileNotFound)
  {
    if path == "" then Some(NullReference)
    else if path !in fs then Some(FileNotFound)
    else None
  }

  /** `new StreamReader(path)`: the lines of the file, or the exception. */
  function OpenLines(fs: FileSystem, path: string): (r: Result<seq<string>, Error>)
    ensures r.Ok? <==> path != "" && path in fs
    ensures r.Ok? ==> r.value == fs[path]
    ensures r.Err? ==> r.error == (if path == "" then EmptyPath else FileNotFound)
  {
    if path == "" then Err(EmptyPath)
    else if path !in fs then Err(FileNotFound)
    else Ok(fs[path])
  }

  /** The first `ReadLine()` of a file: its first line, or null (None) for an
      empty file. */
  function FirstLine(lines: seq<string>): (line: Option<string>)
    ensures line.None? <==> lines == []
    ensures line.Some? ==> line.value == lines[0]
  {
    if lines == [] then None else Some(lines[0])
  }

  /** The lines the row loop sees: all of them, or all but the first when the
      header is skipped (skipping on an empty file skips nothing). */
  function DataLines(lines: seq<string>, skipHeader: bool): (data: seq<string>)
    ensures skipHeader && lines != [] ==> data == lines[1..]
    ensures !skipHeader || lines == [] ==> data == lines
    ensures |data| == if skipHeader && lines != [] then |lines| - 1 else |lines|
  {
    if skipHeader && lines != [] then lines[1..] else lines
  }

  /** Every mapping entry can be applied to the line split on `sep`. */
  predicate RowOk(s: Schema, m: map<string, int>, line: string, sep: char)
  {
    MaterializeOk(s, Split(line, sep), m)
  }

  /** `rec` is the record the line yields. */
  predicate LineYields(s: Schema, m: map<string, int>, line: string, sep: char, rec: Record)
  {
    RowOk(s, m, line, sep) && rec == Populated(s, Split(line, sep), m)
  }

  /** The exception materialising this line may raise: that of one of the
      entries (which one depends on the dictionary's enumeration order). */
  predicate RowFailsWith(s: Schema, m: map<string, int>, line: string, sep: char, e: Error)
  {
    exists k :: k in m && EntryValue(s, Split(line, sep), k, m[k]) == Err(e)
  }

  /** What enumerating `Load()` to the end observes for the data lines: one
      record per line, in file order, each the line's populated record, until
      the first line that cannot be materialised, whose exception ends the
      enumeration. */
  predicate Streamed(s: Schema, m: map<string, int>, data: seq<string>, sep: char,
                     records: seq<Record>, failure: Option<Error>)
  {
    && |records| <= |data|
    && (forall i :: 0 <= i < |records| ==> LineYields(s, m, data[i], sep, records[i]))
    && (failure.None? <==> |records| == |data|)
    && (failure.Some? ==> RowFailsWith(s, m, data[|records|], sep, failure.value))
  }

  /** The `while ((line = readFile.ReadLine()) != null)` loop of Load over the
      data lines. */
  method StreamRecords(s: Schema, m: map<string, int>, data: seq<string>, sep: char)
    returns (records: seq<Record>, failure: Option<Error>)
    ensures Streamed(s, m, data, sep, records, failure)
  {
    records := [];
    var i := 0;
    while i < |data|
      invariant 0 <= i <= |data| && |records| == i
      invariant forall j :: 0 <= j < i ==> LineYields(s, m, data[j], sep, records[j])
    {
      var row := Split(data[i], sep);
      var resultRow := SetPropertiesViaReflection(s, row, m);
      if resultRow.Err? {
        return records, Some(resultRow.error);
      }
      YieldsAppend(s, m, data, sep, records, resultRow.value);
      records := records + [resultRow.value];
      i := i + 1;
    }
    failure := None;
  }

  lemma YieldsAppend(s: Schema, m: map<string, int>, data: seq<string>, sep: char,
                     records: seq<Record>, rec: Record)
    requires |records| < |data|
    requires forall j :: 0 <= j < |records| ==> LineYields(s, m, data[j], sep, records[j])
    requires RowOk(s, m, data[|records|], sep) && rec == Populated(s, Split(data[|records|], sep), m)
    ensures forall j :: 0 <= j < |records| + 1 ==> LineYields(s, m, data[j], sep, (records + [rec])[j])
  {
  }

  /** A line that cannot be materialised is never silently dropped: it raises. */
  lemma RowFailsWithMeansNotOk(s: Schema, m: map<string, int>, line: string, sep: char, e: Error)
    requires RowFailsWith(s, m, line, sep, e)
    ensures !RowOk(s, m, line, sep)
  {
  }

  /** The enumeration completes exactly when every data line can be
      materialised, and then every line has its record. */
  lemma StreamedCompletes(s: Schema, m: map<string, int>, data: seq<string>, sep: char,
                          records: seq<Record>, failure: Option<Error>)
    requires Streamed(s, m, data, sep, records, failure)
    ensures failure.None? <==> forall i :: 0 <= i < |data| ==> RowOk(s, m, data[i], sep)
  {
    if failure.Some? {
      RowFailsWithMeansNotOk(s, m, data[|records|], sep, failure.value);
    }
  }

  /** Only the exception raised may depend on the enumeration order of the
      dictionary: the records produced, and whether the enumeration fails, do
      not. */
  lemma StreamedDeterministic(s: Schema, m: map<string, int>, data: seq<string>, sep: char,
                              records1: seq<Record>, failure1: Option<Error>,
                              records2: seq<Record>, failure2: Option<Error>)
    requires Streamed(s, m, data, sep, records1, failure1)
    requires Streamed(s, m, data, sep, records2, failure2)
    ensures records1 == records2 && failure1.None? == failure2.None?
  {
    if |records1| < |records2| {
      RowFailsWithMeansNotOk(s, m, data[|records1|], sep, failure1.value);
    } else if |records2| < |records1| {
      RowFailsWithMeansNotOk(s, m, data[|records2|], sep, failure2.value);
    }
  }

  /** A line built by joining cells that do not contain the separator is split
      back into exactly those cells, so it yields the record of those cells. */
  lemma JoinedLineLoads(s: Schema, m: map<string, int>, cells: seq<string>, sep: char)
    requires cells != [] && forall i :: 0 <= i < |cells| ==> sep !in cells[i]
    ensures RowOk(s, m, Join(cells, sep), sep) == MaterializeOk(s, cells, m)
    ensures MaterializeOk(s, cells, m) ==> Populated(s, Split(Join(cells, sep), sep), m) == Populated(s, cells, m)
  {
    SplitJoin(cells, sep);
  }
}
