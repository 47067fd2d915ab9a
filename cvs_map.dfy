/** CsvMap<T> of CvsMap.cs: the current mapper with its settings fixed at
    construction (no configuration object). */
module CvsMap {
  import opened Wrappers
  import opened Text
  import opened Schema
  import opened HeaderInference
  import opened Streaming

  class CsvMap {
    /** The target type T. */
    const schema: Schema
    const autoSet: bool
    const filePath: string
    const firstLineHeader: bool
    const separator: char
    var mappingDictionary: map<string, int>

    /** The field assignments of the constructor once the path has been
        validated: `_firstLineHeader` is forced to true by autoset and is
        `isFirstLineHeader` otherwise. */
    constructor (schema: Schema, filePath: string, isFirstLineHeader: bool, separator: char, autoSet: bool)
      ensures this.schema == schema && this.filePath == filePath
      ensures this.separator == separator && this.autoSet == autoSet
      ensures firstLineHeader == if autoSet then true else isFirstLineHeader
      ensures mappingDictionary == map[]
    {
      this.schema := schema;
      this.filePath := filePath;
      this.separator := separator;
      this.autoSet := autoSet;
      firstLineHeader := if autoSet then true else isFirstLineHeader;
      mappingDictionary := map[];
    }

    /** `new CsvMap<T>(filePath, isFirstLineHeader = true, separator = ',',
        autoSet = false)`: the path is validated before any state is set;
        with autoset the dictionary is then inferred from the header line. */
    static method Open(fs: FileSystem, schema: Schema, filePath: string,
                       isFirstLineHeader: bool := true, separator: char := ',', autoSet: bool := false)
      returns (r: Result<CsvMap, Error>)
      ensures ValidateFilePath(fs, filePath).Some? ==> r == Err(ValidateFilePath(fs, filePath).value)
      ensures r.Ok? ==> fresh(r.value)
      ensures r.Ok? ==> r.value.schema == schema && r.value.filePath == filePath
      ensures r.Ok? ==> r.value.separator == separator && r.value.autoSet == autoSet
      ensures r.Ok? ==> r.value.firstLineHeader == (autoSet || isFirstLineHeader)
      ensures ValidateFilePath(fs, filePath).None? && !autoSet ==> r.Ok? && r.value.mappingDictionary == map[]
      ensures ValidateFilePath(fs, filePath).None? && autoSet ==>
                var header := FirstLine(fs[filePath]);
                (r.Ok? <==> header.Some? && AllColumnsFit(HeaderResolutions(schema, header.value, separator), map[])) &&
                (r.Ok? ==> ExtendsWithColumns(HeaderResolutions(schema, header.value, separator), map[], r.value.mappingDictionary)) &&
                (header.None? ==> r == Err(NullReference)) &&
                (header.Some? && r.Err? ==> FailsWith(HeaderResolutions(schema, header.value, separator), map[], r.error))
    {
      var failure := ValidateFilePath(fs, filePath);
      if failure.Some? {
        return Err(failure.value);
      }
      var csvMap := new CsvMap(schema, filePath, isFirstLineHeader, separator, autoSet);
      if autoSet {
        var autoSetFailure := csvMap.InitializeAutoSet(fs);
        if autoSetFailure.Some? {
          return Err(autoSetFailure.value);
        }
      }
      r := Ok(csvMap);
    }

    /** InitializeAutoSet: autosets from the first line of the file; an empty
        file gives a null line, on which Split throws. */
    method InitializeAutoSet(fs: FileSystem) returns (failure: Option<Error>)
      modifies this
      ensures var contents := OpenLines(fs, filePath);
        if contents.Err? then failure == Some(contents.error) && mappingDictionary == old(mappingDictionary)
        else var header := FirstLine(contents.value);
             if header.None? then failure == Some(NullReference) && mappingDictionary == old(mappingDictionary)
             else AutoSetOutcome(schema, header.value, separator, old(mappingDictionary), mappingDictionary, failure)
    {
      var contents := OpenLines(fs, filePath);
      if contents.Err? {
        return Some(contents.error);
      }
      var headerLine := FirstLine(contents.value);
      if headerLine.None? {
        return Some(NullReference);
      }
      failure := AutoSetPropertyFields(headerLine.value);
    }

    /** AutoSetPropertyFields: each cleaned header cell is looked up ignoring
        case and the declared name of the property found (`prop.Name`) is
        added with the column index. */
    method AutoSetPropertyFields(headerLine: string) returns (failure: Option<Error>)
      modifies this
      ensures AutoSetOutcome(schema, headerLine, separator, old(mappingDictionary), mappingDictionary, failure)
    {
      var columns := Split(headerLine, separator);
      var added := AddHeaderColumns(Resolutions(schema, columns), mappingDictionary);
      if added.Err? {
        return Some(added.error);
      }
      mappingDictionary := added.value;
      failure := None;
    }

    /** SetField: maps the property to the position, replacing an earlier
        mapping (manual or autoset) of that property only. Returns the map
        itself. */
    method SetField(propertyName: string, position: int) returns (self: CsvMap)
      modifies this
      ensures self == this
      ensures mappingDictionary == old(mappingDictionary)[propertyName := position]
    {
      if propertyName in mappingDictionary {
        mappingDictionary := mappingDictionary - {propertyName};
      }
      mappingDictionary := mappingDictionary[propertyName := position];
      self := this;
    }

    /** Load, enumerated to the end: the first line is skipped when the file
        has a header or autoset is on; every further line yields its record
        until the first line that fails. */
    method Load(fs: FileSystem) returns (records: seq<Record>, failure: Option<Error>)
      ensures var contents := OpenLines(fs, filePath);
        if contents.Err? then records == [] && failure == Some(contents.error)
        else Streamed(schema, mappingDictionary, DataLines(contents.value, firstLineHeader || autoSet),
                      separator, records, failure)
    {
      var contents := OpenLines(fs, filePath);
      if contents.Err? {
        return [], Some(contents.error);
      }
      var data := DataLines(contents.value, firstLineHeader || autoSet);
      records, failure := StreamRecords(schema, mappingDictionary, data, separator);
    }
  }
}
