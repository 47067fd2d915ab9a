/** The current mapper, CsvManager<T> of CvsManager.cs: a file path, a
    configuration and a dictionary from property name to column position,
    filled by SetField or inferred from the header line (autoset). `Load`
    streams one record per data line. */
module CvsManager {
  import opened Wrappers
  import opened Text
  import opened Schema
  import opened HeaderInference
  import opened Streaming
  import opened Configuration

  class CsvManager {
    /** The target type T. */
    const schema: Schema
    const filePath: string
    var csvMapperConfiguration: CsvMapperConfiguration
    var mappingDictionary: map<string, int>

    /** The body of `CsvManager(filePath)` once the path has been validated:
        an empty dictionary and a fresh default configuration. */
    constructor (schema: Schema, filePath: string)
      ensures this.schema == schema && this.filePath == filePath
      ensures mappingDictionary == map[]
      ensures fresh(csvMapperConfiguration)
      ensures !csvMapperConfiguration.autoSet && !csvMapperConfiguration.firstLineHeader
      ensures csvMapperConfiguration.separator == ','
    {
      this.schema := schema;
      this.filePath := filePath;
      mappingDictionary := map[];
      csvMapperConfiguration := new CsvMapperConfiguration();
    }

    /** `new CsvManager<T>(filePath)`: fails as ValidateFilePath says,
        otherwise the manager with the default configuration. */
    static method Open(fs: FileSystem, schema: Schema, filePath: string)
      returns (r: Result<CsvManager, Error>)
      ensures r.Err? <==> ValidateFilePath(fs, filePath).Some?
      ensures r.Err? ==> r.error == ValidateFilePath(fs, filePath).value
      ensures r.Ok? ==> fresh(r.value) && fresh(r.value.csvMapperConfiguration)
      ensures r.Ok? ==> r.value.schema == schema && r.value.filePath == filePath
      ensures r.Ok? ==> r.value.mappingDictionary == map[]
      ensures r.Ok? ==> !r.value.csvMapperConfiguration.autoSet && !r.value.csvMapperConfiguration.firstLineHeader
      ensures r.Ok? ==> r.value.csvMapperConfiguration.separator == ','
    {
      var failure := ValidateFilePath(fs, filePath);
      if failure.Some? {
        return Err(failure.value);
      }
      var manager := new CsvManager(schema, filePath);
      r := Ok(manager);
    }

    /** `new CsvManager<T>(filePath, configuration)`: validates the path, then
        adopts the caller's configuration object; with autoset the dictionary
        is inferred from the header line and the caller's object is switched
        to FirstLineHeader = true. Without autoset the dictionary is empty
        and the configuration is left as it is. */
    static method OpenWithConfiguration(fs: FileSystem, schema: Schema, filePath: string,
                                        configuration: CsvMapperConfiguration)
      returns (r: Result<CsvManager, Error>)
      modifies configuration
      ensures configuration.autoSet == old(configuration.autoSet)
      ensures configuration.separator == old(configuration.separator)
      ensures ValidateFilePath(fs, filePath).Some? ==>
                r == Err(ValidateFilePath(fs, filePath).value) &&
                configuration.firstLineHeader == old(configuration.firstLineHeader)
      ensures r.Ok? ==> fresh(r.value) && r.value.csvMapperConfiguration == configuration
      ensures r.Ok? ==> r.value.schema == schema && r.value.filePath == filePath
      ensures r.Ok? && !configuration.autoSet ==>
                r.value.mappingDictionary == map[] && configuration.firstLineHeader == old(configuration.firstLineHeader)
      ensures ValidateFilePath(fs, filePath).None? && configuration.autoSet ==>
                var header := FirstLine(fs[filePath]);
                (r.Ok? <==> header.Some? && AllColumnsFit(HeaderResolutions(schema, header.value, configuration.separator), map[])) &&
                (r.Ok? ==> configuration.firstLineHeader &&
                           ExtendsWithColumns(HeaderResolutions(schema, header.value, configuration.separator), map[], r.value.mappingDictionary)) &&
                (header.None? ==> r == Err(NullReference)) &&
                (header.Some? && r.Err? ==> FailsWith(HeaderResolutions(schema, header.value, configuration.separator), map[], r.error))
      ensures r.Err? ==> configuration.firstLineHeader == old(configuration.firstLineHeader)
    {
      var failure := ValidateFilePath(fs, filePath);
      if failure.Some? {
        return Err(failure.value);
      }
      var manager := new CsvManager(schema, filePath);
      manager.csvMapperConfiguration := configuration;
      if configuration.autoSet {
        var autoSetFailure := manager.InitializeAutoSet(fs);
        if autoSetFailure.Some? {
          return Err(autoSetFailure.value);
        }
        configuration.firstLineHeader := true;
      }
      r := Ok(manager);
    }

    /** InitializeAutoSet: reads the first line of the file and autosets from
        it. An empty file gives a null line, on which Split throws. */
    method InitializeAutoSet(fs: FileSystem) returns (failure: Option<Error>)
      modifies this
      ensures csvMapperConfiguration == old(csvMapperConfiguration)
      ensures var contents := OpenLines(fs, filePath);
        if contents.Err? then failure == Some(contents.error) && mappingDictionary == old(mappingDictionary)
        else var header := FirstLine(contents.value);
             if header.None? then failure == Some(NullReference) && mappingDictionary == old(mappingDictionary)
             else AutoSetOutcome(schema, header.value, csvMapperConfiguration.separator,
                                 old(mappingDictionary), mappingDictionary, failure)
    {
      var contents := OpenLines(fs, filePath);
      if contents.Err? {
        return Some(contents.error);
      }
      var headerLine := FirstLine(contents.value);
      if headerLine.None? {
        return Some(NullReference);
      }
      failure := AutoSetPropertyFields(headerLine.value);
    }

    /** AutoSetPropertyFields: every header cell, cleaned of spaces and
        quotes, is looked up ignoring case, and each property found is added
        with its column index. */
    method AutoSetPropertyFields(headerLine: string) returns (failure: Option<Error>)
      modifies this
      ensures csvMapperConfiguration == old(csvMapperConfiguration)
      ensures AutoSetOutcome(schema, headerLine, csvMapperConfiguration.separator,
                             old(mappingDictionary), mappingDictionary, failure)
    {
      var columns := Split(headerLine, csvMapperConfiguration.separator);
      var added := AddHeaderColumns(Resolutions(schema, columns), mappingDictionary);
      if added.Err? {
        return Some(added.error);
      }
      mappingDictionary := added.value;
      failure := None;
    }

    /** SetField: maps the property to the position, replacing an earlier
        mapping of the same property. Returns the manager itself. */
    method SetField(propertyName: string, position: int) returns (self: CsvManager)
      modifies this
      ensures self == this
      ensures csvMapperConfiguration == old(csvMapperConfiguration)
      ensures mappingDictionary == old(mappingDictionary)[propertyName := position]
    {
      if propertyName in mappingDictionary {
        mappingDictionary := mappingDictionary - {propertyName};
      }
      mappingDictionary := mappingDictionary[propertyName := position];
      self := this;
    }

    /** RemoveFieldFromMapping: the property is no longer mapped, whether or
        not it was. Returns the manager itself. */
    method RemoveFieldFromMapping(propertyName: string) returns (self: CsvManager)
      modifies this
      ensures self == this
      ensures csvMapperConfiguration == old(csvMapperConfiguration)
      ensures mappingDictionary == old(mappingDictionary) - {propertyName}
    {
      if propertyName in mappingDictionary {
        mappingDictionary := mappingDictionary - {propertyName};
      }
      self := this;
    }

    /** Load, enumerated to the end: the file is contents when enumeration
        starts; the first line is skipped when the configuration says the
        file has a header or uses autoset; every further line yields the
        record its cells populate, until the first line that fails. */
    method Load(fs: FileSystem) returns (records: seq<Record>, failure: Option<Error>)
      ensures var contents := OpenLines(fs, filePath);
        if contents.Err? then records == [] && failure == Some(contents.error)
        else Streamed(schema, mappingDictionary,
                      DataLines(contents.value, csvMapperConfiguration.firstLineHeader || csvMapperConfiguration.autoSet),
                      csvMapperConfiguration.separator, records, failure)
    {
      var contents := OpenLines(fs, filePath);
      if contents.Err? {
        return [], Some(contents.error);
      }
      var skipHeader := csvMapperConfiguration.firstLineHeader || csvMapperConfiguration.autoSet;
      var data := DataLines(contents.value, skipHeader);
      records, failure := StreamRecords(schema, mappingDictionary, data, csvMapperConfiguration.separator);
    }
  }
}
