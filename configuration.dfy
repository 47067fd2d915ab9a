/** CsvMapperConfiguration: the mutable settings object a caller hands to
    CsvManager. The manager keeps a reference to the caller's object, so later
    changes by either side are seen by both. */
module Configuration {

  class CsvMapperConfiguration {
    var autoSet: bool
    var firstLineHeader: bool
    var separator: char

    /** The defaults: no autoset, no header line, comma separator. */
    constructor ()
      ensures !autoSet && !firstLineHeader && separator == ','
    {
      autoSet := false;
      firstLineHeader := false;
      separator := ',';
    }
  }
}
