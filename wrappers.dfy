/** Result and Option wrappers and the exceptions the mapper can raise. */
module Wrappers {

  datatype Option<+T> = None | Some(value: T)

  datatype Result<+T, +E> = Ok(value: T) | Err(error: E)

  /** The .NET exceptions that escape the mapper, one constructor each. */
  datatype Error =
    | NullReference      // NullReferenceException: empty file path, or a null header line
    | FileNotFound       // FileNotFoundException: the path names no existing file
    | EmptyPath          // ArgumentException from `new StreamReader("")`
    | DuplicateKey       // ArgumentException from Dictionary.Add on a key already present
    | AmbiguousMatch     // AmbiguousMatchException: several properties match ignoring case
    | PropertyNotFound   // NullReferenceException on `prop.PropertyType` when GetProperty gave null
    | IndexOutOfRange    // IndexOutOfRangeException: a mapped position outside the row
    | FormatError        // FormatException: the text is not a number / boolean
    | OverflowError      // OverflowException: the number does not fit the target type
    | InvalidCast        // InvalidCastException from Convert.ChangeType
}
