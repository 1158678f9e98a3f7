/** Option and Result, and the .NET exceptions that the storage plugin raises or swallows. */
module Wrappers {

  datatype Option<+T> = None | Some(value: T)

  /** The exception kinds that reach the plugin's callers (or its catch blocks). */
  datatype Exception =
    | ArgumentNullException(paramName: string)   // a settings constructor given no config section
    | ArgumentOutOfRangeException                // `Substring(0, 1)` on an empty stream id
    | KeyNotFoundException                       // dictionary or blob-metadata lookup of an absent key
    | FormatException                            // `long.Parse` of text that is not an integer
    | OverflowException                          // `long.Parse` of an integer outside 64 bits
    | StorageConflict                            // insert of an existing entity, or one batch naming a key twice

  datatype Result<+R> = Ok(value: R) | Err(error: Exception)
}
