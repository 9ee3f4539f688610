/** Small value types shared by the scraper, the forecast generator and the API server. */
module Common {

  datatype Option<+T> = None | Some(value: T)

  datatype Result<+T, +E> = Ok(value: T) | Err(error: E)

  /** What reading a JSON file yields: the parsed document, or a file that json.load rejects. */
  datatype FileContent<+T> = Parsed(doc: T) | Malformed

  /** A directory as a reader sees it: None for a file that does not exist, else what
      json.load makes of it. */
  type Files<T> = string -> Option<FileContent<T>>

  /** The keys of a dictionary kept as its entries in insertion order. */
  function Keys<T>(entries: seq<(string, T)>): seq<string> {
    if entries == [] then [] else Keys(entries[..|entries| - 1]) + [entries[|entries| - 1].0]
  }

  /** The JSON field values the API reads from the exported forecast records. */
  datatype Json = JStr(s: string) | JInt(i: int) | JNull

  /** The Python exceptions the API's code can raise: TypeError and ValueError on unexpected
      JSON values, ValueError and OSError on an environment variable the platform rejects. */
  datatype PyError = TypeError | ValueError | OSError
}
