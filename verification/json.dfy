/**
  Parsed JSON documents, as `json.load` hands them to the viewer.
  Parsing itself is outside the model: the loader receives the parsed
  value, or the fact that reading or parsing the file failed.
 */
module Json {

  /** A JSON value. Numbers are kept as exact rationals; objects map keys to values. */
  datatype JsonValue =
    | JNull
    | JBool(b: bool)
    | JNum(n: real)
    | JStr(s: string)
    | JArr(items: seq<JsonValue>)
    | JObj(fields: map<string, JsonValue>)

  /** What opening and parsing one data file produced. `Unreadable` stands for any
      exception raised by `open` or `json.load` (missing file, I/O error, bad syntax). */
  datatype Source = Parsed(doc: JsonValue) | Unreadable

  /** A value that may be absent; used where the viewer's Python code raises. */
  datatype Option<+T> = None | Some(value: T)

  /** The contents of the data folder: every file name is read to some outcome. */
  type Disk = string -> Source
}
