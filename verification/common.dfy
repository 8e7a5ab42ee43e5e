/** Value types shared by every component: optional values, the JSON
    documents the application reads and writes, and the three ways reading
    a file can turn out. */
module Common {

  /** A value that may be missing: Python's `None` or an absent dict key. */
  datatype Option<+T> = None | Some(value: T) {

    /** The carried value, or `default` when there is none (`dict.get(k, default)`). */
    function GetOr(default: T): T {
      match this
      case Some(v) => v
      case None => default
    }
  }

  /** A JSON value as `json.load` returns it. Numbers are integers only. */
  datatype Json =
    | JNull
    | JBool(b: bool)
    | JNum(n: int)
    | JStr(s: string)
    | JArr(items: seq<Json>)
    | JObj(fields: map<string, Json>)

  /** What reading a file yields: no file, a file that could not be opened or
      parsed (the `except` branches of the loaders), or its parsed content. */
  datatype FileState<T> = Absent | Unreadable | Parsed(value: T)
}
