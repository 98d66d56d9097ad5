/** Values the crawler handles: what `json.loads` yields for the API payloads,
    and the rows of the users table. */
module Values {

  datatype Option<+T> = None | Some(value: T)

  /** A JSON value as the Python code sees it. `Other` stands for every value
      that has neither a `replace` nor an `endswith` method: `None`, a float,
      an object. Python's `bool` is a subclass of `int`, which matters to
      `StringToInt`. */
  datatype Value =
    | Str(s: string)
    | Int(i: int)
    | Bool(b: bool)
    | List(items: seq<Value>)
    | Other

  /** One line of the users table, one cell per column. */
  type Row = seq<Value>

  /** `d.get(key, default)` on a JSON object. */
  function GetOr(m: map<string, Value>, key: string, default: Value): (v: Value)
    ensures key !in m ==> v == default
    ensures key in m ==> v == m[key]
  {
    if key in m then m[key] else default
  }
}
