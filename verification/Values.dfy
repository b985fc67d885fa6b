/** Values shared by every part of the broker model. */
module Values {

  datatype Option<+T> = None | Some(value: T)

  datatype Result<+T, +E> = Ok(value: T) | Err(error: E)

  /**
   * A Go `interface{}` as the broker sees it after decoding YAML or JSON. `List` and `Map`
   * are the generic `[]interface{}` and `map[string]interface{}`; `StrList` and `StrMap` are
   * the typed `[]string` and `map[string]string`, which type switches tell apart. Numbers
   * are integers.
   */
  datatype Value =
    | Null
    | Bool(b: bool)
    | Num(n: int)
    | Str(s: string)
    | List(items: seq<Value>)
    | StrList(strings: seq<string>)
    | Map(fields: map<string, Value>)
    | StrMap(entries: map<string, string>)

  type Object = map<string, Value>
}
