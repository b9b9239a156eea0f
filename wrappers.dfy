/** The Option type used for Python values that may be None. */
module Wrappers {

  datatype Option<+T> = None | Some(value: T)

  /** Python's `value or ''` for an optional string: None and the empty string both become ''. */
  function OrEmpty(o: Option<string>): (s: string)
    ensures s == "" <==> o.None? || o.value == ""
    ensures s != "" ==> o == Some(s)
  {
    match o
    case None => ""
    case Some(v) => v
  }
}
