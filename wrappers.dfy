/** An optional value. For a request or column value, `None` stands for
    JavaScript `undefined` and SQL/JSON `null` alike. */
module Wrappers {

  datatype Option<+T> = None | Some(value: T)
}
