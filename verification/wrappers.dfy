/** An optional value. In the catalogue it stands for a JSON body field or a
    path parameter that may be missing (or, for a parsed id, not a number). */
module Wrappers {

  datatype Option<+T> = None | Some(value: T)

}
