/** The optional value used wherever the source returns `undefined`/`null`
    or throws instead of producing a value. */
module Wrappers {

  datatype Option<+T> = None | Some(value: T)
}
