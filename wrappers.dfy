/** Option: a JavaScript value that may be `undefined`/`null`, or a result that may be missing. */
module Wrappers {

  datatype Option<+T> = None | Some(value: T)
}
