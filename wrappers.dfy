/** The optional value used wherever the source can throw, can return `null`
    or can leave a value unset. */
module Wrappers {

  datatype Option<+T> = None | Some(value: T)
}
