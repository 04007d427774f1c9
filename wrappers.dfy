/** The absent-or-present value that stands for Java's `Optional` and for a
    reference that may be `null`. */
module Wrappers {

  datatype Option<T> = None | Some(value: T)
}
