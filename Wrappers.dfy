/** Kotlin's nullable results (`T?`), as an option datatype. */
module Wrappers {

  datatype Option<+T> = None | Some(value: T)

}
