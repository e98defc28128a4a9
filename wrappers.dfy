/** Option type for the operations of the source that can fail (a Python exception, a file that cannot be opened). */
module Wrappers {

  datatype Option<+T> = None | Some(value: T)

}
