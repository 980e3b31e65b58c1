/** Option type used where the C code passes a "not known" sentinel or returns NULL. */
module Wrappers {
  datatype Option<+T> = None | Some(value: T)
}
