/** The usual optional-value datatype, used for "no match" and "no navigation". */
module Wrappers {

  datatype Option<+T> = None | Some(value: T)
}
