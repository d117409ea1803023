/** The optional value used for "no result": a band without a peak, an export that produced no file. */
module Wrappers {

  datatype Option<+T> = None | Some(value: T)
}
