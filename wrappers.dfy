/** A value that may be missing: a cell pandas reads as NaN/NaT, or a result that does not exist. */
module Wrappers {

  datatype Option<+T> = None | Some(value: T)

}
