/** An optional value, standing for C#'s nullable results and JavaScript's null. */
module Wrappers {
  datatype Option<+T> = None | Some(value: T)
}
