/** The optional value a query-string lookup yields: `null` when the parameter is absent. */
module Wrappers {
  datatype Option<+T> = None | Some(value: T)
}
