/** The optional-value datatype used for SQL NULLs, absent keys and missing results. */
module Wrappers {
  datatype Option<+T> = None | Some(value: T)
}
