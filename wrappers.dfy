/** The optional-value datatype used throughout the model: a missing JSON field,
    or the -1 that Python's `str.find` returns for "not found". */
module Wrappers {

  datatype Option<+T> = None | Some(value: T)
}
