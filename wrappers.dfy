/** The optional value the model uses for "absent", "did not parse" and "not found". */
module Wrappers {

  datatype Option<+T> = None | Some(value: T)
}
