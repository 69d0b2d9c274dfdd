/** The optional value the model uses where the source has `None` or a failed lookup. */
module Wrappers {
  datatype Option<+T> = None | Some(value: T)
}
