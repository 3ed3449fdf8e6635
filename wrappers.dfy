/** The optional value of the model: an absent configuration entry, or a hole
    in a sparse row of slots. */
module Wrappers {
  datatype Option<+T> = None | Some(value: T)
}
