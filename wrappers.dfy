/** The optional result the store returns for a missing hash or key. */
module Wrappers {

  datatype Option<+T> = None | Some(value: T)
}
