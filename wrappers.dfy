/** The optional value used for steps of the crop that can fail. */
module Wrappers {

  datatype Option<+T> = None | Some(value: T)
}
