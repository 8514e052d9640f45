/** The optional value shared by the segment store and the gesture controller. */
module Wrappers {

  datatype Option<T> = None | Some(value: T)
}
