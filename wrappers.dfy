/** An optional value, standing for a key that a dictionary may lack or a field that may be null. */
module Wrappers {

  datatype Option<T> = None | Some(value: T)
}
