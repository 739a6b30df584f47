/** Option type used for steps that may not be taken from a given state. */
module Wrappers {

  datatype Option<+T> = None | Some(value: T)

}
