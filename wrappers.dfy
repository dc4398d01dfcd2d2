/** The conventional optional value, used for open interval ends. */
module Wrappers {

  datatype Option<+T> = None | Some(value: T)

}
