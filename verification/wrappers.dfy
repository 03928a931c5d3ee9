/** A minimal optional value, for detector results that may be absent. */
module Wrappers {

  datatype Option<+T> = None | Some(value: T)
}
