/**
 The optional value the Java code expresses with `null`: the base window
 iterator and `getNextTimeRange` both answer `null` when no window is left.
 */
module Wrappers {

  datatype Option<T> = None | Some(value: T)

}
