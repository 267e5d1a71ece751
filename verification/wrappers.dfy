/** The optional value used wherever JavaScript may hold `undefined` or `null`. */
module Wrappers {

  datatype Option<+T> = None | Some(value: T)
}
