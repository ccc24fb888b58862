/** The optional value used wherever a JavaScript property or result may be missing. */
module Wrappers {

  datatype Option<+T> = None | Some(value: T)
}
