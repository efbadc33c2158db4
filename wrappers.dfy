/** The optional value used where the JavaScript code yields `undefined`
    or throws instead of producing a value. */
module Wrappers {

  datatype Option<+T> = None | Some(value: T)

}
