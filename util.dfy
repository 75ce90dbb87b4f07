/** The optional value used throughout the model (a JavaScript `undefined` is `None`). */
module Util {

  datatype Option<+T> = None | Some(value: T)

}
