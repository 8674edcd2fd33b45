/** Value wrappers shared by the model: optional values and the outcome of a
    JavaScript call that either returns or throws. */
module Wrappers {

  /** A JavaScript value that may be `undefined`. */
  datatype Option<+T> = None | Some(value: T)

  /** The exceptions the modelled code can raise. */
  datatype JsError =
    | TypeError                 // a property read on `undefined` or `null`
    | ReferenceError            // a read of an undeclared identifier
    | Error(message: string)    // `throw new Error(message)`

  /** A call that either returns a value or throws. */
  datatype Result<+T> = Return(value: T) | Throw(error: JsError)

  /** A call that returns nothing or throws. */
  datatype Outcome = Done | Fail(error: JsError)
}
