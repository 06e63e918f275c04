/** Failure-carrying values shared by every module of the model.
    JavaScript code in the modelled system signals errors by throwing a
    string (or a runtime TypeError/ReferenceError); `Err` carries that text. */
module Results {

  /** `undefined`/`null` versus a present value. */
  datatype Option<+T> = None | Some(value: T)

  /** Normal completion with a value, or an exception carrying its message. */
  datatype Result<+T> = Ok(value: T) | Err(thrown: string)
}
