/** Outcomes of the calls the two services make into code that is not modelled. */
module Outcomes {

  datatype Option<+T> = None | Some(value: T)

  /** A call into a library: it either returns a value or raises an exception,
      of which the services only ever use `str(e)`, the message. */
  datatype Attempt<+T> = Returned(value: T) | Raised(message: string)
}
