/** Small helper datatypes shared by the whole model. */
module Types {

  /** Python's `None` or a present value. */
  datatype Option<+T> = None | Some(value: T)

  /** A reply to one HTTP request: the status code the platform answered, or a
      transport-level exception raised by the HTTP client before any status arrived. */
  datatype Reply = Status(code: int) | TransportError
}
