/** A value that may be missing, and an HTTP handler's answer. */
module Wrappers {
  /** JavaScript's `null`/`undefined` and SQL's empty result. */
  datatype Option<+T> = None | Some(value: T)

  /** A JSON body with status 200, or an error status with its `{ error }` message. */
  datatype Response<T> = Ok(body: T) | Error(status: int, error: string)

  /**
   * Stands for the message of a schema (zod) rejection, which the services
   * answer with status 400; its wording is not modelled.
   */
  const SchemaErrorMessage: string := "invalid request body"
}
