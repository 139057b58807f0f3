/** Option and result types shared by every module of the model. */
module Outcomes {

  /** Swift's optional: a value or nil. */
  datatype Option<T> = None | Some(value: T) {

    /** `x ?? default` */
    function GetOr(default: T): T {
      if Some? then value else default
    }
  }

  /** The ways a handler can fail. Each stands for the HTTP status the
      application answers with; the status codes themselves are not modelled. */
  datatype Failure =
    | NotFound          // Abort(.notFound), or a route parameter naming no stored row
    | Unauthorized      // no authenticated user, or a password that does not verify
    | Forbidden         // the `.forbidden` status of the destroy handler
    | BadRequest        // Abort(.badRequest)
    | ValidationFailed  // `validate()` threw
    | MissingId         // `requireID()` on a record that was never saved

  /** The outcome of a handler or of a throwing call. */
  datatype Result<T> = Ok(value: T) | Err(failure: Failure)
}
