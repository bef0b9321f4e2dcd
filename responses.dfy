/**
 * The GraphQL result unions of the resolver layer: every resolver answers with one
 * of these shapes instead of raising to the transport.
 *   StandardResponse      = SuccessResponse | ErrorResponse
 *   TrainingSessionResult = TrainingSession | ErrorResponse | SuccessResponse
 */
module Responses {
  datatype Response =
    | ErrorResponse(error: string)
    | SuccessResponse(message: string)
    | TrainingSession(word: string, completed: int, total: int)

  /** A member of the `StandardResponse` union. */
  predicate IsStandard(r: Response) {
    r.ErrorResponse? || r.SuccessResponse?
  }
}
