/**
  What a route handler does with a request once it has run: send a JSON
  body with a status, or hand the error to Express (`next(error)`), whose
  default handler answers 500.
*/
module Http {
  import opened Errors

  datatype Reply<B> = Json(status: nat, body: B) | Forward(error: Thrown)

  const InternalErrorMessage: string := "Internal server error"
  const UnauthorizedMessage: string := "Unauthorized"
}
