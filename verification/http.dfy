/** The HTTP responses the handlers write: a status code and a JSON body. */
module Http {
  import opened Domain

  const StatusOK: int := 200
  const StatusCreated: int := 201
  const StatusBadRequest: int := 400
  const StatusUnauthorized: int := 401
  const StatusInternalServerError: int := 500

  /** The message of an `ErrorResponse`: a fixed text, or `err.Error()` of
      the error that caused it (the error's text itself is not modelled). */
  datatype Reason = Text(text: string) | Because(error: Error)

  /** `MeResponse`: the public profile, with the id as text. */
  datatype MeResponse = MeResponse(id: string, username: string, email: string, firstName: string, lastName: string)

  /** The response bodies of the auth endpoints. */
  datatype Body =
    | ErrorBody(reason: Reason)                               // ErrorResponse
    | RegisterBody(userId: string)                            // RegisterResponse
    | TokensBody(accessToken: string, refreshToken: string)   // LoginResponse
    | MessageBody(message: string)                            // gin.H{"message": ...}
    | MeBody(me: MeResponse)

  datatype Response = Response(status: int, body: Body)

  /** `NewErrorResponse`: abort with the status and the message. */
  function ErrorResponse(status: int, reason: Reason): Response {
    Response(status, ErrorBody(reason))
  }
}
