/** The HTTP responses the handlers write: a status and a JSON body. */
module Http {
  import opened Wrappers
  import opened Users

  /** What a body's `data` field carries. */
  datatype Payload =
    | Profile(profile: UserResponse)
    | Record(record: User)
    | Records(records: seq<User>)

  /** A JSON body; a field that is `None` is absent from the object. */
  datatype Body = Body(
    success: bool,
    message: Option<string>,
    data: Option<Payload>,
    user: Option<UserResponse>,
    token: Option<string>)

  /** `res.status(status).json(body)`. */
  datatype Response = Response(status: int, body: Body)

  /** `{ success: false, message }` */
  function FailureBody(message: string): Body
  {
    Body(false, Some(message), None, None, None)
  }
}
