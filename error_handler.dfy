/** `ErrorHandler.handler`: the last middleware, which turns a thrown error into the one response written. */
module ErrorHandling {
  import opened Wrappers
  import opened Errors
  import opened Http

  /** `errorStatusMap`, in insertion order, which is the order a `Map` iterates its entries. */
  const ErrorStatusMap: seq<(ErrorClass, int)> := [
    (BadRequestException, 400),
    (EmailAlreadyExistsException, 400),
    (InvalidPasswordException, 400),
    (UserNotFoundException, 404),
    (ResourceNotFoundException, 404),
    (UniqueFieldException, 409)
  ]

  const InternalServerError := "Internal Server Error"

  /** No class has two entries, so the table read as a sequence is the `Map` it is written as. */
  lemma ErrorStatusMapKeysDistinct()
    ensures forall i, j :: 0 <= i < j < |ErrorStatusMap| ==> ErrorStatusMap[i].0 != ErrorStatusMap[j].0
  {
  }

  /** The position of the first entry whose class the error is an instance of. */
  function FirstMatch(table: seq<(ErrorClass, int)>, cls: ErrorClass): (r: Option<nat>)
    ensures r.Some? ==> r.value < |table| && table[r.value].0 == cls
    ensures r.Some? ==> forall j :: 0 <= j < r.value ==> table[j].0 != cls
    ensures r.None? <==> forall j :: 0 <= j < |table| ==> table[j].0 != cls
  {
    if |table| == 0 then None
    else if table[0].0 == cls then Some(0)
    else match FirstMatch(table[1..], cls)
      case None => None
      case Some(k) => Some(k + 1)
  }

  /** The response for `err`: the status of the first matching entry with the message passed through,
    * or 500 with the message, or with "Internal Server Error" when the message is empty. */
  function ResponseFor(err: Error): (resp: Response)
    ensures resp.status in {400, 404, 409, 500} && !resp.body.success
    ensures err.cls in {BadRequestException, EmailAlreadyExistsException, InvalidPasswordException} ==>
      resp == Response(400, FailureBody(err.message))
    ensures err.cls in {UserNotFoundException, ResourceNotFoundException} ==>
      resp == Response(404, FailureBody(err.message))
    ensures err.cls == UniqueFieldException ==> resp == Response(409, FailureBody(err.message))
    ensures err.cls in {UnauthorizedException, PlainError, StoreError} ==>
      resp == Response(500, FailureBody(if err.message == "" then InternalServerError else err.message))
  {
    match FirstMatch(ErrorStatusMap, err.cls)
    case Some(k) => Response(ErrorStatusMap[k].1, FailureBody(err.message))
    case None => Response(500, FailureBody(if err.message == "" then InternalServerError else err.message))
  }

  /** The handler's loop over the entries, returning as soon as the error is an instance of one. */
  method Handle(err: Error) returns (resp: Response)
    ensures resp == ResponseFor(err)
    ensures resp.status in {400, 404, 409, 500} && !resp.body.success
  {
    var i := 0;
    while i < |ErrorStatusMap|
      invariant 0 <= i <= |ErrorStatusMap|
      invariant forall j :: 0 <= j < i ==> ErrorStatusMap[j].0 != err.cls
    {
      var (errorClass, statusCode) := ErrorStatusMap[i];
      if err.cls == errorClass {
        return Response(statusCode, FailureBody(err.message));
      }
      i := i + 1;
    }
    resp := Response(500, FailureBody(if err.message == "" then InternalServerError else err.message));
  }
}
