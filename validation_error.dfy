/** `ValidationErrorFormatter`: read-only views of a Joi validation error. The formatter is an immutable
  * value holding the error it was built with, so none of its views can change that error. */
module ValidationErrors {
  import opened Strings

  /** One entry of `error.details`: a message and the path of keys to the offending value. */
  datatype Detail = Detail(message: string, path: seq<string>)

  /** `Joi.ValidationError`, reduced to its details. */
  datatype ValidationError = ValidationError(details: seq<Detail>)

  /** An entry of `getDetailedErrors`. */
  datatype FieldError = FieldError(field: string, message: string)

  /** `details.map(d => d.message)` */
  function Messages(details: seq<Detail>): (ms: seq<string>)
    ensures |ms| == |details|
    ensures forall i :: 0 <= i < |details| ==> ms[i] == details[i].message
  {
    if |details| == 0 then [] else [details[0].message] + Messages(details[1..])
  }

  /** `details.map(d => d.path.join('.'))` */
  function Fields(details: seq<Detail>): (fs: seq<string>)
    ensures |fs| == |details|
    ensures forall i :: 0 <= i < |details| ==> fs[i] == Join(details[i].path, ".")
  {
    if |details| == 0 then [] else [Join(details[0].path, ".")] + Fields(details[1..])
  }

  /** `details.map(d => ({ field: d.path.join('.'), message: d.message }))` */
  function FieldErrors(details: seq<Detail>): (es: seq<FieldError>)
    ensures |es| == |details|
    ensures forall i :: 0 <= i < |details| ==> es[i] == FieldError(Join(details[i].path, "."), details[i].message)
  {
    if |details| == 0 then []
    else [FieldError(Join(details[0].path, "."), details[0].message)] + FieldErrors(details[1..])
  }

  datatype ValidationErrorFormatter = ValidationErrorFormatter(error: ValidationError)
  {
    /** `getMessage`: every detail's message, in order, joined by ", ". */
    function GetMessage(): (m: string)
      ensures m == Join(GetMessages(), ", ")
      ensures |error.details| == 0 ==> m == ""
      ensures |error.details| == 1 ==> m == error.details[0].message
    {
      Join(Messages(error.details), ", ")
    }

    /** `getMessages`: one message per detail, in the same order. */
    function GetMessages(): (ms: seq<string>)
      ensures |ms| == |error.details|
      ensures forall i :: 0 <= i < |ms| ==> ms[i] == error.details[i].message
    {
      Messages(error.details)
    }

    /** `getFields`: each detail's path joined by ".". */
    function GetFields(): (fs: seq<string>)
      ensures |fs| == |error.details|
      ensures forall i :: 0 <= i < |fs| ==> fs[i] == Join(error.details[i].path, ".")
    {
      Fields(error.details)
    }

    /** `getDetailedErrors`: entry `i` pairs field `i` with message `i`. */
    function GetDetailedErrors(): (es: seq<FieldError>)
      ensures |es| == |error.details|
      ensures forall i :: 0 <= i < |es| ==> es[i] == FieldError(GetFields()[i], GetMessages()[i])
    {
      FieldErrors(error.details)
    }
  }

  /** One more detail adds ", " and its message to `getMessage`. */
  lemma MessageOfOneMore(details: seq<Detail>, d: Detail)
    requires |details| > 0
    ensures ValidationErrorFormatter(ValidationError(details + [d])).GetMessage()
         == ValidationErrorFormatter(ValidationError(details)).GetMessage() + ", " + d.message
  {
    var before := Messages(details);
    assert Messages(details + [d]) == before + [d.message];
    JoinSnoc(before, d.message, ", ");
  }
}
