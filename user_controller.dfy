/** `UserController`: what each handler decides before and after it calls the service. A handler first
  * checks its input and may answer at once (`Reply`) without calling the service; otherwise it calls
  * the service with what it read (`Proceed`). The service's answer is then either written (`Sent`) or,
  * when the service threw, passed on to the error handler (`Thrown`). */
module Controller {
  import opened Wrappers
  import opened Users
  import opened Errors
  import opened Http
  import opened JsNumber
  import opened ValidationErrors
  import opened Service
  import opened Repository
  import opened ErrorHandling

  /** A request body; each key the schemas know is absent or a string. */
  datatype UserBody = UserBody(name: Option<string>, email: Option<string>, password: Option<string>)

  /** The body of a login request. */
  datatype CredentialsBody = CredentialsBody(email: Option<string>, password: Option<string>)

  /** `Joi.string()`, with `.email()` when `email`, `.min(min).max(max)`, and `.required()` when `required`. */
  datatype StringRule = StringRule(key: string, required: bool, email: bool, min: nat, max: nat)

  /** The first rule a value breaks, which is all Joi reports (it stops at the first error). */
  datatype Violation =
    | Required(key: string)
    | Empty(key: string)
    | NotEmail(key: string)
    | TooShort(key: string, limit: nat)
    | TooLong(key: string, limit: nat)
    | TooFewKeys(limit: nat)

  const NameRule := StringRule("name", true, false, 5, 50)
  const EmailRule := StringRule("email", true, true, 5, 100)
  const PasswordRule := StringRule("password", true, false, 8, 100)

  function Optional(rule: StringRule): StringRule
  {
    rule.(required := false)
  }

  /** Joi's checks on one key, in its order: presence, the empty string, then the rules as declared
    * (`.email()` comes before `.min` and `.max` in the email rules). */
  function CheckString(rule: StringRule, value: Option<string>, isEmail: string -> bool): (v: Option<Violation>)
    ensures value.None? ==> (v.Some? <==> rule.required) && (v.Some? ==> v.value == Required(rule.key))
    ensures value == Some("") ==> v == Some(Empty(rule.key))
    ensures value.Some? && value.value != "" && rule.email && !isEmail(value.value) ==>
      v == Some(NotEmail(rule.key))
    ensures value.Some? && (rule.email ==> isEmail(value.value)) && 0 < |value.value| < rule.min ==>
      v == Some(TooShort(rule.key, rule.min))
    ensures (value.Some? && value.value != "" && (rule.email ==> isEmail(value.value)) &&
             rule.min <= |value.value| && |value.value| > rule.max) ==>
      v == Some(TooLong(rule.key, rule.max))
    ensures v.Some? ==> !v.value.TooFewKeys? && v.value.key == rule.key
  {
    match value
    case None => if rule.required then Some(Required(rule.key)) else None
    case Some(s) =>
      if s == "" then Some(Empty(rule.key))
      else if rule.email && !isEmail(s) then Some(NotEmail(rule.key))
      else if |s| < rule.min then Some(TooShort(rule.key, rule.min))
      else if |s| > rule.max then Some(TooLong(rule.key, rule.max))
      else None
  }

  /** What a rule accepts: a missing key only when it is optional; a string of a length within the
    * bounds that, for an email rule, is shaped like an email. */
  predicate Admits(rule: StringRule, value: Option<string>, isEmail: string -> bool)
  {
    match value
    case None => !rule.required
    case Some(s) => rule.min <= |s| <= rule.max && (rule.email ==> isEmail(s))
  }

  /** With a positive lower bound, Joi's checks accept exactly what the rule admits. */
  lemma CheckStringAdmits(rule: StringRule, value: Option<string>, isEmail: string -> bool)
    requires rule.min > 0
    ensures CheckString(rule, value, isEmail).None? <==> Admits(rule, value, isEmail)
  {
  }

  /** The first violation among the keys, checked in schema order. */
  function FirstViolation(checks: seq<Option<Violation>>): (v: Option<Violation>)
    ensures v.None? <==> forall i :: 0 <= i < |checks| ==> checks[i].None?
    ensures v.Some? ==> exists k :: (0 <= k < |checks| && v == checks[k] &&
      forall j :: 0 <= j < k ==> checks[j].None?)
  {
    if |checks| == 0 then None
    else if checks[0].Some? then checks[0]
    else FirstViolation(checks[1..])
  }

  /** Joi's default English message for a violation. */
  function Describe(v: Violation): string
  {
    match v
    case Required(key) => Quoted(key) + " is required"
    case Empty(key) => Quoted(key) + " is not allowed to be empty"
    case NotEmail(key) => Quoted(key) + " must be a valid email"
    case TooShort(key, limit) => Quoted(key) + " length must be at least " + NatToString(limit) + " characters long"
    case TooLong(key, limit) =>
      Quoted(key) + " length must be less than or equal to " + NatToString(limit) + " characters long"
    case TooFewKeys(limit) => Quoted("value") + " must have at least " + NatToString(limit) + (if limit == 1 then " key" else " keys")
  }

  function Quoted(key: string): string
  {
    "\"" + key + "\""
  }

  /** The `Joi.ValidationError` for a violation: one detail, with the key as its path. */
  function ErrorOf(v: Violation): ValidationError
  {
    ValidationError([Detail(Describe(v), if v.TooFewKeys? then [] else [v.key])])
  }

  /** A step of a handler before the service: answer now, or call the service with `input`. */
  datatype Step<T> = Reply(response: Response) | Proceed(input: T)

  /** How a handler ends once the service answered: a response written, or the error passed to `next`. */
  datatype Handled = Sent(response: Response) | Thrown(error: Error)

  /** The response a request ends with: the one the handler wrote, or the error handler's response
    * for the error passed to `next`. */
  function Respond(h: Handled): (resp: Response)
    ensures h.Sent? ==> resp == h.response
    ensures h.Thrown? ==> resp == ResponseFor(h.error)
    ensures h.Thrown? ==> resp.status in {400, 404, 409, 500} && !resp.body.success
  {
    match h
    case Sent(resp) => resp
    case Thrown(e) => ResponseFor(e)
  }

  const InvalidUserId := "Invalid user ID"
  const InvalidPagination := "Invalid pagination parameters"

  function BadRequest(message: string): Response
  {
    Response(400, FailureBody(message))
  }

  /** `res.status(400).json({ success: false, message: formatter.getMessage() })`. */
  function Rejected(v: Violation): (resp: Response)
    ensures resp == BadRequest(Describe(v))
  {
    BadRequest(ValidationErrorFormatter(ErrorOf(v)).GetMessage())
  }

  /** The bounds of the register and update schemas. */
  predicate UserBodyValid(body: UserBody, isEmail: string -> bool)
  {
    && body.name.Some? && 5 <= |body.name.value| <= 50
    && body.email.Some? && 5 <= |body.email.value| <= 100 && isEmail(body.email.value)
    && body.password.Some? && 8 <= |body.password.value| <= 100
  }

  /** The bounds of the login schema. */
  predicate CredentialsValid(body: CredentialsBody, isEmail: string -> bool)
  {
    && body.email.Some? && 5 <= |body.email.value| <= 100 && isEmail(body.email.value)
    && body.password.Some? && 8 <= |body.password.value| <= 100
  }

  /** The bounds of the partial-update schema: at least one key, each supplied key within its bounds. */
  predicate PartialBodyValid(body: UserBody, isEmail: string -> bool)
  {
    && (body.name.Some? || body.email.Some? || body.password.Some?)
    && (body.name.Some? ==> 5 <= |body.name.value| <= 50)
    && (body.email.Some? ==> 5 <= |body.email.value| <= 100 && isEmail(body.email.value))
    && (body.password.Some? ==> 8 <= |body.password.value| <= 100)
  }

  /** The register and update schema, all three keys required. */
  function CheckUserBody(body: UserBody, isEmail: string -> bool): (v: Option<Violation>)
    ensures v.None? <==> UserBodyValid(body, isEmail)
  {
    CheckStringAdmits(NameRule, body.name, isEmail);
    CheckStringAdmits(EmailRule, body.email, isEmail);
    CheckStringAdmits(PasswordRule, body.password, isEmail);
    var checks := [
      CheckString(NameRule, body.name, isEmail),
      CheckString(EmailRule, body.email, isEmail),
      CheckString(PasswordRule, body.password, isEmail)];
    assert forall i :: 0 <= i < |checks| ==> checks[i] == [checks[0], checks[1], checks[2]][i];
    FirstViolation(checks)
  }

  /** The login schema. */
  function CheckCredentials(body: CredentialsBody, isEmail: string -> bool): (v: Option<Violation>)
    ensures v.None? <==> CredentialsValid(body, isEmail)
  {
    CheckStringAdmits(EmailRule, body.email, isEmail);
    CheckStringAdmits(PasswordRule, body.password, isEmail);
    var checks := [
      CheckString(EmailRule, body.email, isEmail),
      CheckString(PasswordRule, body.password, isEmail)];
    assert forall i :: 0 <= i < |checks| ==> checks[i] == [checks[0], checks[1]][i];
    FirstViolation(checks)
  }

  /** The partial-update schema: each key optional, then `.min(1)` on the object. */
  function CheckPartialBody(body: UserBody, isEmail: string -> bool): (v: Option<Violation>)
    ensures v.None? <==> PartialBodyValid(body, isEmail)
  {
    CheckStringAdmits(Optional(NameRule), body.name, isEmail);
    CheckStringAdmits(Optional(EmailRule), body.email, isEmail);
    CheckStringAdmits(Optional(PasswordRule), body.password, isEmail);
    var checks := [
      CheckString(Optional(NameRule), body.name, isEmail),
      CheckString(Optional(EmailRule), body.email, isEmail),
      CheckString(Optional(PasswordRule), body.password, isEmail)];
    assert forall i :: 0 <= i < |checks| ==> checks[i] == [checks[0], checks[1], checks[2]][i];
    var keys := FirstViolation(checks);
    if keys.Some? then keys
    else if body.name.None? && body.email.None? && body.password.None? then Some(TooFewKeys(1))
    else None
  }

  /** `register`, up to the service call. */
  function RegisterGate(body: UserBody, isEmail: string -> bool): (s: Step<UserData>)
    ensures s.Proceed? <==> UserBodyValid(body, isEmail)
    ensures s.Reply? ==> s.response.status == 400 && !s.response.body.success
    ensures s.Proceed? ==> s.input == UserData(body.name.value, body.email.value, body.password.value)
  {
    match CheckUserBody(body, isEmail)
    case Some(v) => Reply(Rejected(v))
    case None => Proceed(UserData(body.name.value, body.email.value, body.password.value))
  }

  /** `register`, after the service call: 201 with the created user. */
  function RegisterReply(r: Result<UserResponse, Error>): (h: Handled)
    ensures Respond(h).body.success <==> r.Success?
    ensures r.Success? ==> Respond(h).status == 201 && Respond(h).body.data == Some(Profile(r.value))
    ensures r.Success? ==> Respond(h).body.message == Some("User registered successfully")
    ensures r.Failure? ==> Respond(h).status != 201
    ensures r == Failure(EmailAlreadyExists) ==> Respond(h) == Response(400, FailureBody("Email already exists"))
  {
    match r
    case Success(created) => Sent(Response(201, Body(true, Some("User registered successfully"), Some(Profile(created)), None, None)))
    case Failure(e) => Thrown(e)
  }

  /** `login`, up to the service call. */
  function LoginGate(body: CredentialsBody, isEmail: string -> bool): (s: Step<LoginData>)
    ensures s.Proceed? <==> CredentialsValid(body, isEmail)
    ensures s.Reply? ==> s.response.status == 400 && !s.response.body.success
    ensures s.Proceed? ==> s.input == LoginData(body.email.value, body.password.value)
  {
    match CheckCredentials(body, isEmail)
    case Some(v) => Reply(Rejected(v))
    case None => Proceed(LoginData(body.email.value, body.password.value))
  }

  /** `login`, after the service call: 200 with the user without its token, and the token beside it. */
  function LoginReply(r: Result<LoginResponse, Error>): (h: Handled)
    ensures Respond(h).body.success <==> r.Success?
    ensures r.Success? ==> Respond(h).status == 200 && Respond(h).body.data.None?
    ensures r.Success? ==> Respond(h).body.message == Some("Login successful")
    ensures r.Success? ==> Respond(h).body.user == Some(r.value.WithoutToken()) && Respond(h).body.token == Some(r.value.token)
    ensures r == Failure(UserNotFound) ==> Respond(h) == Response(404, FailureBody("User not found"))
    ensures r == Failure(InvalidPassword) ==> Respond(h) == Response(400, FailureBody("Invalid password"))
  {
    match r
    case Success(session) =>
      Sent(Response(200, Body(true, Some("Login successful"), None, Some(session.WithoutToken()), Some(session.token))))
    case Failure(e) => Thrown(e)
  }

  /** `parseInt(req.params.id, 10)` and the `isNaN` check shared by four handlers. */
  function IdGate(id: string): (s: Step<int>)
    ensures s.Reply? <==> ParseInt(id).NaN?
    ensures s.Reply? ==> s.response == BadRequest(InvalidUserId)
    ensures s.Proceed? ==> s.input == ParseInt(id).value
  {
    match ParseInt(id)
    case NaN => Reply(BadRequest(InvalidUserId))
    case Int(n) => Proceed(n)
  }

  /** `findById`, after the service call: 200 with the record as the service returned it. */
  function FindByIdReply(r: Result<User, Error>): (h: Handled)
    ensures Respond(h).body.success <==> r.Success?
    ensures r.Success? ==> Respond(h).status == 200 && Respond(h).body.data == Some(Record(r.value))
    ensures r.Success? ==> Respond(h).body.message.None?
    ensures r.Success? ==> Respond(h).body.data.value.record.password == r.value.password
    ensures r == Failure(UserNotFound) ==> Respond(h) == Response(404, FailureBody("User not found"))
  {
    match r
    case Success(user) => Sent(Response(200, Body(true, None, Some(Record(user)), None, None)))
    case Failure(e) => Thrown(e)
  }

  /** `parseInt` of a query parameter: a missing one is `undefined`, which reads as "undefined". */
  function ParseQuery(q: Option<string>): (p: Parsed)
    ensures q.None? ==> p == NaN
    ensures q.Some? ==> p == ParseInt(q.value)
  {
    match q
    case None => ParseIntNaN("undefined"); ParseInt("undefined")
    case Some(s) => ParseInt(s)
  }

  /** A missing query parameter never parses. */
  lemma UndefinedIsNaN()
    ensures ParseQuery(None) == NaN
  {
    ParseIntNaN("undefined");
  }

  /** `findAll`, up to the service call. */
  function FindAllGate(limit: Option<string>, skip: Option<string>): (s: Step<(nat, nat)>)
    ensures limit.None? || skip.None? ==> s.Reply?
    ensures s.Reply? <==>
      var l, k := ParseQuery(limit), ParseQuery(skip);
      l.NaN? || k.NaN? || l.value <= 0 || k.value < 0
    ensures s.Reply? ==> s.response == BadRequest(InvalidPagination)
    ensures s.Proceed? ==> s.input.0 == ParseQuery(limit).value && s.input.1 == ParseQuery(skip).value
  {
    var l, k := ParseQuery(limit), ParseQuery(skip);
    if l.NaN? || k.NaN? || l.value <= 0 || k.value < 0 then Reply(BadRequest(InvalidPagination))
    else Proceed((l.value, k.value))
  }

  /** `findAll`, after the service call: 200 with the rows. */
  function FindAllReply(users: seq<User>): (h: Handled)
    ensures Respond(h).status == 200 && Respond(h).body.success
    ensures Respond(h).body.data == Some(Records(users)) && Respond(h).body.message.None?
  {
    Sent(Response(200, Body(true, None, Some(Records(users)), None, None)))
  }

  /** A `findAll` request the gate lets through is answered with at most `limit` rows, the rows of the
    * table from `skip` on, in store order, passwords included. */
  lemma FindAllRespondsWithPage(users: seq<User>, limit: Option<string>, skip: Option<string>)
    requires FindAllGate(limit, skip).Proceed?
    ensures var (l, k) := FindAllGate(limit, skip).input;
      var rows := Respond(FindAllReply(Page(users, l, k))).body.data.value.records;
      && 0 < l && |rows| <= l
      && (k < |users| ==> |rows| > 0)
      && forall i :: 0 <= i < |rows| ==> rows[i] == users[k + i]
  {
  }

  /** `delete`, after the service call: 204. */
  function DeleteReply(r: Outcome<Error>): (h: Handled)
    ensures Respond(h).status == 204 <==> r.Pass?
    ensures r.Pass? ==> Respond(h).body.success
    ensures r == Fail(RecordMissing) ==> Respond(h) == Response(500, FailureBody(RecordMissing.message))
  {
    match r
    case Pass => Sent(Response(204, Body(true, None, None, None, None)))
    case Fail(e) => Thrown(e)
  }

  /** `updatePartial`, up to the service call: the id first, then the body. */
  function UpdatePartialGate(id: string, body: UserBody, isEmail: string -> bool): (s: Step<(int, PartialData)>)
    ensures ParseInt(id).NaN? ==> s == Reply(BadRequest(InvalidUserId))
    ensures ParseInt(id).Int? ==> (s.Proceed? <==> PartialBodyValid(body, isEmail))
    ensures ParseInt(id).Int? && s.Reply? ==> s.response.status == 400 && !s.response.body.success
    ensures s.Proceed? ==> s.input == (ParseInt(id).value, PartialData(body.name, body.email, body.password))
  {
    match IdGate(id)
    case Reply(resp) => Reply(resp)
    case Proceed(n) =>
      match CheckPartialBody(body, isEmail)
      case Some(v) => Reply(Rejected(v))
      case None => Proceed((n, PartialData(body.name, body.email, body.password)))
  }

  /** `update`, up to the service call: the id first, then the body with all three keys. */
  function UpdateGate(id: string, body: UserBody, isEmail: string -> bool): (s: Step<(int, UserData)>)
    ensures ParseInt(id).NaN? ==> s == Reply(BadRequest(InvalidUserId))
    ensures ParseInt(id).Int? ==> (s.Proceed? <==> UserBodyValid(body, isEmail))
    ensures ParseInt(id).Int? && s.Reply? ==> s.response.status == 400 && !s.response.body.success
    ensures s.Proceed? ==> s.input == (ParseInt(id).value, UserData(body.name.value, body.email.value, body.password.value))
  {
    match IdGate(id)
    case Reply(resp) => Reply(resp)
    case Proceed(n) =>
      match CheckUserBody(body, isEmail)
      case Some(v) => Reply(Rejected(v))
      case None => Proceed((n, UserData(body.name.value, body.email.value, body.password.value)))
  }

  /** `update` and `updatePartial`, after the service call: 200 with the updated user. */
  function UpdateReply(r: Result<UserResponse, Error>): (h: Handled)
    ensures Respond(h).body.success <==> r.Success?
    ensures r.Success? ==> Respond(h).status == 200 && Respond(h).body.data == Some(Profile(r.value))
    ensures r.Success? ==> Respond(h).body.message.None?
    ensures r.Failure? && r.error.cls == UserNotFoundException ==>
      Respond(h) == Response(404, FailureBody(r.error.message))
    ensures r == Failure(EmailAlreadyExists) ==> Respond(h) == Response(400, FailureBody("Email already exists"))
  {
    match r
    case Success(user) => Sent(Response(200, Body(true, None, Some(Profile(user)), None, None)))
    case Failure(e) => Thrown(e)
  }
}
