# User-account backend: a Dafny model

This project models the decision logic of an Express user-account backend: the user table, the
service rules that guard it, the controller's request checks and status selection, the error
handler's error-to-status table, the validation-error formatter, the response projection and the
extraction of a bearer token from an `Authorization` header.

Files and modules, following the source:

- `user_repository.dfy` (`Repository`): the table as a class `UserRepository` owning a sequence of
  rows in store order and an auto-increment id counter. `create`, `delete`, `updatePartial` and
  `update` change the sequence in place; `findById`, `findByEmail` and `findAll` read it. The object
  invariant `Valid()` says ids strictly increase along the table and stay below the counter.
- `user_service.dfy` (`Service`): the class `UserService` holding the repository and the injected
  `hash`, `compare` and `sign` functions. Each method runs the source's checks in the source's order,
  with early failures, and states exactly which error it returns, what the table becomes, and that
  the table is unchanged on every failure. Every writing method also keeps the "no two rows share an
  email" invariant (`EmailsUnique`), with one exception noted below.
- `transformer.dfy` (`Transformer`): `toUserResponse`.
- `user_controller.dfy` (`Controller`): each handler as two pure functions. A gate decides from the
  request whether to answer at once (`Reply`, the service is not called) or to call the service with
  the parsed input (`Proceed`). A reply function turns the service's answer into the response
  written (`Sent`) or the error handed to the error handler (`Thrown`). The Joi schemas are modelled
  by their length bounds, their check order and an abstract email-shape predicate `isEmail`.
- `js_number.dfy` (`JsNumber`): `parseInt(s, 10)` and the decimal rendering of an integer used in
  the message `User with ID ${id} not found`.
- `error_handler.dfy` (`ErrorHandling`): `errorStatusMap` and the handler's first-match loop.
- `validation_error.dfy` (`ValidationErrors`): the formatter as an immutable value, so none of its
  four views can change the error it holds.
- `auth_token.dfy` (`AuthToken`): `AuthToken.extract`.
- `strings.dfy` (`Strings`): JavaScript's `join` and `split` on one character, with the facts the
  other modules need (split then join is the identity; no piece contains the separator).
- `errors.dfy`, `users.dfy`, `http.dfy`, `wrappers.dfy`: exception classes as an `ErrorClass`
  datatype, the user record and its projection, response bodies, and `Option`/`Result`/`Outcome`.
- `scenarios.dfy` (`Scenarios`): call sequences a client can reason about from the method contracts
  alone: register then login, register twice, delete then look up.

Choices made where the source leaves things to collaborators:

- bcrypt draws a random salt, so `Register` takes the salt as a parameter and the injected `hash`
  takes `(password, salt)`. The clock that sets `createdAt`/`updatedAt` is the `now` parameter.
- Every update stamps `updatedAt := now`, as a Prisma `@updatedAt` column would. The Prisma schema
  is not part of this model.
- `delete` and `update` of a missing id fail with one generic store error `RecordMissing` whose
  wording is a placeholder.
- `instanceof` is equality of `ErrorClass`, on the assumption stated under "## Left out".
- Joi stops at the first error, so each validation error has one detail. Its message follows Joi's
  default English wording (`"name" length must be at least 5 characters long`).

Behaviour of the code that its names, types or comments do not suggest, modelled as the code
does it:

- `findById` is declared to return `UserResponseDTO` but returns the raw row, password hash included
  (packages/server/src/service/UserService.ts:81-87), and `findAll` returns the repository rows
  unprojected (UserService.ts:97-102). The controller writes both as they are
  (`Controller.FindByIdReply`, `Controller.FindAllRespondsWithPage`).
- `update` rejects an email that any row owns, including the row being updated (UserService.ts:161-166
  compare no ids), so a full update that keeps the user's own email always fails
  (`Service.UserService.Update`, last ensures). `updatePartial` compares the owner's id
  (UserService.ts:128-135) and allows it (`Service.OwnEmailNotTakenByOther`).
- Neither update path hashes the password (UserService.ts:137-141, 168-172): both store it exactly
  as given, while `register` hashes it.
- `UnauthorizedException` has no entry in `errorStatusMap` (packages/server/src/middleware/errorHandler.ts:11-18),
  so the handler answers it with 500, not 401.
- `updatePartial` checks for a duplicate only when the email is truthy (UserService.ts:128). An empty
  email skips the check and is still written. The controller never lets an empty email through, but
  at the service level this is the one write that can break `EmailsUnique`; the invariant clause of
  `Service.UserService.UpdatePartial` therefore excludes it.

## Model

| member | source | states |
|---|---|---|
| `Repository.UserRepository.Create` | packages/server/src/repository/UserRepository.ts:10-13 | appends exactly one row with the next id, the given name, email and password and both timestamps `now`, returns it; earlier rows unchanged |
| `Repository.UserRepository.Delete` | packages/server/src/repository/UserRepository.ts:19-21 | a missing id fails with the store error and changes nothing; otherwise removes that row only: a row remains exactly when it was there and has another id |
| `Repository.RemovalKeepsOthers` | packages/server/src/repository/UserRepository.ts:19-21 | removing one row keeps ids increasing and keeps exactly the rows with other ids |
| `Repository.UserRepository.FindById` | packages/server/src/repository/UserRepository.ts:28-31 | returns a row exactly when some row has the id, and then a row of the table with that id; read-only |
| `Repository.IndexOfId` | packages/server/src/repository/UserRepository.ts:28-31 | the position of the first row with the id, or none exactly when no row has it |
| `Repository.UserRepository.FindAll` | packages/server/src/repository/UserRepository.ts:39-41 | returns `Page` of the table; read-only |
| `Repository.Page` | packages/server/src/repository/UserRepository.ts:39-41 | the store-order slice from `skip`: length `min(limit, n - skip)` (0 past the end), at most `limit`, element `i` is row `skip + i` |
| `Repository.ConsecutivePagesDisjoint` | packages/server/src/repository/UserRepository.ts:39-41 | pages `(limit, skip)` and `(limit, skip + limit)` share no row |
| `Repository.ConsecutivePagesConcat` | packages/server/src/repository/UserRepository.ts:39-41 | those two pages together are page `(2 * limit, skip)` |
| `Repository.UserRepository.FindByEmail` | packages/server/src/repository/UserRepository.ts:48-50 | returns the first row with the email, or none; read-only |
| `Repository.IndexOfEmail` | packages/server/src/repository/UserRepository.ts:48-50 | the position of the first row with the email, or none exactly when no row has it |
| `Repository.KeyCount` | packages/server/src/repository/UserRepository.ts:62-64 | the number of keys of the update object, zero exactly when all three are absent; keys set to `undefined` count |
| `Repository.UserRepository.UpdatePartial` | packages/server/src/repository/UserRepository.ts:58-71 | zero keys fail with 'At least one field must be provided to update' and change nothing; otherwise the outcome of the database update |
| `Repository.UserRepository.Update` | packages/server/src/repository/UserRepository.ts:78-87 | the outcome of the database update, with no key check |
| `Repository.UserRepository.Write` | packages/server/src/repository/UserRepository.ts:66-69 | the table after the update is `Updated` of the old one and the result is `UpdateOutcome` |
| `Repository.UpdateOutcome` | packages/server/src/repository/UserRepository.ts:66-69 | fails with the store error exactly when no row has the id; on success the written row is `Patched` of the row with the id, so it keeps its id and creation time |
| `Repository.Updated` | packages/server/src/repository/UserRepository.ts:66-70 | same length as before; the row at the id's position becomes the written row, every row with another id is unchanged, and a failed update changes nothing |
| `Repository.Patched` | packages/server/src/repository/UserRepository.ts:66-69 | the row written by an update: a column given a value takes it, a column missing or `undefined` keeps its value; id and createdAt kept, updatedAt set to `now` |
| `Service.UserService.constructor` | packages/server/src/service/UserService.ts:15 | the service owns a fresh, empty, valid table and the injected hash, compare and sign functions |
| `Service.UserService.Register` | packages/server/src/service/UserService.ts:22-39 | an email already present fails with EmailAlreadyExists ('Email already exists') and leaves the table unchanged; otherwise appends one row with the next id, the name, the email and `hash(password, salt)`, and returns its projection; keeps emails unique |
| `Service.UserService.Login` | packages/server/src/service/UserService.ts:46-74 | unknown email fails with UserNotFound; a failed compare fails with InvalidPassword; otherwise the row's projection plus the token `sign({userId, email, role: 'ADMIN'})`; changes nothing |
| `Service.UserService.FindById` | packages/server/src/service/UserService.ts:81-88 | a missing id fails with UserNotFound; otherwise the stored row itself, not a projection; changes nothing |
| `Service.UserService.FindAll` | packages/server/src/service/UserService.ts:97-102 | the repository's page, unchanged; changes nothing |
| `Service.UserService.Delete` | packages/server/src/service/UserService.ts:109-111 | the store's failure for a missing id propagates and nothing changes; otherwise exactly the row with the id is removed; keeps emails unique |
| `Service.UserService.UpdatePartial` | packages/server/src/service/UserService.ts:119-144 | a missing id fails with `User with ID ${id} not found` first; then a truthy email whose first owner has a different id fails with EmailAlreadyExists; both leave the table unchanged; otherwise only the row at the id changes, to the supplied fields with the raw password; keeps emails unique unless the email is empty |
| `Service.PartialUpdateData` | packages/server/src/service/UserService.ts:137-141 | the update object always has three keys, so the repository's empty-data error cannot fire; a supplied field becomes a defined value equal to it, an absent one `undefined`, which keeps its column |
| `Service.Truthy` | packages/server/src/service/UserService.ts:128 | `undefined` and `""` are falsy, every non-empty string is truthy |
| `Service.TakenByOther` | packages/server/src/service/UserService.ts:128-135 | taken exactly when the email is truthy and the first row with that email has a different id |
| `Service.NotFoundById` | packages/server/src/service/UserService.ts:125 | a UserNotFoundException whose message is 'User with ID ', the id, ' not found', and whose middle part parses back to the id |
| `Service.OwnEmailNotTakenByOther` | packages/server/src/service/UserService.ts:128-135 | with unique emails, a user's own current email is never taken by another id |
| `Service.UserService.Update` | packages/server/src/service/UserService.ts:152-175 | a missing id fails with `User with ID ${id} not found`; an email any row has fails with EmailAlreadyExists, including the user's own; both leave the table unchanged; otherwise only the row at the id changes, to the new name, email and raw password; keeps emails unique |
| `Scenarios.RegisterThenLogin` | packages/server/src/service/UserService.ts:22-73 | after registering a fresh email, logging in with the same password succeeds, returns the registered projection and a token for the new id, when compare accepts a password against its own hash |
| `Scenarios.RegisterTwice` | packages/server/src/service/UserService.ts:22-28 | a second registration with the same email fails with EmailAlreadyExists and only one row is added |
| `Scenarios.DeleteThenFindById` | packages/server/src/service/UserService.ts:81-111 | after a delete, looking up that id fails with UserNotFound |
| `Transformer.ToUserResponse` | packages/server/src/utils/transformer.ts:13-20 | copies id, name, email and createdAt unchanged; the result type has no password or updatedAt; total and side-effect free |
| `Transformer.ProjectionForgetsExactlySecrets` | packages/server/src/utils/transformer.ts:13-20 | two users have equal projections if and only if they differ at most in password and updatedAt |
| `Controller.CheckStringAdmits` | packages/server/src/controller/UserController.ts:21-25 | Joi's ordered checks on one key accept exactly a value within the length bounds that is email-shaped for an email rule, or a missing optional key |
| `Controller.CheckString` | packages/server/src/controller/UserController.ts:21-25 | Joi's order on one key: a missing key is refused only when required, `""` is refused as empty, an email rule refuses a non-email before any length check, then a value shorter than `min` gives TooShort and one longer than `max` gives TooLong; every violation names its key |
| `Controller.FirstViolation` | packages/server/src/controller/UserController.ts:27-28 | no violation exactly when every key passes; otherwise the violation of the first key that fails, in schema order |
| `Controller.CheckUserBody` | packages/server/src/controller/UserController.ts:21-27 | no violation exactly when name is 5-50, email 5-100 and email-shaped, password 8-100, all present |
| `Controller.CheckCredentials` | packages/server/src/controller/UserController.ts:55-60 | no violation exactly when email is 5-100 and email-shaped and password 8-100, both present |
| `Controller.CheckPartialBody` | packages/server/src/controller/UserController.ts:169-175 | no violation exactly when at least one key is present and every present key is within its bounds |
| `Controller.Rejected` | packages/server/src/controller/UserController.ts:28-33 | the 400 response carries `success: false` and the formatter's message, which is the single detail's message |
| `Controller.RegisterGate` | packages/server/src/controller/UserController.ts:20-36 | the service is called exactly when the body is within the register bounds, with its three fields; otherwise 400 with success false |
| `Controller.RegisterReply` | packages/server/src/controller/UserController.ts:37-43 | the response ends successful exactly when the service succeeded: then 201 with the message 'User registered successfully' and the created profile as data; every failure ends with another status, and a duplicate email with 400 'Email already exists' through the error table |
| `Controller.LoginGate` | packages/server/src/controller/UserController.ts:54-69 | the service is called exactly when the credentials are within bounds; otherwise 400 with success false |
| `Controller.LoginReply` | packages/server/src/controller/UserController.ts:70-79 | successful exactly when the service succeeded: then 200 with the message 'Login successful', `user` = the result without its token, `token` beside it and no `data`; an unknown email ends with 404 'User not found', a wrong password with 400 'Invalid password' |
| `Controller.IdGate` | packages/server/src/controller/UserController.ts:90-96 | 400 'Invalid user ID' exactly when `parseInt` gives NaN; otherwise the parsed id |
| `Controller.FindByIdReply` | packages/server/src/controller/UserController.ts:98-103 | successful exactly when the service succeeded: then 200 with the stored row as data, its password hash included; an unknown id ends with 404 'User not found' |
| `Controller.UndefinedIsNaN` | packages/server/src/controller/UserController.ts:114-115 | a missing query parameter parses to NaN |
| `Controller.ParseQuery` | packages/server/src/controller/UserController.ts:114-115 | a missing query parameter gives NaN; a present one gives `parseInt` of its text |
| `Controller.FindAllGate` | packages/server/src/controller/UserController.ts:113-122 | 400 'Invalid pagination parameters' exactly when limit or skip is NaN, limit <= 0 or skip < 0; a missing parameter is always refused; otherwise the parsed pair |
| `Controller.FindAllReply` | packages/server/src/controller/UserController.ts:124-129 | always 200 and successful, with the service's rows as data |
| `Controller.FindAllRespondsWithPage` | packages/server/src/controller/UserController.ts:113-129 | a request the gate lets through ends with at most `limit` (> 0) rows, the table's rows from `skip` on in store order, and with at least one row when `skip` is inside the table |
| `Controller.DeleteReply` | packages/server/src/controller/UserController.ts:147-151 | 204 exactly when the delete went through; a missing row ends with 500 and the store's message, since a store error has no entry in the error table |
| `Controller.UpdatePartialGate` | packages/server/src/controller/UserController.ts:160-184 | a NaN id gives 400 'Invalid user ID' whatever the body; otherwise the service is called exactly when the partial body is valid, with the id and the fields as given |
| `Controller.UpdateGate` | packages/server/src/controller/UserController.ts:200-224 | a NaN id gives 400 'Invalid user ID' whatever the body; otherwise the service is called exactly when all three fields are within bounds |
| `Controller.UpdateReply` | packages/server/src/controller/UserController.ts:185-190 | successful exactly when the service succeeded: then 200 with the updated profile as data; `User with ID ${id} not found` ends with 404 and that message, a taken email with 400 'Email already exists' |
| `Controller.Respond` | packages/server/src/router/UserRouter.ts:8-10 | a response the handler wrote is final; an error passed to `next` ends with exactly the error handler's response `ResponseFor`, a 400, 404, 409 or 500 with success false |
| `JsNumber.TrimStart` | packages/server/src/controller/UserController.ts:90 | drops exactly the leading white space: what is dropped is all white space and what is left does not start with any |
| `JsNumber.DigitPrefix` | packages/server/src/controller/UserController.ts:90 | the longest prefix made only of decimal digits |
| `JsNumber.ParseInt` | packages/server/src/controller/UserController.ts:90 | a number is only read from text containing a digit, and a negative one only from text containing '-'; the value after a sign is given by `JsNumber.ParseIntOfSignedDigits` |
| `JsNumber.ParseSigned` | packages/server/src/controller/UserController.ts:90 | NaN exactly when no digit follows the optional sign; the result is negative only after '-' and never negative without it; `JsNumber.ParseSignedOfSign` gives its value after a sign |
| `JsNumber.ParseIntOfLeadingDigit` | packages/server/src/controller/UserController.ts:90 | text starting with a digit parses to the value of its digit run |
| `JsNumber.ParseIntOfDigitsThenRest` | packages/server/src/controller/UserController.ts:90 | digits followed by a non-digit parse to the digits' value (`"12abc"` is 12) |
| `JsNumber.ParseIntOfSignedDigits` | packages/server/src/controller/UserController.ts:90 | a sign, a digit run, then a non-digit parse to the run's value with that sign: `"-12abc"` is -12, `"+7"` is 7, `"-007"` is -7 |
| `JsNumber.ParseSignedOfSign` | packages/server/src/controller/UserController.ts:90 | after a sign, the digit run up to the first non-digit gives the value, negated after '-' |
| `JsNumber.ParseIntSkipsWhiteSpace` | packages/server/src/controller/UserController.ts:90 | leading white space does not change the result |
| `JsNumber.ParseIntNaN` | packages/server/src/controller/UserController.ts:90-91 | text starting with anything but white space, a sign or a digit, and the empty text, give NaN |
| `JsNumber.ParseIntOfIntToString` | packages/server/src/service/UserService.ts:125 | `parseInt` of the decimal rendering of any integer gives that integer back |
| `JsNumber.NatToStringValue` | packages/server/src/service/UserService.ts:125 | the digits rendered for a natural number read back as that number |
| `JsNumber.NatToString` | packages/server/src/service/UserService.ts:125 | the rendering is a non-empty string of decimal digits |
| `JsNumber.IntToString` | packages/server/src/service/UserService.ts:125 | a non-negative integer renders as digits only; a negative one as '-' then digits |
| `ErrorHandling.FirstMatch` | packages/server/src/middleware/errorHandler.ts:35-36 | the first table entry whose class the error is an instance of, or none exactly when no entry matches |
| `ErrorHandling.ErrorStatusMapKeysDistinct` | packages/server/src/middleware/errorHandler.ts:11-18 | no class has two entries in `errorStatusMap`, so the ordered table is the map |
| `ErrorHandling.ResponseFor` | packages/server/src/middleware/errorHandler.ts:11-48 | BadRequest, EmailAlreadyExists and InvalidPassword give 400, UserNotFound and ResourceNotFound 404, UniqueField 409, each with the message passed through even if empty; anything else 500 with the message, or 'Internal Server Error' when it is empty |
| `ErrorHandling.Handle` | packages/server/src/middleware/errorHandler.ts:35-48 | the loop writes exactly one response, the one of the first matching entry in table order, else the 500 fallback; status is one of 400, 404, 409, 500 with success false |
| `ValidationErrors.Messages` | packages/server/src/utils/validationError.ts:23-25 | one message per detail, in the same order |
| `ValidationErrors.Fields` | packages/server/src/utils/validationError.ts:30-32 | entry `i` is detail `i`'s path joined with "." |
| `ValidationErrors.FieldErrors` | packages/server/src/utils/validationError.ts:37-42 | entry `i` pairs detail `i`'s joined path with its message |
| `ValidationErrors.ValidationErrorFormatter.GetMessage` | packages/server/src/utils/validationError.ts:16-18 | the messages joined with ", "; "" for no details and the sole message for one |
| `ValidationErrors.ValidationErrorFormatter.GetMessages` | packages/server/src/utils/validationError.ts:23-25 | same length as the details, message `i` is detail `i`'s |
| `ValidationErrors.ValidationErrorFormatter.GetFields` | packages/server/src/utils/validationError.ts:30-32 | same length as the details, field `i` is detail `i`'s path joined with "." |
| `ValidationErrors.ValidationErrorFormatter.GetDetailedErrors` | packages/server/src/utils/validationError.ts:37-42 | same length as the details, entry `i` is `{field: getFields()[i], message: getMessages()[i]}` |
| `ValidationErrors.MessageOfOneMore` | packages/server/src/utils/validationError.ts:16-18 | one more detail appends ", " and its message to `getMessage` |
| `Strings.JoinSnoc` | packages/server/src/utils/validationError.ts:17 | joining one more part appends the separator and the part |
| `Strings.Join` | packages/server/src/utils/validationError.ts:17 | no parts join to `""`; the first part is a prefix of the result and no part is longer than it |
| `AuthToken.Extract` | packages/server/src/utils/authToken.ts:16-26 | succeeds exactly when the header is present and starts with "Bearer " (case and trailing space included), else Unauthorized 'Authorization header missing or malformed'; the token is the text after "Bearer " up to the next space and contains no space |
| `AuthToken.EmptyTokens` | packages/server/src/utils/authToken.ts:19-25 | "Bearer " alone, or followed by a second space, yields "" rather than an error |
| `AuthToken.ExtractRoundTrip` | packages/server/src/utils/authToken.ts:25 | a token without spaces after "Bearer " comes back unchanged |
| `Strings.Split` | packages/server/src/utils/authToken.ts:25 | at least one piece, and no piece contains the separator |
| `Strings.SplitJoin` | packages/server/src/utils/authToken.ts:25 | joining the pieces with the separator gives back the string |
| `Strings.SplitFirst` | packages/server/src/utils/authToken.ts:25 | the first piece is the text before the first separator |
| `Strings.SplitAfter` | packages/server/src/utils/authToken.ts:25 | a separator-free word and a separator split off as the first piece |
| `Strings.Enclosed` | packages/server/src/service/UserService.ts:125 | the three pieces of a template string can be cut back out of it by their lengths |

## Left out

- Exception classes: only packages/server/src/exception/UniqueFieldException.ts is part of this
  model. The model assumes that every other exception class also extends `Error` directly and not
  another class of the table, so `err instanceof C` holds for exactly one `C`. The 500 answer for
  `UnauthorizedException` and every status in `ErrorHandling.ResponseFor` rest on this assumption.
- Ids are unbounded integers. The database's `id` column is an integer of bounded width, so the
  database client refuses an id outside that range with an error, and the request ends with 500.
  The model instead looks such an id up and finds no row, which gives 404 or a store error.

- Concurrency: the handlers are asynchronous and two requests can interleave between the duplicate
  check and the write. Each service method is modelled as one atomic step, so that race is not modelled.
- The database's own unique constraint on email, and the error it raises, are not modelled. The
  check-then-write in the service is the only guard here.
- Id generation is an auto-increment counter starting at 1. Timestamps come from the `now`
  parameter. The exact error Prisma raises for a missing row is the placeholder `RecordMissing`.
- Email lookup (packages/server/src/repository/UserRepository.ts:48-50) is exact string equality.
  Whether the database compares emails ignoring case depends on its collation, which is not part of
  this model; the duplicate checks of `register`, `update` and `updatePartial` rest on this lookup.
- Store order is insertion order; Prisma gives no ordering guarantee for `findMany` without `orderBy`.
- Repository.UserRepository.FindAll: `limit` and `skip` are natural numbers. Prisma's reversed
  page for a negative `take` and its refusal of a negative `skip` are not modelled; the controller
  only passes `limit > 0` and `skip >= 0`.
- Repository.UserRepository.UpdatePartial: only the three keys the service passes are modelled, not
  arbitrary Prisma update objects.
- bcrypt's cost factor and salt generation, and what `compare` decides: `hash` and `compare` are
  injected functions.
- Token signing and `AuthToken.verify`: `sign` is an injected function of the claims. The secret,
  the one-hour expiry and the `iat` claim are not modelled.
- Joi: the email grammar is the abstract predicate `isEmail`. Unknown keys and values that are not
  strings are outside the body types. Message wording is Joi's default English wording as far as the
  model goes. String lengths count characters (Unicode scalar values) where JavaScript counts UTF-16
  code units.
- `parseInt`: integers are exact. JavaScript loses precision beyond 2^53, and `-0` is the same as
  `0`. A query parameter given twice (an array) is not modelled.
- Express plumbing: route matching, JSON serialisation of dates, and Express dropping the body of a
  204 response. `.catch(next)` is modelled as `Controller.Respond`.
- Request logging, the logger, the OpenAPI documentation and environment configuration are not part
  of this model.
