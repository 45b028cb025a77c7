/** The exception classes the core throws, and the one error record they all share: a class and a message. */
module Errors {

  /** The class an error is an instance of. Each named exception class extends `Error` directly;
    * `PlainError` is a bare `new Error(...)`, `StoreError` an error raised by the database client. */
  datatype ErrorClass =
    | BadRequestException
    | EmailAlreadyExistsException
    | InvalidPasswordException
    | UserNotFoundException
    | ResourceNotFoundException
    | UniqueFieldException
    | UnauthorizedException
    | PlainError
    | StoreError

  /** A thrown error: `err instanceof C` is `err.cls == C`, and `err.message` is its message. */
  datatype Error = Error(cls: ErrorClass, message: string)

  const EmailAlreadyExists: Error := Error(EmailAlreadyExistsException, "Email already exists")
  const InvalidPassword: Error := Error(InvalidPasswordException, "Invalid password")
  const UserNotFound: Error := Error(UserNotFoundException, "User not found")
  const NoFieldsToUpdate: Error := Error(PlainError, "At least one field must be provided to update")
  /** What the database client throws when `update` or `delete` finds no row; its wording is not modelled. */
  const RecordMissing: Error := Error(StoreError, "record not found")
}
