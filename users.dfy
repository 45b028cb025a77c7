/** The persisted user record and its public projection. */
module Users {

  /** A row of the user table. Timestamps are instants in milliseconds; `password` holds whatever was stored. */
  datatype User = User(id: int, name: string, email: string, password: string, createdAt: int, updatedAt: int)

  /** The public view of a user: no password, no update timestamp. */
  datatype UserResponse = UserResponse(id: int, name: string, email: string, createdAt: int)
}
