/** `UserService`: the business rules of registration, login, lookup, listing, update and deletion,
  * run step by step against the user table it owns. Password hashing, password comparison and
  * token signing are injected functions; bcrypt's random salt and the clock are parameters. */
module Service {
  import opened Wrappers
  import opened Users
  import opened Errors
  import opened Repository
  import opened Transformer
  import opened JsNumber
  import Strings

  /** `RegisterUserDTO` and `UpdateUserDTO`: all three fields. */
  datatype UserData = UserData(name: string, email: string, password: string)

  /** `LoginUserDTO`. */
  datatype LoginData = LoginData(email: string, password: string)

  /** `UpdateUserPartialDTO`: every field may be `undefined`. */
  datatype PartialData = PartialData(name: Option<string>, email: Option<string>, password: Option<string>)

  /** The claims signed into a login token. */
  datatype Claims = Claims(userId: int, email: string, role: string)

  /** `UserResponseDTO & { token }`, as the spread in `login` builds it. */
  datatype LoginResponse = LoginResponse(id: int, name: string, email: string, createdAt: int, token: string)
  {
    /** `const { token, ...userData } = userResponse`: the object without its token. */
    function WithoutToken(): UserResponse
    {
      UserResponse(id, name, email, createdAt)
    }
  }

  /** The role every token carries. */
  const AdminRole := "ADMIN"

  const NotFoundPrefix := "User with ID "
  const NotFoundSuffix := " not found"

  /** `new UserNotFoundException(`User with ID ${id} not found`)`: the message names the id, and the
    * text between the fixed words reads back as that id. */
  function NotFoundById(id: int): (e: Error)
    ensures e.cls == UserNotFoundException
    ensures |e.message| > |NotFoundPrefix| + |NotFoundSuffix|
    ensures e.message[..|NotFoundPrefix|] == NotFoundPrefix
    ensures e.message[|e.message| - |NotFoundSuffix|..] == NotFoundSuffix
    ensures ParseInt(e.message[|NotFoundPrefix|..|e.message| - |NotFoundSuffix|]) == Int(id)
  {
    var digits := IntToString(id);
    ParseIntOfIntToString(id);
    Strings.Enclosed(NotFoundPrefix, digits, NotFoundSuffix);
    Error(UserNotFoundException, NotFoundPrefix + digits + NotFoundSuffix)
  }

  /** No two rows share an email. */
  ghost predicate EmailsUnique(users: seq<User>)
  {
    forall i, j :: 0 <= i < |users| && 0 <= j < |users| && i != j ==> users[i].email != users[j].email
  }

  /** `if (data.email)`: `undefined` and `""` are falsy, every other string is truthy. */
  function Truthy(s: Option<string>): (t: bool)
    ensures s.None? ==> !t
    ensures s == Some("") ==> !t
    ensures s.Some? && |s.value| > 0 ==> t
  {
    s.Some? && s.value != ""
  }

  /** The duplicate check of `updatePartial`: an email is supplied and the first row that has it
    * belongs to a different id. Only that first row is looked at. */
  function TakenByOther(users: seq<User>, email: Option<string>, id: int): (taken: bool)
    ensures taken <==> Truthy(email) && exists i :: (0 <= i < |users| && users[i].email == email.value
      && users[i].id != id && forall j :: 0 <= j < i ==> users[j].email != email.value)
    ensures !Truthy(email) ==> !taken
  {
    && Truthy(email)
    && var owner := IndexOfEmail(users, email.value);
    && owner.Some?
    && users[owner.value].id != id
  }

  /** `{ name: data.name, email: data.email, password: data.password }`: a key for each field, `undefined`
    * where the field was not supplied. */
  function PartialUpdateData(data: PartialData): (d: UpdateData)
    ensures KeyCount(d) == 3
    ensures (d.name.Defined? <==> data.name.Some?) && (data.name.Some? ==> d.name.value == data.name.value)
    ensures (d.email.Defined? <==> data.email.Some?) && (data.email.Some? ==> d.email.value == data.email.value)
    ensures (d.password.Defined? <==> data.password.Some?) && (data.password.Some? ==> d.password.value == data.password.value)
  {
    UpdateData(ToSlot(data.name), ToSlot(data.email), ToSlot(data.password))
  }

  function ToSlot(v: Option<string>): Slot
  {
    match v
    case None => Undefined
    case Some(s) => Defined(s)
  }

  /** Awaiting the repository and passing its row to `Transformer.toUserResponse`; a rejection propagates. */
  function ProjectResult(r: Result<User, Error>): Result<UserResponse, Error>
  {
    match r
    case Success(user) => Success(ToUserResponse(user))
    case Failure(e) => Failure(e)
  }

  /** Appending a row whose email no row has keeps emails unique. */
  lemma AppendKeepsEmailsUnique(users: seq<User>, user: User)
    requires EmailsUnique(users) && IndexOfEmail(users, user.email).None?
    ensures EmailsUnique(users + [user])
  {
  }

  /** Replacing row `i` by a row whose email no other row has keeps emails unique. */
  lemma ReplaceKeepsEmailsUnique(users: seq<User>, i: nat, row: User)
    requires EmailsUnique(users) && i < |users|
    requires forall j :: 0 <= j < |users| && j != i ==> users[j].email != row.email
    ensures EmailsUnique(users[i := row])
  {
  }

  /** Removing a row keeps emails unique. */
  lemma RemoveKeepsEmailsUnique(users: seq<User>, i: nat)
    requires EmailsUnique(users) && i < |users|
    ensures EmailsUnique(users[..i] + users[i + 1..])
  {
    var after := users[..i] + users[i + 1..];
    assert forall k :: 0 <= k < |after| ==> after[k] == users[if k < i then k else k + 1];
  }

  /** With unique emails, looking up a row's own email finds that row. */
  lemma {:induction false} OwnEmailFound(users: seq<User>, i: nat)
    requires EmailsUnique(users) && i < |users|
    ensures IndexOfEmail(users, users[i].email) == Some(i)
  {
    var k := IndexOfEmail(users, users[i].email);
    assert k.Some?;
  }

  /** With unique emails, `updatePartial` does not count a user's own email as taken. */
  lemma OwnEmailNotTakenByOther(users: seq<User>, id: int)
    requires EmailsUnique(users) && IndexOfId(users, id).Some?
    ensures !TakenByOther(users, Some(users[IndexOfId(users, id).value].email), id)
  {
    OwnEmailFound(users, IndexOfId(users, id).value);
  }

  class UserService {
    /** The table, reached through the repository (`private readonly userRepository`). */
    const userRepository: UserRepository
    /** `BcryptUtils.hashPassword`, given the salt that `genSalt` draws. */
    const hash: (string, string) -> string
    /** `BcryptUtils.comparePassword(raw, hashed)`. */
    const compare: (string, string) -> bool
    /** `JwtUtils.generateToken`. */
    const sign: Claims -> string

    ghost predicate Valid()
      reads this, userRepository
    {
      userRepository.Valid()
    }

    constructor (hash: (string, string) -> string, compare: (string, string) -> bool, sign: Claims -> string)
      ensures Valid() && fresh(userRepository)
      ensures userRepository.users == []
      ensures this.hash == hash && this.compare == compare && this.sign == sign
    {
      userRepository := new UserRepository();
      this.hash := hash;
      this.compare := compare;
      this.sign := sign;
    }

    /** `register`: refuses an email already in the table; otherwise stores one row with the hashed
      * password and returns its projection. */
    method Register(data: UserData, salt: string, now: int) returns (r: Result<UserResponse, Error>)
      requires Valid()
      modifies userRepository
      ensures Valid()
      ensures IndexOfEmail(old(userRepository.users), data.email).Some? ==>
        r == Failure(EmailAlreadyExists) && unchanged(userRepository)
      ensures IndexOfEmail(old(userRepository.users), data.email).None? ==>
        var created := User(old(userRepository.nextId), data.name, data.email, hash(data.password, salt), now, now);
        && userRepository.users == old(userRepository.users) + [created]
        && r == Success(ToUserResponse(created))
      ensures EmailsUnique(old(userRepository.users)) ==> EmailsUnique(userRepository.users)
    {
      var existing := userRepository.FindByEmail(data.email);
      if existing.Some? {
        return Failure(EmailAlreadyExists);
      }
      var hashed := hash(data.password, salt);
      ghost var before := userRepository.users;
      var created := userRepository.Create(CreateData(data.name, data.email, hashed), now);
      if EmailsUnique(before) {
        AppendKeepsEmailsUnique(before, created);
      }
      r := Success(ToUserResponse(created));
    }

    /** `login`: an unknown email and a wrong password fail differently; on success the projection of
      * the row comes back with a token signed over its id, its email and the admin role. */
    method Login(data: LoginData) returns (r: Result<LoginResponse, Error>)
      requires Valid()
      ensures IndexOfEmail(userRepository.users, data.email).None? ==> r == Failure(UserNotFound)
      ensures IndexOfEmail(userRepository.users, data.email).Some? ==>
        var user := userRepository.users[IndexOfEmail(userRepository.users, data.email).value];
        if !compare(data.password, user.password) then r == Failure(InvalidPassword)
        else
          && r.Success?
          && r.value.WithoutToken() == ToUserResponse(user)
          && r.value.token == sign(Claims(user.id, user.email, AdminRole))
    {
      var found := userRepository.FindByEmail(data.email);
      if found.None? {
        return Failure(UserNotFound);
      }
      var user := found.value;
      var passwordMatch := compare(data.password, user.password);
      if !passwordMatch {
        return Failure(InvalidPassword);
      }
      var token := sign(Claims(user.id, user.email, AdminRole));
      var profile := ToUserResponse(user);
      r := Success(LoginResponse(profile.id, profile.name, profile.email, profile.createdAt, token));
    }

    /** `findById`: not-found fails; otherwise the stored row itself, password included. */
    method FindById(id: int) returns (r: Result<User, Error>)
      requires Valid()
      ensures IndexOfId(userRepository.users, id).None? ==> r == Failure(UserNotFound)
      ensures IndexOfId(userRepository.users, id).Some? ==>
        r == Success(userRepository.users[IndexOfId(userRepository.users, id).value])
    {
      var user := userRepository.FindById(id);
      if user.None? {
        return Failure(UserNotFound);
      }
      r := Success(user.value);
    }

    /** `findAll`: the repository's page, rows unchanged. */
    method FindAll(limit: nat, skip: nat) returns (page: seq<User>)
      requires Valid()
      ensures page == Page(userRepository.users, limit, skip)
    {
      page := userRepository.FindAll(limit, skip);
    }

    /** `delete`: removes the row with `id`; the store's failure for a missing row propagates. */
    method Delete(id: int) returns (r: Outcome<Error>)
      requires Valid()
      modifies userRepository
      ensures Valid() && userRepository.nextId == old(userRepository.nextId)
      ensures IndexOfId(old(userRepository.users), id).None? ==>
        r == Fail(RecordMissing) && userRepository.users == old(userRepository.users)
      ensures IndexOfId(old(userRepository.users), id).Some? ==>
        var i := IndexOfId(old(userRepository.users), id).value;
        r == Pass && userRepository.users == old(userRepository.users)[..i] + old(userRepository.users)[i + 1..]
      ensures forall u :: u in userRepository.users <==> u in old(userRepository.users) && u.id != id
      ensures EmailsUnique(old(userRepository.users)) ==> EmailsUnique(userRepository.users)
    {
      ghost var before := userRepository.users;
      r := userRepository.Delete(id);
      if EmailsUnique(before) && r.Pass? {
        RemoveKeepsEmailsUnique(before, IndexOfId(before, id).value);
      }
    }

    /** `updatePartial`: the id must exist; a supplied email must not belong to a different id; then
      * only the supplied fields are written, the password as given, without hashing. */
    method UpdatePartial(id: int, data: PartialData, now: int) returns (r: Result<UserResponse, Error>)
      requires Valid()
      modifies userRepository
      ensures Valid() && userRepository.nextId == old(userRepository.nextId)
      ensures IndexOfId(old(userRepository.users), id).None? ==>
        r == Failure(NotFoundById(id)) && unchanged(userRepository)
      ensures IndexOfId(old(userRepository.users), id).Some? && TakenByOther(old(userRepository.users), data.email, id) ==>
        r == Failure(EmailAlreadyExists) && unchanged(userRepository)
      ensures IndexOfId(old(userRepository.users), id).Some? && !TakenByOther(old(userRepository.users), data.email, id) ==>
        var i := IndexOfId(old(userRepository.users), id).value;
        var row := Patched(old(userRepository.users)[i], PartialUpdateData(data), now);
        && userRepository.users == old(userRepository.users)[i := row]
        && r == Success(ToUserResponse(row))
      ensures EmailsUnique(old(userRepository.users)) && data.email != Some("") ==> EmailsUnique(userRepository.users)
    {
      var user := userRepository.FindById(id);
      if user.None? {
        return Failure(NotFoundById(id));
      }
      if Truthy(data.email) {
        var owner := userRepository.FindByEmail(data.email.value);
        if owner.Some? && owner.value.id != id {
          return Failure(EmailAlreadyExists);
        }
      }
      ghost var before := userRepository.users;
      var updated := userRepository.UpdatePartial(id, PartialUpdateData(data), now);
      r := ProjectResult(updated);
      ghost var i := IndexOfId(before, id).value;
      if EmailsUnique(before) && data.email != Some("") {
        if data.email.Some? {
          var owner := IndexOfEmail(before, data.email.value);
          if owner.Some? {
            assert owner.value == i;
          }
        }
        ReplaceKeepsEmailsUnique(before, i, userRepository.users[i]);
      }
    }

    /** `update`: the id must exist, and the email must belong to no row at all, not even this
      * user's own; then name, email and the password as given are written. */
    method Update(id: int, data: UserData, now: int) returns (r: Result<UserResponse, Error>)
      requires Valid()
      modifies userRepository
      ensures Valid() && userRepository.nextId == old(userRepository.nextId)
      ensures IndexOfId(old(userRepository.users), id).None? ==>
        r == Failure(NotFoundById(id)) && unchanged(userRepository)
      ensures IndexOfId(old(userRepository.users), id).Some? && IndexOfEmail(old(userRepository.users), data.email).Some? ==>
        r == Failure(EmailAlreadyExists) && unchanged(userRepository)
      ensures IndexOfId(old(userRepository.users), id).Some? && IndexOfEmail(old(userRepository.users), data.email).None? ==>
        var i := IndexOfId(old(userRepository.users), id).value;
        var row := old(userRepository.users)[i].(name := data.name, email := data.email, password := data.password, updatedAt := now);
        && userRepository.users == old(userRepository.users)[i := row]
        && r == Success(ToUserResponse(row))
      ensures EmailsUnique(old(userRepository.users)) ==> EmailsUnique(userRepository.users)
      ensures IndexOfId(old(userRepository.users), id).Some? &&
              old(userRepository.users)[IndexOfId(old(userRepository.users), id).value].email == data.email ==>
        r == Failure(EmailAlreadyExists)
    {
      var user := userRepository.FindById(id);
      if user.None? {
        return Failure(NotFoundById(id));
      }
      var owner := userRepository.FindByEmail(data.email);
      if owner.Some? {
        return Failure(EmailAlreadyExists);
      }
      ghost var before := userRepository.users;
      var updated := userRepository.Update(id, UpdateData(Defined(data.name), Defined(data.email), Defined(data.password)), now);
      r := ProjectResult(updated);
      if EmailsUnique(before) {
        ReplaceKeepsEmailsUnique(before, IndexOfId(before, id).value, userRepository.users[IndexOfId(before, id).value]);
      }
    }
  }
}
