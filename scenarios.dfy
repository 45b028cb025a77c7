/** Sequences of service calls, and what the contracts of the single calls let a caller conclude. */
module Scenarios {
  import opened Wrappers
  import opened Users
  import opened Errors
  import opened Repository
  import opened Transformer
  import opened Service

  /** Appending a row whose email is new makes it the first row with that email. */
  lemma {:induction false} FirstWithEmailAfterAppend(users: seq<User>, user: User)
    requires IndexOfEmail(users, user.email).None?
    ensures IndexOfEmail(users + [user], user.email) == Some(|users|)
  {
    if |users| > 0 {
      assert (users + [user])[1..] == users[1..] + [user];
      FirstWithEmailAfterAppend(users[1..], user);
    }
  }

  /** Registering with a fresh email and then logging in with the same password succeeds, provided the
    * password comparison accepts a password against its own hash, and the token names the new row. */
  method RegisterThenLogin(service: UserService, data: UserData, salt: string, now: int)
    returns (registered: Result<UserResponse, Error>, session: Result<LoginResponse, Error>)
    requires service.Valid()
    requires service.compare(data.password, service.hash(data.password, salt))
    requires IndexOfEmail(service.userRepository.users, data.email).None?
    modifies service.userRepository
    ensures registered.Success? && registered.value.email == data.email
    ensures session.Success? && session.value.WithoutToken() == registered.value
    ensures session.value.token == service.sign(Claims(old(service.userRepository.nextId), data.email, AdminRole))
  {
    ghost var before := service.userRepository.users;
    registered := service.Register(data, salt, now);
    FirstWithEmailAfterAppend(before, service.userRepository.users[|before|]);
    session := service.Login(LoginData(data.email, data.password));
  }

  /** Registering twice with one email fails the second time and stores one row. */
  method RegisterTwice(service: UserService, first: UserData, second: UserData, salt: string, now: int)
    returns (r: Result<UserResponse, Error>)
    requires service.Valid() && first.email == second.email
    requires IndexOfEmail(service.userRepository.users, first.email).None?
    modifies service.userRepository
    ensures r == Failure(EmailAlreadyExists)
    ensures |service.userRepository.users| == |old(service.userRepository.users)| + 1
  {
    var created := service.Register(first, salt, now);
    ghost var after := service.userRepository.users;
    assert after[|after| - 1].email == second.email;
    r := service.Register(second, salt, now);
  }

  /** After deleting an id, looking it up fails with UserNotFound. */
  method DeleteThenFindById(service: UserService, id: int) returns (r: Result<User, Error>)
    requires service.Valid()
    modifies service.userRepository
    ensures r == Failure(UserNotFound)
  {
    var deleted := service.Delete(id);
    r := service.FindById(id);
  }
}
