/** `UserRepository`: the user table and the reads and writes the service performs on it. The table is
  * held in store order; ids come from an auto-increment counter, as the database assigns them. */
module Repository {
  import opened Wrappers
  import opened Users
  import opened Errors

  /** `Prisma.UserCreateInput` as the service fills it. */
  datatype CreateData = CreateData(name: string, email: string, password: string)

  /** One key of an update object: not present, present with the value `undefined`, or present with a value. */
  datatype Slot = Missing | Undefined | Defined(value: string)
  {
    /** The value a column has after the update: a defined value replaces it, `undefined` and a missing key keep it. */
    function Apply(current: string): string
    {
      if Defined? then value else current
    }
  }

  /** `Prisma.UserUpdateArgs['data']` as the service fills it. */
  datatype UpdateData = UpdateData(name: Slot, email: Slot, password: Slot)

  /** `Object.keys(data).length`: keys whose value is `undefined` count. */
  function KeyCount(data: UpdateData): (n: nat)
    ensures n <= 3
    ensures n == 0 <==> data.name.Missing? && data.email.Missing? && data.password.Missing?
  {
    (if data.name.Missing? then 0 else 1)
    + (if data.email.Missing? then 0 else 1)
    + (if data.password.Missing? then 0 else 1)
  }

  /** The row an update writes: supplied columns replaced, the rest kept, the update timestamp refreshed. */
  function Patched(user: User, data: UpdateData, now: int): (row: User)
    ensures row.id == user.id && row.createdAt == user.createdAt && row.updatedAt == now
    ensures row.name == (if data.name.Defined? then data.name.value else user.name)
    ensures row.email == (if data.email.Defined? then data.email.value else user.email)
    ensures row.password == (if data.password.Defined? then data.password.value else user.password)
  {
    user.(name := data.name.Apply(user.name),
          email := data.email.Apply(user.email),
          password := data.password.Apply(user.password),
          updatedAt := now)
  }

  /** Ids strictly increase along the table, so no id occurs twice. */
  ghost predicate IdsIncreasing(users: seq<User>)
  {
    forall i, j :: 0 <= i < j < |users| ==> users[i].id < users[j].id
  }

  /** The position of the row with `id`, if there is one (`findFirst({ where: { id } })`). */
  function IndexOfId(users: seq<User>, id: int): (r: Option<nat>)
    ensures r.Some? ==> r.value < |users| && users[r.value].id == id
    ensures r.Some? ==> forall j :: 0 <= j < r.value ==> users[j].id != id
    ensures r.None? <==> forall j :: 0 <= j < |users| ==> users[j].id != id
  {
    if |users| == 0 then None
    else if users[0].id == id then Some(0)
    else match IndexOfId(users[1..], id)
      case None => None
      case Some(k) => Some(k + 1)
  }

  /** The position of the first row with `email`, if there is one (`findFirst({ where: { email } })`). */
  function IndexOfEmail(users: seq<User>, email: string): (r: Option<nat>)
    ensures r.Some? ==> r.value < |users| && users[r.value].email == email
    ensures r.Some? ==> forall j :: 0 <= j < r.value ==> users[j].email != email
    ensures r.None? <==> forall j :: 0 <= j < |users| ==> users[j].email != email
  {
    if |users| == 0 then None
    else if users[0].email == email then Some(0)
    else match IndexOfEmail(users[1..], email)
      case None => None
      case Some(k) => Some(k + 1)
  }

  /** The row at an optional position. */
  function At(users: seq<User>, index: Option<nat>): Option<User>
    requires index.Some? ==> index.value < |users|
  {
    match index
    case None => None
    case Some(i) => Some(users[i])
  }

  function Min(a: nat, b: nat): nat
  {
    if a <= b then a else b
  }

  /** `findMany({ take: limit, skip })`: the rows from position `skip` on, at most `limit` of them. */
  function Page(users: seq<User>, limit: nat, skip: nat): (page: seq<User>)
    ensures |page| <= limit
    ensures |page| == if skip >= |users| then 0 else Min(limit, |users| - skip)
    ensures forall i :: 0 <= i < |page| ==> skip + i < |users| && page[i] == users[skip + i]
  {
    if skip >= |users| then [] else users[skip..skip + Min(limit, |users| - skip)]
  }

  /** Consecutive pages of one size hold no common row. */
  lemma ConsecutivePagesDisjoint(users: seq<User>, limit: nat, skip: nat)
    requires IdsIncreasing(users)
    ensures forall u :: u in Page(users, limit, skip) ==> u !in Page(users, limit, skip + limit)
  {
    var first, second := Page(users, limit, skip), Page(users, limit, skip + limit);
    forall u | u in first
      ensures u !in second
    {
      var i :| 0 <= i < |first| && first[i] == u;
      assert u == users[skip + i];
    }
  }

  /** Two consecutive pages of one size together are the page of twice that size. */
  lemma {:induction false} ConsecutivePagesConcat(users: seq<User>, limit: nat, skip: nat)
    ensures Page(users, limit, skip) + Page(users, limit, skip + limit) == Page(users, 2 * limit, skip)
  {
    var whole := Page(users, 2 * limit, skip);
    var first, second := Page(users, limit, skip), Page(users, limit, skip + limit);
    assert |first| + |second| == |whole|;
    forall i | 0 <= i < |whole|
      ensures (first + second)[i] == whole[i]
    {
      if i >= |first| {
        assert i - |first| < |second|;
      }
    }
  }

  /** Removing the row at `i` keeps the ids increasing and drops exactly the rows with that row's id. */
  lemma RemovalKeepsOthers(users: seq<User>, i: nat)
    requires i < |users| && IdsIncreasing(users)
    ensures IdsIncreasing(users[..i] + users[i + 1..])
    ensures forall u :: u in users[..i] + users[i + 1..] <==> u in users && u.id != users[i].id
  {
    var after := users[..i] + users[i + 1..];
    assert forall k :: 0 <= k < |after| ==> after[k] == users[if k < i then k else k + 1];
    forall u | u in users && u.id != users[i].id
      ensures u in after
    {
      var k :| 0 <= k < |users| && users[k] == u;
      assert after[if k < i then k else k - 1] == u;
    }
  }

  class UserRepository {
    /** The rows, in store order. */
    var users: seq<User>
    /** The id the next created row receives. */
    var nextId: int

    ghost predicate Valid()
      reads this
    {
      && IdsIncreasing(users)
      && 1 <= nextId
      && (forall i :: 0 <= i < |users| ==> 1 <= users[i].id < nextId)
    }

    constructor ()
      ensures Valid() && users == [] && nextId == 1
    {
      users := [];
      nextId := 1;
    }

    /** `create`: appends one row with a fresh id and both timestamps set to `now`, and returns it. */
    method Create(data: CreateData, now: int) returns (user: User)
      requires Valid()
      modifies this
      ensures Valid()
      ensures user == User(old(nextId), data.name, data.email, data.password, now, now)
      ensures users == old(users) + [user] && nextId == old(nextId) + 1
      ensures IndexOfId(old(users), user.id).None?
    {
      user := User(nextId, data.name, data.email, data.password, now, now);
      users := users + [user];
      nextId := nextId + 1;
    }

    /** `delete`: removes the row with `id`; fails when there is none. */
    method Delete(id: int) returns (r: Outcome<Error>)
      requires Valid()
      modifies this
      ensures Valid() && nextId == old(nextId)
      ensures IndexOfId(old(users), id).None? ==> r == Fail(RecordMissing) && users == old(users)
      ensures IndexOfId(old(users), id).Some? ==>
        var i := IndexOfId(old(users), id).value;
        r == Pass && users == old(users)[..i] + old(users)[i + 1..]
      ensures forall u :: u in users <==> u in old(users) && u.id != id
    {
      var index := IndexOfId(users, id);
      if index.None? {
        return Fail(RecordMissing);
      }
      RemovalKeepsOthers(users, index.value);
      users := users[..index.value] + users[index.value + 1..];
      r := Pass;
    }

    /** `findById`: the row with `id`, or `null`. */
    method FindById(id: int) returns (r: Option<User>)
      requires Valid()
      ensures r.Some? <==> exists i :: 0 <= i < |users| && users[i].id == id
      ensures r.Some? ==> r.value in users && r.value.id == id
    {
      r := At(users, IndexOfId(users, id));
    }

    /** `findAll`: the page of `limit` rows after the first `skip`. */
    method FindAll(limit: nat, skip: nat) returns (page: seq<User>)
      requires Valid()
      ensures page == Page(users, limit, skip)
    {
      page := Page(users, limit, skip);
    }

    /** `findByEmail`: the first row with `email`, or `null`. */
    method FindByEmail(email: string) returns (r: Option<User>)
      requires Valid()
      ensures r == At(users, IndexOfEmail(users, email))
    {
      r := At(users, IndexOfEmail(users, email));
    }

    /** `updatePartial`: refuses an update object without keys, then writes the row with `id`. */
    method UpdatePartial(id: int, data: UpdateData, now: int) returns (r: Result<User, Error>)
      requires Valid()
      modifies this
      ensures Valid() && nextId == old(nextId)
      ensures KeyCount(data) == 0 ==> r == Failure(NoFieldsToUpdate) && users == old(users)
      ensures KeyCount(data) > 0 ==> r == UpdateOutcome(old(users), id, data, now) && users == Updated(old(users), id, r)
    {
      if KeyCount(data) == 0 {
        return Failure(NoFieldsToUpdate);
      }
      r := Write(id, data, now);
    }

    /** `update`: writes the row with `id`. */
    method Update(id: int, data: UpdateData, now: int) returns (r: Result<User, Error>)
      requires Valid()
      modifies this
      ensures Valid() && nextId == old(nextId)
      ensures r == UpdateOutcome(old(users), id, data, now) && users == Updated(old(users), id, r)
    {
      r := Write(id, data, now);
    }

    /** `prisma.user.update({ where: { id }, data })`. */
    method Write(id: int, data: UpdateData, now: int) returns (r: Result<User, Error>)
      requires Valid()
      modifies this
      ensures Valid() && nextId == old(nextId)
      ensures r == UpdateOutcome(old(users), id, data, now) && users == Updated(old(users), id, r)
    {
      var index := IndexOfId(users, id);
      if index.None? {
        return Failure(RecordMissing);
      }
      var row := Patched(users[index.value], data, now);
      users := users[index.value := row];
      r := Success(row);
    }
  }

  /** What a database update returns: the patched row, or a failure when no row has `id`. */
  function UpdateOutcome(users: seq<User>, id: int, data: UpdateData, now: int): (r: Result<User, Error>)
    ensures r.Failure? <==> IndexOfId(users, id).None?
    ensures r.Failure? ==> r.error == RecordMissing
    ensures r.Success? ==> r.value.id == id && r.value.createdAt == users[IndexOfId(users, id).value].createdAt
    ensures r.Success? ==> r.value == Patched(users[IndexOfId(users, id).value], data, now)
  {
    match IndexOfId(users, id)
    case None => Failure(RecordMissing)
    case Some(i) => Success(Patched(users[i], data, now))
  }

  /** The table after an update: the row with `id` replaced by the written one, every other row as it was. */
  function Updated(users: seq<User>, id: int, r: Result<User, Error>): (after: seq<User>)
    ensures |after| == |users|
    ensures forall j :: 0 <= j < |users| && users[j].id != id ==> after[j] == users[j]
    ensures IndexOfId(users, id).Some? && r.Success? ==> after[IndexOfId(users, id).value] == r.value
    ensures r.Failure? ==> after == users
  {
    match IndexOfId(users, id)
    case Some(i) => if r.Success? then users[i := r.value] else users
    case None => users
  }
}
