/**
 * `UsersService` of src/users/users.service.ts: the user directory over the
 * `user` table. The table is a map from primary key to row; the store's own
 * unique constraints reject a colliding write (the service itself only
 * pre-checks the username on create). Each operation is given twice: as a
 * function from the table before to the result and the table after (the
 * specification, about which the properties are proved), and as a method of
 * the `UsersService` class that performs the steps on its fields.
 */
module Users {
  import opened Wrappers
  import opened Entities
  import opened Bcrypt

  /** The body of a create request: every column but the key; `role` and `status` may be omitted. */
  datatype CreateUserDto = CreateUserDto(
    username: string,
    email: string,
    password: string,
    firstName: string,
    lastName: string,
    role: Option<Role>,
    status: Option<Status>)

  /** The body of an update request: every field of a create request, each optional. */
  datatype UpdateUserDto = UpdateUserDto(
    username: Option<string>,
    email: Option<string>,
    password: Option<string>,
    firstName: Option<string>,
    lastName: Option<string>,
    role: Option<Role>,
    status: Option<Status>)

  /**
   * The service's failures: `Conflict` and `NotFound` are the exceptions it
   * throws itself (`NotFound` carries the id its message names);
   * `UniqueViolation` is the store refusing a write that breaks a unique column.
   */
  datatype ServiceError = Conflict(message: string) | NotFound(id: int) | UniqueViolation

  const UserAlreadyExists: string := "User already exists"

  /** What an operation returns together with the table it leaves behind. */
  datatype Step<+T> = Step(result: Result<T, ServiceError>, rows: map<int, User>)

  /** The row with primary key `id`, or `NotFound`. */
  function UserWithId(rows: map<int, User>, id: int): (r: Result<User, ServiceError>)
    ensures r.Ok? <==> id in rows
    ensures r.Ok? ==> r.value == rows[id]
    ensures r.Err? ==> r.error == NotFound(id)
  {
    if id in rows then Ok(rows[id]) else Err(NotFound(id))
  }

  /** The one row whose `username` is `name`, or absence; never a failure. */
  function UserWithName(rows: map<int, User>, name: string): (r: Option<User>)
    requires UniqueUsernames(rows)
    ensures r.None? <==> forall k | k in rows :: rows[k].username != name
    ensures forall k | k in rows && rows[k].username == name :: r == Some(rows[k])
  {
    if exists k | k in rows :: rows[k].username == name then
      var k :| k in rows && rows[k].username == name;
      Some(rows[k])
    else
      None
  }

  /**
   * The row `create` builds: the request with the password replaced by its
   * hash, under the key the store generates, and with the column defaults for
   * an omitted role or status.
   */
  function NewRow(id: int, dto: CreateUserDto, hashed: string): (u: User)
    ensures u.id == id && u.password == hashed
    ensures u.username == dto.username && u.email == dto.email
    ensures u.firstName == dto.firstName && u.lastName == dto.lastName
    ensures u.role == (if dto.role.Some? then dto.role.value else USER)
    ensures u.status == (if dto.status.Some? then dto.status.value else ACTIVE)
  {
    User(id, dto.username, dto.email, hashed, dto.firstName, dto.lastName,
         dto.role.GetOr(DefaultRole), dto.status.GetOr(DefaultStatus))
  }

  /** The row after an update: each supplied field overwritten, every other field kept. */
  function Patch(u: User, dto: UpdateUserDto): (v: User)
    ensures v.id == u.id
    ensures dto.username.Some? ==> v.username == dto.username.value
    ensures dto.username.None? ==> v.username == u.username
    ensures dto.email.Some? ==> v.email == dto.email.value
    ensures dto.email.None? ==> v.email == u.email
    ensures dto.password.Some? ==> v.password == dto.password.value
    ensures dto.password.None? ==> v.password == u.password
    ensures dto.firstName.Some? ==> v.firstName == dto.firstName.value
    ensures dto.firstName.None? ==> v.firstName == u.firstName
    ensures dto.lastName.Some? ==> v.lastName == dto.lastName.value
    ensures dto.lastName.None? ==> v.lastName == u.lastName
    ensures dto.role.Some? ==> v.role == dto.role.value
    ensures dto.role.None? ==> v.role == u.role
    ensures dto.status.Some? ==> v.status == dto.status.value
    ensures dto.status.None? ==> v.status == u.status
  {
    User(u.id,
         dto.username.GetOr(u.username),
         dto.email.GetOr(u.email),
         dto.password.GetOr(u.password),
         dto.firstName.GetOr(u.firstName),
         dto.lastName.GetOr(u.lastName),
         dto.role.GetOr(u.role),
         dto.status.GetOr(u.status))
  }

  /**
   * `create`: a taken username is a `Conflict`; otherwise the hashed row is
   * saved under the fresh key `id`, unless the store refuses it (a taken email).
   */
  function CreateOutcome(rows: map<int, User>, id: int, dto: CreateUserDto, hashed: string): (s: Step<User>)
    requires ValidTable(rows) && id !in rows
    ensures UserWithName(rows, dto.username).Some? ==> s == Step(Err(Conflict(UserAlreadyExists)), rows)
    ensures (s.result.Err? && s.result.error.Conflict?) <==> UserWithName(rows, dto.username).Some?
    ensures s.result.Err? && UserWithName(rows, dto.username).None? ==> s.result.error == UniqueViolation
    ensures s.result.Ok? <==> forall k | k in rows :: rows[k].username != dto.username && rows[k].email != dto.email
    ensures s.result.Ok? ==> s.result.value == NewRow(id, dto, hashed) && s.rows == rows[id := s.result.value]
    ensures s.result.Err? ==> s.rows == rows
    ensures ValidTable(s.rows)
  {
    if UserWithName(rows, dto.username).Some? then
      Step(Err(Conflict(UserAlreadyExists)), rows)
    else
      var row := NewRow(id, dto, hashed);
      if Collides(rows, id, row) then
        Step(Err(UniqueViolation), rows)
      else
        AcceptedWriteKeepsTable(rows, id, row);
        Step(Ok(row), rows[id := row])
  }

  /**
   * `update`: an absent id is `NotFound` before anything is written; otherwise
   * the supplied fields are written (the password as given, the username
   * without a service-level check) and the row as now stored is returned.
   */
  function UpdateOutcome(rows: map<int, User>, id: int, dto: UpdateUserDto): (s: Step<User>)
    requires ValidTable(rows)
    ensures id !in rows ==> s == Step(Err(NotFound(id)), rows)
    ensures s.result.Ok? <==> id in rows && !Collides(rows, id, Patch(rows[id], dto))
    ensures s.result.Ok? ==> s.rows == rows[id := Patch(rows[id], dto)] && s.result.value == s.rows[id]
    ensures s.result.Err? ==> s.rows == rows
    ensures !(s.result.Err? && s.result.error.Conflict?)
    ensures s.result.Err? && id in rows ==> s.result.error == UniqueViolation
    ensures ValidTable(s.rows)
  {
    if id !in rows then
      Step(Err(NotFound(id)), rows)
    else
      var row := Patch(rows[id], dto);
      if Collides(rows, id, row) then
        Step(Err(UniqueViolation), rows)
      else
        AcceptedWriteKeepsTable(rows, id, row);
        Step(Ok(row), rows[id := row])
  }

  /** `remove`: an absent id is `NotFound`; otherwise that row, and only it, is deleted. */
  function RemoveOutcome(rows: map<int, User>, id: int): (s: Step<()>)
    requires ValidTable(rows)
    ensures s.result.Ok? <==> id in rows
    ensures s.rows.Keys == rows.Keys - {id}
    ensures forall k | k in s.rows :: s.rows[k] == rows[k]
    ensures s.result.Err? ==> s.result.error == NotFound(id)
    ensures ValidTable(s.rows)
  {
    if id !in rows then Step(Err(NotFound(id)), rows) else Step(Ok(()), rows - {id})
  }

  /** An update that supplies no field leaves the row as it was. */
  lemma PatchNothing(u: User)
    ensures Patch(u, UpdateUserDto(None, None, None, None, None, None, None)) == u
  {
  }

  /** Applying the same update twice stores the same row as applying it once. */
  lemma PatchIdempotent(u: User, dto: UpdateUserDto)
    ensures Patch(Patch(u, dto), dto) == Patch(u, dto)
  {
  }

  /** A create request that omits role and status gets the column defaults, USER and ACTIVE. */
  lemma OmittedRoleAndStatusDefault(id: int, dto: CreateUserDto, hashed: string)
    requires dto.role.None? && dto.status.None?
    ensures NewRow(id, dto, hashed).role == DefaultRole == USER
    ensures NewRow(id, dto, hashed).status == DefaultStatus == ACTIVE
  {
  }

  /** After a successful create the new row is found by its username, holding the hash and not the request's password. */
  lemma CreatedRowFoundByName(rows: map<int, User>, id: int, dto: CreateUserDto, hashed: string)
    requires ValidTable(rows) && id !in rows
    requires CreateOutcome(rows, id, dto, hashed).result.Ok?
    ensures UserWithName(CreateOutcome(rows, id, dto, hashed).rows, dto.username) == Some(NewRow(id, dto, hashed))
    ensures UserWithName(CreateOutcome(rows, id, dto, hashed).rows, dto.username).value.password == hashed
  {
    var s := CreateOutcome(rows, id, dto, hashed);
    assert s.rows[id] == NewRow(id, dto, hashed);
  }

  /** After a successful remove, looking the id up fails with `NotFound`; a second remove fails the same way and changes nothing. */
  lemma RemoveThenNotFound(rows: map<int, User>, id: int)
    requires ValidTable(rows)
    ensures UserWithId(RemoveOutcome(rows, id).rows, id) == Err(NotFound(id))
    ensures RemoveOutcome(RemoveOutcome(rows, id).rows, id) == Step(Err(NotFound(id)), RemoveOutcome(rows, id).rows)
  {
  }

  /** Updating only the role of a stored row: the lookup afterwards shows the new role and every other field as before. */
  lemma UpdateRoleThenFind(rows: map<int, User>, id: int, role: Role)
    requires ValidTable(rows) && id in rows
    ensures var s := UpdateOutcome(rows, id, UpdateUserDto(None, None, None, None, None, Some(role), None));
            s.result.Ok? && UserWithId(s.rows, id) == Ok(rows[id].(role := role))
  {
  }

  /**
   * The directory service. `users` is the `user` table, `nextId` the key the
   * store generates next, and `hasher` the bcrypt functions the service calls.
   */
  class UsersService {
    var users: map<int, User>
    var nextId: int
    const hasher: Hasher

    /** The table constraints hold and every key was generated before `nextId` (keys start at 1). */
    ghost predicate Valid()
      reads this
    {
      ValidTable(users) && 1 <= nextId && forall k | k in users :: 1 <= k < nextId
    }

    /** The service over the injected table `rows`, whose generated keys all lie below `next`. */
    constructor (hasher: Hasher, rows: map<int, User>, next: int)
      requires ValidTable(rows) && 1 <= next && forall k | k in rows :: 1 <= k < next
      ensures Valid() && users == rows && nextId == next && this.hasher == hasher
    {
      users := rows;
      nextId := next;
      this.hasher := hasher;
    }

    /** `create`: `salt` is bcrypt's random draw for this call. */
    method Create(dto: CreateUserDto, salt: Salt) returns (r: Result<User, ServiceError>)
      requires Valid()
      modifies this
      ensures Valid()
      ensures Step(r, users) == CreateOutcome(old(users), old(nextId), dto, hasher.hash(dto.password, salt))
      ensures nextId == if r.Ok? then old(nextId) + 1 else old(nextId)
    {
      var existingUser := FindByUsername(dto.username);
      if existingUser.Some? {
        return Err(Conflict(UserAlreadyExists));
      }
      var hashedPassword := hasher.hash(dto.password, salt);
      var user := NewRow(nextId, dto, hashedPassword);
      if Collides(users, nextId, user) {
        return Err(UniqueViolation);
      }
      AcceptedWriteKeepsTable(users, nextId, user);
      users := users[nextId := user];
      nextId := nextId + 1;
      r := Ok(user);
    }

    /** `findAll`: every stored row (the order the store lists them in is not modelled). */
    method FindAll() returns (all: set<User>)
      requires Valid()
      ensures forall k | k in users :: users[k] in all
      ensures forall u | u in all :: u.id in users && users[u.id] == u
    {
      all := set k | k in users :: users[k];
    }

    /** `findById`. */
    method FindById(id: int) returns (r: Result<User, ServiceError>)
      ensures r == UserWithId(users, id)
    {
      if id !in users {
        return Err(NotFound(id));
      }
      r := Ok(users[id]);
    }

    /** `findByUsername`, used by login: absence is a value, not a failure. */
    method FindByUsername(username: string) returns (r: Option<User>)
      requires Valid()
      ensures r == UserWithName(users, username)
    {
      r := UserWithName(users, username);
    }

    /** `update`: look the row up, write the supplied fields, look it up again. */
    method Update(id: int, dto: UpdateUserDto) returns (r: Result<User, ServiceError>)
      requires Valid()
      modifies this
      ensures Valid() && nextId == old(nextId)
      ensures Step(r, users) == UpdateOutcome(old(users), id, dto)
    {
      var found := FindById(id);
      if found.Err? {
        return found;
      }
      var row := Patch(users[id], dto);
      if Collides(users, id, row) {
        return Err(UniqueViolation);
      }
      AcceptedWriteKeepsTable(users, id, row);
      users := users[id := row];
      r := FindById(id);
    }

    /** `remove`: look the row up, then delete it. */
    method Remove(id: int) returns (r: Result<(), ServiceError>)
      requires Valid()
      modifies this
      ensures Valid() && nextId == old(nextId)
      ensures Step(r, users) == RemoveOutcome(old(users), id)
    {
      var found := FindById(id);
      if found.Err? {
        return Err(found.error);
      }
      users := users - {id};
      r := Ok(());
    }
  }
}
