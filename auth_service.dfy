/**
 * `AuthService.login` of src/auth/auth.service.ts: a read-only decision over a
 * snapshot of the `user` table. The bcrypt comparison and the JWT signer are
 * parameters; how a token is signed, expires or is verified is not modelled.
 */
module Auth {
  import opened Wrappers
  import opened Entities
  import opened Bcrypt
  import opened Users

  datatype LoginDto = LoginDto(username: string, password: string)

  /** The claims put into the token: `sub` is the user's id. */
  datatype Payload = Payload(username: string, sub: int, role: Role)

  /** The login response `{ access_token }`. */
  datatype LoginResponse = LoginResponse(accessToken: string)

  datatype AuthError = Unauthorized(message: string)

  /** The single message for both an unknown user and a wrong password. */
  const InvalidCredentials: string := "Invalid username or password"

  /** The claims for a stored row: its username, its id as the subject, its role. */
  function PayloadOf(u: User): (p: Payload)
    ensures p.username == u.username && p.sub == u.id && p.role == u.role
  {
    Payload(u.username, u.id, u.role)
  }

  /**
   * `login`: a token exactly when a row has the given username and the given
   * password matches its stored hash; any other outcome is the one
   * `Unauthorized` error.
   */
  function Login(rows: map<int, User>, dto: LoginDto, hasher: Hasher, sign: Payload -> string): (r: Result<LoginResponse, AuthError>)
    requires UniqueUsernames(rows)
    ensures r.Ok? <==> exists k | k in rows :: rows[k].username == dto.username && hasher.compare(dto.password, rows[k].password)
    ensures forall k | k in rows && rows[k].username == dto.username ::
              r.Ok? ==> r.value == LoginResponse(sign(PayloadOf(rows[k])))
    ensures r.Err? ==> r.error == Unauthorized(InvalidCredentials)
  {
    match UserWithName(rows, dto.username)
    case None => Err(Unauthorized(InvalidCredentials))
    case Some(user) =>
      if !hasher.compare(dto.password, user.password) then Err(Unauthorized(InvalidCredentials))
      else Ok(LoginResponse(sign(PayloadOf(user))))
  }

  /** An unknown username and a wrong password produce the identical failure. */
  lemma FailuresIndistinguishable(rows: map<int, User>, unknown: LoginDto, wrong: LoginDto, hasher: Hasher, sign: Payload -> string)
    requires UniqueUsernames(rows)
    requires forall k | k in rows :: rows[k].username != unknown.username
    requires exists k | k in rows :: rows[k].username == wrong.username && !hasher.compare(wrong.password, rows[k].password)
    ensures Login(rows, unknown, hasher, sign) == Login(rows, wrong, hasher, sign) == Err(Unauthorized(InvalidCredentials))
  {
  }

  /** Changing a row's status never changes a login's outcome: an INACTIVE user still gets a token. */
  lemma LoginIgnoresStatus(rows: map<int, User>, id: int, status: Status, dto: LoginDto, hasher: Hasher, sign: Payload -> string)
    requires ValidTable(rows) && id in rows
    ensures UniqueUsernames(rows[id := rows[id].(status := status)])
    ensures Login(rows[id := rows[id].(status := status)], dto, hasher, sign) == Login(rows, dto, hasher, sign)
  {
    var rows' := rows[id := rows[id].(status := status)];
    var before, after := UserWithName(rows, dto.username), UserWithName(rows', dto.username);
    if before.Some? {
      var k := before.value.id;
      assert k in rows && rows[k] == before.value;
      assert after == Some(rows'[k]);
      assert PayloadOf(rows'[k]) == PayloadOf(rows[k]) && rows'[k].password == rows[k].password;
    } else {
      assert after.None?;
    }
  }

  /**
   * Registering and then logging in with the same username and password yields
   * the token for the new row, provided bcrypt's compare accepts a hash made
   * from the same plaintext.
   */
  lemma LoginAfterCreate(rows: map<int, User>, id: int, dto: CreateUserDto, salt: Salt, hasher: Hasher, sign: Payload -> string)
    requires ValidTable(rows) && id !in rows && Sound(hasher)
    requires CreateOutcome(rows, id, dto, hasher.hash(dto.password, salt)).result.Ok?
    ensures Login(CreateOutcome(rows, id, dto, hasher.hash(dto.password, salt)).rows, LoginDto(dto.username, dto.password), hasher, sign)
            == Ok(LoginResponse(sign(Payload(dto.username, id, dto.role.GetOr(DefaultRole)))))
  {
    var hashed := hasher.hash(dto.password, salt);
    var rows' := CreateOutcome(rows, id, dto, hashed).rows;
    CreatedRowFoundByName(rows, id, dto, hashed);
    assert hasher.compare(dto.password, hashed);
  }

  /**
   * `update` stores a supplied password as given, so logging in with that new
   * password succeeds exactly when bcrypt's compare accepts the plaintext as
   * its own hash.
   */
  lemma LoginAfterPasswordUpdate(rows: map<int, User>, id: int, password: string, hasher: Hasher, sign: Payload -> string)
    requires ValidTable(rows) && id in rows
    ensures var s := UpdateOutcome(rows, id, UpdateUserDto(None, None, Some(password), None, None, None, None));
            s.result.Ok? && s.rows[id].password == password &&
            (Login(s.rows, LoginDto(rows[id].username, password), hasher, sign).Ok? <==> hasher.compare(password, password))
  {
  }
}
