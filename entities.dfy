/**
 * The `User` entity of src/users/entities/user.entity.ts: the `Role` and `Status`
 * enumerations, the row type, the column defaults, and the table constraints
 * (generated primary key, unique non-null `username` and `email`) as a predicate
 * over the whole table.
 */
module Entities {
  import opened Wrappers

  /** `Role`: exactly three members. */
  datatype Role = SUPER_ADMIN | ADMIN | USER

  /** `Status`: exactly two members. */
  datatype Status = ACTIVE | INACTIVE

  /** The string value behind each `Role` member, as stored in the enum column. */
  function RoleName(r: Role): string {
    match r
    case SUPER_ADMIN => "SUPER_ADMIN"
    case ADMIN => "ADMIN"
    case USER => "USER"
  }

  /** The string value behind each `Status` member. */
  function StatusName(s: Status): string {
    match s
    case ACTIVE => "ACTIVE"
    case INACTIVE => "INACTIVE"
  }

  /** The enum column type of `role`: a string is accepted exactly when it is one member's value. */
  function ParseRole(s: string): (r: Option<Role>)
    ensures r.Some? <==> s in {"SUPER_ADMIN", "ADMIN", "USER"}
    ensures r.Some? ==> RoleName(r.value) == s
  {
    if s == "SUPER_ADMIN" then Some(SUPER_ADMIN)
    else if s == "ADMIN" then Some(ADMIN)
    else if s == "USER" then Some(USER)
    else None
  }

  /** The enum column type of `status`. */
  function ParseStatus(s: string): (r: Option<Status>)
    ensures r.Some? <==> s in {"ACTIVE", "INACTIVE"}
    ensures r.Some? ==> StatusName(r.value) == s
  {
    if s == "ACTIVE" then Some(ACTIVE)
    else if s == "INACTIVE" then Some(INACTIVE)
    else None
  }

  /** Every role survives a trip through its column value, so the three values are distinct. */
  lemma RoleColumnRoundTrip(r: Role)
    ensures ParseRole(RoleName(r)) == Some(r)
  {
  }

  /** Every status survives a trip through its column value. */
  lemma StatusColumnRoundTrip(s: Status)
    ensures ParseStatus(StatusName(s)) == Some(s)
  {
  }

  /** Column defaults, applied when a row is inserted without a value for the column. */
  const DefaultRole: Role := USER
  const DefaultStatus: Status := ACTIVE

  /**
   * One row of the `user` table. Strings cannot be null here, which is the
   * `nullable: false` of `username` and `email`; the store-maintained
   * `createdAt` / `updatedAt` timestamps are not modelled.
   */
  datatype User = User(
    id: int,
    username: string,
    email: string,
    password: string,
    firstName: string,
    lastName: string,
    role: Role,
    status: Status)

  /** The table is keyed by the generated primary key each row carries. */
  predicate KeyedById(rows: map<int, User>) {
    forall k | k in rows :: rows[k].id == k
  }

  /** The `unique: true` constraint on `username`. */
  predicate UniqueUsernames(rows: map<int, User>) {
    forall j, k | j in rows && k in rows && rows[j].username == rows[k].username :: j == k
  }

  /** The `unique: true` constraint on `email`. */
  predicate UniqueEmails(rows: map<int, User>) {
    forall j, k | j in rows && k in rows && rows[j].email == rows[k].email :: j == k
  }

  /** Every constraint the table declares. */
  predicate ValidTable(rows: map<int, User>) {
    KeyedById(rows) && UniqueUsernames(rows) && UniqueEmails(rows)
  }

  /** Writing `rec` under key `k` would break a unique constraint against some other row. */
  predicate Collides(rows: map<int, User>, k: int, rec: User) {
    exists j | j in rows && j != k :: rows[j].username == rec.username || rows[j].email == rec.email
  }

  /** In a valid table two different keys hold rows with different ids, usernames and emails. */
  lemma ValidTableRowsDistinct(rows: map<int, User>, j: int, k: int)
    requires ValidTable(rows) && j in rows && k in rows && j != k
    ensures rows[j].id != rows[k].id
    ensures rows[j].username != rows[k].username && rows[j].email != rows[k].email
  {
  }

  /** A write the store accepts keeps every table constraint. */
  lemma AcceptedWriteKeepsTable(rows: map<int, User>, k: int, rec: User)
    requires ValidTable(rows)
    requires rec.id == k && !Collides(rows, k, rec)
    ensures ValidTable(rows[k := rec])
  {
  }
}
