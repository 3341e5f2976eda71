/**
 * `UsersController` of src/users/users.controller.ts: the `/users` routes, the
 * guards in front of all of them, the role strings each route's `@Roles`
 * decorator declares, and handlers that hand their arguments to the
 * `UsersService` method of the same name. How the roles guard compares these
 * strings with a token's role claim is not part of this model.
 */
module Controller {
  import opened Wrappers
  import opened Entities
  import opened Bcrypt
  import opened Users

  /** The four routes: POST /users, GET /users, PATCH /users/:id, DELETE /users/:id. */
  datatype Route = PostUsers | GetUsers | PatchUser | DeleteUser

  datatype Guard = JwtAuthGuard | RolesGuard

  /** The guards the controller declares once for every route, in the order they run. */
  function GuardsOf(route: Route): seq<Guard> {
    [JwtAuthGuard, RolesGuard]
  }

  /** The role strings a route's `@Roles` decorator lists, spelled as in the decorator. */
  function AllowedRoles(route: Route): (roles: set<string>)
    ensures "admin" in roles
    ensures "user" in roles <==> route == GetUsers
    ensures roles <= {"admin", "user"}
    ensures forall r: Role :: RoleName(r) !in roles
  {
    match route
    case PostUsers => {"admin"}
    case GetUsers => {"admin", "user"}
    case PatchUser => {"admin"}
    case DeleteUser => {"admin"}
  }

  /** Every route is behind token authentication first and the role check second. */
  lemma EveryRouteGuarded(route: Route)
    ensures |GuardsOf(route)| == 2 && GuardsOf(route)[0] == JwtAuthGuard && GuardsOf(route)[1] == RolesGuard
  {
  }

  class UsersController {
    const usersService: UsersService

    constructor (usersService: UsersService)
      ensures this.usersService == usersService
    {
      this.usersService := usersService;
    }

    /** POST /users. */
    method Create(dto: CreateUserDto, salt: Salt) returns (r: Result<User, ServiceError>)
      requires usersService.Valid()
      modifies usersService
      ensures usersService.Valid()
      ensures Step(r, usersService.users) == CreateOutcome(old(usersService.users), old(usersService.nextId), dto, usersService.hasher.hash(dto.password, salt))
      ensures usersService.nextId == if r.Ok? then old(usersService.nextId) + 1 else old(usersService.nextId)
    {
      r := usersService.Create(dto, salt);
    }

    /** GET /users. */
    method FindAll() returns (all: set<User>)
      requires usersService.Valid()
      ensures forall k | k in usersService.users :: usersService.users[k] in all
      ensures forall u | u in all :: u.id in usersService.users && usersService.users[u.id] == u
    {
      all := usersService.FindAll();
    }

    /** PATCH /users/:id. */
    method Update(id: int, dto: UpdateUserDto) returns (r: Result<User, ServiceError>)
      requires usersService.Valid()
      modifies usersService
      ensures usersService.Valid() && usersService.nextId == old(usersService.nextId)
      ensures Step(r, usersService.users) == UpdateOutcome(old(usersService.users), id, dto)
    {
      r := usersService.Update(id, dto);
    }

    /** DELETE /users/:id. */
    method Remove(id: int) returns (r: Result<(), ServiceError>)
      requires usersService.Valid()
      modifies usersService
      ensures usersService.Valid() && usersService.nextId == old(usersService.nextId)
      ensures Step(r, usersService.users) == RemoveOutcome(old(usersService.users), id)
    {
      r := usersService.Remove(id);
    }
  }
}
