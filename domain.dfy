/**
 * The entities the services work on (users and tasks), the two tables that hold them,
 * and the user directory that Spring Security consults (UserDetailsServiceImpl).
 */
module Domain {
  import opened Wrappers
  import opened Errors

  datatype Role = RoleUser | RoleAdmin

  /** The name of a role, as stored in the table and used as an authority. */
  function RoleName(r: Role): string
  {
    match r
    case RoleUser => "ROLE_USER"
    case RoleAdmin => "ROLE_ADMIN"
  }

  datatype TaskStatus = Pending | InProgress | Completed | Cancelled

  /** A row of the users table; the password column holds what the password encoder produced. */
  datatype User = User(id: int, username: string, password: string, role: Role)

  /** A row of the tasks table; `owner` is the id of the user the task belongs to. */
  datatype Task = Task(id: int, title: string, description: string, status: TaskStatus, owner: int)

  /** The principal Spring Security builds for a user: its name and its authorities. */
  datatype UserDetails = UserDetails(username: string, authorities: seq<string>)

  type Users = map<int, User>
  type Tasks = map<int, Task>

  /** The unique constraint on the username column. */
  ghost predicate UniqueUsernames(users: Users)
  {
    forall a, b | a in users && b in users && users[a].username == users[b].username :: a == b
  }

  /** Some user has this name (UserRepository.findByUsername finds a row). */
  predicate HasUsername(users: Users, name: string)
  {
    exists id | id in users :: users[id].username == name
  }

  /** The foreign key from a task to its owner: every owner is a user. */
  predicate OwnersExist(users: Users, tasks: Tasks)
  {
    forall id | id in tasks :: tasks[id].owner in users
  }

  /** UserRepository.findByUsername: the id of the user with this name, if there is one. */
  function FindByUsername(users: Users, name: string): (r: Option<int>)
    requires UniqueUsernames(users)
    ensures r.Some? <==> HasUsername(users, name)
    ensures r.Some? ==> r.value in users && users[r.value].username == name
    ensures r.Some? ==> forall id | id in users && users[id].username == name :: id == r.value
  {
    if HasUsername(users, name) then
      var id :| id in users && users[id].username == name;
      Some(id)
    else
      None
  }

  /** The user with this name has this role. */
  predicate HasRole(users: Users, name: string, role: Role)
  {
    exists id | id in users :: users[id].username == name && users[id].role == role
  }

  /** The task's owner is the user with this name. */
  predicate IsOwner(users: Users, task: Task, name: string)
  {
    task.owner in users && users[task.owner].username == name
  }

  /**
   * UserDetailsServiceImpl.loadUserByUsername: the user's name with its role as the only
   * authority, or UsernameNotFoundException.
   */
  function LoadUserByUsername(users: Users, name: string): (r: Result<UserDetails, Exception>)
    requires UniqueUsernames(users)
    ensures r.Success? <==> HasUsername(users, name)
    ensures r.Success? ==> forall id | id in users && users[id].username == name ::
      r.value == UserDetails(name, [RoleName(users[id].role)])
    ensures r.Failure? ==> r.error == Exception(UsernameNotFound, name)
  {
    if !HasUsername(users, name) then Failure(Exception(UsernameNotFound, name))
    else if HasRole(users, name, RoleAdmin) then Success(UserDetails(name, [RoleName(RoleAdmin)]))
    else Success(UserDetails(name, [RoleName(RoleUser)]))
  }

  /**
   * The two tables. Ids are assigned by the database (identity columns) from the two counters.
   */
  class Database {
    var users: Users
    var tasks: Tasks
    var nextUserId: int
    var nextTaskId: int

    /** Primary keys, the foreign key from a task to its user, and unique usernames. */
    ghost predicate Valid()
      reads this
    {
      && (forall id | id in users :: users[id].id == id && id < nextUserId)
      && (forall id | id in tasks :: tasks[id].id == id && id < nextTaskId)
      && OwnersExist(users, tasks)
      && UniqueUsernames(users)
    }

    constructor ()
      ensures Valid() && users == map[] && tasks == map[]
    {
      users := map[];
      tasks := map[];
      nextUserId := 1;
      nextTaskId := 1;
    }
  }
}
