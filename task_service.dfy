/**
 * TaskService: reading and changing tasks on behalf of a named caller. A caller may reach
 * a task when it owns the task or is an administrator; listings show an administrator every
 * task and anyone else their own. The service holds no state of its own: it works on the
 * two tables of a `Database`.
 */
module TaskService {
  import opened Wrappers
  import opened Errors
  import opened Domain

  /** The fields of TaskRequestDto; any of them may be null. */
  datatype TaskRequest = TaskRequest(title: Option<string>, description: Option<string>,
                                     status: Option<TaskStatus>, userId: Option<int>)

  /** What bean validation guarantees before `create` is reached: every field is present. */
  predicate Validated(request: TaskRequest)
  {
    request.title.Some? && request.description.Some? && request.status.Some? && request.userId.Some?
  }

  function TaskNotFoundMessage(id: int): string
  {
    "Task with id " + LongToString(id) + " not found"
  }

  const USER_NOT_FOUND := "User not found"
  const NOT_ALLOWED := "You are not allowed to this task"
  const NO_PERMISSION := "You do not have permission to update this task"

  /** isAdmin: an existing user with ROLE_ADMIN; an unknown name is not an administrator. */
  predicate IsAdmin(users: Users, username: string)
  {
    HasRole(users, username, RoleAdmin)
  }

  /** The caller may see and change this task. */
  predicate MayAccess(users: Users, task: Task, username: string)
  {
    IsOwner(users, task, username) || IsAdmin(users, username)
  }

  /** With unique names, being an administrator is a property of the one user that has the name. */
  lemma AdminByName(users: Users, id: int, username: string)
    requires UniqueUsernames(users)
    requires id in users && users[id].username == username
    ensures IsAdmin(users, username) <==> users[id].role == RoleAdmin
  {
    if IsAdmin(users, username) {
      var other :| other in users && users[other].username == username && users[other].role == RoleAdmin;
      assert other == id;
    }
  }

  /**
   * Ownership checked by id (updateOwnTaskStatus compares the owner's id with the caller's)
   * and by name (findTaskByUsername compares the owner's name with the caller's) agree.
   */
  lemma OwnerByIdIsOwnerByName(users: Users, task: Task, id: int, username: string)
    requires UniqueUsernames(users)
    requires task.owner in users && id in users && users[id].username == username
    ensures IsOwner(users, task, username) <==> task.owner == id
  {
    if IsOwner(users, task, username) {
      assert users[task.owner].username == users[id].username;
    }
  }

  /**
   * findTaskByUsername: the task with this id, when the caller may access it; a missing id
   * is TaskNotFoundException and a task of somebody else AccessDeniedException.
   */
  function FindTaskByUsername(users: Users, tasks: Tasks, id: int, username: string): (r: Result<Task, Exception>)
    requires OwnersExist(users, tasks)
    ensures r.Success? <==> id in tasks && MayAccess(users, tasks[id], username)
    ensures r.Success? ==> r.value == tasks[id]
    ensures id !in tasks ==> r == Failure(Exception(TaskNotFound, TaskNotFoundMessage(id)))
    ensures id in tasks && r.Failure? ==> r == Failure(Exception(AccessDenied, NOT_ALLOWED))
  {
    if id !in tasks then Failure(Exception(TaskNotFound, TaskNotFoundMessage(id)))
    else if users[tasks[id].owner].username != username && !IsAdmin(users, username) then
      Failure(Exception(AccessDenied, NOT_ALLOWED))
    else Success(tasks[id])
  }

  /**
   * findByStatus: the tasks in `status` the caller may see. The caller is looked up first;
   * an unknown caller is UserNotFoundException. A non-administrator's tasks are selected by
   * the caller's id.
   */
  function FindByStatus(users: Users, tasks: Tasks, status: TaskStatus, username: string): (r: Result<Tasks, Exception>)
    requires UniqueUsernames(users)
    requires OwnersExist(users, tasks)
    ensures r.Failure? <==> !HasUsername(users, username)
    ensures r.Failure? ==> r.error == Exception(UserNotFound, username)
    ensures r.Success? ==> forall id ::
      id in r.value <==> id in tasks && tasks[id].status == status && MayAccess(users, tasks[id], username)
    ensures r.Success? ==> forall id | id in r.value :: r.value[id] == tasks[id]
  {
    match FindByUsername(users, username)
    case None => Failure(Exception(UserNotFound, username))
    case Some(uid) =>
      if users[uid].role == RoleAdmin then
        AdminByName(users, uid, username);
        Success(map id | id in tasks && tasks[id].status == status :: tasks[id])
      else
        AdminByName(users, uid, username);
        var selected := map id | id in tasks && tasks[id].status == status && tasks[id].owner == uid :: tasks[id];
        assert forall id | id in tasks :: (tasks[id].owner == uid <==> IsOwner(users, tasks[id], username)) by {
          forall id | id in tasks ensures tasks[id].owner == uid <==> IsOwner(users, tasks[id], username) {
            OwnerByIdIsOwnerByName(users, tasks[id], uid, username);
          }
        }
        Success(selected)
  }

  /**
   * findTasksForCurrentUser: every task for an administrator, the caller's own otherwise,
   * selected by the owner's name. An unknown caller is UserNotFoundException.
   */
  function FindTasksForCurrentUser(users: Users, tasks: Tasks, username: string): (r: Result<Tasks, Exception>)
    requires UniqueUsernames(users)
    ensures r.Failure? <==> !HasUsername(users, username)
    ensures r.Failure? ==> r.error == Exception(UserNotFound, USER_NOT_FOUND)
    ensures r.Success? ==> forall id :: id in r.value <==> id in tasks && MayAccess(users, tasks[id], username)
    ensures r.Success? ==> forall id | id in r.value :: r.value[id] == tasks[id]
  {
    match FindByUsername(users, username)
    case None => Failure(Exception(UserNotFound, USER_NOT_FOUND))
    case Some(uid) =>
      AdminByName(users, uid, username);
      if users[uid].role == RoleAdmin then Success(tasks)
      else Success(map id | id in tasks && IsOwner(users, tasks[id], username) :: tasks[id])
  }

  /** A caller who is not an administrator never sees a task of another user. */
  lemma ListingsAreOwnTasks(users: Users, tasks: Tasks, status: TaskStatus, username: string)
    requires UniqueUsernames(users)
    requires OwnersExist(users, tasks)
    requires !IsAdmin(users, username)
    ensures FindByStatus(users, tasks, status, username).Success? ==>
      forall id | id in FindByStatus(users, tasks, status, username).value ::
        users[tasks[id].owner].username == username
    ensures FindTasksForCurrentUser(users, tasks, username).Success? ==>
      forall id | id in FindTasksForCurrentUser(users, tasks, username).value ::
        users[tasks[id].owner].username == username
  {
  }

  /** create: a new task, with the next id, owned by the user the request names. */
  method Create(db: Database, request: TaskRequest) returns (r: Result<Task, Exception>)
    requires db.Valid() && Validated(request)
    modifies db
    ensures db.Valid()
    ensures request.userId.value !in old(db.users) ==>
      r == Failure(Exception(UserNotFound, USER_NOT_FOUND)) && unchanged(db)
    ensures request.userId.value in old(db.users) ==>
      && r == Success(Task(old(db.nextTaskId), request.title.value, request.description.value,
                           request.status.value, request.userId.value))
      && old(db.nextTaskId) !in old(db.tasks)
      && db.tasks == old(db.tasks)[old(db.nextTaskId) := r.value]
      && db.users == old(db.users) && db.nextUserId == old(db.nextUserId)
      && db.nextTaskId == old(db.nextTaskId) + 1
  {
    if request.userId.value !in db.users {
      return Failure(Exception(UserNotFound, USER_NOT_FOUND));
    }
    var task := Task(db.nextTaskId, request.title.value, request.description.value, request.status.value, request.userId.value);
    db.tasks := db.tasks[task.id := task];
    db.nextTaskId := db.nextTaskId + 1;
    return Success(task);
  }

  /**
   * updateOwnTaskStatus: sets the status of a task the caller owns, or of any task when the
   * caller is an administrator. The task is looked up before the caller.
   */
  method UpdateOwnTaskStatus(db: Database, taskId: int, status: TaskStatus, username: string)
    returns (r: Result<Task, Exception>)
    requires db.Valid()
    modifies db
    ensures db.Valid()
    ensures db.users == old(db.users) && db.nextUserId == old(db.nextUserId) && db.nextTaskId == old(db.nextTaskId)
    ensures taskId !in old(db.tasks) ==> r == Failure(Exception(TaskNotFound, TaskNotFoundMessage(taskId)))
    ensures taskId in old(db.tasks) && !HasUsername(db.users, username) ==>
      r == Failure(Exception(UserNotFound, USER_NOT_FOUND))
    ensures taskId in old(db.tasks) && HasUsername(db.users, username) && !MayAccess(db.users, old(db.tasks)[taskId], username) ==>
      r == Failure(Exception(AccessDenied, NO_PERMISSION))
    ensures r.Success? <==>
      taskId in old(db.tasks) && HasUsername(db.users, username) && MayAccess(db.users, old(db.tasks)[taskId], username)
    ensures r.Success? ==>
      r.value == old(db.tasks)[taskId].(status := status) && db.tasks == old(db.tasks)[taskId := r.value]
    ensures r.Failure? ==> db.tasks == old(db.tasks)
  {
    if taskId !in db.tasks {
      return Failure(Exception(TaskNotFound, TaskNotFoundMessage(taskId)));
    }
    var task := db.tasks[taskId];

    var user := FindByUsername(db.users, username);
    if user.None? {
      return Failure(Exception(UserNotFound, USER_NOT_FOUND));
    }

    AdminByName(db.users, user.value, username);
    OwnerByIdIsOwnerByName(db.users, task, user.value, username);
    if db.users[user.value].role != RoleAdmin && task.owner != user.value {
      return Failure(Exception(AccessDenied, NO_PERMISSION));
    }

    task := task.(status := status);
    db.tasks := db.tasks[taskId := task];
    return Success(task);
  }

  /** updateTaskByAdmin: overwrites title, description and status where the request gives one. */
  method UpdateTaskByAdmin(db: Database, id: int, request: TaskRequest, username: string)
    returns (r: Result<Task, Exception>)
    requires db.Valid()
    modifies db
    ensures db.Valid()
    ensures db.users == old(db.users) && db.nextUserId == old(db.nextUserId) && db.nextTaskId == old(db.nextTaskId)
    ensures r.Failure? <==> FindTaskByUsername(db.users, old(db.tasks), id, username).Failure?
    ensures r.Failure? ==>
      r.error == FindTaskByUsername(db.users, old(db.tasks), id, username).error && db.tasks == old(db.tasks)
    ensures r.Success? ==>
      var before := old(db.tasks)[id];
      && db.tasks == old(db.tasks)[id := r.value]
      && r.value.id == before.id && r.value.owner == before.owner
      && r.value.title == (if request.title.Some? then request.title.value else before.title)
      && r.value.description == (if request.description.Some? then request.description.value else before.description)
      && r.value.status == (if request.status.Some? then request.status.value else before.status)
  {
    var found := FindTaskByUsername(db.users, db.tasks, id, username);
    if found.Failure? {
      return Failure(found.error);
    }
    var task := found.value;
    if request.title.Some? {
      task := task.(title := request.title.value);
    }
    if request.description.Some? {
      task := task.(description := request.description.value);
    }
    if request.status.Some? {
      task := task.(status := request.status.value);
    }
    db.tasks := db.tasks[id := task];
    return Success(task);
  }

  /** delete: removes the task when the caller may access it; otherwise nothing is removed. */
  method Delete(db: Database, id: int, username: string) returns (error: Option<Exception>)
    requires db.Valid()
    modifies db
    ensures db.Valid()
    ensures db.users == old(db.users) && db.nextUserId == old(db.nextUserId) && db.nextTaskId == old(db.nextTaskId)
    ensures error.None? <==> FindTaskByUsername(db.users, old(db.tasks), id, username).Success?
    ensures error.Some? ==>
      error.value == FindTaskByUsername(db.users, old(db.tasks), id, username).error && db.tasks == old(db.tasks)
    ensures error.None? ==> db.tasks == old(db.tasks) - {id}
  {
    var found := FindTaskByUsername(db.users, db.tasks, id, username);
    if found.Failure? {
      return Some(found.error);
    }
    db.tasks := db.tasks - {found.value.id};
    return None;
  }
}
