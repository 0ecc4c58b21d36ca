/**
 * UserService: administration of user accounts. New accounts always get ROLE_USER and an
 * encoded password; updates are meant to copy only the fields the request sets; deleting a
 * user first deletes the user's tasks.
 *
 * getNullPropertyNames reads each property through `new PropertyDescriptor(name, class)`,
 * which demands a setter. UserRequestDto is immutable and has none, so every lookup fails,
 * the failure is swallowed, and no name is ever reported: as written, a null field is
 * copied onto the user. `Update` models the intended null-skipping update; the
 * `...AsWritten` members model the code as it stands.
 */
module UserService {
  import opened Wrappers
  import opened Errors
  import opened Domain

  /** The fields of UserRequestDto; either may be null. */
  datatype UserRequest = UserRequest(username: Option<string>, password: Option<string>)

  /** The properties of UserRequestDto, by name. */
  const USERNAME := "username"
  const PASSWORD := "password"

  function UserNotFoundMessage(id: int): string
  {
    "User with id " + LongToString(id) + " not found"
  }

  /** The properties of UserRequestDto that have a setter: none, as the class is immutable. */
  const DTO_WRITABLE_PROPERTIES: set<string> := {}

  /** The message a NOT NULL column raises with when a null is flushed into it. */
  const NOT_NULL_VIOLATION := "null value in column violates not-null constraint on users"

  /** The message the unique constraint on the username column raises with. */
  const DUPLICATE_USERNAME := "duplicate key value violates unique constraint on users.username"

  /** findById: the user with this id, or UserNotFoundException naming the id. */
  function FindById(users: Users, id: int): (r: Result<User, Exception>)
    ensures r.Success? <==> id in users
    ensures r.Success? ==> r.value == users[id]
    ensures r.Failure? ==> r.error == Exception(UserNotFound, UserNotFoundMessage(id))
  {
    if id in users then Success(users[id]) else Failure(Exception(UserNotFound, UserNotFoundMessage(id)))
  }

  /** getNullPropertyNames: the names of the request's properties whose value is null. */
  function NullPropertyNames(request: UserRequest): (names: set<string>)
    ensures names <= {USERNAME, PASSWORD}
    ensures USERNAME in names <==> request.username.None?
    ensures PASSWORD in names <==> request.password.None?
  {
    (if request.username.None? then {USERNAME} else {}) + (if request.password.None? then {PASSWORD} else {})
  }

  /**
   * getNullPropertyNames as written: a property is reported only when its descriptor can be
   * built, which needs a setter, and its value is null. It misses every null property of
   * this DTO, so it agrees with the intended set exactly when there is no null property.
   */
  function NullPropertyNamesAsWritten(request: UserRequest): (names: set<string>)
    ensures names == {}
    ensures names <= NullPropertyNames(request)
    ensures names == NullPropertyNames(request) <==> request.username.Some? && request.password.Some?
  {
    set name | name in NullPropertyNames(request) && name in DTO_WRITABLE_PROPERTIES
  }

  /** BeanUtils.copyProperties would write a null into the user: a null property not ignored. */
  predicate CopiesNull(request: UserRequest, ignored: set<string>)
  {
    || (request.username.None? && USERNAME !in ignored)
    || (request.password.None? && PASSWORD !in ignored)
  }

  /**
   * BeanUtils.copyProperties: every non-null property of the request that is not in
   * `ignored` is copied onto the target; the target's other fields stay. A null property
   * outside `ignored` would be copied as null, which `CopiesNull` tells apart.
   */
  function CopyProperties(request: UserRequest, target: User, ignored: set<string>): User
  {
    var withName := if USERNAME !in ignored && request.username.Some? then target.(username := request.username.value) else target;
    if PASSWORD !in ignored && request.password.Some? then withName.(password := request.password.value) else withName
  }

  /**
   * Copying while skipping the null properties is a partial update: a field the request sets
   * is taken from it verbatim (the password is not encoded), a field it leaves null keeps
   * its value, and the id and role never change.
   */
  lemma NullSkippingCopyIsPartialUpdate(request: UserRequest, target: User)
    ensures var updated := CopyProperties(request, target, NullPropertyNames(request));
      && updated.id == target.id && updated.role == target.role
      && updated.username == (if request.username.Some? then request.username.value else target.username)
      && updated.password == (if request.password.Some? then request.password.value else target.password)
  {
  }

  /** The account `update` writes: the stored user with the request's non-null fields copied on. */
  function Updated(request: UserRequest, existing: User): User
  {
    CopyProperties(request, existing, NullPropertyNames(request))
  }

  /** Another user than `id` already has this name. */
  predicate NameTakenByOther(users: Users, id: int, name: string)
  {
    exists other | other in users :: other != id && users[other].username == name
  }

  /**
   * update as written: the copy ignores the names the reflection reports; a null copied onto
   * the NOT NULL username or password column fails the flush, and so does a name another
   * user has. Each failure rolls the transaction back.
   */
  function UpdateAsWritten(users: Users, id: int, request: UserRequest): (r: Result<User, Exception>)
    ensures id !in users ==> r == Failure(Exception(UserNotFound, UserNotFoundMessage(id)))
    ensures r.Success? ==> id in users && request.username.Some? && request.password.Some?
  {
    if id !in users then Failure(Exception(UserNotFound, UserNotFoundMessage(id)))
    else
      var ignored := NullPropertyNamesAsWritten(request);
      var copied := CopyProperties(request, users[id], ignored);
      if CopiesNull(request, ignored) then Failure(Exception(DataAccess, NOT_NULL_VIOLATION))
      else if NameTakenByOther(users, id, copied.username) then Failure(Exception(DataAccess, DUPLICATE_USERNAME))
      else Success(copied)
  }

  /**
   * The discrepancy: an update of an existing user that leaves a field null fails with a
   * data-access error as written, where the intended update keeps that field's value.
   */
  lemma NullFieldBreaksUpdateAsWritten(users: Users, id: int, request: UserRequest)
    requires id in users && (request.username.None? || request.password.None?)
    ensures UpdateAsWritten(users, id, request) == Failure(Exception(DataAccess, NOT_NULL_VIOLATION))
    ensures request.username.None? ==> Updated(request, users[id]).username == users[id].username
    ensures request.password.None? ==> Updated(request, users[id]).password == users[id].password
  {
    var ignored := NullPropertyNamesAsWritten(request);
    assert CopiesNull(request, ignored) by {
      assert USERNAME !in ignored && PASSWORD !in ignored;
    }
    NullSkippingCopyIsPartialUpdate(request, users[id]);
  }

  /** With every field set, the code as written and the intended update agree. */
  lemma CompleteRequestUpdatesAsIntended(users: Users, id: int, request: UserRequest)
    requires id in users && request.username.Some? && request.password.Some?
    ensures UpdateAsWritten(users, id, request)
         == if NameTakenByOther(users, id, Updated(request, users[id]).username)
            then Failure(Exception(DataAccess, DUPLICATE_USERNAME))
            else Success(Updated(request, users[id]))
  {
    assert NullPropertyNamesAsWritten(request) == NullPropertyNames(request);
  }

  /**
   * create: refuses a name that exists with a RuntimeException; otherwise stores a user with
   * the next id, the requested name, the encoded password and ROLE_USER, whatever else the
   * request carries.
   */
  method Create(db: Database, request: UserRequest, encode: string -> string) returns (r: Result<User, Exception>)
    requires db.Valid() && request.username.Some? && request.password.Some?
    modifies db
    ensures db.Valid()
    ensures HasUsername(old(db.users), request.username.value) ==>
      r == Failure(Exception(Runtime, "Username " + request.username.value + " already exists")) && unchanged(db)
    ensures !HasUsername(old(db.users), request.username.value) ==>
      && r == Success(User(old(db.nextUserId), request.username.value, encode(request.password.value), RoleUser))
      && old(db.nextUserId) !in old(db.users)
      && db.users == old(db.users)[old(db.nextUserId) := r.value]
      && db.tasks == old(db.tasks) && db.nextTaskId == old(db.nextTaskId)
      && db.nextUserId == old(db.nextUserId) + 1
  {
    var name := request.username.value;
    if HasUsername(db.users, name) {
      return Failure(Exception(Runtime, "Username " + name + " already exists"));
    }
    var user := User(db.nextUserId, name, encode(request.password.value), RoleUser);
    db.users := db.users[user.id := user];
    db.nextUserId := db.nextUserId + 1;
    return Success(user);
  }

  /**
   * update: copies the request's non-null fields onto the stored user. A name another user
   * already has violates the unique constraint when the row is flushed; the transaction
   * rolls back and the DataAccessException reaches the caller.
   */
  method Update(db: Database, id: int, request: UserRequest) returns (r: Result<User, Exception>)
    requires db.Valid()
    modifies db
    ensures db.Valid()
    ensures db.tasks == old(db.tasks) && db.nextUserId == old(db.nextUserId) && db.nextTaskId == old(db.nextTaskId)
    ensures id !in old(db.users) ==>
      r == Failure(Exception(UserNotFound, UserNotFoundMessage(id))) && db.users == old(db.users)
    ensures id in old(db.users) ==>
      var updated := Updated(request, old(db.users)[id]);
      if NameTakenByOther(old(db.users), id, updated.username) then
        r == Failure(Exception(DataAccess, DUPLICATE_USERNAME)) && db.users == old(db.users)
      else
        r == Success(updated) && db.users == old(db.users)[id := updated]
  {
    var existing := FindById(db.users, id);
    if existing.Failure? {
      return Failure(existing.error);
    }
    var user := CopyProperties(request, existing.value, NullPropertyNames(request));
    if NameTakenByOther(db.users, id, user.username) {
      return Failure(Exception(DataAccess, DUPLICATE_USERNAME));
    }
    NullSkippingCopyIsPartialUpdate(request, existing.value);
    db.users := db.users[id := user];
    return Success(user);
  }

  /**
   * delete: removes the user's tasks, then the user. For an unknown id the transaction
   * rolls back; by the foreign key there were no tasks to remove, so nothing changes.
   */
  method Delete(db: Database, id: int) returns (error: Option<Exception>)
    requires db.Valid()
    modifies db
    ensures db.Valid()
    ensures db.nextUserId == old(db.nextUserId) && db.nextTaskId == old(db.nextTaskId)
    ensures id !in old(db.users) ==>
      error == Some(Exception(UserNotFound, UserNotFoundMessage(id)))
      && db.users == old(db.users) && db.tasks == old(db.tasks)
    ensures id in old(db.users) ==>
      && error.None?
      && db.users == old(db.users) - {id}
      && db.tasks == map t | t in old(db.tasks) && old(db.tasks)[t].owner != id :: old(db.tasks)[t]
    ensures forall t | t in db.tasks :: db.tasks[t].owner != id
  {
    // taskRepository.deleteByUserId
    db.tasks := map t | t in db.tasks && db.tasks[t].owner != id :: db.tasks[t];
    if id !in db.users {
      assert forall t | t in old(db.tasks) :: old(db.tasks)[t].owner in db.users;
      assert db.tasks.Keys == old(db.tasks).Keys;
      return Some(Exception(UserNotFound, UserNotFoundMessage(id)));
    }
    db.users := db.users - {id};
    return None;
  }
}
