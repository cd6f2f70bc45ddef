/**
 * `UsersService`: the user account store. The TypeORM repository is a map
 * from row id to record, ids coming from a counter that stands in for the
 * generated uuid. bcrypt is the uninterpreted function `hash` the service
 * is built with. The invariant every operation keeps: no two active users
 * (deletion date unset) share an email.
 */
module Users {
  import opened Wrappers

  type Id = nat

  datatype User = User(id: Id, email: string, password: string, deletedAt: Option<int>)

  /** The body of an update request; either field may be missing. */
  datatype UpdateUserDto = UpdateUserDto(email: Option<string>, password: Option<string>)

  datatype UserError =
    | EmailInUse    // ConflictException
    | UserNotFound  // NotFoundException

  predicate IsActive(u: User) {
    u.deletedAt.None?
  }

  /** `if (data.email)` / `if (data.password)`: present and not empty. */
  predicate Supplied(field: Option<string>) {
    field.Some? && field.value != ""
  }

  ghost predicate EmailsUniqueAmongActive(users: map<Id, User>) {
    forall i, j ::
      i in users && j in users && IsActive(users[i]) && IsActive(users[j]) && users[i].email == users[j].email
      ==> i == j
  }

  /** The ids `findOne({ where: { email, deletedAt: IsNull() } })` may return. */
  function ActiveWithEmail(users: map<Id, User>, email: string): set<Id> {
    set id | id in users && IsActive(users[id]) && users[id].email == email
  }

  /** The record `update` saves: supplied fields replaced, the password hashed. */
  function Patched(u: User, data: UpdateUserDto, hash: string -> string): User {
    u.(email := if Supplied(data.email) then data.email.value else u.email,
       password := if Supplied(data.password) then hash(data.password.value) else u.password)
  }

  /** Whether `update` with `data` must refuse because another active user has the new email. */
  function EmailTakenByOther(users: map<Id, User>, id: Id, data: UpdateUserDto): bool {
    Supplied(data.email) && ActiveWithEmail(users, data.email.value) - {id} != {}
  }

  /**
   * Saving a record keeps emails unique among active users when no other
   * active user holds its email (or the record is not active).
   */
  lemma SaveKeepsEmailsUnique(users: map<Id, User>, id: Id, u: User)
    requires EmailsUniqueAmongActive(users)
    requires IsActive(u) ==> ActiveWithEmail(users, u.email) - {id} == {}
    ensures EmailsUniqueAmongActive(users[id := u])
  {
    var others := ActiveWithEmail(users, u.email) - {id};
    assert forall k :: k in users && k != id && IsActive(users[k]) && users[k].email == u.email ==> k in others;
  }

  /** An active user is the only active holder of its email. */
  lemma OnlyHolderOfOwnEmail(users: map<Id, User>, id: Id)
    requires EmailsUniqueAmongActive(users)
    requires id in users && IsActive(users[id])
    ensures ActiveWithEmail(users, users[id].email) == {id}
  {
  }

  class UsersService {
    var users: map<Id, User>
    var nextId: nat
    const hash: string -> string

    ghost predicate Valid()
      reads this
    {
      && (forall id :: id in users ==> users[id].id == id && id < nextId)
      && EmailsUniqueAmongActive(users)
    }

    constructor (hash: string -> string)
      ensures Valid() && users == map[] && this.hash == hash
    {
      this.hash := hash;
      users, nextId := map[], 0;
    }

    /** `findByEmail`: the active user with that email, if there is one. */
    method FindByEmail(email: string) returns (r: Option<User>)
      requires Valid()
      ensures r.Some? <==> ActiveWithEmail(users, email) != {}
      ensures r.Some? ==> r.value.id in users && users[r.value.id] == r.value
      ensures r.Some? ==> IsActive(r.value) && r.value.email == email
      ensures r.Some? ==> ActiveWithEmail(users, email) == {r.value.id}
    {
      var found := ActiveWithEmail(users, email);
      if found == {} {
        return None;
      }
      var id :| id in found;
      r := Some(users[id]);
    }

    /** `findById`: absent and deleted users are both NotFound. */
    method FindById(id: Id) returns (r: Result<User, UserError>)
      requires Valid()
      ensures r.Success? <==> id in users && IsActive(users[id])
      ensures r.Success? ==> r.value == users[id] && r.value.id == id
      ensures r.Failure? ==> r.error == UserNotFound
    {
      if id !in users || !IsActive(users[id]) {
        return Failure(UserNotFound);
      }
      r := Success(users[id]);
    }

    /** `create`: Conflict when an active user has the email; otherwise stores the hashed password. */
    method Create(email: string, password: string) returns (r: Result<User, UserError>)
      requires Valid()
      modifies this
      ensures Valid()
      ensures old(ActiveWithEmail(users, email)) != {} ==>
        r == Failure(EmailInUse) && users == old(users) && nextId == old(nextId)
      ensures old(ActiveWithEmail(users, email)) == {} ==>
        && r == Success(User(old(nextId), email, hash(password), None))
        && old(nextId) !in old(users)
        && users == old(users)[old(nextId) := r.value]
    {
      var existingUser := FindByEmail(email);
      if existingUser.Some? {
        return Failure(EmailInUse);
      }
      var hashedPassword := hash(password);
      var user := User(nextId, email, hashedPassword, None);
      SaveKeepsEmailsUnique(users, nextId, user);
      users := users[nextId := user];
      nextId := nextId + 1;
      r := Success(user);
    }

    /**
     * `update`: NotFound for an absent or deleted user; Conflict only when a
     * different active user has the new email; otherwise saves the supplied
     * fields, hashing the password.
     */
    method Update(id: Id, data: UpdateUserDto) returns (r: Result<User, UserError>)
      requires Valid()
      modifies this
      ensures Valid() && nextId == old(nextId)
      ensures !(id in old(users) && IsActive(old(users)[id])) ==>
        r == Failure(UserNotFound) && users == old(users)
      ensures id in old(users) && IsActive(old(users)[id]) && EmailTakenByOther(old(users), id, data) ==>
        r == Failure(EmailInUse) && users == old(users)
      ensures id in old(users) && IsActive(old(users)[id]) && !EmailTakenByOther(old(users), id, data) ==>
        r == Success(Patched(old(users)[id], data, hash)) && users == old(users)[id := r.value]
    {
      var found := FindById(id);
      if found.Failure? {
        return Failure(found.error);
      }
      var user := found.value;
      OnlyHolderOfOwnEmail(users, id);
      if Supplied(data.email) {
        var existing := FindByEmail(data.email.value);
        if existing.Some? && existing.value.id != id {
          return Failure(EmailInUse);
        }
        user := user.(email := data.email.value);
      }
      if Supplied(data.password) {
        user := user.(password := hash(data.password.value));
      }
      SaveKeepsEmailsUnique(users, id, user);
      users := users[id := user];
      r := Success(user);
    }

    /** `delete`: soft-deletes an active user by setting its deletion date. */
    method Delete(id: Id, now: int) returns (r: Outcome<UserError>)
      requires Valid()
      modifies this
      ensures Valid() && nextId == old(nextId)
      ensures !(id in old(users) && IsActive(old(users)[id])) ==>
        r == Fail(UserNotFound) && users == old(users)
      ensures id in old(users) && IsActive(old(users)[id]) ==>
        r == Pass && users == old(users)[id := old(users)[id].(deletedAt := Some(now))]
    {
      var found := FindById(id);
      if found.Failure? {
        return Fail(found.error);
      }
      var user := found.value;
      user := user.(deletedAt := Some(now));
      SaveKeepsEmailsUnique(users, id, user);
      users := users[id := user];
      r := Pass;
    }
  }

  /** Re-sending one's own email is not a conflict. */
  method KeepOwnEmail(svc: UsersService, id: Id) returns (r: Result<User, UserError>)
    requires svc.Valid()
    requires id in svc.users && IsActive(svc.users[id])
    modifies svc
    ensures svc.Valid()
    ensures r == Success(old(svc.users[id])) && svc.users == old(svc.users)
  {
    var email := svc.users[id].email;
    r := svc.Update(id, UpdateUserDto(Some(email), None));
  }

  /**
   * After a soft delete the user is gone for lookups and for a second
   * delete, and its email is free for a new account.
   */
  method DeleteThenUse(svc: UsersService, id: Id, now: int, password: string)
    returns (lookup: Result<User, UserError>, byEmail: Option<User>,
             again: Outcome<UserError>, created: Result<User, UserError>)
    requires svc.Valid()
    requires id in svc.users && IsActive(svc.users[id])
    modifies svc
    ensures svc.Valid()
    ensures lookup == Failure(UserNotFound) && byEmail == None && again == Fail(UserNotFound)
    ensures created.Success? && created.value.id != id
    ensures created.value.email == old(svc.users[id].email) && created.value.password == svc.hash(password)
  {
    var email := svc.users[id].email;
    var deleted := svc.Delete(id, now);
    lookup := svc.FindById(id);
    byEmail := svc.FindByEmail(email);
    again := svc.Delete(id, now);
    created := svc.Create(email, password);
  }
}
