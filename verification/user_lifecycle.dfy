/**
 * `UserService`: invitation, creation, lookup, activation, update and
 * deletion of user records over the `users` table.
 *
 * Each operation that writes the table is specified by a step function on
 * table values (`...Step`) giving the outcome and the table afterwards; the
 * class's methods that write are proved to perform exactly that step. The
 * three that never write (`AddUser`, `Create`, `CreateInvite`) state their
 * outcome directly. The lemmas at the end relate steps to each other and to
 * the lookups.
 */
module UserLifecycle {
  import opened Users
  import opened Security

  const FetchUserFailed := "An unexpected error occurred while fetching the user"
  const CreateUserFailed := "An unexpected error occurred while creating the user"
  const DeleteUserFailed := "An unexpected error occurred while deleting the user"
  const UpdateUserFailed := "An unexpected error occurred while updating the user"
  const InviteFailed := "An unexpected error occurred while creating the invitation"
  const ActivateFailed := "An unexpected error occurred while activating the user"

  /** What `sendInvitationEmail(email, firstName, id)` is asked to deliver. */
  datatype Invitation = Invitation(email: string, firstName: string, userId: Id)

  /** The outcome of an operation together with the table it leaves behind. */
  datatype Step<T> = Step(result: Result<T>, table: Table)

  // ---------------------------------------------------------------------------
  // The `catch` blocks: what each operation lets through and what it replaces.

  /** `addUser`, `create`, `createDirectly`: a `ConflictException` passes, anything else becomes internal. */
  function CatchCreate(e: Exception): Exception {
    if e.ConflictException? then e else InternalServerErrorException(CreateUserFailed)
  }

  /** `findOne`, `findByEmail`, `removeById`, `update`: a `NotFoundException` passes. */
  function CatchNotFound(e: Exception, message: string): Exception {
    if e.NotFoundException? then e else InternalServerErrorException(message)
  }

  /** `createInvite` matches on the message text. */
  function CatchInvite(e: Exception): Exception {
    if e.message == UserAlreadyInvited then e else PlainError(InviteFailed)
  }

  /** `activateUser`: a `NotFoundException` passes, anything else becomes a plain `Error`. */
  function CatchActivate(e: Exception): Exception {
    if e.NotFoundException? then e else PlainError(ActivateFailed)
  }

  // ---------------------------------------------------------------------------
  // Read-only queries.

  /**
   * `findAll`: every row, in the order the database lists them (`order`),
   * without `password` and `accessToken`. An empty table gives an empty list.
   */
  function FindAll(t: Table, order: seq<Id>): (r: seq<PublicUser>)
    requires IsListing(order, t)
    ensures |r| == |t|
    ensures |r| == |order|
    ensures forall i :: 0 <= i < |order| ==> r[i] == Strip(t[order[i]])
    ensures forall id :: id in t ==> Strip(t[id]) in r
    ensures t == map[] ==> r == []
  {
    ListingLength(order, t);
    var users := seq(|order|, i requires 0 <= i < |order| => t[order[i]]);
    if |users| != 0 then
      var r := StripAll(users);
      assert forall id :: id in t ==> Strip(t[id]) in r by {
        forall id | id in t ensures Strip(t[id]) in r {
          var i :| 0 <= i < |order| && order[i] == id;
          assert r[i] == Strip(t[id]);
        }
      }
      r
    else
      []
  }

  /** `findOne(id)`: the row under `id` without its secrets, or `NotFoundException`. */
  function FindOne(t: Table, id: Id): (r: Result<PublicUser>)
    ensures r.Ok? <==> id in t
    ensures r.Ok? ==> r.value == Strip(t[id])
    ensures r.Err? ==> r.error == NotFoundException(UserNotFound)
  {
    if id !in t then Err(CatchNotFound(NotFoundException(UserNotFound), FetchUserFailed))
    else Ok(Strip(t[id]))
  }

  /** `findByEmail(email)`: the full row holding `email`, password included, or `NotFoundException`. */
  function FindByEmail(t: Table, email: string): (r: Result<User>)
    requires WellFormed(t)
    ensures r.Ok? <==> EmailTaken(t, email)
    ensures r.Ok? ==> r.value.id in t && t[r.value.id] == r.value && r.value.email == email
    ensures r.Err? ==> r.error == NotFoundException(UserNotFound)
  {
    if EmailTaken(t, email) then
      var id :| id in t && t[id].email == email;
      Ok(t[id])
    else
      Err(CatchNotFound(NotFoundException(UserNotFound), FetchUserFailed))
  }

  // ---------------------------------------------------------------------------
  // Steps of the operations that write the table.

  /** `{ ...existingUser, ...userToUpdate }`: each field the request sent replaces the stored one. */
  function Spread(u: User, dto: UpdateDto): User {
    u.(firstName := dto.firstName.GetOr(u.firstName),
       lastName := dto.lastName.GetOr(u.lastName),
       email := dto.email.GetOr(u.email),
       password := if dto.password.Some? then dto.password else u.password,
       accessToken := if dto.accessToken.Some? then dto.accessToken else u.accessToken)
  }

  /**
   * `createDirectly`: stores the request as it is under a fresh id, with no
   * existence check and no hashing; only the unique constraint can refuse it.
   */
  function CreateDirectlyStep(t: Table, dto: CreateDto, newId: Id): (s: Step<User>)
    requires WellFormed(t) && newId !in t
    ensures WellFormed(s.table)
    ensures s.result.Ok? <==> !EmailTaken(t, dto.email)
    ensures s.result.Ok? ==>
      && s.result.value == User(newId, dto.firstName, dto.lastName, dto.email, dto.password, None, dto.accessToken)
      && s.table == t[newId := s.result.value]
    ensures s.result.Err? ==>
      s.result.error == InternalServerErrorException(CreateUserFailed) && s.table == t
  {
    var user := User(newId, dto.firstName, dto.lastName, dto.email, dto.password, None, dto.accessToken);
    match Save(t, user)
    case Some(saved) => Step(Ok(user), saved)
    case None => Step(Err(CatchCreate(QueryFailedError(UniqueViolation))), t)
  }

  /** `removeById`: deletes exactly the row under `id` and returns it without its secrets. */
  function RemoveStep(t: Table, id: Id): (s: Step<PublicUser>)
    requires WellFormed(t)
    ensures WellFormed(s.table)
    ensures s.result.Ok? <==> id in t
    ensures s.result.Ok? ==> s.result.value == Strip(t[id]) && s.table == t - {id}
    ensures s.result.Err? ==> s.result.error == NotFoundException(UserNotFound) && s.table == t
  {
    if id !in t then Step(Err(CatchNotFound(NotFoundException(UserNotFound), DeleteUserFailed)), t)
    else Step(Ok(Strip(t[id])), t - {id})
  }

  /**
   * `update`: merges the request's fields over the stored row; a password
   * sent here is stored as given, not hashed.
   */
  function UpdateStep(t: Table, id: Id, dto: UpdateDto): (s: Step<User>)
    requires WellFormed(t)
    ensures WellFormed(s.table)
    ensures id !in t ==> s == Step(Err(NotFoundException(UserNotFound)), t)
    ensures id in t && EmailTakenByOther(t, id, dto.email.GetOr(t[id].email)) ==>
      s == Step(Err(InternalServerErrorException(UpdateUserFailed)), t)
    ensures s.result.Ok? <==> id in t && !EmailTakenByOther(t, id, dto.email.GetOr(t[id].email))
    ensures s.result.Ok? ==>
      var u := s.result.value;
      && s.table == t[id := u]
      && u.id == id
      && u.firstName == (if dto.firstName.Some? then dto.firstName.value else t[id].firstName)
      && u.lastName == (if dto.lastName.Some? then dto.lastName.value else t[id].lastName)
      && u.email == (if dto.email.Some? then dto.email.value else t[id].email)
      && u.password == (if dto.password.Some? then dto.password else t[id].password)
      && u.accessToken == (if dto.accessToken.Some? then dto.accessToken else t[id].accessToken)
      && u.isActivated == t[id].isActivated
  {
    if id !in t then Step(Err(CatchNotFound(NotFoundException(UserNotFound), UpdateUserFailed)), t)
    else
      var updated := Spread(t[id], dto);
      match Save(t, updated)
      case Some(saved) => Step(Ok(updated), saved)
      case None => Step(Err(CatchNotFound(QueryFailedError(UniqueViolation), UpdateUserFailed)), t)
  }

  /**
   * `activateUser`: a not-yet-activated row takes the request's names and
   * email where sent, the hash of its password, and `isActivated = true`.
   * The "already activated" error it raises is replaced by its generic error.
   */
  function ActivateStep(t: Table, id: Id, dto: ActivateDto, h: Hasher): (s: Step<User>)
    requires WellFormed(t)
    ensures WellFormed(s.table)
    ensures s.result.Err? ==> s.table == t
    ensures id !in t ==> s.result == Err(NotFoundException(UserNotFound))
    ensures id in t && s.result.Err? ==> s.result.error == PlainError(ActivateFailed)
    ensures id in t && t[id].isActivated == Some(true) ==> s.result.Err?
    ensures s.result.Ok? <==>
      && id in t
      && t[id].isActivated != Some(true)
      && !EmailTakenByOther(t, id, dto.email.GetOr(t[id].email))
    ensures s.result.Ok? ==>
      var u := s.result.value;
      && s.table == t[id := u]
      && u.id == id
      && u.firstName == (if dto.firstName.Some? then dto.firstName.value else t[id].firstName)
      && u.lastName == (if dto.lastName.Some? then dto.lastName.value else t[id].lastName)
      && u.email == (if dto.email.Some? then dto.email.value else t[id].email)
      && u.isActivated == Some(true)
      && u.password == Some(h.hash(dto.password))
      && u.accessToken == t[id].accessToken
  {
    if id !in t then Step(Err(CatchActivate(NotFoundException(UserNotFound))), t)
    else if t[id].isActivated == Some(true) then Step(Err(CatchActivate(PlainError(UserAlreadyActivated))), t)
    else
      var u := t[id];
      var activated := u.(firstName := dto.firstName.GetOr(u.firstName),
                          lastName := dto.lastName.GetOr(u.lastName),
                          email := dto.email.GetOr(u.email),
                          isActivated := Some(true),
                          password := Some(h.hash(dto.password)));
      match Save(t, activated)
      case Some(saved) => Step(Ok(activated), saved)
      case None => Step(Err(CatchActivate(QueryFailedError(UniqueViolation))), t)
  }

  // ---------------------------------------------------------------------------
  // The service.

  class UserService {
    /** The repository's rows. */
    var rows: Table
    const security: Hasher
    /** Every invitation handed to the mail service, oldest first. */
    ghost var invitations: seq<Invitation>

    ghost predicate Valid()
      reads this
    {
      WellFormed(rows)
    }

    constructor (security: Hasher, rows: Table)
      requires WellFormed(rows)
      ensures Valid() && this.rows == rows && this.security == security && invitations == []
    {
      this.rows := rows;
      this.security := security;
      invitations := [];
    }

    /**
     * `addUser`: the existence check goes through `findByEmail`, which throws
     * when the email is absent, so the record is never inserted.
     */
    method AddUser(dto: InviteDto) returns (r: Result<User>)
      requires Valid()
      ensures EmailTaken(rows, dto.email) ==> r == Err(ConflictException(UserAlreadyExists))
      ensures !EmailTaken(rows, dto.email) ==> r == Err(InternalServerErrorException(CreateUserFailed))
    {
      var raised: Exception;
      var found := FindByEmail(rows, dto.email);
      match found {
        case Err(e) =>
          raised := e;
        case Ok(existingUser) =>
          // A found record is an object, hence truthy: the insert below this
          // test in the service is never reached.
          raised := ConflictException(UserAlreadyExists);
      }
      r := Err(CatchCreate(raised));
    }

    /** `create`: the same existence check as `addUser`, with the same outcome. */
    method Create(dto: CreateDto) returns (r: Result<User>)
      requires Valid()
      ensures EmailTaken(rows, dto.email) ==> r == Err(ConflictException(UserAlreadyExists))
      ensures !EmailTaken(rows, dto.email) ==> r == Err(InternalServerErrorException(CreateUserFailed))
    {
      var raised: Exception;
      var found := FindByEmail(rows, dto.email);
      match found {
        case Err(e) =>
          raised := e;
        case Ok(existingUser) =>
          raised := ConflictException(UserAlreadyExists);
      }
      r := Err(CatchCreate(raised));
    }

    /**
     * `createInvite`: a known email gives "User already invited"; an unknown
     * one makes `findByEmail` throw, which becomes the generic error. The
     * record is never added and the invitation is never sent: the method
     * changes no field, so `rows` and `invitations` stay as they were.
     */
    method CreateInvite(dto: InviteDto) returns (r: Result<PublicUser>)
      requires Valid()
      ensures EmailTaken(rows, dto.email) ==> r == Err(PlainError(UserAlreadyInvited))
      ensures !EmailTaken(rows, dto.email) ==> r == Err(PlainError(InviteFailed))
    {
      var raised: Exception;
      var found := FindByEmail(rows, dto.email);
      match found {
        case Err(e) =>
          raised := e;
        case Ok(existingUser) =>
          raised := PlainError(UserAlreadyInvited);
      }
      r := Err(CatchInvite(raised));
    }

    /** `createDirectly`, with `newId` the identifier the database generates; mirrors `CreateDirectlyStep`. */
    method CreateDirectly(dto: CreateDto, newId: Id) returns (r: Result<User>)
      requires Valid() && newId !in rows
      modifies this
      ensures Valid() && invitations == old(invitations)
      ensures Step(r, rows) == CreateDirectlyStep(old(rows), dto, newId)
    {
      var user := User(newId, dto.firstName, dto.lastName, dto.email, dto.password, None, dto.accessToken);
      var saved := Save(rows, user);
      if saved.Some? {
        rows := saved.value;
        return Ok(user);
      }
      r := Err(CatchCreate(QueryFailedError(UniqueViolation)));
    }

    /** `removeById`; mirrors `RemoveStep`. */
    method RemoveById(id: Id) returns (r: Result<PublicUser>)
      requires Valid()
      modifies this
      ensures Valid() && invitations == old(invitations)
      ensures Step(r, rows) == RemoveStep(old(rows), id)
    {
      if id !in rows {
        return Err(CatchNotFound(NotFoundException(UserNotFound), DeleteUserFailed));
      }
      var userToRemove := rows[id];
      var partialUser := Strip(userToRemove);
      rows := rows - {id};
      r := Ok(partialUser);
    }

    /** `activateUser`: the loaded row's fields are assigned one by one, then saved; mirrors `ActivateStep`. */
    method ActivateUser(userId: Id, dto: ActivateDto) returns (r: Result<User>)
      requires Valid()
      modifies this
      ensures Valid() && invitations == old(invitations)
      ensures Step(r, rows) == ActivateStep(old(rows), userId, dto, security)
    {
      var raised: Exception;
      if userId !in rows {
        raised := NotFoundException(UserNotFound);
      } else if rows[userId].isActivated == Some(true) {
        raised := PlainError(UserAlreadyActivated);
      } else {
        var userToUpdate := rows[userId];
        userToUpdate := userToUpdate.(firstName := dto.firstName.GetOr(userToUpdate.firstName));
        userToUpdate := userToUpdate.(lastName := dto.lastName.GetOr(userToUpdate.lastName));
        userToUpdate := userToUpdate.(email := dto.email.GetOr(userToUpdate.email));
        userToUpdate := userToUpdate.(isActivated := Some(true));
        var hashedPassword := security.hash(dto.password);
        userToUpdate := userToUpdate.(password := Some(hashedPassword));
        var saved := Save(rows, userToUpdate);
        if saved.Some? {
          rows := saved.value;
          return Ok(userToUpdate);
        }
        raised := QueryFailedError(UniqueViolation);
      }
      r := Err(CatchActivate(raised));
    }

    /** `update`; mirrors `UpdateStep`. */
    method Update(userId: Id, dto: UpdateDto) returns (r: Result<User>)
      requires Valid()
      modifies this
      ensures Valid() && invitations == old(invitations)
      ensures Step(r, rows) == UpdateStep(old(rows), userId, dto)
    {
      if userId !in rows {
        return Err(CatchNotFound(NotFoundException(UserNotFound), UpdateUserFailed));
      }
      var updatedUser := Spread(rows[userId], dto);
      var saved := Save(rows, updatedUser);
      if saved.Some? {
        rows := saved.value;
        return Ok(updatedUser);
      }
      r := Err(CatchNotFound(QueryFailedError(UniqueViolation), UpdateUserFailed));
    }
  }

  // ---------------------------------------------------------------------------
  // How the operations relate.

  /** `findAll` and `findOne` agree on every listed row. */
  lemma FindAllAgreesWithFindOne(t: Table, order: seq<Id>, i: nat)
    requires IsListing(order, t) && i < |order|
    ensures i < |FindAll(t, order)| && FindOne(t, order[i]) == Ok(FindAll(t, order)[i])
  {
  }

  /** Looking a row up by its email yields that very row, and `findOne` shows its projection. */
  lemma FindByEmailFindsRow(t: Table, id: Id)
    requires WellFormed(t) && id in t
    ensures FindByEmail(t, t[id].email) == Ok(t[id])
    ensures FindOne(t, id) == Ok(Strip(FindByEmail(t, t[id].email).value))
  {
  }

  /** A row created directly can be found again by its email and by its id. */
  lemma CreateDirectlyThenFind(t: Table, dto: CreateDto, newId: Id)
    requires WellFormed(t) && newId !in t
    requires CreateDirectlyStep(t, dto, newId).result.Ok?
    ensures var s := CreateDirectlyStep(t, dto, newId);
      && FindByEmail(s.table, dto.email) == s.result
      && FindOne(s.table, newId) == Ok(Strip(s.result.value))
  {
    var s := CreateDirectlyStep(t, dto, newId);
    FindByEmailFindsRow(s.table, newId);
  }

  /** After a removal the id is gone and every other row reads as before. */
  lemma RemoveThenFindOne(t: Table, id: Id, other: Id)
    requires WellFormed(t) && id in t
    ensures var s := RemoveStep(t, id);
      && FindOne(s.table, id) == Err(NotFoundException(UserNotFound))
      && (other != id ==> FindOne(s.table, other) == FindOne(t, other))
  {
  }

  /** `update(id, {firstName: x})` then `findOne(id)` shows `x` and every other field as before. */
  lemma UpdateFirstNameThenFindOne(t: Table, id: Id, x: string)
    requires WellFormed(t) && id in t
    ensures var s := UpdateStep(t, id, UpdateDto(Some(x), None, None, None, None));
      && s.result.Ok?
      && FindOne(s.table, id) == Ok(Strip(t[id]).(firstName := x))
  {
    assert !EmailTakenByOther(t, id, t[id].email);
  }

  /** A second activation of the same id fails and leaves the first one's values in place. */
  lemma ActivationHappensOnce(t: Table, id: Id, first: ActivateDto, second: ActivateDto, h: Hasher)
    requires WellFormed(t)
    requires ActivateStep(t, id, first, h).result.Ok?
    ensures var s := ActivateStep(t, id, first, h);
      ActivateStep(s.table, id, second, h) == Step(Err(PlainError(ActivateFailed)), s.table)
  {
  }

  /** The "already activated" message never leaves `activateUser`: code 701 of the controller is unreachable. */
  lemma ActivationNeverReportsAlreadyActivated(t: Table, id: Id, dto: ActivateDto, h: Hasher)
    requires WellFormed(t)
    ensures var s := ActivateStep(t, id, dto, h);
      s.result.Err? ==> s.result.error.message != UserAlreadyActivated
  {
  }
}
