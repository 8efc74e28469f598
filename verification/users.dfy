/**
 * The `users` table: the `User` entity, the request shapes the services
 * accept, the exceptions they raise, and the repository's `save`, which is
 * where the table's unique-email constraint is enforced.
 */
module Users {

  type Id = string

  /** A nullable column or an optional request field (`undefined` / `null`). */
  datatype Option<T> = None | Some(value: T) {
    /** JavaScript's `??`: the value when present, else the fallback. */
    function GetOr(fallback: T): T {
      if Some? then value else fallback
    }
  }

  /** One row of the `users` table. `password`, `isActivated` and `accessToken` are nullable. */
  datatype User = User(
    id: Id,
    firstName: string,
    lastName: string,
    email: string,
    password: Option<string>,
    isActivated: Option<bool>,
    accessToken: Option<string>)

  /** `Partial<User>` after `const { password, accessToken, ...partialUser } = user`. */
  datatype PublicUser = PublicUser(
    id: Id,
    firstName: string,
    lastName: string,
    email: string,
    isActivated: Option<bool>)

  /** `Partial<User>` after `const { password, ...userWithoutPassword } = user`. */
  datatype SignedInUser = SignedInUser(
    id: Id,
    firstName: string,
    lastName: string,
    email: string,
    isActivated: Option<bool>,
    accessToken: Option<string>)

  datatype InviteDto = InviteDto(firstName: string, lastName: string, email: string)

  datatype CreateDto = CreateDto(
    firstName: string,
    lastName: string,
    email: string,
    password: Option<string>,
    accessToken: Option<string>)

  /** Every field optional: `None` is a field the request did not send. */
  datatype UpdateDto = UpdateDto(
    firstName: Option<string>,
    lastName: Option<string>,
    email: Option<string>,
    password: Option<string>,
    accessToken: Option<string>)

  datatype ActivateDto = ActivateDto(
    firstName: Option<string>,
    lastName: Option<string>,
    email: Option<string>,
    password: string)

  datatype SignInDto = SignInDto(email: string, password: string)

  /** What a service operation throws; `message` is what the controllers match on. */
  datatype Exception =
    | NotFoundException(message: string)
    | ConflictException(message: string)
    | UnauthorizedException(message: string)
    | InternalServerErrorException(message: string)
    | PlainError(message: string)          // `new Error(...)`
    | QueryFailedError(message: string)    // raised by the database driver

  datatype Result<T> = Ok(value: T) | Err(error: Exception)

  const UserNotFound := "User not found"
  const UserAlreadyExists := "User already exists"
  const UserAlreadyInvited := "User already invited"
  const UserAlreadyActivated := "User already activated"
  const InvalidCredentials := "Invalid email or password"
  const UniqueViolation := "duplicate key value violates unique constraint"

  /** The response projection: drops `password` and `accessToken`. */
  function Strip(u: User): (p: PublicUser)
    ensures p.id == u.id && p.email == u.email
  {
    PublicUser(u.id, u.firstName, u.lastName, u.email, u.isActivated)
  }

  /** The sign-in projection: drops `password` only. */
  function WithoutPassword(u: User): (p: SignedInUser)
    ensures p.id == u.id && p.accessToken == u.accessToken
  {
    SignedInUser(u.id, u.firstName, u.lastName, u.email, u.isActivated, u.accessToken)
  }

  /** Two records have the same projection exactly when they differ at most in the secrets. */
  lemma StripHidesSecrets(u: User, v: User)
    ensures Strip(u) == Strip(v) <==> u.(password := v.password, accessToken := v.accessToken) == v
  {
  }

  lemma WithoutPasswordHidesOnlyPassword(u: User, v: User)
    ensures WithoutPassword(u) == WithoutPassword(v) <==> u.(password := v.password) == v
  {
  }

  /** `users.map(user => { const { password, accessToken, ...partialUser } = user; return partialUser; })` */
  function StripAll(users: seq<User>): (r: seq<PublicUser>)
    ensures |r| == |users|
    ensures forall i :: 0 <= i < |users| ==> r[i] == Strip(users[i])
  {
    if users == [] then [] else [Strip(users[0])] + StripAll(users[1..])
  }

  /** The contents of the `users` table, keyed by primary key. */
  type Table = map<Id, User>

  predicate EmailTaken(t: Table, email: string) {
    exists id :: id in t && t[id].email == email
  }

  /** Some row other than `id` holds `email`. */
  predicate EmailTakenByOther(t: Table, id: Id, email: string) {
    exists other :: other in t && other != id && t[other].email == email
  }

  /**
   * The table invariant: each row is stored under its own primary key, and the
   * `email` column is unique (`@Column({unique: true})`).
   */
  predicate WellFormed(t: Table) {
    && (forall id :: id in t ==> t[id].id == id)
    && (forall a, b :: a in t && b in t && t[a].email == t[b].email ==> a == b)
  }

  /**
   * `userRepository.save(u)`: an upsert by primary key. The database refuses a
   * row whose email another row already holds (None: a `QueryFailedError`).
   */
  function Save(t: Table, u: User): (r: Option<Table>)
    ensures r.None? <==> EmailTakenByOther(t, u.id, u.email)
    ensures r.Some? ==> u.id in r.value && r.value[u.id] == u
    ensures r.Some? ==> forall id :: id != u.id ==> (id in r.value <==> id in t)
    ensures r.Some? ==> forall id :: id in t && id != u.id ==> r.value[id] == t[id]
    ensures r.Some? && WellFormed(t) ==> WellFormed(r.value)
  {
    if EmailTakenByOther(t, u.id, u.email) then None else Some(t[u.id := u])
  }

  /** A duplicate-free listing of exactly the keys of `t`: the rows as `find()` yields them. */
  predicate IsListing(order: seq<Id>, t: Table) {
    && (forall i :: 0 <= i < |order| ==> order[i] in t)
    && (forall id :: id in t ==> id in order)
    && (forall i, j :: 0 <= i < j < |order| ==> order[i] != order[j])
  }

  /** A listing holds one entry per row. */
  lemma {:induction false} ListingLength(order: seq<Id>, t: Table)
    requires IsListing(order, t)
    ensures |order| == |t|
  {
    if order == [] {
      assert t.Keys == {};
    } else {
      var rest := t - {order[0]};
      assert IsListing(order[1..], rest) by {
        forall id | id in rest ensures id in order[1..] {
          var k :| 0 <= k < |order| && order[k] == id;
          assert k != 0;
          assert order[1..][k - 1] == id;
        }
        forall i | 0 <= i < |order[1..]| ensures order[1..][i] in rest {
          assert order[1..][i] == order[i + 1];
        }
      }
      ListingLength(order[1..], rest);
      assert |rest.Keys| == |t.Keys| - 1 by {
        assert rest.Keys == t.Keys - {order[0]};
      }
    }
  }
}
