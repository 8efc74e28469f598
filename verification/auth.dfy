/**
 * `AuthService.signIn`: look the user up by email, compare the password with
 * the stored hash, mint an access token when the record holds none, persist
 * it through `update`, and return the record without its password. Every
 * failure, its own "invalid email or password" included, is replaced by one
 * internal error.
 */
module Auth {
  import opened Users
  import opened Security
  import opened UserLifecycle

  const SignInFailed := "An unexpected error occurred during sign-in"

  /** The single `catch` of `signIn`: whatever was thrown becomes an internal error. */
  function CatchSignIn(e: Exception): Exception {
    InternalServerErrorException(SignInFailed)
  }

  /**
   * `comparePasswords(inputPassword, user.password)`. A record without a
   * password makes bcrypt throw; the outer `catch` gives that the same
   * outcome as a mismatch.
   */
  function PasswordMatches(h: Hasher, input: string, stored: Option<string>): bool {
    stored.Some? && h.compare(input, stored.value)
  }

  /** `if (!user.accessToken)` is false for a non-empty string only. */
  predicate HasAccessToken(u: User) {
    u.accessToken.Some? && u.accessToken.value != ""
  }

  /** The record passed as the request of `userService.update(user.id, user)`. */
  function AsUpdate(u: User): UpdateDto {
    UpdateDto(Some(u.firstName), Some(u.lastName), Some(u.email), u.password, u.accessToken)
  }

  /** Sign-in as a step on the table; `mint` stands for signing `{ sub: id, username: email }`. */
  function SignInStep(t: Table, dto: SignInDto, h: Hasher, mint: (Id, string) -> string): (s: Step<SignedInUser>)
    requires WellFormed(t)
    ensures WellFormed(s.table)
    ensures s.result.Err? ==>
      s.result.error == InternalServerErrorException(SignInFailed) && s.table == t
    ensures s.result.Ok? <==>
      && FindByEmail(t, dto.email).Ok?
      && PasswordMatches(h, dto.password, FindByEmail(t, dto.email).value.password)
    ensures s.result.Ok? ==>
      var u := FindByEmail(t, dto.email).value;
      && s.result.value.id == u.id
      && s.result.value == WithoutPassword(
           if HasAccessToken(u) then u else u.(accessToken := Some(mint(u.id, u.email))))
      && s.table == (if HasAccessToken(u) then t else t[u.id := u.(accessToken := Some(mint(u.id, u.email)))])
  {
    match FindByEmail(t, dto.email)
    case Err(e) => Step(Err(CatchSignIn(e)), t)
    case Ok(user) =>
      if !PasswordMatches(h, dto.password, user.password) then
        Step(Err(CatchSignIn(UnauthorizedException(InvalidCredentials))), t)
      else if HasAccessToken(user) then
        Step(Ok(WithoutPassword(user)), t)
      else
        var withToken := user.(accessToken := Some(mint(user.id, user.email)));
        var updated := UpdateStep(t, user.id, AsUpdate(withToken));
        match updated.result
        case Err(e) => Step(Err(CatchSignIn(e)), updated.table)
        case Ok(_) => Step(Ok(WithoutPassword(withToken)), updated.table)
  }

  class AuthService {
    const users: UserService
    const security: Hasher
    const mint: (Id, string) -> string

    ghost predicate Valid()
      reads this, users
    {
      // Both services are handed the one injected `SecurityService`.
      users.Valid() && security == users.security
    }

    constructor (users: UserService, mint: (Id, string) -> string, security: Hasher)
      requires users.Valid() && security == users.security
      ensures Valid() && this.users == users && this.mint == mint && this.security == security
    {
      this.users := users;
      this.mint := mint;
      this.security := security;
    }

    /**
     * `signIn`: the token is written to the record in place and persisted
     * through `update`; mirrors `SignInStep`.
     */
    method SignIn(dto: SignInDto) returns (r: Result<SignedInUser>)
      requires Valid()
      modifies users
      ensures Valid() && users.invitations == old(users.invitations)
      ensures Step(r, users.rows) == SignInStep(old(users.rows), dto, security, mint)
    {
      var found := FindByEmail(users.rows, dto.email);
      if found.Err? {
        return Err(CatchSignIn(found.error));
      }
      var user := found.value;
      var passwordMatches := PasswordMatches(security, dto.password, user.password);
      if !passwordMatches {
        return Err(CatchSignIn(UnauthorizedException(InvalidCredentials)));
      }
      if !HasAccessToken(user) {
        var accessToken := mint(user.id, user.email);
        user := user.(accessToken := Some(accessToken));
        var updated := users.Update(user.id, AsUpdate(user));
        if updated.Err? {
          return Err(CatchSignIn(updated.error));
        }
      }
      r := Ok(WithoutPassword(user));
    }
  }

  /**
   * The lifecycle through both services: a user who has just been activated
   * with password `dto.password` then signs in with it, at the email the
   * activation left on the record.
   */
  method ActivateThenSignIn(auth: AuthService, id: Id, dto: ActivateDto) returns (activated: Result<User>, signedIn: Result<SignedInUser>)
    requires auth.Valid() && Sound(auth.security)
    modifies auth.users
    ensures auth.Valid()
    ensures activated.Ok? <==> ActivateStep(old(auth.users.rows), id, dto, auth.security).result.Ok?
    ensures activated.Ok? ==> signedIn.Ok? && signedIn.value.id == id && signedIn.value.email == activated.value.email
  {
    activated := auth.users.ActivateUser(id, dto);
    if activated.Err? {
      signedIn := Err(activated.error);
      return;
    }
    ghost var before := old(auth.users.rows);
    ActivatedUserCanSignIn(before, id, dto, auth.security, auth.mint);
    signedIn := auth.SignIn(SignInDto(activated.value.email, dto.password));
    FindByEmailFindsRow(ActivateStep(before, id, dto, auth.security).table, id);
  }

  // ---------------------------------------------------------------------------

  /** `signIn` never surfaces `UnauthorizedException`: the controller's 401 branch is unreachable. */
  lemma SignInNeverUnauthorized(t: Table, dto: SignInDto, h: Hasher, mint: (Id, string) -> string)
    requires WellFormed(t)
    ensures !(SignInStep(t, dto, h, mint).result.Err? && SignInStep(t, dto, h, mint).result.error.UnauthorizedException?)
  {
  }

  /** An unknown email and a wrong password give the same internal error and change nothing. */
  lemma SignInFailuresAreIndistinguishable(t: Table, unknown: SignInDto, wrong: SignInDto, h: Hasher, mint: (Id, string) -> string)
    requires WellFormed(t)
    requires !EmailTaken(t, unknown.email)
    requires EmailTaken(t, wrong.email)
    requires !PasswordMatches(h, wrong.password, FindByEmail(t, wrong.email).value.password)
    ensures SignInStep(t, unknown, h, mint) == SignInStep(t, wrong, h, mint)
    ensures SignInStep(t, unknown, h, mint) == Step(Err(InternalServerErrorException(SignInFailed)), t)
  {
  }

  /**
   * Signing in again with the same credentials returns the same token and
   * user and leaves the table as the first sign-in left it.
   */
  lemma SignInIsIdempotent(t: Table, dto: SignInDto, h: Hasher, mint: (Id, string) -> string)
    requires WellFormed(t)
    requires SignInStep(t, dto, h, mint).result.Ok?
    ensures var first := SignInStep(t, dto, h, mint);
      SignInStep(first.table, dto, h, mint) == first
  {
    var first := SignInStep(t, dto, h, mint);
    var u := FindByEmail(t, dto.email).value;
    FindByEmailFindsRow(first.table, u.id);
  }

  /**
   * With a sound hasher, a user who has just been activated with password `p`
   * can sign in with `p` at the email the activation left on the record.
   */
  lemma ActivatedUserCanSignIn(t: Table, id: Id, dto: ActivateDto, h: Hasher, mint: (Id, string) -> string)
    requires WellFormed(t) && Sound(h)
    requires ActivateStep(t, id, dto, h).result.Ok?
    ensures var a := ActivateStep(t, id, dto, h);
      var s := SignInStep(a.table, SignInDto(a.result.value.email, dto.password), h, mint);
      s.result.Ok? && s.result.value.id == id
  {
    var a := ActivateStep(t, id, dto, h);
    FindByEmailFindsRow(a.table, id);
  }
}
