/**
 * `UserRepository` and `UserService`: registration, credential check and the
 * account updates. Passwords are kept only as hashes.
 */
module Users {
  import opened Wrappers
  import opened Clock
  import opened Sequences
  import opened Repository
  import opened Entities
  import opened Profiles

  const BasicPlan: string := "Basic"
  const DefaultRole: string := "User"
  const EmailInUse: string := "Email already in use"
  const EmailInUseDuplicate: string := "Email already in use. Please use a different email address."
  const InvalidCredentials: string := "Invalid email or password"
  const AccountDeactivated: string := "Account is deactivated"

  /** `AuthResponseDto`. */
  datatype AuthResponse = AuthResponse(
    isSuccessful: bool,
    message: Option<string>,
    token: Option<Token>,
    user: Option<UserView>,
    errorMessage: Option<string>,
    role: Option<string>,
    requiresTwoFactor: bool,
    email: Option<string>)

  function AuthFailure(errorMessage: string): AuthResponse {
    AuthResponse(false, None, None, None, Some(errorMessage), None, false, None)
  }

  /** `UserRegistrationDto`, after model validation. */
  datatype Registration = Registration(
    email: string, firstName: string, lastName: string, password: string,
    dateOfBirth: Instant, subscriptionPlan: string)

  /** `UserUpdateDto`: every field may be omitted. */
  datatype UserUpdate = UserUpdate(
    firstName: Option<string>, lastName: Option<string>, dateOfBirth: Option<Instant>,
    subscriptionPlan: Option<string>, profilePictureUrl: Option<string>)

  /** The unique index on `Users.Email`: no two stored users, deleted or not, share an address. */
  predicate UniqueEmails(db: Db) {
    forall i, j :: 0 <= i < j < |db.users.rows| ==> db.users.rows[i].data.email != db.users.rows[j].data.email
  }

  /** The foreign key of `Profiles.UserId`: every profile belongs to a stored user. */
  predicate ProfilesOwned(db: Db) {
    forall i :: 0 <= i < |db.profiles.rows| ==> Stored(db.users, db.profiles.rows[i].data.userId)
  }

  /** `GetByEmailAsync`: the first non-deleted user with this address. */
  function GetByEmail(db: Db, email: string): (r: Option<Row<UserData>>)
    ensures r.Some? ==> r.value in db.users.rows && r.value.data.email == email && !r.value.isDeleted
    ensures r.None? <==> forall i :: 0 <= i < |db.users.rows| ==>
      db.users.rows[i].data.email != email || db.users.rows[i].isDeleted
  {
    FirstWhere(db.users.rows, (u: Row<UserData>) => u.data.email == email && !u.isDeleted)
  }

  /** `GetUserWithProfilesAsync`: a live user together with its live profiles. */
  function GetUserWithProfiles(db: Db, userId: int): (r: Option<(Row<UserData>, seq<Row<ProfileData>>)>)
    ensures r.Some? <==> Live(db.users, userId)
    ensures r.Some? ==> r.value.0 in db.users.rows && r.value.0.id == userId && !r.value.0.isDeleted
    ensures r.Some? ==> forall p :: p in r.value.1 <==> p in db.profiles.rows && p.data.userId == userId && !p.isDeleted
  {
    match GetById(db.users, userId)
    case None => None
    case Some(u) => Some((u, ProfilesOfUser(db, userId)))
  }

  /** `IsEmailUniqueAsync`: no stored user, soft-deleted ones included, has the address. */
  function IsEmailUnique(db: Db, email: string): (b: bool)
    ensures b <==> forall i :: 0 <= i < |db.users.rows| ==> db.users.rows[i].data.email != email
  {
    FirstWhere(db.users.rows, (u: Row<UserData>) => u.data.email == email).None?
  }

  /** `GetUserByEmailAsync`: the user without its profiles, which that lookup does not load. */
  function GetUserByEmail(db: Db, email: string): (r: Option<UserView>)
    ensures r.Some? <==> GetByEmail(db, email).Some?
    ensures r.Some? ==> r.value.email == email && r.value.profiles == []
  {
    match GetByEmail(db, email)
    case None => None
    case Some(u) => Some(ViewUser(u, []))
  }

  /** The account `RegisterUserAsync` builds: active, on the basic plan, whatever plan was asked for. */
  function NewUser(dto: Registration): (u: UserData)
    ensures u.email == dto.email && u.isActive && u.subscriptionPlan == BasicPlan && u.role == DefaultRole
    ensures VerifyPassword(dto.password, u.passwordHash)
    ensures u.firstName == dto.firstName && u.lastName == dto.lastName && u.dateOfBirth == dto.dateOfBirth
  {
    UserData(dto.email, HashPassword(dto.password), dto.firstName, dto.lastName, dto.dateOfBirth,
             BasicPlan, false, true, DefaultRole, None, None)
  }

  /** The one profile every new account starts with. */
  function FirstProfile(userId: int, firstName: string): (p: ProfileData)
    ensures p.userId == userId && p.name == firstName + "'s Profile" && !p.isKidsProfile
    ensures p.avatarUrl == DefaultAvatarUrl && p.language == "en-US" && p.maturityLevel == "Adult"
  {
    ProfileData(userId, firstName + "'s Profile", DefaultAvatarUrl, false, "Adult", "en-US")
  }

  /**
   * `RegisterUserAsync`. An address held by a live user is refused up front; one
   * held only by a soft-deleted user passes that check and is then refused by the
   * unique index, with the duplicate-entry message.
   */
  function Register(db: Db, dto: Registration, now: Instant): (r: (AuthResponse, Db))
    ensures GetByEmail(db, dto.email).Some? ==> r == (AuthFailure(EmailInUse), db)
    ensures GetByEmail(db, dto.email).None? && !IsEmailUnique(db, dto.email)
      ==> r == (AuthFailure(EmailInUseDuplicate), db)
    ensures r.0.isSuccessful <==> IsEmailUnique(db, dto.email)
    ensures r.0.isSuccessful ==> r.0.token.Some? && r.0.user.Some? && r.0.role.None?
    ensures r.0.isSuccessful ==> r.1 == db.(users := r.1.users, profiles := r.1.profiles)
    ensures r.0.isSuccessful ==> (exists u :: (r.1.users.rows == db.users.rows + [u] && u.data == NewUser(dto)
                                                && !u.isDeleted && r.0.token == Some(Token(u.id, dto.email))))
    ensures r.0.isSuccessful ==> (exists p :: (r.1.profiles.rows == db.profiles.rows + [p]
                                                && p.data == FirstProfile(r.0.token.value.subject, dto.firstName)
                                                && !p.isDeleted))
  {
    if GetByEmail(db, dto.email).Some? then (AuthFailure(EmailInUse), db)
    else if !IsEmailUnique(db, dto.email) then (AuthFailure(EmailInUseDuplicate), db)
    else
      var (users, user) := Add(db.users, NewUser(dto), now);
      var (profiles, profile) := Add(db.profiles, FirstProfile(user.id, dto.firstName), now);
      var response := AuthResponse(true, None, Some(TokenFor(user)), Some(ViewUser(user, [profile])),
                                   None, None, false, None);
      (response, db.(users := users, profiles := profiles))
  }

  /** `LoginUserAsync`. Nothing is written: the last-login instant is never set. */
  function Login(db: Db, email: string, password: string): (r: AuthResponse)
    ensures r.isSuccessful <==> (GetByEmail(db, email).Some?
                                 && VerifyPassword(password, GetByEmail(db, email).value.data.passwordHash)
                                 && GetByEmail(db, email).value.data.isActive)
    ensures !r.isSuccessful ==> r.token.None? && r.user.None? && !r.requiresTwoFactor
    ensures r.isSuccessful ==> r.token.Some? && r.token.value.subject == GetByEmail(db, email).value.id
    ensures r.isSuccessful ==> r.user.Some? && r.role.Some?
  {
    match GetByEmail(db, email)
    case None => AuthFailure(InvalidCredentials)
    case Some(u) =>
      if !VerifyPassword(password, u.data.passwordHash) then AuthFailure(InvalidCredentials)
      else if !u.data.isActive then AuthFailure(AccountDeactivated)
      else
        var (withProfiles, profiles) := GetUserWithProfiles(db, u.id).value;
        AuthResponse(true, None, Some(TokenFor(withProfiles)), Some(ViewUser(withProfiles, profiles)),
                     None, Some(withProfiles.data.role), false, None)
  }

  /** `UpdateUserAsync`: names and picture are replaced, an omitted one by the empty string. */
  function UpdateUser(db: Db, userId: int, dto: UserUpdate, now: Instant): (r: (Result<UserView>, Db))
    ensures r.0.Err? <==> !Live(db.users, userId)
    ensures r.0.Err? ==> r.0.error == NotFound("User", userId) && r.1 == db
    ensures r.0.Ok? ==> r.1 == db.(users := r.1.users)
    ensures r.0.Ok? ==> r.0.value.id == userId && r.0.value.firstName == dto.firstName.GetOr("")
    ensures r.0.Ok? ==> r.0.value.lastName == dto.lastName.GetOr("")
    ensures r.0.Ok? ==> r.0.value.profilePictureUrl == Some(dto.profilePictureUrl.GetOr(""))
    ensures r.0.Ok? ==> var u := GetById(db.users, userId).value;
      UpdatedTo(db.users, r.1.users, userId,
                u.(data := u.data.(firstName := dto.firstName.GetOr(""), lastName := dto.lastName.GetOr(""),
                                   profilePictureUrl := Some(dto.profilePictureUrl.GetOr(""))),
                   updatedAt := Some(now)))
  {
    match GetById(db.users, userId)
    case None => (Err(NotFound("User", userId)), db)
    case Some(u) =>
      var u' := u.(data := u.data.(firstName := dto.firstName.GetOr(""), lastName := dto.lastName.GetOr(""),
                                   profilePictureUrl := Some(dto.profilePictureUrl.GetOr(""))),
                   updatedAt := Some(now));
      PutUpdates(db.users, u');
      var db' := db.(users := Put(db.users, u'));
      (Ok(ViewUser(u', ProfilesOfUser(db', userId))), db')
  }

  /** `ChangePasswordAsync`: the current password must verify before the hash is replaced. */
  function ChangePassword(db: Db, userId: int, currentPassword: string, newPassword: string, now: Instant): (r: (Result<bool>, Db))
    ensures r.0.Err? <==> !Live(db.users, userId)
    ensures r.0.Err? ==> r.0.error == NotFound("User", userId) && r.1 == db
    ensures r.0 == Ok(false) <==> (Live(db.users, userId)
                                   && !VerifyPassword(currentPassword, GetById(db.users, userId).value.data.passwordHash))
    ensures r.0 != Ok(true) ==> r.1 == db
    ensures r.0 == Ok(true) ==> r.1 == db.(users := r.1.users)
    ensures r.0 == Ok(true) ==> var u := GetById(db.users, userId).value;
      UpdatedTo(db.users, r.1.users, userId,
                u.(data := u.data.(passwordHash := HashPassword(newPassword)), updatedAt := Some(now)))
  {
    match GetById(db.users, userId)
    case None => (Err(NotFound("User", userId)), db)
    case Some(u) =>
      if !VerifyPassword(currentPassword, u.data.passwordHash) then (Ok(false), db)
      else
        var u' := u.(data := u.data.(passwordHash := HashPassword(newPassword)), updatedAt := Some(now));
        PutUpdates(db.users, u');
        (Ok(true), db.(users := Put(db.users, u')))
  }

  /** `DeactivateUserAsync`. */
  function DeactivateUser(db: Db, userId: int, now: Instant): (r: (Result<bool>, Db))
    ensures r.0.Err? <==> !Live(db.users, userId)
    ensures r.0.Err? ==> r.0.error == NotFound("User", userId) && r.1 == db
    ensures r.0.Ok? ==> r.0.value && r.1 == db.(users := r.1.users)
    ensures r.0.Ok? ==> var u := GetById(db.users, userId).value;
      UpdatedTo(db.users, r.1.users, userId, u.(data := u.data.(isActive := false), updatedAt := Some(now)))
    ensures r.0.Ok? ==> !GetById(r.1.users, userId).value.data.isActive
  {
    match GetById(db.users, userId)
    case None => (Err(NotFound("User", userId)), db)
    case Some(u) =>
      var u' := u.(data := u.data.(isActive := false), updatedAt := Some(now));
      PutUpdates(db.users, u');
      (Ok(true), db.(users := Put(db.users, u')))
  }

  /** `UpdatePasswordAsync`: replaces the hash of the live user with this address. */
  function UpdatePassword(db: Db, email: string, newPassword: string, now: Instant): (r: (bool, Db))
    ensures r.0 <==> GetByEmail(db, email).Some?
    ensures !r.0 ==> r.1 == db
    ensures r.0 ==> r.1 == db.(users := r.1.users)
    ensures r.0 ==> var u := GetByEmail(db, email).value;
      UpdatedTo(db.users, r.1.users, u.id,
                u.(data := u.data.(passwordHash := HashPassword(newPassword)), updatedAt := Some(now)))
  {
    match GetByEmail(db, email)
    case None => (false, db)
    case Some(u) =>
      var u' := u.(data := u.data.(passwordHash := HashPassword(newPassword)), updatedAt := Some(now));
      assert u in db.users.rows;
      PutUpdates(db.users, u');
      (true, db.(users := Put(db.users, u')))
  }

  /** With unique addresses, the lookup by address finds the one user holding it, if live. */
  lemma GetByEmailUnique(db: Db, u: Row<UserData>)
    requires UniqueEmails(db) && u in db.users.rows && !u.isDeleted
    ensures GetByEmail(db, u.data.email) == Some(u)
  {
    var found := GetByEmail(db, u.data.email).value;
    var i :| 0 <= i < |db.users.rows| && db.users.rows[i] == u;
    var j :| 0 <= j < |db.users.rows| && db.users.rows[j] == found;
  }

  /** Writing back a user whose address is unchanged keeps the addresses unique. */
  lemma PutKeepsUniqueEmails(db: Db, u: Row<UserData>, u': Row<UserData>)
    requires UniqueEmails(db) && Valid(db.users) && u in db.users.rows
    requires u'.id == u.id && u'.data.email == u.data.email
    ensures UniqueEmails(db.(users := Put(db.users, u')))
    ensures u' in Put(db.users, u').rows
  {
    var k :| 0 <= k < |db.users.rows| && db.users.rows[k] == u;
    assert Put(db.users, u').rows[k] == u';
  }

  /** A soft-deleted holder of an address hides it from `GetByEmail` but not from `IsEmailUnique`. */
  lemma DeletedUserHoldsAddress(db: Db, email: string)
    requires exists i :: 0 <= i < |db.users.rows| && db.users.rows[i].data.email == email
    requires forall i :: 0 <= i < |db.users.rows| && db.users.rows[i].data.email == email ==> db.users.rows[i].isDeleted
    ensures GetByEmail(db, email).None? && !IsEmailUnique(db, email)
  {
  }

  /** An unknown address and a wrong password give the same response. */
  lemma LoginFailuresIndistinguishable(db: Db, unknown: string, email: string, wrong: string, any: string)
    requires GetByEmail(db, unknown).None?
    requires GetByEmail(db, email).Some? && !VerifyPassword(wrong, GetByEmail(db, email).value.data.passwordHash)
    ensures Login(db, unknown, any) == Login(db, email, wrong) == AuthFailure(InvalidCredentials)
  {
  }

  /** A deactivated account is reported as such only to someone who knows its password. */
  lemma DeactivatedNeedsPassword(db: Db, email: string, password: string)
    requires GetByEmail(db, email).Some? && !GetByEmail(db, email).value.data.isActive
    ensures Login(db, email, password).errorMessage == Some(AccountDeactivated)
        <==> VerifyPassword(password, GetByEmail(db, email).value.data.passwordHash)
  {
  }

  /** A freshly registered account can log in with its password, and its address stays unique. */
  lemma RegisterThenLogin(db: Db, dto: Registration, now: Instant)
    requires UniqueEmails(db) && Valid(db.users)
    requires Register(db, dto, now).0.isSuccessful
    ensures UniqueEmails(Register(db, dto, now).1)
    ensures Login(Register(db, dto, now).1, dto.email, dto.password).isSuccessful
  {
    var db' := Register(db, dto, now).1;
    var u := db'.users.rows[|db.users.rows|];
    assert db'.users.rows == db.users.rows + [u];
    assert UniqueEmails(db');
    GetByEmailUnique(db', u);
  }

  /** A new account starts with exactly one live profile, the default one. */
  lemma RegisterCreatesOneProfile(db: Db, dto: Registration, now: Instant)
    requires Valid(db.users) && ProfilesOwned(db)
    requires Register(db, dto, now).0.isSuccessful
    ensures var (r, db') := Register(db, dto, now);
      |ProfilesOfUser(db', r.token.value.subject)| == 1
      && ProfilesOfUser(db', r.token.value.subject)[0].data == FirstProfile(r.token.value.subject, dto.firstName)
  {
    var (r, db') := Register(db, dto, now);
    var id := r.token.value.subject;
    var p := db'.profiles.rows[|db.profiles.rows|];
    assert db'.profiles.rows == db.profiles.rows + [p];
    assert !Stored(db.users, id);
    forall i | 0 <= i < |db.profiles.rows| ensures !OwnedLive(id, db.profiles.rows[i]) {
      assert Stored(db.users, db.profiles.rows[i].data.userId);
    }
    FilterNone(db.profiles.rows, q => OwnedLive(id, q));
    FilterAppend(db.profiles.rows, p, q => OwnedLive(id, q));
  }

  /** After a deactivation, logging in fails whatever the password. */
  lemma DeactivateThenLoginFails(db: Db, userId: int, now: Instant, password: string)
    requires UniqueEmails(db) && Valid(db.users) && Live(db.users, userId)
    ensures !Login(DeactivateUser(db, userId, now).1, GetById(db.users, userId).value.data.email, password).isSuccessful
  {
    var u := GetById(db.users, userId).value;
    var u' := u.(data := u.data.(isActive := false), updatedAt := Some(now));
    PutKeepsUniqueEmails(db, u, u');
    GetByEmailUnique(DeactivateUser(db, userId, now).1, u');
  }

  /** After a successful change, the new password logs in to an active account and a different old one does not. */
  lemma ChangePasswordThenLogin(db: Db, userId: int, current: string, newPassword: string, now: Instant)
    requires UniqueEmails(db) && Valid(db.users)
    requires ChangePassword(db, userId, current, newPassword, now).0 == Ok(true)
    ensures var u := GetById(db.users, userId).value;
      var db' := ChangePassword(db, userId, current, newPassword, now).1;
      && Login(db', u.data.email, newPassword).isSuccessful == u.data.isActive
      && (current != newPassword ==> !Login(db', u.data.email, current).isSuccessful)
  {
    var u := GetById(db.users, userId).value;
    var u' := u.(data := u.data.(passwordHash := HashPassword(newPassword)), updatedAt := Some(now));
    PutKeepsUniqueEmails(db, u, u');
    GetByEmailUnique(ChangePassword(db, userId, current, newPassword, now).1, u');
  }

  /** After `UpdatePassword`, the new password is the one that logs in. */
  lemma UpdatePasswordThenLogin(db: Db, email: string, newPassword: string, now: Instant, other: string)
    requires UniqueEmails(db) && Valid(db.users)
    requires UpdatePassword(db, email, newPassword, now).0
    ensures var db' := UpdatePassword(db, email, newPassword, now).1;
      && Login(db', email, newPassword).isSuccessful == GetByEmail(db, email).value.data.isActive
      && (other != newPassword ==> !Login(db', email, other).isSuccessful)
  {
    var u := GetByEmail(db, email).value;
    var u' := u.(data := u.data.(passwordHash := HashPassword(newPassword)), updatedAt := Some(now));
    PutKeepsUniqueEmails(db, u, u');
    GetByEmailUnique(UpdatePassword(db, email, newPassword, now).1, u');
  }

  /** `UpdateUser` is not a partial update: an omitted name clears the stored one. */
  lemma UpdateUserClearsOmitted(db: Db, userId: int, now: Instant)
    requires Live(db.users, userId)
    ensures var r := UpdateUser(db, userId, UserUpdate(None, None, None, None, None), now).0;
      r.Ok? && r.value.firstName == "" && r.value.lastName == "" && r.value.profilePictureUrl == Some("")
  {
  }
}
