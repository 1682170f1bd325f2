/**
 * The entities of the data model (the classes under `Models`) and the store that holds them.
 * Every entity but `TwoFactorAuth` is a `BaseEntity` and lives in a `Table`;
 * navigation properties are not stored, they are recomputed by the queries.
 */
module Entities {
  import opened Wrappers
  import opened Clock
  import opened Repository

  /**
   * A bcrypt hash, idealised: it remembers the password it was made from, so a
   * password verifies against exactly the hashes made from it.
   */
  datatype PasswordHash = Hashed(password: string)

  function HashPassword(password: string): (h: PasswordHash)
    ensures VerifyPassword(password, h)
  {
    Hashed(password)
  }

  predicate VerifyPassword(password: string, h: PasswordHash) {
    h.password == password
  }

  /** Only the password a hash was made from verifies against it. */
  lemma VerifyOnlyOwnPassword(password: string, other: string)
    ensures VerifyPassword(other, HashPassword(password)) <==> other == password
  {
  }

  /** A signed JWT, kept opaque: its subject and e-mail claims are all the model sees. */
  datatype Token = Token(subject: int, email: string)

  datatype UserData = UserData(
    email: string,
    passwordHash: PasswordHash,
    firstName: string,
    lastName: string,
    dateOfBirth: Instant,
    subscriptionPlan: string,
    isEmailVerified: bool,
    isActive: bool,
    role: string,
    profilePictureUrl: Option<string>,
    lastLoginAt: Option<Instant>)

  datatype ProfileData = ProfileData(
    userId: int,
    name: string,
    avatarUrl: string,
    isKidsProfile: bool,
    maturityLevel: string,
    language: string)

  datatype ContentData = ContentData(
    title: string,
    description: string,
    releaseYear: int,
    maturityRating: string,
    duration: string,
    totalSeasons: Option<int>,
    thumbnailUrl: string,
    coverImageUrl: string,
    videoUrl: string,
    contentType: string,
    genre: string,
    director: string,
    cast: string)

  datatype EpisodeData = EpisodeData(
    contentId: int,
    title: string,
    description: string,
    seasonNumber: int,
    episodeNumber: int,
    duration: string,
    thumbnailUrl: string,
    videoUrl: string)

  datatype MyListData = MyListData(userId: int, profileId: int, contentId: int, addedAt: Instant)

  /** A `TimeSpan` as a count of 100-nanosecond ticks. */
  type Duration = int

  /**
   * A watch-history record. The watched percentage is a `double` that is only
   * stored and copied; it is kept as a `real`.
   */
  datatype WatchData = WatchData(
    userId: int,
    profileId: int,
    contentId: int,
    episodeId: Option<int>,
    watchedPercentage: real,
    watchedDuration: Duration,
    lastWatched: Instant,
    isCompleted: bool)

  datatype ResetData = ResetData(
    userId: int,
    email: string,
    resetCode: string,
    expiresAt: Instant,
    isUsed: bool,
    usedAt: Option<Instant>)

  /** The two-factor record of a user; not a `BaseEntity`, so it has no soft-delete flag. */
  datatype TwoFactorAuth = TwoFactorAuth(
    userId: int,
    isEnabled: bool,
    email: string,
    verificationCode: Option<string>,
    codeGeneratedAt: Instant,
    codeExpiresAt: Instant,
    isVerified: bool,
    lastUsedAt: Option<Instant>,
    createdAt: Instant,
    updatedAt: Instant)

  /** The database: one table per entity set. */
  datatype Db = Db(
    users: Table<UserData>,
    profiles: Table<ProfileData>,
    contents: Table<ContentData>,
    episodes: Table<EpisodeData>,
    myList: Table<MyListData>,
    watchHistory: Table<WatchData>,
    passwordResets: Table<ResetData>,
    twoFactorAuths: seq<TwoFactorAuth>)

  predicate ValidDb(db: Db) {
    && Valid(db.users) && Valid(db.profiles) && Valid(db.contents) && Valid(db.episodes)
    && Valid(db.myList) && Valid(db.watchHistory) && Valid(db.passwordResets)
  }

  /**
   * The partial-update rule of the update services: a supplied value replaces
   * the stored one only when it is neither null nor empty.
   */
  function MergeString(current: string, supplied: Option<string>): (r: string)
    ensures IsNullOrEmpty(supplied) ==> r == current
    ensures !IsNullOrEmpty(supplied) ==> r == supplied.value && |r| > 0
  {
    if IsNullOrEmpty(supplied) then current else supplied.value
  }

  /** `ProfileResponseDto`. */
  datatype ProfileView = ProfileView(id: int, profile: ProfileData)

  /** `UserResponseDto`. */
  datatype UserView = UserView(
    id: int,
    email: string,
    firstName: string,
    lastName: string,
    dateOfBirth: Instant,
    profilePictureUrl: Option<string>,
    isActive: bool,
    subscriptionPlan: string,
    profiles: seq<ProfileView>)

  function ViewProfiles(profiles: seq<Row<ProfileData>>): (r: seq<ProfileView>)
    ensures |r| == |profiles|
    ensures forall i :: 0 <= i < |r| ==> r[i] == ProfileView(profiles[i].id, profiles[i].data)
  {
    seq(|profiles|, i requires 0 <= i < |profiles| => ProfileView(profiles[i].id, profiles[i].data))
  }

  /** `MapUserToUserResponseDto` of a user whose loaded profiles are `profiles`. */
  function ViewUser(user: Row<UserData>, profiles: seq<Row<ProfileData>>): UserView {
    UserView(user.id, user.data.email, user.data.firstName, user.data.lastName, user.data.dateOfBirth,
             user.data.profilePictureUrl, user.data.isActive, user.data.subscriptionPlan, ViewProfiles(profiles))
  }

  /** `GenerateJwtTokenAsync`: subject and e-mail claims; no role claim. */
  function TokenFor(user: Row<UserData>): Token {
    Token(user.id, user.data.email)
  }
}
