/**
 * `ProfileRepository` and `ProfileService`: the viewing profiles of an account,
 * at most five live ones per user.
 */
module Profiles {
  import opened Wrappers
  import opened Clock
  import opened Decimal
  import opened Sequences
  import opened Repository
  import opened Entities

  const MaxProfilesPerUser: nat := 5
  const DefaultAvatarUrl: string := "/images/defaultavatar.jpg"
  const KidsMaturityLevel: string := "Kids"

  /** `ProfileCreateDto`. */
  datatype ProfileCreate = ProfileCreate(
    name: string, avatarUrl: string, isKidsProfile: bool, language: string, maturityLevel: string)

  /** `ProfileUpdateDto`: every field may be omitted. */
  datatype ProfileUpdate = ProfileUpdate(
    name: Option<string>, avatarUrl: Option<string>, language: Option<string>, maturityLevel: Option<string>)

  predicate OwnedLive(userId: int, p: Row<ProfileData>) {
    p.data.userId == userId && !p.isDeleted
  }

  /** `GetProfilesByUserIdAsync`: the user's non-deleted profiles, in table order. */
  function ProfilesOfUser(db: Db, userId: int): (r: seq<Row<ProfileData>>)
    ensures forall p :: p in r <==> p in db.profiles.rows && p.data.userId == userId && !p.isDeleted
  {
    Filter(db.profiles.rows, p => OwnedLive(userId, p))
  }

  /** `GetProfileCountByUserIdAsync`. */
  function ProfileCount(db: Db, userId: int): (n: nat)
    ensures n == |ProfilesOfUser(db, userId)|
  {
    CountIsFilterLength(db.profiles.rows, p => OwnedLive(userId, p));
    Count(db.profiles.rows, p => OwnedLive(userId, p))
  }

  function NotFound(kind: string, id: int): Exception {
    KeyNotFound(kind + " with ID " + IntToString(id) + " not found")
  }

  /** `GetProfileByIdAsync`. */
  function GetProfileById(db: Db, profileId: int): (r: Result<ProfileView>)
    ensures r.Err? <==> !Live(db.profiles, profileId)
    ensures r.Err? ==> r.error == NotFound("Profile", profileId)
    ensures r.Ok? ==> r.value.id == profileId
    ensures r.Ok? ==> exists p :: p in db.profiles.rows && p.id == profileId && !p.isDeleted && p.data == r.value.profile
  {
    match GetById(db.profiles, profileId)
    case None => Err(NotFound("Profile", profileId))
    case Some(p) => Ok(ProfileView(p.id, p.data))
  }

  /** The profile `CreateProfileAsync` builds from the request. */
  function NewProfile(userId: int, dto: ProfileCreate): (p: ProfileData)
    ensures p.userId == userId && p.name == dto.name && p.isKidsProfile == dto.isKidsProfile
    ensures p.language == dto.language
    ensures p.avatarUrl == (if |dto.avatarUrl| == 0 then DefaultAvatarUrl else dto.avatarUrl)
    ensures p.maturityLevel == (if dto.isKidsProfile then KidsMaturityLevel else dto.maturityLevel)
  {
    ProfileData(userId, dto.name, if |dto.avatarUrl| == 0 then DefaultAvatarUrl else dto.avatarUrl,
                dto.isKidsProfile, if dto.isKidsProfile then KidsMaturityLevel else dto.maturityLevel, dto.language)
  }

  /**
   * `CreateProfileAsync`: fails for an unknown user and for a user already at
   * the cap; otherwise adds one profile for the user.
   */
  function CreateProfile(db: Db, userId: int, dto: ProfileCreate, now: Instant): (r: (Result<ProfileView>, Db))
    ensures !Live(db.users, userId) ==> r == (Err(NotFound("User", userId)), db)
    ensures Live(db.users, userId) && ProfileCount(db, userId) >= MaxProfilesPerUser
      ==> r == (Err(InvalidOperation("Maximum number of profiles (5) reached")), db)
    ensures r.0.Ok? <==> Live(db.users, userId) && ProfileCount(db, userId) < MaxProfilesPerUser
    ensures r.0.Ok? ==> r.0.value.profile == NewProfile(userId, dto) && r.1 == db.(profiles := r.1.profiles)
    ensures r.0.Ok? ==>
      r.1.profiles.rows == db.profiles.rows + [Row(r.0.value.id, now, None, false, NewProfile(userId, dto))]
  {
    if !Exists(db.users, userId) then (Err(NotFound("User", userId)), db)
    else if ProfileCount(db, userId) >= MaxProfilesPerUser then
      (Err(InvalidOperation("Maximum number of profiles (5) reached")), db)
    else
      var (profiles, row) := Add(db.profiles, NewProfile(userId, dto), now);
      (Ok(ProfileView(row.id, row.data)), db.(profiles := profiles))
  }

  /** `UpdateProfileAsync`'s merge of the request into the stored profile. */
  function MergeProfile(p: ProfileData, u: ProfileUpdate): (r: ProfileData)
    ensures r.userId == p.userId && r.isKidsProfile == p.isKidsProfile
    ensures r.name == MergeString(p.name, u.name)
    ensures r.avatarUrl == MergeString(p.avatarUrl, u.avatarUrl)
    ensures r.language == MergeString(p.language, u.language)
    ensures p.isKidsProfile ==> r.maturityLevel == p.maturityLevel
    ensures !p.isKidsProfile ==> r.maturityLevel == MergeString(p.maturityLevel, u.maturityLevel)
  {
    p.(name := MergeString(p.name, u.name),
       avatarUrl := MergeString(p.avatarUrl, u.avatarUrl),
       language := MergeString(p.language, u.language),
       maturityLevel := if !IsNullOrEmpty(u.maturityLevel) && !p.isKidsProfile then u.maturityLevel.value else p.maturityLevel)
  }

  /** `UpdateProfileAsync`: merges the request into a live profile and stamps it. */
  function UpdateProfile(db: Db, profileId: int, u: ProfileUpdate, now: Instant): (r: (Result<ProfileView>, Db))
    ensures r.0.Err? <==> !Live(db.profiles, profileId)
    ensures r.0.Err? ==> r.0.error == NotFound("Profile", profileId) && r.1 == db
    ensures r.0.Ok? ==> r.0.value.id == profileId && r.1 == db.(profiles := r.1.profiles)
    ensures r.0.Ok? ==> var before := GetById(db.profiles, profileId).value;
      && r.0.value.profile == MergeProfile(before.data, u)
      && r.1.profiles == Put(db.profiles, before.(data := MergeProfile(before.data, u), updatedAt := Some(now)))
  {
    match GetById(db.profiles, profileId)
    case None => (Err(NotFound("Profile", profileId)), db)
    case Some(p) =>
      var p' := p.(data := MergeProfile(p.data, u), updatedAt := Some(now));
      (Ok(ProfileView(p'.id, p'.data)), db.(profiles := Put(db.profiles, p')))
  }

  /** `DeleteProfileAsync`: a soft delete. */
  function DeleteProfile(db: Db, profileId: int, now: Instant): (r: (bool, Db))
    ensures r.0 <==> Live(db.profiles, profileId)
    ensures r.1 == db.(profiles := r.1.profiles)
    ensures !r.0 ==> r.1 == db
    ensures r.0 ==> Stored(r.1.profiles, profileId) && !Live(r.1.profiles, profileId)
  {
    var (ok, profiles) := SoftDelete(db.profiles, profileId, now);
    if ok then
      assert Valid(db.profiles) ==> !Live(profiles, profileId) by {
        if Valid(db.profiles) {
          SoftDeleteEffect(db.profiles, profileId, now);
        }
      }
      (ok, db.(profiles := profiles))
    else (ok, db.(profiles := profiles))
  }

  /** A successful create raises its user's count by exactly one and no other user's count. */
  lemma CreateCounts(db: Db, userId: int, dto: ProfileCreate, now: Instant, other: int)
    requires CreateProfile(db, userId, dto, now).0.Ok?
    ensures ProfileCount(CreateProfile(db, userId, dto, now).1, userId) == ProfileCount(db, userId) + 1
    ensures other != userId ==> ProfileCount(CreateProfile(db, userId, dto, now).1, other) == ProfileCount(db, other)
  {
    var (_, db') := CreateProfile(db, userId, dto, now);
    var row := db'.profiles.rows[|db.profiles.rows|];
    assert db'.profiles.rows == db.profiles.rows + [row];
    CountAppend(db.profiles.rows, row, p => OwnedLive(userId, p));
    CountAppend(db.profiles.rows, row, p => OwnedLive(other, p));
  }

  /** No user ever holds more than five live profiles through `CreateProfile`. */
  lemma CreateKeepsCap(db: Db, userId: int, dto: ProfileCreate, now: Instant, anyUser: int)
    requires ProfileCount(db, anyUser) <= MaxProfilesPerUser
    ensures ProfileCount(CreateProfile(db, userId, dto, now).1, anyUser) <= MaxProfilesPerUser
  {
    if CreateProfile(db, userId, dto, now).0.Ok? {
      CreateCounts(db, userId, dto, now, anyUser);
    }
  }

  /** Deleting a profile frees one place under its owner's cap and leaves other users' counts alone. */
  lemma DeleteFreesPlace(db: Db, profileId: int, now: Instant, owner: int, other: int)
    requires Valid(db.profiles)
    requires GetById(db.profiles, profileId).Some? && GetById(db.profiles, profileId).value.data.userId == owner
    ensures ProfileCount(DeleteProfile(db, profileId, now).1, owner) == ProfileCount(db, owner) - 1
    ensures other != owner ==> ProfileCount(DeleteProfile(db, profileId, now).1, other) == ProfileCount(db, other)
  {
    var db' := DeleteProfile(db, profileId, now).1;
    var row := GetById(db.profiles, profileId).value;
    SoftDeleteEffect(db.profiles, profileId, now);
    var k :| 0 <= k < |db.profiles.rows| && db.profiles.rows[k] == row;
    var xs, ys := db.profiles.rows, db'.profiles.rows;
    forall i | 0 <= i < |xs| && xs[i].id == profileId ensures i == k {
    }
    CountDrop(xs, ys, p => OwnedLive(owner, p), k);
    if other != owner {
      CountAgree(xs, ys, p => OwnedLive(other, p));
    }
  }

  /** Repeating an update with the same request leaves the profile as the first update left it. */
  lemma MergeProfileIdempotent(p: ProfileData, u: ProfileUpdate)
    ensures MergeProfile(MergeProfile(p, u), u) == MergeProfile(p, u)
  {
  }

  /** An update that supplies nothing changes no field of the profile. */
  lemma MergeProfileEmpty(p: ProfileData)
    ensures MergeProfile(p, ProfileUpdate(None, None, None, None)) == p
  {
  }
}
