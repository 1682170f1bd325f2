/**
 * `TwoFactorAuthService`: one record per user, switched on and off, loaded with
 * a fresh code at each login and checked when the code is typed in.
 */
module TwoFactor {
  import opened Wrappers
  import opened Clock
  import opened Sequences
  import opened Repository
  import opened Entities
  import opened Users
  import opened CodeGeneration

  const UserNotFound: string := "User not found"
  const AlreadyEnabled: string := "Two-factor authentication is already enabled"
  const EnabledMessage: string := "Two-factor authentication enabled successfully. You will receive verification codes during login."
  const InvalidPassword: string := "Invalid password"
  const NotEnabled: string := "Two-factor authentication is not enabled"
  const DisabledMessage: string := "Two-factor authentication has been disabled"
  const StatusEnabled: string := "Two-factor authentication is enabled"
  const StatusDisabled: string := "Two-factor authentication is disabled"
  const CodeExpired: string := "Verification code has expired"
  const InvalidCode: string := "Invalid verification code"
  const VerifiedMessage: string := "Two-factor authentication verified successfully"

  /** Lifetime of a login code, in minutes. */
  const CodeLifetimeMinutes: int := 10

  /** `TwoFactorAuthResponseDto`. */
  datatype TwoFactorResponse = TwoFactorResponse(success: bool, message: string, isEnabled: bool, email: Option<string>)

  /** `TwoFactorVerificationResponseDto`. */
  datatype VerificationResponse = VerificationResponse(
    success: bool, message: string, isVerified: bool, token: Option<Token>, user: Option<UserView>, role: Option<string>)

  function Refusal(message: string): TwoFactorResponse {
    TwoFactorResponse(false, message, false, None)
  }

  function Rejection(message: string): VerificationResponse {
    VerificationResponse(false, message, false, None, None, None)
  }

  /** No user has two two-factor records. */
  predicate OneRecordPerUser(db: Db) {
    forall i, j :: 0 <= i < j < |db.twoFactorAuths| ==> db.twoFactorAuths[i].userId != db.twoFactorAuths[j].userId
  }

  /** Position of the user's record: `TwoFactorAuths.FirstOrDefaultAsync(t => t.UserId == userId)`. */
  function RecordIndex(db: Db, userId: int): (r: Option<nat>)
    ensures r.Some? ==> r.value < |db.twoFactorAuths| && db.twoFactorAuths[r.value].userId == userId
    ensures r.Some? ==> forall j :: 0 <= j < r.value ==> db.twoFactorAuths[j].userId != userId
    ensures r.None? <==> forall i :: 0 <= i < |db.twoFactorAuths| ==> db.twoFactorAuths[i].userId != userId
  {
    IndexWhere(db.twoFactorAuths, (t: TwoFactorAuth) => t.userId == userId)
  }

  /** The user's record, if it has one. */
  function RecordOf(db: Db, userId: int): (r: Option<TwoFactorAuth>)
    ensures r.Some? <==> RecordIndex(db, userId).Some?
    ensures r.Some? ==> r.value == db.twoFactorAuths[RecordIndex(db, userId).value]
  {
    match RecordIndex(db, userId)
    case None => None
    case Some(i) => Some(db.twoFactorAuths[i])
  }

  /** Whether the live user with this address has two-factor switched on. */
  predicate EnabledFor(db: Db, email: string) {
    GetByEmail(db, email).Some? && RecordOf(db, GetByEmail(db, email).value.id).Some?
    && RecordOf(db, GetByEmail(db, email).value.id).value.isEnabled
  }

  function SetRecord(db: Db, i: nat, t: TwoFactorAuth): (r: Db)
    requires i < |db.twoFactorAuths|
    ensures r == db.(twoFactorAuths := db.twoFactorAuths[i := t])
  {
    db.(twoFactorAuths := db.twoFactorAuths[i := t])
  }

  /** The record `EnableTwoFactorAsync` inserts: no code yet, and a code expiry of `DateTime.MinValue`. */
  function NewRecord(userId: int, email: string, now: Instant): (t: TwoFactorAuth)
    ensures t.userId == userId && t.isEnabled && !t.isVerified && t.verificationCode.None?
    ensures t.codeExpiresAt == MinValue
  {
    TwoFactorAuth(userId, true, email, None, MinValue, MinValue, false, None, now, now)
  }

  /**
   * `EnableTwoFactorAsync`: switches an existing record on, keeping its code
   * fields, or inserts a new one. Neither generates nor sends a code.
   */
  function Enable(db: Db, email: string, now: Instant): (r: (TwoFactorResponse, Db))
    ensures GetByEmail(db, email).None? ==> r == (Refusal(UserNotFound), db)
    ensures GetByEmail(db, email).Some? && EnabledFor(db, email) ==> r == (Refusal(AlreadyEnabled), db)
    ensures r.0.success <==> GetByEmail(db, email).Some? && !EnabledFor(db, email)
    ensures r.0.success ==> r.0 == TwoFactorResponse(true, EnabledMessage, true, Some(email))
    ensures r.1.users == db.users && r.1 == db.(twoFactorAuths := r.1.twoFactorAuths)
  {
    match GetByEmail(db, email)
    case None => (Refusal(UserNotFound), db)
    case Some(u) =>
      match RecordIndex(db, u.id)
      case Some(i) =>
        var t := db.twoFactorAuths[i];
        if t.isEnabled then (Refusal(AlreadyEnabled), db)
        else (TwoFactorResponse(true, EnabledMessage, true, Some(email)),
              SetRecord(db, i, t.(isEnabled := true, updatedAt := now)))
      case None =>
        (TwoFactorResponse(true, EnabledMessage, true, Some(email)),
         db.(twoFactorAuths := db.twoFactorAuths + [NewRecord(u.id, email, now)]))
  }

  /**
   * `DisableTwoFactorAsync`: the password is checked before the two-factor
   * state, and only the enabled flag and update instant change.
   */
  function Disable(db: Db, email: string, password: string, now: Instant): (r: (TwoFactorResponse, Db))
    ensures GetByEmail(db, email).None? ==> r == (Refusal(UserNotFound), db)
    ensures GetByEmail(db, email).Some? && !VerifyPassword(password, GetByEmail(db, email).value.data.passwordHash)
      ==> r == (Refusal(InvalidPassword), db)
    ensures r.0.success <==> (EnabledFor(db, email)
                              && VerifyPassword(password, GetByEmail(db, email).value.data.passwordHash))
    ensures !r.0.success ==> r.1 == db
    ensures r.0.success ==> r.0 == TwoFactorResponse(true, DisabledMessage, false, Some(email))
    ensures r.0.success ==> var i := RecordIndex(db, GetByEmail(db, email).value.id).value;
      r.1.twoFactorAuths == db.twoFactorAuths[i := db.twoFactorAuths[i].(isEnabled := false, updatedAt := now)]
    ensures r.1.users == db.users && r.1 == db.(twoFactorAuths := r.1.twoFactorAuths)
  {
    match GetByEmail(db, email)
    case None => (Refusal(UserNotFound), db)
    case Some(u) =>
      if !VerifyPassword(password, u.data.passwordHash) then (Refusal(InvalidPassword), db)
      else match RecordIndex(db, u.id)
        case None => (Refusal(NotEnabled), db)
        case Some(i) =>
          var t := db.twoFactorAuths[i];
          if !t.isEnabled then (Refusal(NotEnabled), db)
          else (TwoFactorResponse(true, DisabledMessage, false, Some(email)),
                SetRecord(db, i, t.(isEnabled := false, updatedAt := now)))
  }

  /** `GetTwoFactorStatusAsync`: a user without a record counts as disabled. */
  function Status(db: Db, email: string): (r: TwoFactorResponse)
    ensures r.success <==> GetByEmail(db, email).Some?
    ensures !r.success ==> r == Refusal(UserNotFound)
    ensures r.success ==> r.isEnabled == EnabledFor(db, email) && r.email == Some(email)
    ensures r.success ==> r.message == (if r.isEnabled then StatusEnabled else StatusDisabled)
  {
    match GetByEmail(db, email)
    case None => Refusal(UserNotFound)
    case Some(u) =>
      var isEnabled := match RecordOf(db, u.id) case None => false case Some(t) => t.isEnabled;
      TwoFactorResponse(true, if isEnabled then StatusEnabled else StatusDisabled, isEnabled, Some(email))
  }

  /** `IsTwoFactorEnabledAsync`. */
  function IsTwoFactorEnabled(db: Db, email: string): (b: bool)
    ensures b <==> EnabledFor(db, email)
  {
    match GetByEmail(db, email)
    case None => false
    case Some(u) => match RecordOf(db, u.id) case None => false case Some(t) => t.isEnabled
  }

  /**
   * `VerifyTwoFactorCodeAsync`. The checks run in order: user, enabled record,
   * expiry, exact code equality. Success marks the record verified but keeps
   * the code. The user in the response is loaded without its profiles.
   */
  function Verify(db: Db, email: string, code: string, now: Instant): (r: (VerificationResponse, Db))
    ensures GetByEmail(db, email).None? ==> r == (Rejection(UserNotFound), db)
    ensures GetByEmail(db, email).Some? && !EnabledFor(db, email) ==> r == (Rejection(NotEnabled), db)
    ensures EnabledFor(db, email) && now > RecordOf(db, GetByEmail(db, email).value.id).value.codeExpiresAt
      ==> r == (Rejection(CodeExpired), db)
    ensures r.0.success <==> (EnabledFor(db, email)
                              && now <= RecordOf(db, GetByEmail(db, email).value.id).value.codeExpiresAt
                              && RecordOf(db, GetByEmail(db, email).value.id).value.verificationCode == Some(code))
    ensures !r.0.success ==> r.1 == db && r.0.token.None?
    ensures r.0.success ==> r.0.isVerified && r.0.token == Some(TokenFor(GetByEmail(db, email).value))
    ensures r.0.success ==> r.0.user == Some(ViewUser(GetByEmail(db, email).value, []))
    ensures r.0.success ==> var i := RecordIndex(db, GetByEmail(db, email).value.id).value;
      r.1.twoFactorAuths == db.twoFactorAuths[i := db.twoFactorAuths[i].(isVerified := true, lastUsedAt := Some(now), updatedAt := now)]
    ensures r.1.users == db.users && r.1 == db.(twoFactorAuths := r.1.twoFactorAuths)
  {
    match GetByEmail(db, email)
    case None => (Rejection(UserNotFound), db)
    case Some(u) =>
      match RecordIndex(db, u.id)
      case None => (Rejection(NotEnabled), db)
      case Some(i) =>
        var t := db.twoFactorAuths[i];
        if !t.isEnabled then (Rejection(NotEnabled), db)
        else if now > t.codeExpiresAt then (Rejection(CodeExpired), db)
        else if t.verificationCode != Some(code) then (Rejection(InvalidCode), db)
        else
          var t' := t.(isVerified := true, lastUsedAt := Some(now), updatedAt := now);
          (VerificationResponse(true, VerifiedMessage, true, Some(TokenFor(u)), Some(ViewUser(u, [])), Some(u.data.role)),
           SetRecord(db, i, t'))
  }

  /**
   * `SendVerificationCodeAsync`, with the random draw and the mail outcome as
   * parameters. The new code is stored before the mail is sent, so a failed
   * send still replaces the code. A draw the generator rejects is swallowed.
   */
  function SendVerificationCode(db: Db, email: string, random: Int32, sent: bool, now: Instant): (r: (bool, Db))
    ensures !EnabledFor(db, email) || random == Int32Min ==> r == (false, db)
    ensures EnabledFor(db, email) && random != Int32Min ==> r.0 == sent
    ensures r.1.users == db.users && r.1 == db.(twoFactorAuths := r.1.twoFactorAuths)
    ensures EnabledFor(db, email) && random != Int32Min ==>
      var i := RecordIndex(db, GetByEmail(db, email).value.id).value;
      var t := db.twoFactorAuths[i];
      r.1.twoFactorAuths == db.twoFactorAuths[i := t.(verificationCode := Some(GenerateSecureCode(random).value),
        codeGeneratedAt := now, codeExpiresAt := AddMinutes(now, CodeLifetimeMinutes), isVerified := false, updatedAt := now)]
  {
    match GetByEmail(db, email)
    case None => (false, db)
    case Some(u) =>
      match RecordIndex(db, u.id)
      case None => (false, db)
      case Some(i) =>
        var t := db.twoFactorAuths[i];
        if !t.isEnabled then (false, db)
        else match GenerateSecureCode(random)
          case Err(_) => (false, db)
          case Ok(code) =>
            var t' := t.(verificationCode := Some(code), codeGeneratedAt := now,
                         codeExpiresAt := AddMinutes(now, CodeLifetimeMinutes), isVerified := false, updatedAt := now);
            (sent, SetRecord(db, i, t'))
  }

  /** Changing one user's record in place keeps every user to at most one record. */
  lemma SetRecordKeepsOne(db: Db, i: nat, t: TwoFactorAuth)
    requires OneRecordPerUser(db) && i < |db.twoFactorAuths| && t.userId == db.twoFactorAuths[i].userId
    ensures OneRecordPerUser(SetRecord(db, i, t))
  {
  }

  /** `Enable` never gives a user a second record. */
  lemma EnableKeepsOneRecord(db: Db, email: string, now: Instant)
    requires OneRecordPerUser(db)
    ensures OneRecordPerUser(Enable(db, email, now).1)
  {
    var u := GetByEmail(db, email);
    if u.Some? && RecordIndex(db, u.value.id).Some? {
      var i := RecordIndex(db, u.value.id).value;
      SetRecordKeepsOne(db, i, db.twoFactorAuths[i].(isEnabled := true, updatedAt := now));
    }
  }

  /** After a successful `Enable`, the user has two-factor switched on. */
  lemma EnableThenEnabled(db: Db, email: string, now: Instant)
    requires Enable(db, email, now).0.success
    ensures EnabledFor(Enable(db, email, now).1, email)
    ensures Enable(Enable(db, email, now).1, email, now).0 == Refusal(AlreadyEnabled)
  {
    var u := GetByEmail(db, email).value;
    var db' := Enable(db, email, now).1;
    match RecordIndex(db, u.id)
    case Some(i) =>
      assert db'.twoFactorAuths[i].userId == u.id;
      RecordIndexAfterSet(db, i, db'.twoFactorAuths[i]);
    case None =>
      assert db'.twoFactorAuths[|db.twoFactorAuths|].userId == u.id;
  }

  /** An existing record that `Enable` switches back on keeps its code, its expiry and its verified flag. */
  lemma EnableKeepsCodeFields(db: Db, email: string, now: Instant)
    requires GetByEmail(db, email).Some? && RecordOf(db, GetByEmail(db, email).value.id).Some?
    requires Enable(db, email, now).0.success
    ensures var i := RecordIndex(db, GetByEmail(db, email).value.id).value;
      var t := db.twoFactorAuths[i];
      Enable(db, email, now).1.twoFactorAuths == db.twoFactorAuths[i := t.(isEnabled := true, updatedAt := now)]
  {
  }

  /** Before any code is sent, a fresh record rejects every code as expired. */
  lemma FreshRecordRejectsAsExpired(db: Db, email: string, now: Instant, code: string, later: Instant)
    requires GetByEmail(db, email).Some? && RecordOf(db, GetByEmail(db, email).value.id).None?
    requires later > MinValue
    ensures Verify(Enable(db, email, now).1, email, code, later).0 == Rejection(CodeExpired)
  {
    EnableThenEnabled(db, email, now);
  }

  /** A wrong password is reported before the two-factor state, and changes nothing. */
  lemma DisableChecksPasswordFirst(db: Db, email: string, password: string, now: Instant)
    requires GetByEmail(db, email).Some? && !VerifyPassword(password, GetByEmail(db, email).value.data.passwordHash)
    ensures Disable(db, email, password, now) == (Refusal(InvalidPassword), db)
  {
  }

  /** Switching on and then off again restores the record, apart from its update instant. */
  lemma EnableThenDisable(db: Db, email: string, password: string, now: Instant, later: Instant)
    requires GetByEmail(db, email).Some? && RecordOf(db, GetByEmail(db, email).value.id).Some?
    requires !EnabledFor(db, email) && VerifyPassword(password, GetByEmail(db, email).value.data.passwordHash)
    ensures var i := RecordIndex(db, GetByEmail(db, email).value.id).value;
      Disable(Enable(db, email, now).1, email, password, later).1
        == db.(twoFactorAuths := db.twoFactorAuths[i := db.twoFactorAuths[i].(updatedAt := later)])
  {
    var u := GetByEmail(db, email).value;
    var i := RecordIndex(db, u.id).value;
    var t := db.twoFactorAuths[i];
    var db' := Enable(db, email, now).1;
    assert db' == SetRecord(db, i, t.(isEnabled := true, updatedAt := now));
    RecordIndexAfterSet(db, i, t.(isEnabled := true, updatedAt := now));
    assert GetByEmail(db', email) == GetByEmail(db, email);
    assert db'.twoFactorAuths[i := t.(updatedAt := later)] == db.twoFactorAuths[i := t.(updatedAt := later)];
  }

  /** The record found for a user sits where it was after an in-place change to it. */
  lemma RecordIndexAfterSet(db: Db, i: nat, t: TwoFactorAuth)
    requires i < |db.twoFactorAuths| && t.userId == db.twoFactorAuths[i].userId
    requires RecordIndex(db, t.userId) == Some(i)
    ensures RecordIndex(SetRecord(db, i, t), t.userId) == Some(i)
  {
    var db' := SetRecord(db, i, t);
    assert db'.twoFactorAuths[i].userId == t.userId;
    forall j | 0 <= j < i
      ensures db'.twoFactorAuths[j].userId != t.userId
    {
      assert db'.twoFactorAuths[j] == db.twoFactorAuths[j];
    }
  }

  /**
   * A sent code is accepted through the last tick of its ten-minute window and
   * refused as expired from the next tick on.
   */
  lemma SentCodeWindow(db: Db, email: string, random: Int32, sent: bool, now: Instant, at: Instant)
    requires EnabledFor(db, email) && random != Int32Min && at >= now
    ensures var db' := SendVerificationCode(db, email, random, sent, now).1;
      var code := GenerateSecureCode(random).value;
      && (at <= AddMinutes(now, CodeLifetimeMinutes) ==> Verify(db', email, code, at).0.success)
      && (at > AddMinutes(now, CodeLifetimeMinutes) ==> Verify(db', email, code, at).0 == Rejection(CodeExpired))
  {
    var u := GetByEmail(db, email).value;
    var i := RecordIndex(db, u.id).value;
    var t := db.twoFactorAuths[i];
    var code := GenerateSecureCode(random).value;
    var t' := t.(verificationCode := Some(code), codeGeneratedAt := now,
                 codeExpiresAt := AddMinutes(now, CodeLifetimeMinutes), isVerified := false, updatedAt := now);
    RecordIndexAfterSet(db, i, t');
  }

  /**
   * A verified code is not consumed: the same code verifies again at any later
   * instant inside its window, until a new code is sent.
   */
  lemma VerifiedCodeReplays(db: Db, email: string, code: string, now: Instant, later: Instant)
    requires Verify(db, email, code, now).0.success
    requires now <= later <= RecordOf(db, GetByEmail(db, email).value.id).value.codeExpiresAt
    ensures Verify(Verify(db, email, code, now).1, email, code, later).0.success
  {
    var u := GetByEmail(db, email).value;
    var i := RecordIndex(db, u.id).value;
    var t := db.twoFactorAuths[i];
    var t' := t.(isVerified := true, lastUsedAt := Some(now), updatedAt := now);
    RecordIndexAfterSet(db, i, t');
  }

  /** The boolean check and the status report agree. */
  lemma StatusAgrees(db: Db, email: string)
    requires GetByEmail(db, email).Some?
    ensures Status(db, email).isEnabled == IsTwoFactorEnabled(db, email)
  {
  }
}
