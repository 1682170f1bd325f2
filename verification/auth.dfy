/**
 * `AuthController`: the login, forgot-password and reset-password endpoints,
 * which chain the account, two-factor and reset services and map their
 * outcomes to HTTP statuses.
 */
module Auth {
  import opened Wrappers
  import opened Clock
  import opened Text
  import opened Repository
  import opened Entities
  import opened Users
  import opened CodeGeneration
  import TwoFactor
  import PasswordReset

  const TwoFactorRequired: string := "Login successful. Two-factor authentication required. Please check your email for the verification code."
  const TwoFactorSendFailed: string := "Login successful but failed to send 2FA code. Please try again."
  const ResetMaybeSent: string := "If an account with that email exists, a password reset code has been sent."
  const ResetGenerateFailed: string := "Failed to generate reset code. Please try again."
  const ResetSent: string := "Password reset code has been sent to your email. Please check your inbox."
  const ResetSendFailed: string := "Failed to send reset code. Please try again."
  const InvalidResetCode: string := "Invalid or expired reset code"
  const PasswordUpdated: string := "Password updated successfully"
  const PasswordUpdateFailed: string := "Failed to update password. Please try again."

  /** The status codes these endpoints answer with, named as in `StatusCodes`. */
  datatype Status = Status200OK | Status400BadRequest | Status401Unauthorized

  /** An action result: a status with a body, or the automatic 400 for a request that fails model validation. */
  datatype Reply<T> = Reply(status: Status, body: T) | ValidationProblem

  /** `PasswordResetResponseDto`; its `ResetCode` is never filled in. */
  datatype ResetResponse = ResetResponse(success: bool, message: string, email: Option<string>)

  /** `ResetPasswordDto`. */
  datatype ResetRequest = ResetRequest(email: string, resetCode: string, newPassword: string)

  /** `[Required]` on a string: not null, empty or only white space. */
  predicate Present(s: string) {
    !AllWhiteSpace(s)
  }

  /** `[EmailAddress]`: exactly one '@', neither the first nor the last character. */
  predicate IsEmailAddress(s: string) {
    exists i :: 0 < i < |s| - 1 && s[i] == '@' && forall j :: 0 <= j < |s| && j != i ==> s[j] != '@'
  }

  /** The validation attributes of `ForgotPasswordDto`. */
  predicate ValidForgotRequest(email: string) {
    Present(email) && IsEmailAddress(email)
  }

  /** The validation attributes of `ResetPasswordDto`: a six-character code and a 6 to 100 character password. */
  predicate ValidResetRequest(dto: ResetRequest) {
    && Present(dto.email) && IsEmailAddress(dto.email)
    && Present(dto.resetCode) && |dto.resetCode| == CodeLength
    && Present(dto.newPassword) && 6 <= |dto.newPassword| <= 100
  }

  /**
   * `Login`, with the random draw and the mail outcome of the two-factor send
   * as parameters. `valid` is the outcome of model validation of the login
   * request; an invalid request is answered 400 before anything else. A
   * failed credential check is returned as 401 and two-factor is not
   * consulted; with two-factor on, the token is withheld and a code is sent
   * instead.
   */
  function Login(db: Db, valid: bool, email: string, password: string, random: Int32, sent: bool, now: Instant): (r: (Reply<AuthResponse>, Db))
    ensures !valid ==> r == (ValidationProblem, db)
    ensures valid ==> r.0.Reply?
    ensures valid && !Users.Login(db, email, password).isSuccessful ==> r == (Reply(Status401Unauthorized, Users.Login(db, email, password)), db)
    ensures valid && Users.Login(db, email, password).isSuccessful && !TwoFactor.EnabledFor(db, email)
      ==> r == (Reply(Status200OK, Users.Login(db, email, password)), db)
    ensures valid && Users.Login(db, email, password).isSuccessful && TwoFactor.EnabledFor(db, email) ==>
      && r.1 == TwoFactor.SendVerificationCode(db, email, random, sent, now).1
      && r.0.body.token.None? && r.0.body.user.None?
      && (r.0.status == Status200OK <==> TwoFactor.SendVerificationCode(db, email, random, sent, now).0)
      && (r.0.status == Status200OK ==> r.0.body.isSuccessful && r.0.body.requiresTwoFactor && r.0.body.email == Some(email))
      && (r.0.status != Status200OK ==> r.0.status == Status400BadRequest && !r.0.body.isSuccessful)
  {
    if !valid then (ValidationProblem, db)
    else
    var result := Users.Login(db, email, password);
    if !result.isSuccessful then (Reply(Status401Unauthorized, result), db)
    else if TwoFactor.IsTwoFactorEnabled(db, email) then
      var (codeSent, db') := TwoFactor.SendVerificationCode(db, email, random, sent, now);
      if codeSent then
        (Reply(Status200OK, AuthResponse(true, Some(TwoFactorRequired), None, None, None, None, true, Some(email))), db')
      else
        (Reply(Status400BadRequest, AuthResponse(false, Some(TwoFactorSendFailed), None, None, None, None, false, None)), db')
    else (Reply(Status200OK, result), db)
  }

  /**
   * A login hands out a token exactly when the request is valid, the address
   * belongs to a live, active account whose password verifies, and two-factor
   * is off; the token then names that account. Only the two-factor path writes,
   * and it never touches the accounts.
   */
  lemma LoginTokenOnlyWithoutTwoFactor(db: Db, valid: bool, email: string, password: string, random: Int32, sent: bool, now: Instant)
    ensures var r := Login(db, valid, email, password, random, sent, now);
      (r.0.Reply? && r.0.body.token.Some?) <==>
        (&& valid && GetByEmail(db, email).Some?
         && VerifyPassword(password, GetByEmail(db, email).value.data.passwordHash)
         && GetByEmail(db, email).value.data.isActive
         && !TwoFactor.EnabledFor(db, email))
    ensures var r := Login(db, valid, email, password, random, sent, now);
      r.0.Reply? && r.0.body.token.Some? ==> r.0.status == Status200OK && r.0.body.token.value.subject == GetByEmail(db, email).value.id
    ensures var r := Login(db, valid, email, password, random, sent, now);
      r.1.users == db.users && (r.1 != db ==> valid && TwoFactor.EnabledFor(db, email))
  {
  }

  /**
   * `ForgotPassword`, with the random draw and the mail outcome as parameters.
   * An address with no live account gets a success reply and nothing changes;
   * a failed send is reported although the reset record is already saved.
   */
  function ForgotPassword(db: Db, email: string, random: Int32, sent: bool, now: Instant): (r: (Reply<ResetResponse>, Db))
    ensures !ValidForgotRequest(email) ==> r == (ValidationProblem, db)
    ensures ValidForgotRequest(email) && GetByEmail(db, email).None?
      ==> r == (Reply(Status200OK, ResetResponse(true, ResetMaybeSent, Some(email))), db)
    ensures ValidForgotRequest(email) && GetByEmail(db, email).Some? ==>
      && r.1 == PasswordReset.Create(db, email, random, now).1
      && (r.0 == Reply(Status200OK, ResetResponse(true, ResetSent, Some(email)))
          <==> random != Int32Min && sent)
      && (random == Int32Min ==> r == (Reply(Status400BadRequest, ResetResponse(false, ResetGenerateFailed, None)), db))
      && (random != Int32Min && !sent ==> r.0 == Reply(Status400BadRequest, ResetResponse(false, ResetSendFailed, None)))
  {
    if !ValidForgotRequest(email) then (ValidationProblem, db)
    else match GetUserByEmail(db, email)
      case None => (Reply(Status200OK, ResetResponse(true, ResetMaybeSent, Some(email))), db)
      case Some(_) =>
        var (resetCode, db') := PasswordReset.Create(db, email, random, now);
        if resetCode.None? || |resetCode.value| == 0 then
          (Reply(Status400BadRequest, ResetResponse(false, ResetGenerateFailed, None)), db')
        else if sent then (Reply(Status200OK, ResetResponse(true, ResetSent, Some(email))), db')
        else (Reply(Status400BadRequest, ResetResponse(false, ResetSendFailed, None)), db')
  }

  /**
   * `ResetPassword`: the code must verify; the password is then replaced and,
   * only if that succeeded, the code is marked used.
   */
  function ResetPassword(db: Db, dto: ResetRequest, now: Instant): (r: (Reply<ResetResponse>, Db))
    ensures !ValidResetRequest(dto) ==> r == (ValidationProblem, db)
    ensures ValidResetRequest(dto) && !PasswordReset.Verify(db, dto.email, dto.resetCode, now)
      ==> r == (Reply(Status400BadRequest, ResetResponse(false, InvalidResetCode, None)), db)
    ensures r.0 == Reply(Status200OK, ResetResponse(true, PasswordUpdated, None))
      <==> (ValidResetRequest(dto) && PasswordReset.Verify(db, dto.email, dto.resetCode, now)
            && GetByEmail(db, dto.email).Some?)
    ensures r.0 == Reply(Status200OK, ResetResponse(true, PasswordUpdated, None)) ==>
      r.1 == PasswordReset.MarkUsed(UpdatePassword(db, dto.email, dto.newPassword, now).1, dto.email, dto.resetCode, now).1
    ensures r.0 != Reply(Status200OK, ResetResponse(true, PasswordUpdated, None)) ==> r.1 == db
  {
    if !ValidResetRequest(dto) then (ValidationProblem, db)
    else if !PasswordReset.Verify(db, dto.email, dto.resetCode, now) then
      (Reply(Status400BadRequest, ResetResponse(false, InvalidResetCode, None)), db)
    else
      var (passwordUpdated, db1) := UpdatePassword(db, dto.email, dto.newPassword, now);
      if passwordUpdated then
        var (_, db2) := PasswordReset.MarkUsed(db1, dto.email, dto.resetCode, now);
        (Reply(Status200OK, ResetResponse(true, PasswordUpdated, None)), db2)
      else (Reply(Status400BadRequest, ResetResponse(false, PasswordUpdateFailed, None)), db)
  }

  /** The reply to an unknown address differs from the reply to a real send, though both report success. */
  lemma ForgotPasswordRepliesDiffer(db: Db, unknown: string, known: string, random: Int32, now: Instant)
    requires ValidForgotRequest(unknown) && ValidForgotRequest(known)
    requires GetByEmail(db, unknown).None? && GetByEmail(db, known).Some? && random != Int32Min
    ensures var a := ForgotPassword(db, unknown, random, true, now).0;
      var b := ForgotPassword(db, known, random, true, now).0;
      a.body.success && b.body.success && a != b
  {
  }

  /** After a failed send, the saved code still verifies: the user was told to retry, but the code is live. */
  lemma FailedSendLeavesLiveCode(db: Db, email: string, random: Int32, now: Instant)
    requires Valid(db.passwordResets) && ValidForgotRequest(email) && GetByEmail(db, email).Some? && random != Int32Min
    ensures var (reply, db') := ForgotPassword(db, email, random, false, now);
      !reply.body.success && PasswordReset.Verify(db', email, GenerateSecureCode(random).value, now)
  {
    var u := GetByEmail(db, email).value;
    assert PasswordReset.AnyUserWithEmail(db, email).Some? by {
      var i :| 0 <= i < |db.users.rows| && db.users.rows[i] == u;
    }
    PasswordReset.CreateThenVerify(db, email, random, now, now);
  }

  /** A successful reset consumes the code: the same request fails the second time and changes nothing. */
  lemma ResetPasswordOnce(db: Db, dto: ResetRequest, now: Instant, later: Instant)
    requires PasswordReset.OneResetPerEmail(db)
    requires ResetPassword(db, dto, now).0.Reply? && ResetPassword(db, dto, now).0.status == Status200OK
    ensures var db' := ResetPassword(db, dto, now).1;
      ResetPassword(db', dto, later) == (Reply(Status400BadRequest, ResetResponse(false, InvalidResetCode, None)), db')
  {
    var db1 := UpdatePassword(db, dto.email, dto.newPassword, now).1;
    assert db1.passwordResets == db.passwordResets;
    assert PasswordReset.Verify(db1, dto.email, dto.resetCode, now);
    PasswordReset.MarkUsedConsumes(db1, dto.email, dto.resetCode, now, now, later);
  }

  /** After a successful reset, the new password is the one that logs in. */
  lemma ResetPasswordThenLogin(db: Db, dto: ResetRequest, now: Instant, other: string)
    requires UniqueEmails(db) && Valid(db.users)
    requires ResetPassword(db, dto, now).0 == Reply(Status200OK, ResetResponse(true, PasswordUpdated, None))
    ensures var db' := ResetPassword(db, dto, now).1;
      && Users.Login(db', dto.email, dto.newPassword).isSuccessful == GetByEmail(db, dto.email).value.data.isActive
      && (other != dto.newPassword ==> !Users.Login(db', dto.email, other).isSuccessful)
  {
    UpdatePasswordThenLogin(db, dto.email, dto.newPassword, now, other);
    var db1 := UpdatePassword(db, dto.email, dto.newPassword, now).1;
    var db2 := ResetPassword(db, dto, now).1;
    assert db2.users == db1.users;
    assert GetByEmail(db2, dto.email) == GetByEmail(db1, dto.email);
  }
}
