/** What the older server's routes promise: the order of the register
    checks, what a successful register stores and mails, single-use email
    verification, the three login refusals, the reset flow through a verified
    code, and password change. */
module LegacyRouteProps {
  import opened Wrappers
  import opened TableOps
  import opened Hashing
  import opened PasswordPolicy
  import opened OtpDigits
  import opened EmailUtil
  import opened LegacyTables
  import opened LegacyTableProps
  import opened LegacyRoutes

  /** The register fields pass every check that precedes the store. */
  predicate RegisterAccepted(t: State, email: string, name: string, password: string, passwordConfirm: string)
  {
    && email != "" && name != "" && password != "" && passwordConfirm != ""
    && IsValidEmail(email) && password == passwordConfirm && StrengthErrors(password) == []
    && !EmailTaken(t.users, email)
  }

  /** The register checks in their order: missing fields, email format,
      confirmation, strength (with the failed rules as details), taken email;
      each refusal writes nothing and sends nothing. */
  lemma RegisterChecksInOrder(t: State, email: string, name: string, password: string, passwordConfirm: string,
                              salt: nat, rand: nat -> Digit, now: Time)
    ensures var h := Register(t, email, name, password, passwordConfirm, salt, rand, now);
      var present := email != "" && name != "" && password != "" && passwordConfirm != "";
      && (!present ==> h.reply == Fail(400, MissingFields))
      && (present && !IsValidEmail(email) ==> h.reply == Fail(400, InvalidEmailFormat))
      && (present && IsValidEmail(email) && password != passwordConfirm ==> h.reply == Fail(400, PasswordsDiffer))
      && (present && IsValidEmail(email) && password == passwordConfirm && StrengthErrors(password) != [] ==>
          h.reply == FailWithDetails(400, WeakPassword, StrengthErrors(password)))
      && (present && IsValidEmail(email) && password == passwordConfirm && StrengthErrors(password) == []
          && EmailTaken(t.users, email)
          ==> h.reply == Fail(409, EmailRegistered))
      && (!RegisterAccepted(t, email, name, password, passwordConfirm) ==> h.state == t && h.mail.None?)
  {
    var present := email != "" && name != "" && password != "" && passwordConfirm != "";
    if present && IsValidEmail(email) && password == passwordConfirm && StrengthErrors(password) == [] {
      if EmailTaken(t.users, email) {
        var u :| u in t.users && u.email == email;
        assert GetUserByEmail(t.users, email).Some?;
      }
    }
  }

  /** A register that passes the checks answers 201 with the new id; it
      appends one user, not verified, whose hash verifies exactly the given
      password; the email then has exactly one verification token, with the
      six-digit code mailed to it and an expiry 24 hours on. */
  lemma RegisterSuccess(t: State, email: string, name: string, password: string, passwordConfirm: string,
                        salt: nat, rand: nat -> Digit, now: Time)
    requires RegisterAccepted(t, email, name, password, passwordConfirm)
    ensures var h := Register(t, email, name, password, passwordConfirm, salt, rand, now);
      var code := DrawnCode(rand, OtpLength);
      var user := NewUser(t, email, name, HashPassword(password, salt), now);
      var t1 := t.(users := t.users + [user], nextUserId := t.nextUserId + 1);
      && h.reply == Registered(RegisteredMessage, t.nextUserId, email)
      && StatusOf(h.reply) == 201
      && h.state.users == t.users + [user]
      && user.isEmailVerified == False && user.email == email
      && (forall q :: VerifyPassword(q, user.passwordHash) <==> q == password)
      && ByKey(h.state.verifications, VerificationEmail, email) == [NewVerificationToken(t1, email, code, now + VerificationTtlMs, now)]
      && NewVerificationToken(t1, email, code, now + VerificationTtlMs, now).expiresAt == now + 24 * 60 * 60 * 1000
      && |code| == 6 && AllDigits(code)
      && h.mail == Some(CodeMail(email, code, 24))
  {
    assert GetUserByEmail(t.users, email).None?;
    var user := NewUser(t, email, name, HashPassword(password, salt), now);
    var t1 := t.(users := t.users + [user], nextUserId := t.nextUserId + 1);
    VerificationTokenSupersedes(t1, email, DrawnCode(rand, OtpLength), now + VerificationTtlMs, now);
    forall q ensures VerifyPassword(q, user.passwordHash) <==> q == password {
      VerifyHashed(password, q, salt);
    }
  }

  /** The code a register mails verifies the email at any instant before the
      24 hours are up: verify-email then succeeds and the new user is marked
      "true". */
  lemma RegisterThenVerifyEmail(t: State, email: string, name: string, password: string, passwordConfirm: string,
                                salt: nat, rand: nat -> Digit, now: Time, later: Time)
    requires RegisterAccepted(t, email, name, password, passwordConfirm)
    requires later < now + VerificationTtlMs
    ensures var h := Register(t, email, name, password, passwordConfirm, salt, rand, now);
      var v := VerifyEmail(h.state, email, DrawnCode(rand, OtpLength), later);
      && v.reply == Done(200, EmailVerified)
      && v.state.users[|t.users|].isEmailVerified == True
  {
    RegisterSuccess(t, email, name, password, passwordConfirm, salt, rand, now);
    var h := Register(t, email, name, password, passwordConfirm, salt, rand, now);
    var code := DrawnCode(rand, OtpLength);
    var user := NewUser(t, email, name, HashPassword(password, salt), now);
    var t1 := t.(users := t.users + [user], nextUserId := t.nextUserId + 1);
    SupersedeVerification(t1.verifications, NewVerificationToken(t1, email, code, now + VerificationTtlMs, now), later);
    assert h.state.users[|t.users|] == user;
  }

  /** Every user with the email has the flag "true" once `updateUserEmailVerified(email, true)` ran. */
  lemma MarkedUsers(t: State, email: string, now: Time)
    ensures forall u :: u in UpdateUserEmailVerified(t, email, true, now).users && u.email == email ==> u.isEmailVerified == True
  {
    var us := UpdateUserEmailVerified(t, email, true, now).users;
    forall u | u in us && u.email == email ensures u.isEmailVerified == True {
      var i :| 0 <= i < |us| && us[i] == u;
    }
  }

  /** verify-email succeeds exactly for a present, unexpired (email, code)
      token; a refusal writes nothing; success marks every user with the email
      "true" and deletes the token, so the same request then fails. */
  lemma VerifyEmailOutcome(t: State, email: string, code: string, now: Time, later: Time)
    ensures var h := VerifyEmail(t, email, code, now);
      && (h.reply == Done(200, EmailVerified) <==>
          email != "" && code != "" && GetEmailVerificationToken(t.verifications, email, code, now).Some?)
      && (h.reply != Done(200, EmailVerified) ==> h.state == t && h.mail.None?)
      && (h.reply == Done(200, EmailVerified) ==>
          && (forall u :: u in h.state.users && u.email == email ==> u.isEmailVerified == True)
          && GetEmailVerificationToken(h.state.verifications, email, code, later).None?
          && VerifyEmail(h.state, email, code, later).reply == Fail(400, InvalidVerificationCode))
  {
    var h := VerifyEmail(t, email, code, now);
    if email != "" && code != "" && GetEmailVerificationToken(t.verifications, email, code, now).Some? {
      var t1 := VerifyEmailVerificationToken(t, email, code, now);
      MarkedUsers(t1, email, now);
      DeletedTokensAreGone(UpdateUserEmailVerified(t1, email, true, now), email, code, later);
    }
  }

  /** The login refusals: an unknown email and a wrong password get the same
      401; an account without a password hash gets its own 401; a right
      password on an account whose flag is not "true" gets 403. No refusal
      writes anything or issues a token; success records the sign-in and
      returns the signed token. */
  lemma LoginOutcome(t: State, email: string, password: string, jwt: string, now: Time)
    requires email != "" && password != ""
    ensures var h := Login(t, email, password, jwt, now);
      var user := GetUserByEmail(t.users, email);
      && (h.reply == Fail(401, InvalidEmailOrPassword) <==>
          user.None? || (user.value.passwordHash != Empty && !VerifyPassword(password, user.value.passwordHash)))
      && (h.reply == Fail(401, OAuthAccount) <==> user.Some? && user.value.passwordHash == Empty)
      && (StatusOf(h.reply) == 403 <==>
          user.Some? && VerifyPassword(password, user.value.passwordHash) && user.value.isEmailVerified != True)
      && (h.reply.LoggedIn? <==>
          user.Some? && VerifyPassword(password, user.value.passwordHash) && user.value.isEmailVerified == True)
      && (!h.reply.LoggedIn? ==> h.state == t)
      && (h.reply.LoggedIn? ==>
          h.reply.token == jwt && h.reply.user.id == user.value.id
          && h.state == UpdateUserLastSignedIn(t, user.value.id, now))
  {
    assert |InvalidEmailOrPassword| != |OAuthAccount|;
  }

  /** request-reset answers 200 whether or not the email has an account, but
      with a different message, so the reply tells whether it exists. An
      unknown email writes nothing; a known one gets exactly one token, not
      verified, holding the mailed six-digit code and expiring 10 minutes on. */
  lemma RequestResetOutcome(t: State, email: string, rand: nat -> Digit, now: Time)
    requires email != ""
    ensures var h := RequestReset(t, email, rand, now);
      var otp := DrawnCode(rand, OtpLength);
      && StatusOf(h.reply) == 200
      && (h.reply == Done(200, IfEmailExists) <==> !EmailTaken(t.users, email))
      && (h.reply == Done(200, OtpSent) <==> EmailTaken(t.users, email))
      && (!EmailTaken(t.users, email) ==> h.state == t && h.mail.None?)
      && (EmailTaken(t.users, email) ==>
          && ByKey(h.state.resets, ResetEmail, email) == [NewResetToken(t, email, otp, now + ResetTtlMs, now)]
          && NewResetToken(t, email, otp, now + ResetTtlMs, now).isVerified == False
          && h.state.users == t.users
          && h.mail == Some(ResetOtpMail(email, otp, 10)))
  {
    assert |IfEmailExists| != |OtpSent|;
    if EmailTaken(t.users, email) {
      var u :| u in t.users && u.email == email;
      assert GetUserByEmail(t.users, email).Some?;
      ResetTokenSupersedes(t, email, DrawnCode(rand, OtpLength), now + ResetTtlMs, now);
    }
  }

  /** verify-otp refuses exactly when no unexpired token has the email and
      code, writing nothing; otherwise the token it finds is marked "true". */
  lemma VerifyResetOtpOutcome(t: State, email: string, code: string, now: Time)
    requires email != "" && code != ""
    ensures var h := VerifyResetOtp(t, email, code, now);
      var before := GetPasswordResetToken(t.resets, email, code, now);
      var after := GetPasswordResetToken(h.state.resets, email, code, now);
      && (h.reply == Fail(400, InvalidOtp) <==> before.None?)
      && (before.None? ==> h.state == t)
      && (before.Some? ==> h.reply == Done(200, OtpVerified) && after == Some(before.value.(isVerified := True, updatedAt := now)))
  {
    var t' := VerifyPasswordResetToken(t, email, code, now);
    VerifyResetMarksFound(t.resets, t'.resets, email, code, now, now);
  }

  /** The reset-password checks come in this order: fields, confirmation,
      strength (before any token is looked at), a live token, its verified
      flag. Only success writes; it gives every user with the email a hash
      of the new password and deletes the token, so the same code cannot
      reset again. */
  lemma ResetPasswordOutcome(t: State, email: string, code: string, password: string, salt: nat, now: Time, later: Time)
    requires email != "" && code != "" && password != ""
    ensures var h := ResetPassword(t, email, code, password, password, salt, now);
      var token := GetPasswordResetToken(t.resets, email, code, now);
      && (StrengthErrors(password) != [] ==> h.reply == FailWithDetails(400, WeakPassword, StrengthErrors(password)))
      && (h.reply == Done(200, PasswordReset) <==>
          StrengthErrors(password) == [] && token.Some? && token.value.isVerified == True)
      && (h.reply != Done(200, PasswordReset) ==> h.state == t)
      && (h.reply == Done(200, PasswordReset) ==>
          && (forall u :: u in h.state.users && u.email == email ==> VerifyPassword(password, u.passwordHash))
          && ResetPassword(h.state, email, code, password, password, salt, later).reply == Fail(400, InvalidOtp))
  {
    var h := ResetPassword(t, email, code, password, password, salt, now);
    var token := GetPasswordResetToken(t.resets, email, code, now);
    if StrengthErrors(password) == [] && token.Some? && token.value.isVerified == True {
      var t1 := UpdateUserPassword(t, email, HashPassword(password, salt), now);
      forall u | u in h.state.users && u.email == email ensures VerifyPassword(password, u.passwordHash) {
        var i :| 0 <= i < |t1.users| && t1.users[i] == u;
        VerifyHashed(password, password, salt);
      }
      DeletedTokensAreGone(t1, email, code, later);
    }
  }

  /** The whole reset flow: for an email with an account, request-reset,
      then verify-otp with the mailed code, then reset-password with it, all
      within 10 minutes, succeeds; skipping verify-otp gets "OTP not verified". */
  lemma ResetFlow(t: State, email: string, rand: nat -> Digit, password: string, salt: nat,
                  now: Time, t2: Time, t3: Time)
    requires email != "" && EmailTaken(t.users, email)
    requires StrengthErrors(password) == [] && password != ""
    requires t2 < now + ResetTtlMs && t3 < now + ResetTtlMs
    ensures var code := DrawnCode(rand, OtpLength);
      var s1 := RequestReset(t, email, rand, now).state;
      && ResetPassword(s1, email, code, password, password, salt, t3).reply == Fail(400, OtpNotVerified)
      && var s2 := VerifyResetOtp(s1, email, code, t2).state;
      ResetPassword(s2, email, code, password, password, salt, t3).reply == Done(200, PasswordReset)
  {
    var code := DrawnCode(rand, OtpLength);
    var row := NewResetToken(t, email, code, now + ResetTtlMs, now);
    var s1 := RequestReset(t, email, rand, now).state;
    RequestedTokenFound(t, email, rand, now, t2);
    RequestedTokenFound(t, email, rand, now, t3);
    assert GetPasswordResetToken(s1.resets, email, code, t3) == Some(row);
    assert |code| == 6;
    var s2 := VerifyPasswordResetToken(s1, email, code, t2);
    assert VerifyResetOtp(s1, email, code, t2).state == s2;
    VerifyResetMarksFound(s1.resets, s2.resets, email, code, t2, t3);
    assert GetPasswordResetToken(s2.resets, email, code, t3) == Some(row.(isVerified := True, updatedAt := t2));
  }

  /** The token request-reset stores for a known email is what the reset
      lookup finds with the mailed code until it expires. */
  lemma RequestedTokenFound(t: State, email: string, rand: nat -> Digit, now: Time, later: Time)
    requires email != "" && EmailTaken(t.users, email)
    requires later < now + ResetTtlMs
    ensures var code := DrawnCode(rand, OtpLength);
      GetPasswordResetToken(RequestReset(t, email, rand, now).state.resets, email, code, later)
        == Some(NewResetToken(t, email, code, now + ResetTtlMs, now))
  {
    var u :| u in t.users && u.email == email;
    assert GetUserByEmail(t.users, email).Some?;
    var code := DrawnCode(rand, OtpLength);
    SupersedeReset(t.resets, NewResetToken(t, email, code, now + ResetTtlMs, now), later);
  }

  /** change-password: a confirmation that differs gives 400, a wrong current
      password 401, a weak new password 400 with the failed rules; only
      success writes, giving the user's email a hash of the new password. */
  lemma ChangePasswordOutcome(t: State, userId: nat, currentPassword: string, newPassword: string,
                              newPasswordConfirm: string, salt: nat, now: Time)
    requires currentPassword != "" && newPassword != "" && newPasswordConfirm != ""
    ensures var h := ChangePassword(t, Some(userId), currentPassword, newPassword, newPasswordConfirm, salt, now);
      var user := GetUserById(t.users, userId);
      && (newPassword != newPasswordConfirm ==> h.reply == Fail(400, NewPasswordsDiffer))
      && (newPassword == newPasswordConfirm && user.Some? && user.value.passwordHash != Empty
          && !VerifyPassword(currentPassword, user.value.passwordHash)
          ==> h.reply == Fail(401, WrongCurrentPassword))
      && (newPassword == newPasswordConfirm && user.Some? && VerifyPassword(currentPassword, user.value.passwordHash)
          && StrengthErrors(newPassword) != []
          ==> h.reply == FailWithDetails(400, WeakNewPassword, StrengthErrors(newPassword)))
      && (h.reply == Done(200, PasswordChanged) <==>
          newPassword == newPasswordConfirm && user.Some? && VerifyPassword(currentPassword, user.value.passwordHash)
          && StrengthErrors(newPassword) == [])
      && (h.reply != Done(200, PasswordChanged) ==> h.state == t)
      && (h.reply == Done(200, PasswordChanged) ==>
          forall u :: u in h.state.users && u.email == user.value.email ==>
            VerifyPassword(newPassword, u.passwordHash)
            && (currentPassword != newPassword ==> !VerifyPassword(currentPassword, u.passwordHash)))
  {
    var h := ChangePassword(t, Some(userId), currentPassword, newPassword, newPasswordConfirm, salt, now);
    var user := GetUserById(t.users, userId);
    if h.reply == Done(200, PasswordChanged) {
      var t1 := UpdateUserPassword(t, user.value.email, HashPassword(newPassword, salt), now);
      forall u | u in t1.users && u.email == user.value.email
        ensures VerifyPassword(newPassword, u.passwordHash)
        ensures currentPassword != newPassword ==> !VerifyPassword(currentPassword, u.passwordHash)
      {
        var i :| 0 <= i < |t1.users| && t1.users[i] == u;
        VerifyHashed(newPassword, newPassword, salt);
        VerifyHashed(newPassword, currentPassword, salt);
      }
    }
  }
}
