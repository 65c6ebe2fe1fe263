/** What the authentication service promises: the order of its checks, the
    messages that do not tell an unknown account from a wrong password, what
    each successful call leaves in the tables, and that every operation keeps
    the tables' invariant. */
module AuthServiceProps {
  import opened Wrappers
  import opened Errors
  import opened JsText
  import opened TableOps
  import opened Hashing
  import opened PasswordPolicy
  import opened OtpDigits
  import opened AuthTables
  import opened AuthService

  // ---------------------------------------------------------------- registration

  /** The writes of a registration: when the email and username are free,
      one new unverified user with that (lower-cased) email and hash, and for
      that email exactly one verification row holding the mailed code, unused
      and valid for 24 hours. The call succeeds exactly when the mail goes out. */
  lemma RegisterStoreMeaning(t: Tables, e: string, un: Option<string>, name: Option<string>, passwordHash: StoredHash,
                             rand: nat -> Digit, token: string, now: Time, delivered: bool)
    requires !UserTaken(t.users, ToLower(e), un)
    ensures var o := RegisterStore(t, e, un, name, passwordHash, rand, token, now, delivered);
      var u := NewUser(t, e, un, OrElse(name, un), passwordHash, None, now);
      var code := DrawnCode(rand, DefaultLength);
      && (o.result.Success? <==> delivered)
      && (o.result.Success? ==> o.result.value == u)
      && u.email == ToLower(e) && u.passwordHash == passwordHash && !u.isVerified && u.role == UserRole
      && o.tables.users == t.users + [u]
      && o.mail == Some(VerificationMail(u.email, code, VerifyOtpTtlHours))
      && ByKey(o.tables.verifications, VerificationEmail, u.email)
           == [VerificationRow(t.nextVerificationId, u.id, u.email, token, code, now + VerifyTtlMs, false, None)]
  {
    var c := CreateUser(t, e, un, OrElse(name, un), passwordHash, None, now);
    var u := c.result.value;
    ToLowerIdempotent(e);
    SaveEmailVerificationTokenSupersedes(c.tables, u.id, u.email, DrawnCode(rand, DefaultLength), token, now + VerifyTtlMs, now);
  }

  /** A registration rejected by a check writes nothing and sends nothing,
      and a weak password is reported before a taken email or username. */
  lemma RegisterRejectsWithoutWriting(t: Tables, email: string, password: string, username: Option<string>,
                                      name: Option<string>, salt: nat, rand: nat -> Digit, token: string,
                                      now: Time, delivered: bool)
    ensures var o := RegisterUser(t, email, password, username, name, salt, rand, token, now, delivered);
      o.result.Failure? && o.result.error != Internal(MailFailed) ==> o.tables == t && o.mail.None?
    ensures var o := RegisterUser(t, email, password, username, name, salt, rand, token, now, delivered);
      Trim(ToLower(email)) != [] && password != [] && StrengthErrors(password) != [] ==>
        o.result == Failure(WeakPassword(password))
  {
    var e := Trim(ToLower(email));
    var un := NormalizeUsername(username);
    TrimToLowerCommute(email);
    ToLowerIdempotent(Trim(email));
    if RegisterCheck(t, e, password, un).None? {
      RegisterFreeAfterChecks(t, e, password, un);
      RegisterStoreMeaning(t, e, un, name, HashPassword(password, salt), rand, token, now, delivered);
    }
  }

  /** Passing the checks means the email and username are free, so the
      insert cannot hit the unique indexes. */
  lemma RegisterFreeAfterChecks(t: Tables, email: string, password: string, username: Option<string>)
    requires ToLower(email) == email
    requires RegisterCheck(t, email, password, username).None?
    ensures !UserTaken(t.users, ToLower(email), username)
    ensures email != [] && password != [] && StrengthErrors(password) == []
  {
    if username.Some? {
      forall u | u in t.users ensures u.username != username {
        assert !MatchesIdentifier(u, username.value);
      }
    }
  }

  /** A successful registration stores one new, unverified user with the
      email lower-cased and trimmed, a hash of the password and the `user`
      role; the email was free before. The user's email then has exactly one
      verification row, holding the six-digit code that was mailed, unused
      and valid for 24 hours. */
  lemma RegisterSuccess(t: Tables, email: string, password: string, username: Option<string>,
                        name: Option<string>, salt: nat, rand: nat -> Digit, token: string,
                        now: Time, delivered: bool)
    requires RegisterUser(t, email, password, username, name, salt, rand, token, now, delivered).result.Success?
    ensures var o := RegisterUser(t, email, password, username, name, salt, rand, token, now, delivered);
      var u := o.result.value;
      var code := DrawnCode(rand, DefaultLength);
      && delivered
      && u.email == ToLower(Trim(email)) && u.email != []
      && StrengthErrors(password) == []
      && VerifyPassword(password, u.passwordHash)
      && !u.isVerified && u.role == UserRole
      && (forall x :: x in t.users ==> x.email != u.email)
      && o.tables.users == t.users + [u]
      && o.mail == Some(VerificationMail(u.email, code, VerifyOtpTtlHours))
      && ByKey(o.tables.verifications, VerificationEmail, u.email)
           == [VerificationRow(t.nextVerificationId, u.id, u.email, token, code, now + VerifyTtlMs, false, None)]
  {
    var e := Trim(ToLower(email));
    var un := NormalizeUsername(username);
    TrimToLowerCommute(email);
    ToLowerIdempotent(Trim(email));
    RegisterFreeAfterChecks(t, e, password, un);
    RegisterStoreMeaning(t, e, un, name, HashPassword(password, salt), rand, token, now, delivered);
    VerifyHashed(password, password, salt);
  }

  /** Registering and then entering the mailed code verifies the account:
      while the code is fresh, `verifyOtp` with the same (already trimmed)
      email and the default purpose succeeds and leaves the user verified. */
  lemma RegisterThenVerify(t: Tables, email: string, password: string, username: Option<string>,
                           name: Option<string>, salt: nat, rand: nat -> Digit, token: string,
                           now: Time, later: Time)
    requires RegisterUser(t, email, password, username, name, salt, rand, token, now, true).result.Success?
    requires ValidTables(t)
    requires Trim(email) == email
    requires now <= later < now + VerifyTtlMs
    ensures var o := RegisterUser(t, email, password, username, name, salt, rand, token, now, true);
      var v := VerifyOtp(o.tables, email, DrawnCode(rand, DefaultLength), None, later);
      && v.result == Success(o.result.value)
      && forall i :: 0 <= i < |v.tables.users| && v.tables.users[i].id == o.result.value.id ==> v.tables.users[i].isVerified
  {
    RegisteredCodeIsLive(t, email, password, username, name, salt, rand, token, now, later);
    var o := RegisterUser(t, email, password, username, name, salt, rand, token, now, true);
    var u := o.result.value;
    var code := DrawnCode(rand, DefaultLength);
    var row :| row in o.tables.verifications && IsActiveVerification(row, ToLower(u.email), code, later);
    FreshCodeVerifies(o.tables, email, code, u, row, later);
  }

  /** After a successful register the new user is what the email looks up,
      the tables are well formed, and the mailed code is live until it expires. */
  lemma RegisteredCodeIsLive(t: Tables, email: string, password: string, username: Option<string>,
                             name: Option<string>, salt: nat, rand: nat -> Digit, token: string,
                             now: Time, later: Time)
    requires RegisterUser(t, email, password, username, name, salt, rand, token, now, true).result.Success?
    requires ValidTables(t)
    requires Trim(email) == email
    requires now <= later < now + VerifyTtlMs
    ensures var o := RegisterUser(t, email, password, username, name, salt, rand, token, now, true);
      && ValidTables(o.tables)
      && GetUserByEmail(o.tables.users, ToLower(email)) == Some(o.result.value)
      && exists row :: row in o.tables.verifications
                       && IsActiveVerification(row, ToLower(o.result.value.email), DrawnCode(rand, DefaultLength), later)
  {
    var o := RegisterUser(t, email, password, username, name, salt, rand, token, now, true);
    RegisterSuccess(t, email, password, username, name, salt, rand, token, now, true);
    RegisterKeepsValid(t, email, password, username, name, salt, rand, token, now, true);
    var u := o.result.value;
    var code := DrawnCode(rand, DefaultLength);
    ToLowerIdempotent(email);
    AppendedUserFound(t.users, u, email);
    var row := VerificationRow(t.nextVerificationId, u.id, u.email, token, code, now + VerifyTtlMs, false, None);
    OnlyRowIsMember(o.tables.verifications, u.email, row);
    assert IsActiveVerification(row, ToLower(u.email), code, later);
  }

  /** A user appended with an email no earlier user has is what that email looks up. */
  lemma AppendedUserFound(users: seq<UserRow>, u: UserRow, email: string)
    requires forall x :: x in users ==> x.email != u.email
    requires u.email == ToLower(email)
    ensures GetUserByEmail(users + [u], email) == Some(u)
  {
    var found := GetUserByEmail(users + [u], email);
    assert u in users + [u];
  }

  /** The only row of an email's `ByKey` list is in the table. */
  lemma OnlyRowIsMember(vs: seq<VerificationRow>, email: string, row: VerificationRow)
    requires ByKey(vs, VerificationEmail, email) == [row]
    ensures row in vs
  {
    assert row in ByKey(vs, VerificationEmail, email);
  }

  /** A user found by email with an active code row of theirs is verified
      by `verifyOtp` with that code. */
  lemma FreshCodeVerifies(t: Tables, email: string, code: string, u: UserRow, row: VerificationRow, now: Time)
    requires ValidTables(t)
    requires GetUserByEmail(t.users, ToLower(email)) == Some(u)
    requires row in t.verifications && IsActiveVerification(row, ToLower(u.email), code, now)
    ensures var v := VerifyOtp(t, email, code, None, now);
      && v.result == Success(u)
      && forall i :: 0 <= i < |v.tables.users| && v.tables.users[i].id == u.id ==> v.tables.users[i].isVerified
  {
    VerifyEmailPath(t, email, code, now, now);
  }

  /** Registration keeps the tables' invariant. */
  lemma RegisterKeepsValid(t: Tables, email: string, password: string, username: Option<string>,
                           name: Option<string>, salt: nat, rand: nat -> Digit, token: string,
                           now: Time, delivered: bool)
    requires ValidTables(t)
    ensures ValidTables(RegisterUser(t, email, password, username, name, salt, rand, token, now, delivered).tables)
  {
    var e := Trim(ToLower(email));
    var un := NormalizeUsername(username);
    var h := HashPassword(password, salt);
    if RegisterCheck(t, e, password, un).None? {
      CreateUserKeepsValid(t, e, un, OrElse(name, un), h, None, now);
      var c := CreateUser(t, e, un, OrElse(name, un), h, None, now);
      if c.result.Success? {
        var u := c.result.value;
        var s := SaveEmailVerificationToken(c.tables, u.id, u.email, DrawnCode(rand, DefaultLength), token, now + VerifyTtlMs, now);
        assert RegisterStore(t, e, un, name, h, rand, token, now, delivered).tables == s.tables;
        SaveEmailVerificationTokenKeepsValid(c.tables, u.id, u.email, DrawnCode(rand, DefaultLength), token, now + VerifyTtlMs, now);
      }
    }
  }

  // ---------------------------------------------------------------- verifyOtp

  /** With the default purpose, `verifyOtp` consumes the email's active
      verification code: it succeeds exactly when one exists, then marks every
      row of the user verified, touches only the users and the verification
      rows, and the same code is refused from then on. */
  lemma VerifyEmailPath(t: Tables, email: string, code: string, now: Time, later: Time)
    requires ValidTables(t)
    requires GetUserByEmail(t.users, ToLower(email)).Some?
    ensures var u := GetUserByEmail(t.users, ToLower(email)).value;
      var o := VerifyOtp(t, email, code, None, now);
      && (o.result.Success? <==> ActiveVerification(t.verifications, ToLower(u.email), code, now).Some?)
      && (o.result.Failure? ==> o.result.error == BadRequest(InvalidOrExpiredCode) && o.tables == t)
      && (o.result.Success? ==>
            && o.result.value == u
            && (forall i :: 0 <= i < |o.tables.users| && o.tables.users[i].id == u.id ==> o.tables.users[i].isVerified)
            && o.tables == t.(users := o.tables.users, verifications := o.tables.verifications)
            && VerifyOtp(o.tables, email, code, None, later).result.Failure?)
  {
    var u := GetUserByEmail(t.users, ToLower(email)).value;
    var consumed := ConsumeEmailVerificationCode(t, u.email, code, now);
    if consumed.0.Some? && !u.isVerified {
      var t' := UpdateUserVerified(consumed.1, u.id, true, now);
      assert VerifyOtp(t, email, code, None, now).tables == t';
    } else if consumed.0.Some? {
      forall i | 0 <= i < |t.users| && t.users[i].id == u.id ensures t.users[i].isVerified {
        AtMostOneSameRow(t.users, UserId, t.users[i], u);
      }
    }
    if consumed.0.Some? {
      VerifyEmailSingleUse(t, email, code, now, later);
    }
  }

  /** After a successful email verification the same code is refused at
      any later time: the row it consumed is used, and the user found by the
      email in the new tables has the same email. */
  lemma VerifyEmailSingleUse(t: Tables, email: string, code: string, now: Time, later: Time)
    requires ValidTables(t)
    requires GetUserByEmail(t.users, ToLower(email)).Some?
    requires VerifyOtp(t, email, code, None, now).result.Success?
    ensures VerifyOtp(VerifyOtp(t, email, code, None, now).tables, email, code, None, later).result.Failure?
  {
    var u := GetUserByEmail(t.users, ToLower(email)).value;
    var consumed := ConsumeEmailVerificationCode(t, u.email, code, now);
    ConsumeIsSingleUse(t, u.email, code, now, later);
    var t' := VerifyOtp(t, email, code, None, now).tables;
    assert t'.verifications == consumed.1.verifications;
    var user' := GetUserByEmail(t'.users, ToLower(email));
    if user'.Some? {
      assert user'.value.email == u.email;
      assert ConsumeEmailVerificationCode(t', user'.value.email, code, later).0.None?;
    }
  }

  /** With any other purpose, `verifyOtp` checks the user's active code of
      that purpose: it succeeds exactly when one exists, then marks it used
      so that the same lookup finds nothing later, and leaves the users (in
      particular their verified flag) and the verification rows alone. */
  lemma VerifyOtherPurposePath(t: Tables, email: string, code: string, purpose: string, now: Time, later: Time)
    requires ValidTables(t)
    requires GetUserByEmail(t.users, ToLower(email)).Some?
    requires purpose != [] && purpose != VerifyEmail
    ensures var u := GetUserByEmail(t.users, ToLower(email)).value;
      var o := VerifyOtp(t, email, code, Some(purpose), now);
      && (o.result.Success? <==> GetActiveOtpCode(t.otps, u.id, code, purpose, now).Some?)
      && (o.result.Failure? ==> o.result.error == BadRequest(InvalidOrExpiredCode) && o.tables == t)
      && (o.result.Success? ==>
            && o.tables.users == t.users && o.tables.verifications == t.verifications
            && GetActiveOtpCode(o.tables.otps, u.id, code, purpose, later).None?)
  {
    var u := GetUserByEmail(t.users, ToLower(email)).value;
    if GetActiveOtpCode(t.otps, u.id, code, purpose, now).Some? {
      MarkOtpUsedIsSingleUse(t, u.id, code, purpose, now, later);
    }
  }

  /** A failed `verifyOtp` writes nothing and is a 400; "Invalid code or
      email" is given exactly when no user has the email. */
  lemma VerifyOtpFailures(t: Tables, email: string, code: string, purpose: Option<string>, now: Time)
    ensures var o := VerifyOtp(t, email, code, purpose, now);
      && (o.result.Failure? ==> o.tables == t && o.result.error.HttpError? && o.result.error.status == 400)
      && (o.result == Failure(BadRequest(InvalidCodeOrEmail)) <==> GetUserByEmail(t.users, ToLower(email)).None?)
      && o.mail.None?
  {
    assert InvalidCodeOrEmail[8] != InvalidOrExpiredCode[8];
  }

  lemma VerifyOtpKeepsValid(t: Tables, email: string, code: string, purpose: Option<string>, now: Time)
    requires ValidTables(t)
    ensures ValidTables(VerifyOtp(t, email, code, purpose, now).tables)
  {
    var o := VerifyOtp(t, email, code, purpose, now);
    var user := GetUserByEmail(t.users, ToLower(email));
    if o.tables != t {
      var u := user.value;
      if PurposeOrDefault(purpose) == VerifyEmail {
        ConsumeKeepsValid(t, u.email, code, now);
        var consumed := ConsumeEmailVerificationCode(t, u.email, code, now);
        if !u.isVerified {
          UpdateUsersKeepsValid(consumed.1, UpdateUserVerified(consumed.1, u.id, true, now));
        }
      } else {
        var otp := GetActiveOtpCode(t.otps, u.id, code, PurposeOrDefault(purpose), now);
        MarkOtpUsedKeepsValid(t, otp.value.id, now);
      }
    }
  }

  // ---------------------------------------------------------------- login

  /** An unknown email or username and a wrong password get the same 401
      message, so the reply does not tell them apart. */
  lemma LoginMergesUnknownAndWrongPassword(t: Tables, identifier: string, password: string, jwt: string, now: Time)
    ensures var user := GetUserByEmailOrUsername(t.users, Trim(identifier));
      LoginUser(t, identifier, password, jwt, now).result == Failure(Unauthorized(InvalidCredentials)) <==>
        user.None? || (user.value.passwordHash.Bcrypt? && !VerifyPassword(password, user.value.passwordHash))
  {
  }

  /** "Email is not verified" (403) is given only to a caller who knows the
      password: exactly when the account exists, its password matches and it
      is not verified. */
  lemma LoginRevealsUnverifiedOnlyAfterPassword(t: Tables, identifier: string, password: string, jwt: string, now: Time)
    ensures var user := GetUserByEmailOrUsername(t.users, Trim(identifier));
      LoginUser(t, identifier, password, jwt, now).result == Failure(Forbidden(NotVerified)) <==>
        user.Some? && VerifyPassword(password, user.value.passwordHash) && !user.value.isVerified
  {
  }

  /** Login succeeds exactly for a verified account whose password matches;
      it then records the sign-in time on that user (and nothing else of
      the row), appends one session holding the issued token for 24 hours,
      leaves every other table alone, and returns the token. A failed login
      changes nothing. */
  lemma LoginOutcome(t: Tables, identifier: string, password: string, jwt: string, now: Time)
    ensures var o := LoginUser(t, identifier, password, jwt, now);
      var user := GetUserByEmailOrUsername(t.users, Trim(identifier));
      && (o.result.Success? <==> user.Some? && VerifyPassword(password, user.value.passwordHash) && user.value.isVerified)
      && (o.result.Failure? ==> o.tables == t)
      && o.mail.None?
    ensures var o := LoginUser(t, identifier, password, jwt, now);
      o.result.Success? ==>
        var u := o.result.value.user;
        && o.result.value.token == jwt
        && u in t.users && MatchesIdentifier(u, Trim(identifier))
        && o.tables.sessions == t.sessions + [SessionRow(t.nextSessionId, u.id, jwt, None, now + SessionTtlMs, now, None)]
        && o.tables == t.(users := o.tables.users, sessions := o.tables.sessions, nextSessionId := t.nextSessionId + 1)
        && |o.tables.users| == |t.users|
        && (forall i :: 0 <= i < |t.users| && t.users[i].id == u.id ==>
              o.tables.users[i] == t.users[i].(lastSignedIn := Some(now), updatedAt := now))
        && (forall i :: 0 <= i < |t.users| && t.users[i].id != u.id ==> o.tables.users[i] == t.users[i])
  {
    var user := GetUserByEmailOrUsername(t.users, Trim(identifier));
    if user.Some? && VerifyPassword(password, user.value.passwordHash) && user.value.isVerified {
      LoginSucceeds(t, identifier, password, jwt, now, user.value);
    }
  }

  /** The successful branch of `LoginOutcome`. */
  lemma LoginSucceeds(t: Tables, identifier: string, password: string, jwt: string, now: Time, u: UserRow)
    requires GetUserByEmailOrUsername(t.users, Trim(identifier)) == Some(u)
    requires VerifyPassword(password, u.passwordHash) && u.isVerified
    ensures var o := LoginUser(t, identifier, password, jwt, now);
      && o.result == Success(Session(jwt, u)) && o.mail.None?
      && o.tables.sessions == t.sessions + [SessionRow(t.nextSessionId, u.id, jwt, None, now + SessionTtlMs, now, None)]
      && o.tables == t.(users := o.tables.users, sessions := o.tables.sessions, nextSessionId := t.nextSessionId + 1)
      && |o.tables.users| == |t.users|
      && (forall i :: 0 <= i < |t.users| && t.users[i].id == u.id ==>
            o.tables.users[i] == t.users[i].(lastSignedIn := Some(now), updatedAt := now))
      && (forall i :: 0 <= i < |t.users| && t.users[i].id != u.id ==> o.tables.users[i] == t.users[i])
  {
    var t1 := UpdateUserLastSignedIn(t, u.id, now);
    var s := CreateSession(t1, u.id, jwt, now + SessionTtlMs, now);
    assert LoginUser(t, identifier, password, jwt, now) == Outcome(Success(Session(jwt, u)), s.tables, None);
    assert s.tables.users == t1.users;
  }

  lemma LoginKeepsValid(t: Tables, identifier: string, password: string, jwt: string, now: Time)
    requires ValidTables(t)
    ensures ValidTables(LoginUser(t, identifier, password, jwt, now).tables)
  {
    var o := LoginUser(t, identifier, password, jwt, now);
    var user := GetUserByEmailOrUsername(t.users, Trim(identifier));
    if o.tables != t {
      var u := user.value;
      var t1 := UpdateUserLastSignedIn(t, u.id, now);
      assert o.tables == CreateSession(t1, u.id, jwt, now + SessionTtlMs, now).tables;
      UpdateUsersKeepsValid(t, t1);
      CreateSessionKeepsValid(t1, u.id, jwt, now + SessionTtlMs, now);
    }
  }
  // ---------------------------------------------------------------- forgotten password and resend

  /** For an unknown email the forgotten-password call does nothing and
      returns normally; with a working mail transport the caller gets the
      same reply whether or not the account exists. */
  lemma ForgotDoesNotRevealAccounts(t: Tables, email: string, rand: nat -> Digit, token: string, now: Time)
    ensures var o := SendForgotPasswordCode(t, email, rand, token, now, true);
      && o.result == Success(())
      && (o.mail.Some? <==> GetUserByEmail(t.users, ToLower(email)).Some?)
    ensures GetUserByEmail(t.users, ToLower(email)).None? ==>
      forall delivered: bool :: SendForgotPasswordCode(t, email, rand, token, now, delivered) == Outcome(Success(()), t, None)
  {
  }

  /** For a known email, the user then has exactly one `reset_password` code
      and exactly one unused reset entry; both hold the code that was mailed
      and expire 10 minutes from now. The codes and entries of every other
      key, the users, the sessions and the verification rows are not changed. */
  lemma ForgotKnownEmail(t: Tables, email: string, rand: nat -> Digit, token: string, now: Time, delivered: bool)
    requires GetUserByEmail(t.users, ToLower(email)).Some?
    ensures var u := GetUserByEmail(t.users, ToLower(email)).value;
      var o := SendForgotPasswordCode(t, email, rand, token, now, delivered);
      var code := DrawnCode(rand, DefaultLength);
      var expiresAt := now + ResetTtlMs;
      && (o.result.Success? <==> delivered)
      && o.tables.users == t.users
      && ByKey(o.tables.otps, OtpKey, (u.id, ResetPassword)) == [OtpRow(t.nextOtpId, u.id, code, ResetPassword, expiresAt, false, None, 0)]
      && ByKey(o.tables.resets, ResetOpenKey, Some(u.id)) == [ResetRow(t.nextResetId, u.id, token, code, expiresAt, false, None)]
      && o.mail == Some(ResetMail(u.email, code, ResetOtpTtlMinutes))
      && o.tables == t.(otps := o.tables.otps, resets := o.tables.resets,
                        nextOtpId := t.nextOtpId + 1, nextResetId := t.nextResetId + 1)
      && (forall k :: k != (u.id, ResetPassword) ==> ByKey(o.tables.otps, OtpKey, k) == ByKey(t.otps, OtpKey, k))
      && (forall k :: k != Some(u.id) ==> ByKey(o.tables.resets, ResetOpenKey, k) == ByKey(t.resets, ResetOpenKey, k))
  {
    var u := GetUserByEmail(t.users, ToLower(email)).value;
    var code := DrawnCode(rand, DefaultLength);
    var expiresAt := now + ResetTtlMs;
    CreateOtpCodeSupersedes(t, u.id, code, ResetPassword, expiresAt, now);
    var o := CreateOtpCode(t, u.id, code, ResetPassword, expiresAt, now);
    CreatePasswordResetEntrySupersedes(o.tables, u.id, token, code, expiresAt);
    var e := CreatePasswordResetEntry(o.tables, u.id, token, code, expiresAt);
    assert SendForgotPasswordCode(t, email, rand, token, now, delivered)
        == Mailed((), e.tables, ResetMail(u.email, code, ResetOtpTtlMinutes), delivered);
    assert e.tables.otps == o.tables.otps && o.tables.resets == t.resets;
  }

  /** The mailed reset code is accepted by the reset until it expires. */
  lemma ForgotThenResetAccepts(t: Tables, email: string, rand: nat -> Digit, token: string, now: Time,
                               delivered: bool, later: Time)
    requires GetUserByEmail(t.users, ToLower(email)).Some?
    requires later < now + ResetTtlMs
    ensures var u := GetUserByEmail(t.users, ToLower(email)).value;
      var o := SendForgotPasswordCode(t, email, rand, token, now, delivered);
      ResetCodeAccepted(o.tables, u.id, DrawnCode(rand, DefaultLength), later)
  {
    var u := GetUserByEmail(t.users, ToLower(email)).value;
    var o := SendForgotPasswordCode(t, email, rand, token, now, delivered);
    var code := DrawnCode(rand, DefaultLength);
    ForgotKnownEmail(t, email, rand, token, now, delivered);
    var row := OtpRow(t.nextOtpId, u.id, code, ResetPassword, now + ResetTtlMs, false, None, 0);
    assert row in ByKey(o.tables.otps, OtpKey, (u.id, ResetPassword));
    assert IsActiveOtp(row, u.id, code, ResetPassword, later);
  }

  lemma ForgotKeepsValid(t: Tables, email: string, rand: nat -> Digit, token: string, now: Time, delivered: bool)
    requires ValidTables(t)
    ensures ValidTables(SendForgotPasswordCode(t, email, rand, token, now, delivered).tables)
  {
    var user := GetUserByEmail(t.users, ToLower(email));
    if user.Some? {
      var u := user.value;
      var code := DrawnCode(rand, DefaultLength);
      CreateOtpCodeKeepsValid(t, u.id, code, ResetPassword, now + ResetTtlMs, now);
      var o := CreateOtpCode(t, u.id, code, ResetPassword, now + ResetTtlMs, now);
      CreatePasswordResetEntryKeepsValid(o.tables, u.id, token, code, now + ResetTtlMs);
    }
  }

  /** `resendOtpCode`: the `reset_password` purpose is the forgotten-password
      call; every other purpose, a missing one included, resends the email
      verification code. A verified account is refused with a 400 and nothing
      written; an unknown email gets a normal return and nothing written; an
      unverified account gets one fresh verification row for its email,
      holding the mailed code. */
  lemma ResendOutcome(t: Tables, email: string, purpose: Option<string>, rand: nat -> Digit, token: string,
                      now: Time, delivered: bool)
    ensures var o := ResendOtpCode(t, email, purpose, rand, token, now, delivered);
      PurposeOrDefault(purpose) == ResetPassword ==> o == SendForgotPasswordCode(t, ToLower(email), rand, token, now, delivered)
    ensures var o := ResendOtpCode(t, email, purpose, rand, token, now, delivered);
      var user := GetUserByEmail(t.users, ToLower(email));
      PurposeOrDefault(purpose) != ResetPassword ==>
        && (user.None? ==> o == Outcome(Success(()), t, None))
        && (user.Some? && user.value.isVerified ==>
              o.result == Failure(BadRequest(AlreadyVerified)) && o.tables == t && o.mail.None?)
        && (user.Some? && !user.value.isVerified ==>
              var u := user.value;
              var code := DrawnCode(rand, DefaultLength);
              && (o.result.Success? <==> delivered)
              && o.tables.users == t.users
              && o.mail == Some(VerificationMail(u.email, code, VerifyOtpTtlHours))
              && ByKey(o.tables.verifications, VerificationEmail, u.email)
                   == [VerificationRow(t.nextVerificationId, u.id, u.email, token, code, now + VerifyTtlMs, false, None)])
  {
    var user := GetUserByEmail(t.users, ToLower(email));
    ToLowerIdempotent(email);
    if PurposeOrDefault(purpose) != ResetPassword && user.Some? && !user.value.isVerified {
      var u := user.value;
      ToLowerIdempotent(u.email);
      SaveEmailVerificationTokenSupersedes(t, u.id, u.email, DrawnCode(rand, DefaultLength), token, now + VerifyTtlMs, now);
    }
  }

  lemma ResendKeepsValid(t: Tables, email: string, purpose: Option<string>, rand: nat -> Digit, token: string,
                         now: Time, delivered: bool)
    requires ValidTables(t)
    ensures ValidTables(ResendOtpCode(t, email, purpose, rand, token, now, delivered).tables)
  {
    var user := GetUserByEmail(t.users, ToLower(email));
    if PurposeOrDefault(purpose) == ResetPassword {
      ForgotKeepsValid(t, ToLower(email), rand, token, now, delivered);
    } else if user.Some? {
      var u := user.value;
      SaveEmailVerificationTokenKeepsValid(t, u.id, u.email, DrawnCode(rand, DefaultLength), token, now + VerifyTtlMs, now);
    }
  }

  // ---------------------------------------------------------------- resetPassword

  /** `resetPassword`: an unknown email is an invalid request; for a known
      one the code is checked first and is accepted when it is the user's
      active reset code OR matches the user's active reset entry; only then
      is the new password's strength checked. A refused reset writes nothing. */
  lemma ResetChecks(t: Tables, email: string, code: string, newPassword: string, salt: nat, now: Time)
    ensures GetUserByEmail(t.users, ToLower(email)).None? ==>
      ResetPasswordOp(t, email, code, newPassword, salt, now) == Outcome(Failure(BadRequest(InvalidResetRequest)), t, None)
    ensures GetUserByEmail(t.users, ToLower(email)).Some? ==>
      var u := GetUserByEmail(t.users, ToLower(email)).value;
      var o := ResetPasswordOp(t, email, code, newPassword, salt, now);
      && (!ResetCodeAccepted(t, u.id, code, now) ==> o.result == Failure(BadRequest(InvalidOrExpiredCode)))
      && (ResetCodeAccepted(t, u.id, code, now) && StrengthErrors(newPassword) != [] ==>
            o.result == Failure(WeakPassword(newPassword)))
      && (o.result.Success? <==> ResetCodeAccepted(t, u.id, code, now) && StrengthErrors(newPassword) == [])
      && (o.result.Failure? ==> o.tables == t)
      && o.mail.None?
  {
  }

  /** A successful reset stores a hash of the new password on the user and
      changes no other user; afterwards the user has no `reset_password`
      code left, and (codes having distinct ids) every other code is kept.
      The sessions, verification rows and reset entries are not touched. */
  lemma ResetSuccess(t: Tables, email: string, code: string, newPassword: string, salt: nat, now: Time)
    requires ResetPasswordOp(t, email, code, newPassword, salt, now).result.Success?
    ensures var u := GetUserByEmail(t.users, ToLower(email)).value;
      var o := ResetPasswordOp(t, email, code, newPassword, salt, now);
      && |o.tables.users| == |t.users|
      && (forall i :: 0 <= i < |t.users| && t.users[i].id == u.id ==> VerifyPassword(newPassword, o.tables.users[i].passwordHash))
      && (forall i :: 0 <= i < |t.users| && t.users[i].id != u.id ==> o.tables.users[i] == t.users[i])
      && (forall x :: x in o.tables.otps ==> !(x.userId == u.id && x.purpose == ResetPassword))
      && o.tables.resets == t.resets
      && o.tables == t.(users := o.tables.users, otps := o.tables.otps)
      && (forall i :: 0 <= i < |t.users| && t.users[i].id == u.id ==>
            o.tables.users[i] == t.users[i].(passwordHash := o.tables.users[i].passwordHash, updatedAt := now))
      && (ValidTables(t) ==> forall x :: x in o.tables.otps <==> x in t.otps && OtpKey(x) != (u.id, ResetPassword))
  {
    var u := GetUserByEmail(t.users, ToLower(email)).value;
    var otp := GetActiveOtpCode(t.otps, u.id, code, ResetPassword, now);
    var entry := GetActivePasswordResetToken(t.resets, u.id, code, now);
    assert ResetPasswordOp(t, email, code, newPassword, salt, now).tables == ResetWrites(t, u, otp, entry, newPassword, salt, now);
    ResetWritesMeaning(t, u, otp, entry, newPassword, salt, now);
  }

  /** The writes of an accepted reset: the user's hash is replaced (and
      `updatedAt`), no other user changes, the user's `reset_password` codes
      are gone, and, codes having distinct ids, every other code is kept. Only
      the users and the codes change. */
  lemma ResetWritesMeaning(t: Tables, u: UserRow, otp: Option<OtpRow>, entry: Option<ResetRow>,
                           newPassword: string, salt: nat, now: Time)
    requires otp.Some? || entry.Some?
    requires otp.Some? ==> otp.value in t.otps && OtpKey(otp.value) == (u.id, ResetPassword)
    ensures var r := ResetWrites(t, u, otp, entry, newPassword, salt, now);
      && r == t.(users := r.users, otps := r.otps)
      && |r.users| == |t.users|
      && (forall i :: 0 <= i < |t.users| && t.users[i].id == u.id ==>
            && r.users[i] == t.users[i].(passwordHash := r.users[i].passwordHash, updatedAt := now)
            && VerifyPassword(newPassword, r.users[i].passwordHash))
      && (forall i :: 0 <= i < |t.users| && t.users[i].id != u.id ==> r.users[i] == t.users[i])
      && (forall x :: x in r.otps ==> !(x.userId == u.id && x.purpose == ResetPassword))
      && (AtMostOnePerKey(t.otps, OtpId) ==> forall x :: x in r.otps <==> x in t.otps && OtpKey(x) != (u.id, ResetPassword))
  {
    var t1 := UpdateUserPassword(t, u.id, HashPassword(newPassword, salt), now);
    var t2 := if otp.Some? then ClearOtpsForPurpose(MarkOtpUsed(t1, otp.value.id, now), u.id, ResetPassword) else t1;
    var t3 := if entry.Some? then ClearOtpsForPurpose(t2, u.id, ResetPassword) else t2;
    assert ResetWrites(t, u, otp, entry, newPassword, salt, now) == t3;
    assert t3 == t.(users := t1.users, otps := t3.otps);
    VerifyHashed(newPassword, newPassword, salt);
    if AtMostOnePerKey(t.otps, OtpId) && otp.Some? {
      MarkThenClearKeepsOtherCodes(t1, otp.value.id, u.id, ResetPassword, now);
    }
  }

  /** The reset entry is never marked used, so a reset that the entry
      accepted can be repeated: while the entry is fresh, the same code resets
      the password again, to any other strong password. */
  lemma ResetEntryReplayable(t: Tables, email: string, code: string, p1: string, p2: string,
                             salt1: nat, salt2: nat, now: Time, later: Time)
    requires ValidTables(t)
    requires GetUserByEmail(t.users, ToLower(email)).Some?
    requires GetActivePasswordResetToken(t.resets, GetUserByEmail(t.users, ToLower(email)).value.id, code, later).Some?
    requires StrengthErrors(p1) == [] && StrengthErrors(p2) == []
    requires now <= later
    ensures var o := ResetPasswordOp(t, email, code, p1, salt1, now);
      && o.result.Success?
      && ResetPasswordOp(o.tables, email, code, p2, salt2, later).result.Success?
  {
    var u := GetUserByEmail(t.users, ToLower(email)).value;
    var e := GetActivePasswordResetToken(t.resets, u.id, code, later).value;
    assert IsActiveReset(e, u.id, code, now);
    ResetChecks(t, email, code, p1, salt1, now);
    var o := ResetPasswordOp(t, email, code, p1, salt1, now);
    ResetSuccess(t, email, code, p1, salt1, now);
    ResetKeepsValid(t, email, code, p1, salt1, now);
    var i :| 0 <= i < |t.users| && t.users[i] == u;
    var u' := o.tables.users[i];
    assert u'.email == u.email && u'.id == u.id;
    var found := GetUserByEmail(o.tables.users, ToLower(email));
    assert u' in o.tables.users;
    AtMostOneSameRow(o.tables.users, UserEmail, found.value, u');
    assert e in o.tables.resets;
  }

  lemma ResetKeepsValid(t: Tables, email: string, code: string, newPassword: string, salt: nat, now: Time)
    requires ValidTables(t)
    ensures ValidTables(ResetPasswordOp(t, email, code, newPassword, salt, now).tables)
  {
    var o := ResetPasswordOp(t, email, code, newPassword, salt, now);
    if o.result.Success? {
      var u := GetUserByEmail(t.users, ToLower(email)).value;
      var otp := GetActiveOtpCode(t.otps, u.id, code, ResetPassword, now);
      var entry := GetActivePasswordResetToken(t.resets, u.id, code, now);
      var t1 := UpdateUserPassword(t, u.id, HashPassword(newPassword, salt), now);
      UpdateUsersKeepsValid(t, t1);
      var t2 := t1;
      if otp.Some? {
        MarkOtpUsedKeepsValid(t1, otp.value.id, now);
        ClearOtpsForPurposeKeepsValid(MarkOtpUsed(t1, otp.value.id, now), u.id, ResetPassword);
        t2 := ClearOtpsForPurpose(MarkOtpUsed(t1, otp.value.id, now), u.id, ResetPassword);
      }
      if entry.Some? {
        ClearOtpsForPurposeKeepsValid(t2, u.id, ResetPassword);
      }
    }
  }

  // ---------------------------------------------------------------- changePassword

  /** `changePassword` succeeds exactly for an existing user whose current
      password matches and whose new password is strong; an unknown user and
      a wrong current password are 401s, checked before the strength. A
      success stores a hash of the new password on that user only, changes
      no other column but `updatedAt` and no other table; a failure writes
      nothing. */
  lemma ChangePasswordOutcome(t: Tables, userId: nat, currentPassword: string, newPassword: string, salt: nat, now: Time)
    ensures var o := ChangePassword(t, userId, currentPassword, newPassword, salt, now);
      var user := GetUserById(t.users, userId);
      && (o.result.Success? <==>
            user.Some? && VerifyPassword(currentPassword, user.value.passwordHash) && StrengthErrors(newPassword) == [])
      && (user.None? ==> o.result == Failure(Unauthorized(UserNotFound)))
      && (user.Some? && !VerifyPassword(currentPassword, user.value.passwordHash) ==>
            o.result == Failure(Unauthorized(InvalidCurrentPassword)))
      && (o.result.Failure? ==> o.tables == t)
      && (o.result.Success? ==>
            && o.tables == t.(users := o.tables.users)
            && |o.tables.users| == |t.users|
            && (forall i :: 0 <= i < |t.users| && t.users[i].id == userId ==>
                  && o.tables.users[i] == t.users[i].(passwordHash := o.tables.users[i].passwordHash, updatedAt := now)
                  && VerifyPassword(newPassword, o.tables.users[i].passwordHash))
            && (forall i :: 0 <= i < |t.users| && t.users[i].id != userId ==> o.tables.users[i] == t.users[i]))
  {
    VerifyHashed(newPassword, newPassword, salt);
  }

  lemma ChangePasswordKeepsValid(t: Tables, userId: nat, currentPassword: string, newPassword: string, salt: nat, now: Time)
    requires ValidTables(t)
    ensures ValidTables(ChangePassword(t, userId, currentPassword, newPassword, salt, now).tables)
  {
    var user := GetUserById(t.users, userId);
    if user.Some? {
      UpdateUsersKeepsValid(t, UpdateUserPassword(t, user.value.id, HashPassword(newPassword, salt), now));
    }
  }
}
