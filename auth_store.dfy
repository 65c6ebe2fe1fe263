/** The bundled server's database as an object whose tables the store
    functions change in place. Each write method does the source's steps in
    order (delete, insert, read back) and is proved to leave the tables as the
    matching function of `AuthTables` says; reads are those functions applied
    to the current tables. */
module AuthStore {
  import opened Wrappers
  import opened Errors
  import opened JsText
  import opened TableOps
  import opened Hashing
  import opened AuthTables

  class Database {
    var users: seq<UserRow>
    var sessions: seq<SessionRow>
    var verifications: seq<VerificationRow>
    var otps: seq<OtpRow>
    var resets: seq<ResetRow>
    var nextUserId: nat
    var nextSessionId: nat
    var nextVerificationId: nat
    var nextOtpId: nat
    var nextResetId: nat

    /** The current contents of all tables. */
    function Snapshot(): Tables
      reads this
    {
      Tables(users, sessions, verifications, otps, resets,
             nextUserId, nextSessionId, nextVerificationId, nextOtpId, nextResetId)
    }

    ghost predicate Valid()
      reads this
    {
      ValidTables(Snapshot())
    }

    constructor ()
      ensures Snapshot() == EmptyTables()
      ensures Valid()
    {
      users, sessions, verifications, otps, resets := [], [], [], [], [];
      nextUserId, nextSessionId, nextVerificationId, nextOtpId, nextResetId := 1, 1, 1, 1, 1;
    }

    method CreateUser(email: string, username: Option<string>, name: Option<string>,
                      passwordHash: StoredHash, role: Option<Role>, now: Time) returns (r: Result<UserRow, AppError>)
      modifies this
      ensures Stored(r, Snapshot()) == AuthTables.CreateUser(old(Snapshot()), email, username, name, passwordHash, role, now)
      ensures old(Valid()) ==> Valid()
    {
      ghost var t := Snapshot();
      if old(Valid()) {
        CreateUserKeepsValid(t, email, username, name, passwordHash, role, now);
      }
      var row := NewUser(Snapshot(), email, username, name, passwordHash, role, now);
      if UserTaken(users, row.email, username) {
        return Failure(Internal("Duplicate entry"));
      }
      users := users + [row];
      nextUserId := nextUserId + 1;
      var created := GetUserByEmail(users, email);
      if created.None? {
        return Failure(Internal("Failed to create user"));
      }
      return Success(created.value);
    }

    method UpdateUserPassword(userId: nat, passwordHash: StoredHash, now: Time)
      modifies this
      ensures Snapshot() == AuthTables.UpdateUserPassword(old(Snapshot()), userId, passwordHash, now)
      ensures old(Valid()) ==> Valid()
    {
      ghost var t := Snapshot();
      users := UpdateUsers(users, userId, (u: UserRow) => u.(passwordHash := passwordHash, updatedAt := now));
      if old(Valid()) {
        UpdateUsersKeepsValid(t, Snapshot());
      }
    }

    method UpdateUserVerified(userId: nat, isVerified: bool, now: Time)
      modifies this
      ensures Snapshot() == AuthTables.UpdateUserVerified(old(Snapshot()), userId, isVerified, now)
      ensures old(Valid()) ==> Valid()
    {
      ghost var t := Snapshot();
      users := UpdateUsers(users, userId, (u: UserRow) => u.(isVerified := isVerified, updatedAt := now));
      if old(Valid()) {
        UpdateUsersKeepsValid(t, Snapshot());
      }
    }

    method UpdateUserLastSignedIn(userId: nat, now: Time)
      modifies this
      ensures Snapshot() == AuthTables.UpdateUserLastSignedIn(old(Snapshot()), userId, now)
      ensures old(Valid()) ==> Valid()
    {
      ghost var t := Snapshot();
      users := UpdateUsers(users, userId, (u: UserRow) => u.(lastSignedIn := Some(now), updatedAt := now));
      if old(Valid()) {
        UpdateUsersKeepsValid(t, Snapshot());
      }
    }

    method CreateSession(userId: nat, sessionToken: string, expiresAt: Time, now: Time) returns (r: Result<SessionRow, AppError>)
      modifies this
      ensures Stored(r, Snapshot()) == AuthTables.CreateSession(old(Snapshot()), userId, sessionToken, expiresAt, now)
      ensures old(Valid()) ==> Valid()
    {
      var row := SessionRow(nextSessionId, userId, sessionToken, None, expiresAt, now, None);
      sessions := sessions + [row];
      nextSessionId := nextSessionId + 1;
      var found := SessionByToken(sessions, sessionToken);
      if found.None? {
        return Failure(Internal("Failed to create session"));
      }
      return Success(found.value);
    }

    method RevokeSession(sessionToken: string, now: Time)
      modifies this
      ensures Snapshot() == AuthTables.RevokeSession(old(Snapshot()), sessionToken, now)
      ensures old(Valid()) ==> Valid()
    {
      var ss := sessions;
      sessions := seq(|ss|, i requires 0 <= i < |ss| =>
        if ss[i].sessionToken == sessionToken then ss[i].(revokedAt := Some(now)) else ss[i]);
    }

    method SaveEmailVerificationToken(userId: nat, email: string, code: string, token: string,
                                      expiresAt: Time, now: Time) returns (r: Result<VerificationRow, AppError>)
      modifies this
      ensures Stored(r, Snapshot()) == AuthTables.SaveEmailVerificationToken(old(Snapshot()), userId, email, code, token, expiresAt, now)
      ensures old(Valid()) ==> Valid()
    {
      ghost var t := Snapshot();
      if old(Valid()) {
        SaveEmailVerificationTokenKeepsValid(t, userId, email, code, token, expiresAt, now);
      }
      var row := NewVerification(Snapshot(), userId, email, code, token, expiresAt);
      verifications := WithoutKey(verifications, VerificationEmail, ToLower(email));
      verifications := verifications + [row];
      nextVerificationId := nextVerificationId + 1;
      var created := ActiveVerification(verifications, ToLower(email), code, now);
      if created.None? {
        return Failure(Internal("Failed to create email verification token"));
      }
      return Success(created.value);
    }

    method ConsumeEmailVerificationCode(email: string, code: string, now: Time) returns (token: Option<VerificationRow>)
      modifies this
      ensures (token, Snapshot()) == AuthTables.ConsumeEmailVerificationCode(old(Snapshot()), email, code, now)
      ensures old(Valid()) ==> Valid()
    {
      ghost var t := Snapshot();
      if old(Valid()) {
        ConsumeKeepsValid(t, email, code, now);
      }
      token := ActiveVerification(verifications, ToLower(email), code, now);
      if token.None? {
        return;
      }
      verifications := MarkVerificationUsed(verifications, token.value.id, now);
    }

    method CreateOtpCode(userId: nat, code: string, purpose: string, expiresAt: Time, now: Time) returns (r: Result<OtpRow, AppError>)
      modifies this
      ensures Stored(r, Snapshot()) == AuthTables.CreateOtpCode(old(Snapshot()), userId, code, purpose, expiresAt, now)
      ensures old(Valid()) ==> Valid()
    {
      ghost var t := Snapshot();
      if old(Valid()) {
        CreateOtpCodeKeepsValid(t, userId, code, purpose, expiresAt, now);
      }
      var row := NewOtp(Snapshot(), userId, code, purpose, expiresAt);
      otps := WithoutKey(otps, OtpKey, (userId, purpose));
      otps := otps + [row];
      nextOtpId := nextOtpId + 1;
      var created := GetActiveOtpCode(otps, userId, code, purpose, now);
      if created.None? {
        return Failure(Internal("Failed to create OTP code"));
      }
      return Success(created.value);
    }

    method MarkOtpUsed(id: nat, now: Time)
      modifies this
      ensures Snapshot() == AuthTables.MarkOtpUsed(old(Snapshot()), id, now)
      ensures old(Valid()) ==> Valid()
    {
      ghost var t := Snapshot();
      if old(Valid()) {
        MarkOtpUsedKeepsValid(t, id, now);
      }
      var os := otps;
      otps := seq(|os|, i requires 0 <= i < |os| =>
        if os[i].id == id then os[i].(used := true, usedAt := Some(now)) else os[i]);
    }

    method ClearOtpsForPurpose(userId: nat, purpose: string)
      modifies this
      ensures Snapshot() == AuthTables.ClearOtpsForPurpose(old(Snapshot()), userId, purpose)
      ensures old(Valid()) ==> Valid()
    {
      ghost var t := Snapshot();
      if old(Valid()) {
        ClearOtpsForPurposeKeepsValid(t, userId, purpose);
      }
      otps := WithoutKey(otps, OtpKey, (userId, purpose));
    }

    method CreatePasswordResetEntry(userId: nat, token: string, otpCode: string, expiresAt: Time) returns (r: Result<ResetRow, AppError>)
      modifies this
      ensures Stored(r, Snapshot()) == AuthTables.CreatePasswordResetEntry(old(Snapshot()), userId, token, otpCode, expiresAt)
      ensures old(Valid()) ==> Valid()
    {
      ghost var t := Snapshot();
      if old(Valid()) {
        CreatePasswordResetEntryKeepsValid(t, userId, token, otpCode, expiresAt);
      }
      var row := NewReset(Snapshot(), userId, token, otpCode, expiresAt);
      resets := WithoutKey(resets, ResetOpenKey, Some(userId));
      resets := resets + [row];
      nextResetId := nextResetId + 1;
      var found := ResetByUser(resets, userId);
      if found.None? {
        return Failure(Internal("Failed to create password reset entry"));
      }
      return Success(found.value);
    }
  }
}
