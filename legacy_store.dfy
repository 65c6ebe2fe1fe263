/** The older server's database as an object whose tables its store
    functions change in place. Each write method does the source's steps in
    order (delete, insert, read back; or one update) and is proved to leave
    the tables as the matching function of `LegacyTables` says, keeping the
    invariant; reads are those functions applied to the fields. */
module LegacyStore {
  import opened Wrappers
  import opened Errors
  import opened TableOps
  import opened Hashing
  import opened LegacyTables
  import opened LegacyTableProps
  import AuthTables

  class LegacyDatabase {
    var users: seq<User>
    var resets: seq<ResetToken>
    var verifications: seq<VerificationToken>
    var sessions: seq<Session>
    var nextUserId: nat
    var nextResetId: nat
    var nextVerificationId: nat
    var nextSessionId: nat

    /** The current contents of all tables. */
    function Snapshot(): State
      reads this
    {
      State(users, resets, verifications, sessions, nextUserId, nextResetId, nextVerificationId, nextSessionId)
    }

    ghost predicate Valid()
      reads this
    {
      ValidState(Snapshot())
    }

    constructor ()
      ensures Snapshot() == EmptyState()
      ensures Valid()
    {
      users, resets, verifications, sessions := [], [], [], [];
      nextUserId, nextResetId, nextVerificationId, nextSessionId := 1, 1, 1, 1;
    }

    /** `createUser(email, name, passwordHash)`. */
    method CreateUser(email: string, name: string, passwordHash: StoredHash, now: Time) returns (r: Result<User, AppError>)
      modifies this
      ensures Stored(r, Snapshot()) == LegacyTables.CreateUser(old(Snapshot()), email, name, passwordHash, now)
      ensures old(Valid()) ==> Valid()
    {
      ghost var t := Snapshot();
      if old(Valid()) {
        CreateUserKeepsValid(t, email, name, passwordHash, now);
      }
      if EmailTaken(users, email) {
        return Failure(Internal("Duplicate entry"));
      }
      var row := User(nextUserId, email, Some(name), passwordHash, None, "email", AuthTables.UserRole, False, None, now, now);
      users := users + [row];
      nextUserId := nextUserId + 1;
      var created := GetUserByEmail(users, email);
      if created.None? {
        return Failure(Internal("Failed to create user"));
      }
      return Success(created.value);
    }

    /** `updateUserPassword(email, passwordHash)`. */
    method UpdateUserPassword(email: string, passwordHash: StoredHash, now: Time)
      modifies this
      ensures Snapshot() == LegacyTables.UpdateUserPassword(old(Snapshot()), email, passwordHash, now)
      ensures old(Valid()) ==> Valid()
    {
      ghost var t := Snapshot();
      if old(Valid()) {
        UserUpdatesKeepValid(t, email, 0, passwordHash, true, now);
      }
      users := UpdateWhere(users, (u: User) => u.email == email,
                           (u: User) => u.(passwordHash := passwordHash, updatedAt := now));
    }

    /** `updateUserEmailVerified(email, isVerified)`. */
    method UpdateUserEmailVerified(email: string, isVerified: bool, now: Time)
      modifies this
      ensures Snapshot() == LegacyTables.UpdateUserEmailVerified(old(Snapshot()), email, isVerified, now)
      ensures old(Valid()) ==> Valid()
    {
      ghost var t := Snapshot();
      if old(Valid()) {
        UserUpdatesKeepValid(t, email, 0, Empty, isVerified, now);
      }
      var flag := if isVerified then True else False;
      users := UpdateWhere(users, (u: User) => u.email == email,
                           (u: User) => u.(isEmailVerified := flag, updatedAt := now));
    }

    /** `updateUserLastSignedIn(userId)`. */
    method UpdateUserLastSignedIn(userId: nat, now: Time)
      modifies this
      ensures Snapshot() == LegacyTables.UpdateUserLastSignedIn(old(Snapshot()), userId, now)
      ensures old(Valid()) ==> Valid()
    {
      ghost var t := Snapshot();
      if old(Valid()) {
        UserUpdatesKeepValid(t, "", userId, Empty, true, now);
      }
      users := UpdateWhere(users, (u: User) => u.id == userId,
                           (u: User) => u.(lastSignedIn := Some(now), updatedAt := now));
    }

    /** `upsertUser(user)`: build `values` and `updateSet` field by field,
        then insert, updating the colliding row instead when there is one. */
    method UpsertUser(user: InsertUser, ownerOpenId: string, now: Time) returns (r: Result<(), AppError>)
      modifies this
      ensures Stored(r, Snapshot()) == LegacyTables.UpsertUser(old(Snapshot()), user, ownerOpenId, now)
      ensures old(Valid()) ==> Valid()
    {
      ghost var t := Snapshot();
      if old(Valid()) {
        UpsertKeepsValid(t, user, ownerOpenId, now);
      }
      if !(user.openId.Given? && user.openId.value != "") {
        return Failure(Internal("User openId is required for upsert"));
      }
      var openId := user.openId.value;
      var values, updateSet := AssignTextFields(openId, user);
      values, updateSet := AssignRemaining(values, updateSet, user, openId, ownerOpenId, now);
      InsertOrUpdate(values, updateSet, openId, EmailOrEmpty(user), now);
      return Success(());
    }

    /** `insert into users values(values) on duplicate key update set updateSet`. */
    method InsertOrUpdate(values: map<string, Field>, updateSet: map<string, Field>, openId: string, email: string, now: Time)
      modifies this
      ensures Snapshot() == LegacyTables.InsertOrUpdate(old(Snapshot()), values, updateSet, openId, email, now)
    {
      var hit := FirstCollision(users, openId, email);
      if hit.Some? {
        users := users[hit.value := ApplyUpdateSet(users[hit.value], updateSet, now)];
      } else {
        users := users + [RowFromValues(nextUserId, values, now)];
        nextUserId := nextUserId + 1;
      }
    }
    /** `createPasswordResetToken(email, otp, expiresAt)`. */
    method CreatePasswordResetToken(email: string, otp: string, expiresAt: Time, now: Time) returns (r: Result<ResetToken, AppError>)
      modifies this
      ensures Stored(r, Snapshot()) == LegacyTables.CreatePasswordResetToken(old(Snapshot()), email, otp, expiresAt, now)
      ensures old(Valid()) ==> Valid()
    {
      ghost var t := Snapshot();
      if old(Valid()) {
        TokenWritesKeepValid(t, email, otp, expiresAt, now);
      }
      resets := WithoutKey(resets, ResetEmail, email);
      resets := resets + [ResetToken(nextResetId, email, otp, False, expiresAt, now, now)];
      nextResetId := nextResetId + 1;
      var token := GetPasswordResetToken(resets, email, otp, now);
      if token.None? {
        return Failure(Internal("Failed to create password reset token"));
      }
      return Success(token.value);
    }

    /** `verifyPasswordResetToken(email, otp)`. */
    method VerifyPasswordResetToken(email: string, otp: string, now: Time)
      modifies this
      ensures Snapshot() == LegacyTables.VerifyPasswordResetToken(old(Snapshot()), email, otp, now)
      ensures old(Valid()) ==> Valid()
    {
      ghost var t := Snapshot();
      if old(Valid()) {
        TokenWritesKeepValid(t, email, otp, now, now);
      }
      resets := UpdateWhere(resets, (x: ResetToken) => ResetPair(x) == (email, otp),
                            (x: ResetToken) => x.(isVerified := True, updatedAt := now));
    }

    /** `deletePasswordResetToken(email, otp)`. */
    method DeletePasswordResetToken(email: string, otp: string)
      modifies this
      ensures Snapshot() == LegacyTables.DeletePasswordResetToken(old(Snapshot()), email, otp)
      ensures old(Valid()) ==> Valid()
    {
      ghost var t := Snapshot();
      if old(Valid()) {
        TokenWritesKeepValid(t, email, otp, 0, 0);
      }
      resets := WithoutKey(resets, ResetPair, (email, otp));
    }

    /** `createEmailVerificationToken(email, code, expiresAt)`. */
    method CreateEmailVerificationToken(email: string, code: string, expiresAt: Time, now: Time)
      returns (r: Result<VerificationToken, AppError>)
      modifies this
      ensures Stored(r, Snapshot()) == LegacyTables.CreateEmailVerificationToken(old(Snapshot()), email, code, expiresAt, now)
      ensures old(Valid()) ==> Valid()
    {
      ghost var t := Snapshot();
      if old(Valid()) {
        TokenWritesKeepValid(t, email, code, expiresAt, now);
      }
      verifications := WithoutKey(verifications, VerificationEmail, email);
      verifications := verifications + [VerificationToken(nextVerificationId, email, code, False, expiresAt, now, now)];
      nextVerificationId := nextVerificationId + 1;
      var token := GetEmailVerificationToken(verifications, email, code, now);
      if token.None? {
        return Failure(Internal("Failed to create email verification token"));
      }
      return Success(token.value);
    }

    /** `verifyEmailVerificationToken(email, code)`. */
    method VerifyEmailVerificationToken(email: string, code: string, now: Time)
      modifies this
      ensures Snapshot() == LegacyTables.VerifyEmailVerificationToken(old(Snapshot()), email, code, now)
      ensures old(Valid()) ==> Valid()
    {
      ghost var t := Snapshot();
      if old(Valid()) {
        TokenWritesKeepValid(t, email, code, now, now);
      }
      verifications := UpdateWhere(verifications, (v: VerificationToken) => VerificationPair(v) == (email, code),
                                   (v: VerificationToken) => v.(isVerified := True, updatedAt := now));
    }

    /** `deleteEmailVerificationToken(email, code)`. */
    method DeleteEmailVerificationToken(email: string, code: string)
      modifies this
      ensures Snapshot() == LegacyTables.DeleteEmailVerificationToken(old(Snapshot()), email, code)
      ensures old(Valid()) ==> Valid()
    {
      ghost var t := Snapshot();
      if old(Valid()) {
        TokenWritesKeepValid(t, email, code, 0, 0);
      }
      verifications := WithoutKey(verifications, VerificationPair, (email, code));
    }

    /** `createSession(userId, token, expiresAt, ipAddress, userAgent)`. */
    method CreateSession(userId: nat, token: string, expiresAt: Time, ipAddress: Option<string>,
                         userAgent: Option<string>, now: Time) returns (r: Result<Session, AppError>)
      modifies this
      ensures Stored(r, Snapshot()) == LegacyTables.CreateSession(old(Snapshot()), userId, token, expiresAt, ipAddress, userAgent, now)
      ensures old(Valid()) ==> Valid()
    {
      sessions := sessions + [Session(nextSessionId, userId, token, expiresAt, ipAddress, userAgent, True, now, now)];
      nextSessionId := nextSessionId + 1;
      var session := GetSession(sessions, token, now);
      if session.None? {
        return Failure(Internal("Failed to create session"));
      }
      return Success(session.value);
    }

    /** `invalidateSession(token)`. */
    method InvalidateSession(token: string, now: Time)
      modifies this
      ensures Snapshot() == LegacyTables.InvalidateSession(old(Snapshot()), token, now)
      ensures old(Valid()) ==> Valid()
    {
      sessions := UpdateWhere(sessions, (s: Session) => s.token == token,
                              (s: Session) => s.(isActive := False, updatedAt := now));
    }

    /** `invalidateAllUserSessions(userId)`. */
    method InvalidateAllUserSessions(userId: nat, now: Time)
      modifies this
      ensures Snapshot() == LegacyTables.InvalidateAllUserSessions(old(Snapshot()), userId, now)
      ensures old(Valid()) ==> Valid()
    {
      sessions := UpdateWhere(sessions, (s: Session) => s.userId == userId,
                              (s: Session) => s.(isActive := False, updatedAt := now));
    }
  }

  /** The initial `values` and `textFields.forEach(assignNullable)` on both dictionaries. */
  method AssignTextFields(openId: string, user: InsertUser) returns (values: map<string, Field>, updateSet: map<string, Field>)
    ensures values == AssignAll(BaseValues(openId, user), user, TextFields)
    ensures updateSet == AssignAll(map[], user, TextFields)
  {
    var email := if user.email.Given? then user.email.value else "";
    values := map["openId" := Text(openId), "email" := Text(email), "loginMethod" := Text("oauth")];
    updateSet := map[];
    for i := 0 to |TextFields|
      invariant values == AssignAll(BaseValues(openId, user), user, TextFields[..i])
      invariant updateSet == AssignAll(map[], user, TextFields[..i])
    {
      var field := TextFields[i];
      var value := TextField(user, field);
      if value.Given? {
        values := values[field := Text(value.value)];
        updateSet := updateSet[field := Text(value.value)];
      }
      assert TextFields[..i + 1][..i] == TextFields[..i];
    }
    assert TextFields[..|TextFields|] == TextFields;
  }

  /** The assignments of `upsertUser` after the text fields: the sign-in time,
      the role, the default sign-in time and the non-empty `updateSet`. */
  method AssignRemaining(values0: map<string, Field>, updateSet0: map<string, Field>, user: InsertUser,
                         openId: string, ownerOpenId: string, now: Time)
    returns (values: map<string, Field>, updateSet: map<string, Field>)
    ensures (values, updateSet) == FinishAssignments(values0, updateSet0, user, openId, ownerOpenId, now)
  {
    values, updateSet := values0, updateSet0;
    if user.lastSignedIn != Undefined {
      values := values["lastSignedIn" := StampOf(user.lastSignedIn)];
      updateSet := updateSet["lastSignedIn" := StampOf(user.lastSignedIn)];
    }
    if user.role.Some? {
      values := values["role" := RoleValue(user.role.value)];
      updateSet := updateSet["role" := RoleValue(user.role.value)];
    } else if openId == ownerOpenId {
      values := values["role" := RoleValue(AuthTables.AdminRole)];
      updateSet := updateSet["role" := RoleValue(AuthTables.AdminRole)];
    }
    if "lastSignedIn" !in values || values["lastSignedIn"] == Stamp(None) {
      values := values["lastSignedIn" := Stamp(Some(now))];
    }
    if |updateSet| == 0 {
      updateSet := updateSet["lastSignedIn" := Stamp(Some(now))];
    }
  }
}
