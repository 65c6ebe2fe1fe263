/** What the older server's store functions promise: supersession of the
    email-keyed tokens, the flags the verify and invalidate updates set and
    where, the OAuth upsert's dictionaries and row, and the invariant every
    write keeps. */
module LegacyTableProps {
  import opened Wrappers
  import opened TableOps
  import opened Hashing
  import opened LegacyTables
  import AuthTables

  // Tokens.

  /** After `createPasswordResetToken`, the email has exactly one token: the
      new one, not verified; every other email keeps its tokens. */
  lemma ResetTokenSupersedes(t: State, email: string, otp: string, expiresAt: Time, now: Time)
    ensures var t' := CreatePasswordResetToken(t, email, otp, expiresAt, now).state;
      && ByKey(t'.resets, ResetEmail, email) == [NewResetToken(t, email, otp, expiresAt, now)]
      && NewResetToken(t, email, otp, expiresAt, now).isVerified == False
      && forall e :: e != email ==> ByKey(t'.resets, ResetEmail, e) == ByKey(t.resets, ResetEmail, e)
  {
    Supersede(t.resets, ResetEmail, NewResetToken(t, email, otp, expiresAt, now));
  }

  /** The same for `createEmailVerificationToken`. */
  lemma VerificationTokenSupersedes(t: State, email: string, code: string, expiresAt: Time, now: Time)
    ensures var t' := CreateEmailVerificationToken(t, email, code, expiresAt, now).state;
      && ByKey(t'.verifications, VerificationEmail, email) == [NewVerificationToken(t, email, code, expiresAt, now)]
      && NewVerificationToken(t, email, code, expiresAt, now).isVerified == False
      && forall e :: e != email ==> ByKey(t'.verifications, VerificationEmail, e) == ByKey(t.verifications, VerificationEmail, e)
  {
    Supersede(t.verifications, VerificationEmail, NewVerificationToken(t, email, code, expiresAt, now));
  }

  /** The reset lookup does not look at `isVerified`: a token just created,
      still "false", is found while it has not expired, and only then. */
  lemma ResetLookupIgnoresFlag(t: State, email: string, otp: string, expiresAt: Time, now: Time, later: Time)
    ensures var t' := CreatePasswordResetToken(t, email, otp, expiresAt, now).state;
      var found := GetPasswordResetToken(t'.resets, email, otp, later);
      && (found.Some? <==> expiresAt > later)
      && (found.Some? ==> found.value == NewResetToken(t, email, otp, expiresAt, now) && found.value.isVerified == False)
  {
    SupersedeReset(t.resets, NewResetToken(t, email, otp, expiresAt, now), later);
  }

  /** `verifyPasswordResetToken` leaves the reset lookup finding the same
      token, now marked "true": the flag is set whatever the expiry, and the
      lookup's answer does not change at any later instant. */
  lemma {:induction false} VerifyResetMarksFound(rs: seq<ResetToken>, rs': seq<ResetToken>, email: string, otp: string,
                                                  now: Time, later: Time)
    requires |rs'| == |rs|
    requires forall i :: 0 <= i < |rs| ==>
      rs'[i] == (if ResetPair(rs[i]) == (email, otp) then rs[i].(isVerified := True, updatedAt := now) else rs[i])
    ensures var before := GetPasswordResetToken(rs, email, otp, later);
      var after := GetPasswordResetToken(rs', email, otp, later);
      && (after.Some? <==> before.Some?)
      && (after.Some? ==> after.value == before.value.(isVerified := True, updatedAt := now))
  {
    if rs != [] {
      VerifyResetMarksFound(rs[1..], rs'[1..], email, otp, now, later);
    }
  }

  /** The same for `verifyEmailVerificationToken`. */
  lemma {:induction false} VerifyEmailTokenMarksFound(vs: seq<VerificationToken>, vs': seq<VerificationToken>,
                                                       email: string, code: string, now: Time, later: Time)
    requires |vs'| == |vs|
    requires forall i :: 0 <= i < |vs| ==>
      vs'[i] == (if VerificationPair(vs[i]) == (email, code) then vs[i].(isVerified := True, updatedAt := now) else vs[i])
    ensures var before := GetEmailVerificationToken(vs, email, code, later);
      var after := GetEmailVerificationToken(vs', email, code, later);
      && (after.Some? <==> before.Some?)
      && (after.Some? ==> after.value == before.value.(isVerified := True, updatedAt := now))
  {
    if vs != [] {
      VerifyEmailTokenMarksFound(vs[1..], vs'[1..], email, code, now, later);
    }
  }

  /** After a delete of (email, code) the lookup of that pair finds nothing,
      at any instant, and every other token is still there. */
  lemma DeletedTokensAreGone(t: State, email: string, code: string, later: Time)
    ensures GetPasswordResetToken(DeletePasswordResetToken(t, email, code).resets, email, code, later).None?
    ensures GetEmailVerificationToken(DeleteEmailVerificationToken(t, email, code).verifications, email, code, later).None?
    ensures forall x :: x in t.resets && ResetPair(x) != (email, code) ==> x in DeletePasswordResetToken(t, email, code).resets
    ensures forall v :: v in t.verifications && VerificationPair(v) != (email, code) ==>
      v in DeleteEmailVerificationToken(t, email, code).verifications
  {
    var rs := DeletePasswordResetToken(t, email, code).resets;
    var vs := DeleteEmailVerificationToken(t, email, code).verifications;
    assert forall x :: x in rs ==> ResetPair(x) != (email, code);
    assert forall v :: v in vs ==> VerificationPair(v) != (email, code);
  }

  // Sessions.

  /** After `invalidateSession(token)`, `getSession(token)` finds nothing at any instant. */
  lemma InvalidateSessionEndsIt(t: State, token: string, now: Time, later: Time)
    ensures GetSession(InvalidateSession(t, token, now).sessions, token, later).None?
  {
    var ss := InvalidateSession(t, token, now).sessions;
    forall s | s in ss ensures !IsLiveSession(s, token, later) {
      var i :| 0 <= i < |ss| && ss[i] == s;
    }
  }

  /** A session created with a future expiry is found by its token until it
      is invalidated. */
  lemma SessionLifecycle(t: State, userId: nat, token: string, expiresAt: Time,
                         ipAddress: Option<string>, userAgent: Option<string>, now: Time, later: Time)
    requires expiresAt > now
    ensures var c := CreateSession(t, userId, token, expiresAt, ipAddress, userAgent, now);
      && c.result.Success? && c.result.value.isActive == True
      && GetSession(c.state.sessions, token, now).Some?
      && GetSession(InvalidateSession(c.state, token, later).sessions, token, later).None?
  {
    var c := CreateSession(t, userId, token, expiresAt, ipAddress, userAgent, now);
    assert c.result.value in c.state.sessions;
    InvalidateSessionEndsIt(c.state, token, later, later);
  }

  /** After `invalidateAllUserSessions(userId)` that user has no active
      session, and a token none of whose sessions is the user's is looked up
      as before. */
  lemma {:induction false} InvalidateAllOnlyThatUser(ss: seq<Session>, ss': seq<Session>, userId: nat,
                                                      now: Time, token: string, later: Time)
    requires |ss'| == |ss|
    requires forall i :: 0 <= i < |ss| ==>
      ss'[i] == (if ss[i].userId == userId then ss[i].(isActive := False, updatedAt := now) else ss[i])
    ensures forall s :: s in ss' && s.userId == userId ==> s.isActive == False
    ensures (forall s :: s in ss && s.token == token ==> s.userId != userId) ==>
      GetSession(ss', token, later) == GetSession(ss, token, later)
  {
    forall s | s in ss' && s.userId == userId ensures s.isActive == False {
      var i :| 0 <= i < |ss'| && ss'[i] == s;
    }
    if ss != [] {
      InvalidateAllOnlyThatUser(ss[1..], ss'[1..], userId, now, token, later);
      if (forall s :: s in ss && s.token == token ==> s.userId != userId) {
        assert forall s :: s in ss[1..] ==> s in ss;
      }
    }
  }

  // The OAuth upsert.

  /** The `forEach` over the two text fields, unrolled. */
  lemma AssignAllTextFields(m: map<string, Field>, user: InsertUser)
    ensures AssignAll(m, user, TextFields) == AssignNullable(AssignNullable(m, user, "name"), user, "loginMethod")
  {
    assert TextFields[..1] == ["name"];
    assert ["name"][..0] == [];
  }

  /** The dictionaries of `upsertUser`: `values` always carries the OAuth id,
      the email (or ""), a login method ("oauth" unless given) and a sign-in
      time; the text fields, the sign-in time and the role go into both
      dictionaries exactly when given; the role is "admin" only when given so
      or, with no role given, for the owner; `updateSet` touches no key
      column and is never empty. */
  lemma UpsertAssignmentsMeaning(user: InsertUser, openId: string, ownerOpenId: string, now: Time)
    ensures var a := UpsertAssignments(user, openId, ownerOpenId, now);
      var values := a.0;
      var updateSet := a.1;
      var role := AssignedRole(user, openId, ownerOpenId);
      && |updateSet| > 0
      && (forall k :: k in updateSet ==> k == "name" || k == "loginMethod" || k == "lastSignedIn" || k == "role")
      && "openId" in values && values["openId"] == Text(openId)
      && "email" in values && values["email"] == Text(EmailOrEmpty(user))
      && "loginMethod" in values
      && values["loginMethod"] == Text(if user.loginMethod.Given? then user.loginMethod.value else "oauth")
      && ("loginMethod" in updateSet <==> user.loginMethod.Given?)
      && (user.loginMethod.Given? ==> updateSet["loginMethod"] == Text(user.loginMethod.value))
      && ("name" in values <==> user.name.Given?) && ("name" in updateSet <==> user.name.Given?)
      && (user.name.Given? ==> values["name"] == Text(user.name.value) && updateSet["name"] == Text(user.name.value))
      && ("role" in values <==> role.Some?) && ("role" in updateSet <==> role.Some?)
      && (role.Some? ==> values["role"] == RoleValue(role.value) && updateSet["role"] == RoleValue(role.value))
      && (role == Some(AuthTables.AdminRole) <==>
          user.role == Some(AuthTables.AdminRole) || (user.role.None? && openId == ownerOpenId))
      && "lastSignedIn" in values
      && values["lastSignedIn"] == Stamp(Some(if user.lastSignedIn.Given? then user.lastSignedIn.value else now))
      && (user.lastSignedIn != Undefined ==> updateSet["lastSignedIn"] == StampOf(user.lastSignedIn))
      && (!user.name.Given? && !user.loginMethod.Given? && user.lastSignedIn == Undefined && role.None? ==>
          updateSet == map["lastSignedIn" := Stamp(Some(now))])
  {
    UpsertValuesMeaning(user, openId, ownerOpenId, now);
    UpsertUpdateSetMeaning(user, openId, ownerOpenId, now);
  }

  /** What the text-field `forEach` adds to a dictionary. */
  lemma TextFieldsAssigned(m: map<string, Field>, user: InsertUser)
    ensures var r := AssignAll(m, user, TextFields);
      && (forall k :: k in r <==> k in m || (k == "name" && user.name.Given?) || (k == "loginMethod" && user.loginMethod.Given?))
      && (user.name.Given? ==> r["name"] == Text(user.name.value))
      && (user.loginMethod.Given? ==> r["loginMethod"] == Text(user.loginMethod.value))
      && (!user.loginMethod.Given? && "loginMethod" in m ==> r["loginMethod"] == m["loginMethod"])
      && (forall k :: k in m && k != "name" && k != "loginMethod" ==> r[k] == m[k])
  {
    AssignAllTextFields(m, user);
  }

  /** The `values` half of `UpsertAssignmentsMeaning`. */
  lemma UpsertValuesMeaning(user: InsertUser, openId: string, ownerOpenId: string, now: Time)
    ensures var values := UpsertAssignments(user, openId, ownerOpenId, now).0;
      var role := AssignedRole(user, openId, ownerOpenId);
      && "openId" in values && values["openId"] == Text(openId)
      && "email" in values && values["email"] == Text(EmailOrEmpty(user))
      && "loginMethod" in values
      && values["loginMethod"] == Text(if user.loginMethod.Given? then user.loginMethod.value else "oauth")
      && ("name" in values <==> user.name.Given?)
      && (user.name.Given? ==> values["name"] == Text(user.name.value))
      && ("role" in values <==> role.Some?)
      && (role.Some? ==> values["role"] == RoleValue(role.value))
      && "lastSignedIn" in values
      && values["lastSignedIn"] == Stamp(Some(if user.lastSignedIn.Given? then user.lastSignedIn.value else now))
  {
    var base := BaseValues(openId, user);
    TextFieldsAssigned(base, user);
    var v0 := AssignAll(base, user, TextFields);
    assert "lastSignedIn" !in v0 && "role" !in v0;
  }

  /** The `updateSet` half of `UpsertAssignmentsMeaning`, with the role rule. */
  lemma UpsertUpdateSetMeaning(user: InsertUser, openId: string, ownerOpenId: string, now: Time)
    ensures var updateSet := UpsertAssignments(user, openId, ownerOpenId, now).1;
      var role := AssignedRole(user, openId, ownerOpenId);
      && |updateSet| > 0
      && (forall k :: k in updateSet ==> k == "name" || k == "loginMethod" || k == "lastSignedIn" || k == "role")
      && ("loginMethod" in updateSet <==> user.loginMethod.Given?)
      && (user.loginMethod.Given? ==> updateSet["loginMethod"] == Text(user.loginMethod.value))
      && ("name" in updateSet <==> user.name.Given?)
      && (user.name.Given? ==> updateSet["name"] == Text(user.name.value))
      && ("role" in updateSet <==> role.Some?)
      && (role.Some? ==> updateSet["role"] == RoleValue(role.value))
      && (role == Some(AuthTables.AdminRole) <==>
          user.role == Some(AuthTables.AdminRole) || (user.role.None? && openId == ownerOpenId))
      && (user.lastSignedIn != Undefined ==> updateSet["lastSignedIn"] == StampOf(user.lastSignedIn))
      && (!user.name.Given? && !user.loginMethod.Given? && user.lastSignedIn == Undefined && role.None? ==>
          updateSet == map["lastSignedIn" := Stamp(Some(now))])
  {
    TextFieldsAssigned(map[], user);
    var u0 := AssignAll(map[], user, TextFields);
    assert "lastSignedIn" !in u0 && "role" !in u0;
    if !user.name.Given? && !user.loginMethod.Given? {
      assert u0 == map[];
    }
  }

  /** `upsertUser` for an OAuth id and an email no row has: one new row with
      that id and email, no password, not verified, the assigned role or
      "user", and a sign-in time; `getUserByOpenId` then finds it. */
  lemma UpsertInsertsNewUser(t: State, user: InsertUser, ownerOpenId: string, now: Time)
    requires OpenIdGiven(user)
    requires forall u :: u in t.users ==> !Collides(u, user.openId.value, EmailOrEmpty(user))
    ensures var openId := user.openId.value;
      var r := UpsertUser(t, user, ownerOpenId, now);
      var role := AssignedRole(user, openId, ownerOpenId);
      && r.result.Success?
      && |r.state.users| == |t.users| + 1 && r.state.users[..|t.users|] == t.users
      && r.state == t.(users := r.state.users, nextUserId := t.nextUserId + 1)
      && var row := r.state.users[|t.users|];
      && row.id == t.nextUserId && row.openId == Some(openId) && row.email == EmailOrEmpty(user)
      && row.passwordHash == Empty && row.isEmailVerified == False
      && row.name == (if user.name.Given? then Some(user.name.value) else None)
      && row.loginMethod == (if user.loginMethod.Given? then user.loginMethod.value else "oauth")
      && row.role == (if role.Some? then role.value else AuthTables.UserRole)
      && row.lastSignedIn == Some(if user.lastSignedIn.Given? then user.lastSignedIn.value else now)
      && GetUserByOpenId(r.state.users, openId) == Some(row)
  {
    var openId := user.openId.value;
    UpsertAssignmentsMeaning(user, openId, ownerOpenId, now);
    var r := UpsertUser(t, user, ownerOpenId, now);
    var row := r.state.users[|t.users|];
    assert r.state.users == t.users + [row];
    assert forall u :: u in t.users ==> u.openId != Some(openId);
    assert forall i :: 0 <= i < |t.users| ==> r.state.users[i] in t.users;
  }

  /** `upsertUser` when a row has the OAuth id or the email: only that row
      (the first such) changes; it keeps its id, email, OAuth id, password and
      verified flag, takes the given name and login method, and takes the
      assigned role when there is one. */
  lemma UpsertUpdatesExistingUser(t: State, user: InsertUser, ownerOpenId: string, now: Time, i: nat)
    requires OpenIdGiven(user)
    requires FirstCollision(t.users, user.openId.value, EmailOrEmpty(user)) == Some(i)
    ensures var openId := user.openId.value;
      var r := UpsertUser(t, user, ownerOpenId, now);
      var role := AssignedRole(user, openId, ownerOpenId);
      var old_ := t.users[i];
      && r.result.Success?
      && r.state == t.(users := r.state.users)
      && |r.state.users| == |t.users|
      && (forall j :: 0 <= j < |t.users| && j != i ==> r.state.users[j] == t.users[j])
      && var row := r.state.users[i];
      && row.id == old_.id && row.email == old_.email && row.openId == old_.openId
      && row.passwordHash == old_.passwordHash && row.isEmailVerified == old_.isEmailVerified
      && row.createdAt == old_.createdAt && row.updatedAt == now
      && row.name == (if user.name.Given? then Some(user.name.value) else old_.name)
      && row.loginMethod == (if user.loginMethod.Given? then user.loginMethod.value else old_.loginMethod)
      && row.role == (if role.Some? then role.value else old_.role)
  {
    UpsertAssignmentsMeaning(user, user.openId.value, ownerOpenId, now);
  }

  // The invariant.

  /** An update of the user rows that changes no id, email or OAuth id keeps the invariant. */
  lemma UsersSameKeysKeepValid(t: State, t': State)
    requires ValidState(t)
    requires t' == t.(users := t'.users)
    requires |t'.users| == |t.users|
    requires forall i :: 0 <= i < |t.users| ==>
      t'.users[i].id == t.users[i].id && t'.users[i].email == t.users[i].email && t'.users[i].openId == t.users[i].openId
    ensures ValidState(t')
  {
    SameKeysKeepAtMostOne(t.users, t'.users, UserEmail);
    forall u | u in t'.users ensures u.id < t'.nextUserId {
      var i :| 0 <= i < |t'.users| && t'.users[i] == u;
      assert t.users[i] in t.users;
    }
  }

  lemma CreateUserKeepsValid(t: State, email: string, name: string, passwordHash: StoredHash, now: Time)
    requires ValidState(t)
    ensures ValidState(CreateUser(t, email, name, passwordHash, now).state)
  {
    var r := CreateUser(t, email, name, passwordHash, now);
    if r.result.Success? {
      var row := NewUser(t, email, name, passwordHash, now);
      AppendFreshKeepsAtMostOne(t.users, UserEmail, row);
      assert r.state.users == t.users + [row];
      assert forall i :: 0 <= i < |t.users| ==> r.state.users[i] == t.users[i];
    }
  }

  lemma UserUpdatesKeepValid(t: State, email: string, userId: nat, passwordHash: StoredHash, isVerified: bool, now: Time)
    requires ValidState(t)
    ensures ValidState(UpdateUserPassword(t, email, passwordHash, now))
    ensures ValidState(UpdateUserEmailVerified(t, email, isVerified, now))
    ensures ValidState(UpdateUserLastSignedIn(t, userId, now))
  {
    UsersSameKeysKeepValid(t, UpdateUserPassword(t, email, passwordHash, now));
    UsersSameKeysKeepValid(t, UpdateUserEmailVerified(t, email, isVerified, now));
    UsersSameKeysKeepValid(t, UpdateUserLastSignedIn(t, userId, now));
  }

  lemma UpsertKeepsValid(t: State, user: InsertUser, ownerOpenId: string, now: Time)
    requires ValidState(t)
    ensures ValidState(UpsertUser(t, user, ownerOpenId, now).state)
  {
    if OpenIdGiven(user) {
      var openId := user.openId.value;
      var email := EmailOrEmpty(user);
      var r := UpsertUser(t, user, ownerOpenId, now);
      var hit := FirstCollision(t.users, openId, email);
      if hit.Some? {
        UpsertUpdatesExistingUser(t, user, ownerOpenId, now, hit.value);
        UsersSameKeysKeepValid(t, r.state);
      } else {
        UpsertInsertsNewUser(t, user, ownerOpenId, now);
        var row := r.state.users[|t.users|];
        assert r.state.users == t.users + [row];
        AppendFreshUserKeepsValid(t, row, openId);
      }
    }
  }

  /** A new row under the counter's id, whose email and OAuth id no row has,
      keeps the invariant. */
  lemma AppendFreshUserKeepsValid(t: State, row: User, openId: string)
    requires ValidState(t)
    requires row.id == t.nextUserId && row.openId == Some(openId)
    requires forall u :: u in t.users ==> !Collides(u, openId, row.email)
    ensures ValidState(t.(users := t.users + [row], nextUserId := t.nextUserId + 1))
  {
    var users := t.users + [row];
    AppendFreshKeepsAtMostOne(t.users, UserEmail, row);
    forall i, j | 0 <= i < j < |users| && users[i].openId.Some?
      ensures users[i].openId != users[j].openId
    {
      assert users[i] == t.users[i];
      if j < |t.users| {
        assert users[j] == t.users[j];
      } else {
        assert t.users[i] in t.users;
      }
    }
    forall u | u in users ensures u.id < t.nextUserId + 1 {
      if u != row {
        assert u in t.users;
      }
    }
  }

  lemma TokenWritesKeepValid(t: State, email: string, code: string, expiresAt: Time, now: Time)
    requires ValidState(t)
    ensures ValidState(CreatePasswordResetToken(t, email, code, expiresAt, now).state)
    ensures ValidState(VerifyPasswordResetToken(t, email, code, now))
    ensures ValidState(DeletePasswordResetToken(t, email, code))
    ensures ValidState(CreateEmailVerificationToken(t, email, code, expiresAt, now).state)
    ensures ValidState(VerifyEmailVerificationToken(t, email, code, now))
    ensures ValidState(DeleteEmailVerificationToken(t, email, code))
  {
    Supersede(t.resets, ResetEmail, NewResetToken(t, email, code, expiresAt, now));
    SameKeysKeepAtMostOne(t.resets, VerifyPasswordResetToken(t, email, code, now).resets, ResetEmail);
    WithoutKeyKeepsAtMostOne(t.resets, ResetPair, (email, code), ResetEmail);
    Supersede(t.verifications, VerificationEmail, NewVerificationToken(t, email, code, expiresAt, now));
    SameKeysKeepAtMostOne(t.verifications, VerifyEmailVerificationToken(t, email, code, now).verifications, VerificationEmail);
    WithoutKeyKeepsAtMostOne(t.verifications, VerificationPair, (email, code), VerificationEmail);
  }
}
