/** The tables of the bundled server (`users`, `sessions`,
    `email_verification_tokens`, `otp_codes`, `password_reset_tokens`) and
    what each store function does to them, as functions from one snapshot of
    the tables to the next. `now` is the clock of both the server and the
    database; auto-increment ids come from one counter per table. */
module AuthTables {
  import opened Wrappers
  import opened Errors
  import opened JsText
  import opened TableOps
  import opened Hashing

  /** Milliseconds since the epoch. */
  type Time = int

  const VerifyEmail := "verify_email"
  const ResetPassword := "reset_password"

  datatype Role = UserRole | AdminRole

  datatype UserRow = UserRow(
    id: nat, email: string, username: Option<string>, name: Option<string>,
    passwordHash: StoredHash, role: Role, isVerified: bool,
    lastSignedIn: Option<Time>, createdAt: Time, updatedAt: Time)

  datatype SessionRow = SessionRow(
    id: nat, userId: nat, sessionToken: string, refreshToken: Option<string>,
    expiresAt: Time, createdAt: Time, revokedAt: Option<Time>)

  datatype VerificationRow = VerificationRow(
    id: nat, userId: nat, email: string, token: string, code: string,
    expiresAt: Time, used: bool, usedAt: Option<Time>)

  datatype OtpRow = OtpRow(
    id: nat, userId: nat, code: string, purpose: string, expiresAt: Time,
    used: bool, usedAt: Option<Time>, attemptCount: nat)

  datatype ResetRow = ResetRow(
    id: nat, userId: nat, token: string, otpCode: string, expiresAt: Time,
    used: bool, usedAt: Option<Time>)

  datatype Tables = Tables(
    users: seq<UserRow>, sessions: seq<SessionRow>,
    verifications: seq<VerificationRow>, otps: seq<OtpRow>, resets: seq<ResetRow>,
    nextUserId: nat, nextSessionId: nat, nextVerificationId: nat,
    nextOtpId: nat, nextResetId: nat)

  /** A store function's outcome: what it returns or throws, and the tables after it. */
  datatype Stored<R> = Stored(result: Result<R, AppError>, tables: Tables)

  // Keys of the `where` clauses.

  function UserId(u: UserRow): nat { u.id }
  function UserEmail(u: UserRow): string { u.email }
  function VerificationEmail(v: VerificationRow): string { v.email }
  function OtpKey(o: OtpRow): (nat, string) { (o.userId, o.purpose) }
  function OtpId(o: OtpRow): nat { o.id }
  /** `user_id = u and used = false`: the user of an unused entry, `None` for a used one. */
  function ResetOpenKey(r: ResetRow): Option<nat> { if r.used then None else Some(r.userId) }

  // Lookups.

  /** `getUserByEmail(email)`: the first user whose email is `email` lower-cased. */
  function GetUserByEmail(users: seq<UserRow>, email: string): (r: Option<UserRow>)
    ensures r.Some? ==> r.value in users && r.value.email == ToLower(email)
    ensures r.None? <==> forall u :: u in users ==> u.email != ToLower(email)
  {
    FirstMatch(users, (u: UserRow) => u.email == ToLower(email))
  }

  predicate MatchesIdentifier(u: UserRow, identifier: string)
  {
    u.email == ToLower(identifier) || u.username == Some(identifier)
  }

  /** `getUserByEmailOrUsername(identifier)`: the first user whose email is
      the identifier lower-cased or whose username is the identifier as given. */
  function GetUserByEmailOrUsername(users: seq<UserRow>, identifier: string): (r: Option<UserRow>)
    ensures r.Some? ==> r.value in users && MatchesIdentifier(r.value, identifier)
    ensures r.None? <==> forall u :: u in users ==> !MatchesIdentifier(u, identifier)
  {
    if users == [] then None
    else if MatchesIdentifier(users[0], identifier) then Some(users[0])
    else GetUserByEmailOrUsername(users[1..], identifier)
  }

  /** The user found is the first in table order that matches, so a match on
      username can hide a later match on email and the other way round. */
  lemma {:induction false} GetUserByEmailOrUsernameIsFirst(users: seq<UserRow>, identifier: string)
    requires GetUserByEmailOrUsername(users, identifier).Some?
    ensures exists i :: 0 <= i < |users| && users[i] == GetUserByEmailOrUsername(users, identifier).value
                        && forall j :: 0 <= j < i ==> !MatchesIdentifier(users[j], identifier)
  {
    if !MatchesIdentifier(users[0], identifier) {
      var r := GetUserByEmailOrUsername(users[1..], identifier);
      GetUserByEmailOrUsernameIsFirst(users[1..], identifier);
      var i :| 0 <= i < |users[1..]| && users[1..][i] == r.value
               && forall j :: 0 <= j < i ==> !MatchesIdentifier(users[1..][j], identifier);
      assert users[i + 1] == r.value;
      forall j | 0 <= j < i + 1 ensures !MatchesIdentifier(users[j], identifier) {
        if j > 0 { assert users[j] == users[1..][j - 1]; }
      }
    } else {
      assert users[0] == GetUserByEmailOrUsername(users, identifier).value;
    }
  }

  /** `getUserById(id)`. */
  function GetUserById(users: seq<UserRow>, id: nat): (r: Option<UserRow>)
    ensures r.Some? ==> r.value in users && r.value.id == id
    ensures r.None? <==> forall u :: u in users ==> u.id != id
  {
    FirstMatch(users, (u: UserRow) => u.id == id)
  }

  /** The condition of the active-code lookups: the code is unused and `expiresAt > now`. */
  predicate IsActiveOtp(o: OtpRow, userId: nat, code: string, purpose: string, now: Time)
  {
    o.userId == userId && o.code == code && o.purpose == purpose && !o.used && o.expiresAt > now
  }

  /** `getActiveOtpCode({userId, code, purpose})`. */
  function GetActiveOtpCode(otps: seq<OtpRow>, userId: nat, code: string, purpose: string, now: Time): (r: Option<OtpRow>)
    ensures r.Some? ==> r.value in otps && IsActiveOtp(r.value, userId, code, purpose, now)
    ensures r.None? <==> forall o :: o in otps ==> !IsActiveOtp(o, userId, code, purpose, now)
  {
    FirstMatch(otps, (o: OtpRow) => IsActiveOtp(o, userId, code, purpose, now))
  }

  predicate IsActiveVerification(v: VerificationRow, email: string, code: string, now: Time)
  {
    v.email == email && v.code == code && !v.used && v.expiresAt > now
  }

  /** The `select` of `saveEmailVerificationToken` and `consumeEmailVerificationCode`. */
  function ActiveVerification(vs: seq<VerificationRow>, email: string, code: string, now: Time): (r: Option<VerificationRow>)
    ensures r.Some? ==> r.value in vs && IsActiveVerification(r.value, email, code, now)
    ensures r.None? <==> forall v :: v in vs ==> !IsActiveVerification(v, email, code, now)
  {
    FirstMatch(vs, (v: VerificationRow) => IsActiveVerification(v, email, code, now))
  }

  predicate IsActiveReset(r: ResetRow, userId: nat, otpCode: string, now: Time)
  {
    r.userId == userId && r.otpCode == otpCode && !r.used && r.expiresAt > now
  }

  /** `getActivePasswordResetToken({userId, otpCode})`. */
  function GetActivePasswordResetToken(resets: seq<ResetRow>, userId: nat, otpCode: string, now: Time): (r: Option<ResetRow>)
    ensures r.Some? ==> r.value in resets && IsActiveReset(r.value, userId, otpCode, now)
    ensures r.None? <==> forall x :: x in resets ==> !IsActiveReset(x, userId, otpCode, now)
  {
    FirstMatch(resets, (x: ResetRow) => IsActiveReset(x, userId, otpCode, now))
  }

  /** The re-select of `createPasswordResetEntry`: any entry of the user, used or not. */
  function ResetByUser(resets: seq<ResetRow>, userId: nat): (r: Option<ResetRow>)
    ensures r.Some? ==> r.value in resets && r.value.userId == userId
    ensures r.None? <==> forall x :: x in resets ==> x.userId != userId
  {
    FirstMatch(resets, (x: ResetRow) => x.userId == userId)
  }

  /** The re-select of `createSession`. */
  function SessionByToken(sessions: seq<SessionRow>, token: string): (r: Option<SessionRow>)
    ensures r.Some? ==> r.value in sessions && r.value.sessionToken == token
    ensures r.None? <==> forall s :: s in sessions ==> s.sessionToken != token
  {
    FirstMatch(sessions, (s: SessionRow) => s.sessionToken == token)
  }

  // Writes.

  /** The row `createUser` inserts: the email lower-cased, role `user` unless
      one is given, not verified. */
  function NewUser(t: Tables, email: string, username: Option<string>, name: Option<string>,
                   passwordHash: StoredHash, role: Option<Role>, now: Time): UserRow
  {
    UserRow(t.nextUserId, ToLower(email), username, name, passwordHash,
            if role.Some? then role.value else UserRole, false, Some(now), now, now)
  }

  /** Whether the unique indexes on `email` and `username` reject the row. */
  predicate UserTaken(users: seq<UserRow>, email: string, username: Option<string>)
  {
    (exists u :: u in users && u.email == email)
    || (username.Some? && exists u :: u in users && u.username == username)
  }

  /** `createUser(input)`. The unique indexes on `email` and `username` make
      the insert throw when either is taken; the inserted user is then read
      back by email. */
  function CreateUser(t: Tables, email: string, username: Option<string>, name: Option<string>,
                      passwordHash: StoredHash, role: Option<Role>, now: Time): (r: Stored<UserRow>)
    ensures r.result.Failure? <==> UserTaken(t.users, ToLower(email), username)
    ensures r.result.Failure? ==> r.tables == t
    ensures r.result.Success? ==>
      && r.result.value == NewUser(t, email, username, name, passwordHash, role, now)
      && r.tables == t.(users := t.users + [r.result.value], nextUserId := t.nextUserId + 1)
  {
    var row := NewUser(t, email, username, name, passwordHash, role, now);
    if UserTaken(t.users, row.email, username) then
      Stored(Failure(Internal("Duplicate entry")), t)
    else
      var t' := t.(users := t.users + [row], nextUserId := t.nextUserId + 1);
      assert row in t'.users;
      var created := GetUserByEmail(t'.users, email);
      if created.None? then Stored(Failure(Internal("Failed to create user")), t')
      else Stored(Success(created.value), t')
  }

  /** `update users set ... where id = userId`, for one of the three updates. */
  function UpdateUsers(users: seq<UserRow>, userId: nat, f: UserRow -> UserRow): (r: seq<UserRow>)
    ensures |r| == |users|
    ensures forall i :: 0 <= i < |users| ==> r[i] == if users[i].id == userId then f(users[i]) else users[i]
  {
    seq(|users|, i requires 0 <= i < |users| => if users[i].id == userId then f(users[i]) else users[i])
  }

  /** `updateUserPassword(userId, passwordHash)`. */
  function UpdateUserPassword(t: Tables, userId: nat, passwordHash: StoredHash, now: Time): (r: Tables)
    ensures r == t.(users := r.users)
    ensures |r.users| == |t.users|
    ensures forall i :: 0 <= i < |t.users| ==> (r.users[i] ==
      if t.users[i].id == userId then t.users[i].(passwordHash := passwordHash, updatedAt := now) else t.users[i])
  {
    t.(users := UpdateUsers(t.users, userId, (u: UserRow) => u.(passwordHash := passwordHash, updatedAt := now)))
  }

  /** `updateUserVerified(userId, isVerified)`. */
  function UpdateUserVerified(t: Tables, userId: nat, isVerified: bool, now: Time): (r: Tables)
    ensures r == t.(users := r.users)
    ensures |r.users| == |t.users|
    ensures forall i :: 0 <= i < |t.users| ==> (r.users[i] ==
      if t.users[i].id == userId then t.users[i].(isVerified := isVerified, updatedAt := now) else t.users[i])
  {
    t.(users := UpdateUsers(t.users, userId, (u: UserRow) => u.(isVerified := isVerified, updatedAt := now)))
  }

  /** `updateUserLastSignedIn(userId)`. */
  function UpdateUserLastSignedIn(t: Tables, userId: nat, now: Time): (r: Tables)
    ensures r == t.(users := r.users)
    ensures |r.users| == |t.users|
    ensures forall i :: 0 <= i < |t.users| ==> (r.users[i] ==
      if t.users[i].id == userId then t.users[i].(lastSignedIn := Some(now), updatedAt := now) else t.users[i])
  {
    t.(users := UpdateUsers(t.users, userId, (u: UserRow) => u.(lastSignedIn := Some(now), updatedAt := now)))
  }

  /** `createSession(input)`: insert, then read back by token. */
  function CreateSession(t: Tables, userId: nat, sessionToken: string, expiresAt: Time, now: Time): (r: Stored<SessionRow>)
    ensures r.tables == t.(sessions := t.sessions + [SessionRow(t.nextSessionId, userId, sessionToken, None, expiresAt, now, None)],
                          nextSessionId := t.nextSessionId + 1)
    ensures r.result.Success? && r.result.value.sessionToken == sessionToken
  {
    var row := SessionRow(t.nextSessionId, userId, sessionToken, None, expiresAt, now, None);
    var t' := t.(sessions := t.sessions + [row], nextSessionId := t.nextSessionId + 1);
    assert row in t'.sessions;
    var found := SessionByToken(t'.sessions, sessionToken);
    if found.None? then Stored(Failure(Internal("Failed to create session")), t')
    else Stored(Success(found.value), t')
  }

  /** `revokeSession(sessionToken)`. */
  function RevokeSession(t: Tables, sessionToken: string, now: Time): (r: Tables)
    ensures r == t.(sessions := r.sessions)
    ensures |r.sessions| == |t.sessions|
    ensures forall i :: 0 <= i < |t.sessions| ==> (r.sessions[i] ==
      if t.sessions[i].sessionToken == sessionToken then t.sessions[i].(revokedAt := Some(now)) else t.sessions[i])
  {
    t.(sessions := seq(|t.sessions|, i requires 0 <= i < |t.sessions| =>
         if t.sessions[i].sessionToken == sessionToken then t.sessions[i].(revokedAt := Some(now)) else t.sessions[i]))
  }

  /** The row `saveEmailVerificationToken` inserts. */
  function NewVerification(t: Tables, userId: nat, email: string, code: string, token: string, expiresAt: Time): VerificationRow
  {
    VerificationRow(t.nextVerificationId, userId, ToLower(email), token, code, expiresAt, false, None)
  }

  /** `saveEmailVerificationToken(input)`: delete the rows of the email,
      insert the new one, then read it back as an active code. When the code
      is already expired the read-back fails and the function throws, with
      the row inserted. */
  function SaveEmailVerificationToken(t: Tables, userId: nat, email: string, code: string, token: string,
                                      expiresAt: Time, now: Time): (r: Stored<VerificationRow>)
    ensures r.tables == t.(verifications := WithoutKey(t.verifications, VerificationEmail, ToLower(email))
                                            + [NewVerification(t, userId, email, code, token, expiresAt)],
                          nextVerificationId := t.nextVerificationId + 1)
    ensures r.result.Success? <==> expiresAt > now
    ensures r.result.Success? ==> r.result.value == NewVerification(t, userId, email, code, token, expiresAt)
  {
    var row := NewVerification(t, userId, email, code, token, expiresAt);
    var vs := WithoutKey(t.verifications, VerificationEmail, row.email) + [row];
    var t' := t.(verifications := vs, nextVerificationId := t.nextVerificationId + 1);
    var created := ActiveVerification(vs, row.email, code, now);
    SupersedeSelects(t.verifications, row, code, now);
    if created.None? then Stored(Failure(Internal("Failed to create email verification token")), t')
    else Stored(Success(created.value), t')
  }

  /** After superseding, an active lookup of the new row's email and code finds
      the new row when it is unexpired and nothing otherwise. */
  lemma SupersedeSelects(vs: seq<VerificationRow>, row: VerificationRow, code: string, now: Time)
    requires row.code == code && !row.used
    ensures var s := WithoutKey(vs, VerificationEmail, row.email) + [row];
      ActiveVerification(s, row.email, code, now) == if row.expiresAt > now then Some(row) else None
  {
    var s := WithoutKey(vs, VerificationEmail, row.email) + [row];
    Supersede(vs, VerificationEmail, row);
    var found := ActiveVerification(s, row.email, code, now);
    if found.Some? {
      assert found.value in ByKey(s, VerificationEmail, row.email);
    }
    if row.expiresAt > now {
      assert row in s;
    }
  }

  /** `update ... set used = true, usedAt = now where id = id` on the verification rows. */
  function MarkVerificationUsed(vs: seq<VerificationRow>, id: nat, now: Time): (r: seq<VerificationRow>)
    ensures |r| == |vs|
    ensures forall i :: 0 <= i < |vs| ==> r[i] == if vs[i].id == id then vs[i].(used := true, usedAt := Some(now)) else vs[i]
  {
    seq(|vs|, i requires 0 <= i < |vs| => if vs[i].id == id then vs[i].(used := true, usedAt := Some(now)) else vs[i])
  }

  /** `consumeEmailVerificationCode({email, code})`: the active row, now marked used. */
  function ConsumeEmailVerificationCode(t: Tables, email: string, code: string, now: Time): (r: (Option<VerificationRow>, Tables))
    ensures r.0.None? <==> ActiveVerification(t.verifications, ToLower(email), code, now).None?
    ensures r.0.None? ==> r.1 == t
    ensures r.0.Some? ==> r.0 == ActiveVerification(t.verifications, ToLower(email), code, now)
                          && r.1 == t.(verifications := MarkVerificationUsed(t.verifications, r.0.value.id, now))
  {
    var token := ActiveVerification(t.verifications, ToLower(email), code, now);
    if token.None? then (None, t)
    else (token, t.(verifications := MarkVerificationUsed(t.verifications, token.value.id, now)))
  }

  /** The row `createOtpCode` inserts. */
  function NewOtp(t: Tables, userId: nat, code: string, purpose: string, expiresAt: Time): OtpRow
  {
    OtpRow(t.nextOtpId, userId, code, purpose, expiresAt, false, None, 0)
  }

  /** `createOtpCode(input)`: delete the user's codes of that purpose, insert
      the new one, then read it back as an active code, which fails when it
      is already expired (the row stays). */
  function CreateOtpCode(t: Tables, userId: nat, code: string, purpose: string, expiresAt: Time, now: Time): (r: Stored<OtpRow>)
    ensures r.tables == t.(otps := WithoutKey(t.otps, OtpKey, (userId, purpose)) + [NewOtp(t, userId, code, purpose, expiresAt)],
                          nextOtpId := t.nextOtpId + 1)
    ensures r.result.Success? <==> expiresAt > now
    ensures r.result.Success? ==> r.result.value == NewOtp(t, userId, code, purpose, expiresAt)
  {
    var row := NewOtp(t, userId, code, purpose, expiresAt);
    var os := WithoutKey(t.otps, OtpKey, (userId, purpose)) + [row];
    var t' := t.(otps := os, nextOtpId := t.nextOtpId + 1);
    var created := GetActiveOtpCode(os, userId, code, purpose, now);
    SupersedeOtpSelects(t.otps, row, now);
    if created.None? then Stored(Failure(Internal("Failed to create OTP code")), t')
    else Stored(Success(created.value), t')
  }

  lemma SupersedeOtpSelects(os: seq<OtpRow>, row: OtpRow, now: Time)
    requires !row.used
    ensures var s := WithoutKey(os, OtpKey, OtpKey(row)) + [row];
      GetActiveOtpCode(s, row.userId, row.code, row.purpose, now) == if row.expiresAt > now then Some(row) else None
  {
    var s := WithoutKey(os, OtpKey, OtpKey(row)) + [row];
    Supersede(os, OtpKey, row);
    var found := GetActiveOtpCode(s, row.userId, row.code, row.purpose, now);
    if found.Some? {
      assert found.value in ByKey(s, OtpKey, OtpKey(row));
    }
    if row.expiresAt > now {
      assert row in s;
    }
  }

  /** `markOtpUsed(id)`. */
  function MarkOtpUsed(t: Tables, id: nat, now: Time): (r: Tables)
    ensures r == t.(otps := r.otps)
    ensures |r.otps| == |t.otps|
    ensures forall i :: 0 <= i < |t.otps| ==> (r.otps[i] ==
      if t.otps[i].id == id then t.otps[i].(used := true, usedAt := Some(now)) else t.otps[i])
  {
    t.(otps := seq(|t.otps|, i requires 0 <= i < |t.otps| =>
         if t.otps[i].id == id then t.otps[i].(used := true, usedAt := Some(now)) else t.otps[i]))
  }

  /** `clearOtpsForPurpose(userId, purpose)`. */
  function ClearOtpsForPurpose(t: Tables, userId: nat, purpose: string): (r: Tables)
    ensures r == t.(otps := r.otps)
    ensures forall o :: o in r.otps <==> o in t.otps && !(o.userId == userId && o.purpose == purpose)
  {
    t.(otps := WithoutKey(t.otps, OtpKey, (userId, purpose)))
  }

  /** The row `createPasswordResetEntry` inserts. */
  function NewReset(t: Tables, userId: nat, token: string, otpCode: string, expiresAt: Time): ResetRow
  {
    ResetRow(t.nextResetId, userId, token, otpCode, expiresAt, false, None)
  }

  /** `createPasswordResetEntry(input)`: delete the user's unused entries,
      insert the new one, then read back the user's first entry of any kind. */
  function CreatePasswordResetEntry(t: Tables, userId: nat, token: string, otpCode: string, expiresAt: Time): (r: Stored<ResetRow>)
    ensures r.tables == t.(resets := WithoutKey(t.resets, ResetOpenKey, Some(userId)) + [NewReset(t, userId, token, otpCode, expiresAt)],
                          nextResetId := t.nextResetId + 1)
    ensures r.result.Success?
    ensures r.result.value.userId == userId
  {
    var row := NewReset(t, userId, token, otpCode, expiresAt);
    var rs := WithoutKey(t.resets, ResetOpenKey, Some(userId)) + [row];
    var t' := t.(resets := rs, nextResetId := t.nextResetId + 1);
    assert row in rs;
    var found := ResetByUser(rs, userId);
    if found.None? then Stored(Failure(Internal("Failed to create password reset entry")), t')
    else Stored(Success(found.value), t')
  }

  // The invariant the store functions keep.

  /** Emails are stored lower-cased. */
  ghost predicate EmailsLowerCase(users: seq<UserRow>)
  {
    forall u :: u in users ==> ToLower(u.email) == u.email
  }

  /** Two users never share a username. */
  ghost predicate UsernamesUnique(users: seq<UserRow>)
  {
    forall i, j :: 0 <= i < j < |users| && users[i].username.Some? ==> users[i].username != users[j].username
  }

  ghost predicate UserIdsBelow(users: seq<UserRow>, next: nat)
  {
    forall u :: u in users ==> u.id < next
  }

  ghost predicate OtpIdsBelow(otps: seq<OtpRow>, next: nat)
  {
    forall o :: o in otps ==> o.id < next
  }

  /** The state every sequence of store functions called by the services keeps:
      users have distinct ids, distinct lower-case emails and distinct usernames;
      codes have distinct ids below the counter and each (user, purpose) has at
      most one; each email at most one verification row; each user at most one
      reset entry, and no entry is used. */
  ghost predicate ValidTables(t: Tables)
  {
    && UserIdsBelow(t.users, t.nextUserId)
    && AtMostOnePerKey(t.users, UserId)
    && EmailsLowerCase(t.users)
    && AtMostOnePerKey(t.users, UserEmail)
    && UsernamesUnique(t.users)
    && OtpIdsBelow(t.otps, t.nextOtpId)
    && AtMostOnePerKey(t.otps, OtpId)
    && AtMostOnePerKey(t.otps, OtpKey)
    && AtMostOnePerKey(t.verifications, VerificationEmail)
    && AtMostOnePerKey(t.resets, ResetOpenKey)
    && (forall r :: r in t.resets ==> !r.used)
  }

  /** The empty database. */
  function EmptyTables(): (t: Tables)
    ensures ValidTables(t)
  {
    Tables([], [], [], [], [], 1, 1, 1, 1, 1)
  }
  // Supersession and single use.

  /** After `createOtpCode`, the (user, purpose) pair has exactly one code:
      the new, unused one; every other pair keeps its codes. */
  lemma CreateOtpCodeSupersedes(t: Tables, userId: nat, code: string, purpose: string, expiresAt: Time, now: Time)
    ensures var t' := CreateOtpCode(t, userId, code, purpose, expiresAt, now).tables;
      && ByKey(t'.otps, OtpKey, (userId, purpose)) == [NewOtp(t, userId, code, purpose, expiresAt)]
      && !NewOtp(t, userId, code, purpose, expiresAt).used
      && NewOtp(t, userId, code, purpose, expiresAt).code == code
      && forall k :: k != (userId, purpose) ==> ByKey(t'.otps, OtpKey, k) == ByKey(t.otps, OtpKey, k)
  {
    Supersede(t.otps, OtpKey, NewOtp(t, userId, code, purpose, expiresAt));
  }

  /** After `saveEmailVerificationToken`, the email has exactly one row, the new one. */
  lemma SaveEmailVerificationTokenSupersedes(t: Tables, userId: nat, email: string, code: string, token: string,
                                             expiresAt: Time, now: Time)
    ensures var t' := SaveEmailVerificationToken(t, userId, email, code, token, expiresAt, now).tables;
      && ByKey(t'.verifications, VerificationEmail, ToLower(email)) == [NewVerification(t, userId, email, code, token, expiresAt)]
      && forall e :: e != ToLower(email) ==>
           ByKey(t'.verifications, VerificationEmail, e) == ByKey(t.verifications, VerificationEmail, e)
  {
    Supersede(t.verifications, VerificationEmail, NewVerification(t, userId, email, code, token, expiresAt));
  }

  /** After `createPasswordResetEntry`, the user has exactly one unused entry, the new one. */
  lemma CreatePasswordResetEntrySupersedes(t: Tables, userId: nat, token: string, otpCode: string, expiresAt: Time)
    ensures var t' := CreatePasswordResetEntry(t, userId, token, otpCode, expiresAt).tables;
      && ByKey(t'.resets, ResetOpenKey, Some(userId)) == [NewReset(t, userId, token, otpCode, expiresAt)]
      && forall k :: k != Some(userId) ==> ByKey(t'.resets, ResetOpenKey, k) == ByKey(t.resets, ResetOpenKey, k)
  {
    Supersede(t.resets, ResetOpenKey, NewReset(t, userId, token, otpCode, expiresAt));
  }

  /** Marking the active code used makes that code inactive for good: at any
      later time, the same lookup finds nothing. */
  lemma MarkOtpUsedIsSingleUse(t: Tables, userId: nat, code: string, purpose: string, now: Time, later: Time)
    requires AtMostOnePerKey(t.otps, OtpKey)
    requires GetActiveOtpCode(t.otps, userId, code, purpose, now).Some?
    ensures var o := GetActiveOtpCode(t.otps, userId, code, purpose, now).value;
      GetActiveOtpCode(MarkOtpUsed(t, o.id, now).otps, userId, code, purpose, later).None?
  {
    var o := GetActiveOtpCode(t.otps, userId, code, purpose, now).value;
    var os := MarkOtpUsed(t, o.id, now).otps;
    forall x | x in os ensures !IsActiveOtp(x, userId, code, purpose, later) {
      var i :| 0 <= i < |os| && os[i] == x;
      if t.otps[i].id != o.id && IsActiveOtp(x, userId, code, purpose, later) {
        AtMostOneSameRow(t.otps, OtpKey, t.otps[i], o);
      }
    }
  }

  /** Marking a code used changes that row's `used` and `usedAt` only; every
      row with another id is as it was. */
  lemma MarkOtpUsedChangesOneRow(t: Tables, id: nat, now: Time)
    ensures forall i :: 0 <= i < |t.otps| && t.otps[i].id != id ==> MarkOtpUsed(t, id, now).otps[i] == t.otps[i]
    ensures forall i :: 0 <= i < |t.otps| && t.otps[i].id == id ==>
      MarkOtpUsed(t, id, now).otps[i] == t.otps[i].(used := true, usedAt := Some(now))
  {
  }

  /** A consumed verification code cannot be consumed again. */
  lemma ConsumeIsSingleUse(t: Tables, email: string, code: string, now: Time, later: Time)
    requires AtMostOnePerKey(t.verifications, VerificationEmail)
    requires ConsumeEmailVerificationCode(t, email, code, now).0.Some?
    ensures var t' := ConsumeEmailVerificationCode(t, email, code, now).1;
      ConsumeEmailVerificationCode(t', email, code, later).0.None?
  {
    var v := ConsumeEmailVerificationCode(t, email, code, now).0.value;
    var vs := ConsumeEmailVerificationCode(t, email, code, now).1.verifications;
    forall x | x in vs ensures !IsActiveVerification(x, ToLower(email), code, later) {
      var i :| 0 <= i < |vs| && vs[i] == x;
      if t.verifications[i].id != v.id && IsActiveVerification(x, ToLower(email), code, later) {
        AtMostOneSameRow(t.verifications, VerificationEmail, t.verifications[i], v);
      }
    }
  }

  // Preservation of the invariant.

  lemma CreateUserKeepsValid(t: Tables, email: string, username: Option<string>, name: Option<string>,
                             passwordHash: StoredHash, role: Option<Role>, now: Time)
    requires ValidTables(t)
    ensures ValidTables(CreateUser(t, email, username, name, passwordHash, role, now).tables)
  {
    var r := CreateUser(t, email, username, name, passwordHash, role, now);
    if r.result.Success? {
      var row := NewUser(t, email, username, name, passwordHash, role, now);
      var us := t.users + [row];
      assert r.tables.users == us;
      ToLowerIdempotent(email);
      forall k ensures |ByKey(us, UserId, k)| <= 1 {
        ByKeyAppend(t.users, [row], UserId, k);
        if k == row.id { ByKeyNone(t.users, UserId, k); }
      }
      forall k ensures |ByKey(us, UserEmail, k)| <= 1 {
        ByKeyAppend(t.users, [row], UserEmail, k);
        if k == row.email { ByKeyNone(t.users, UserEmail, k); }
      }
      assert UsernamesUnique(us) by {
        forall i, j | 0 <= i < j < |us| && us[i].username.Some?
          ensures us[i].username != us[j].username
        {
          if j == |t.users| {
            assert us[i] in t.users;
          }
        }
      }
    }
  }

  lemma UpdateUsersKeepsValid(t: Tables, t': Tables)
    requires ValidTables(t)
    requires t' == t.(users := t'.users) && |t'.users| == |t.users|
    requires forall i :: 0 <= i < |t.users| ==>
      t'.users[i].id == t.users[i].id && t'.users[i].email == t.users[i].email
      && t'.users[i].username == t.users[i].username
    ensures ValidTables(t')
  {
    SameKeysKeepAtMostOne(t.users, t'.users, UserId);
    SameKeysKeepAtMostOne(t.users, t'.users, UserEmail);
    forall u | u in t'.users ensures ToLower(u.email) == u.email && u.id < t.nextUserId {
      var i :| 0 <= i < |t'.users| && t'.users[i] == u;
      assert t.users[i] in t.users;
    }
  }

  lemma CreateSessionKeepsValid(t: Tables, userId: nat, sessionToken: string, expiresAt: Time, now: Time)
    requires ValidTables(t)
    ensures ValidTables(CreateSession(t, userId, sessionToken, expiresAt, now).tables)
  {
  }

  lemma SaveEmailVerificationTokenKeepsValid(t: Tables, userId: nat, email: string, code: string, token: string,
                                             expiresAt: Time, now: Time)
    requires ValidTables(t)
    ensures ValidTables(SaveEmailVerificationToken(t, userId, email, code, token, expiresAt, now).tables)
  {
    Supersede(t.verifications, VerificationEmail, NewVerification(t, userId, email, code, token, expiresAt));
  }

  lemma ConsumeKeepsValid(t: Tables, email: string, code: string, now: Time)
    requires ValidTables(t)
    ensures ValidTables(ConsumeEmailVerificationCode(t, email, code, now).1)
  {
    var r := ConsumeEmailVerificationCode(t, email, code, now);
    if r.0.Some? {
      SameKeysKeepAtMostOne(t.verifications, r.1.verifications, VerificationEmail);
    }
  }

  lemma CreateOtpCodeKeepsValid(t: Tables, userId: nat, code: string, purpose: string, expiresAt: Time, now: Time)
    requires ValidTables(t)
    ensures ValidTables(CreateOtpCode(t, userId, code, purpose, expiresAt, now).tables)
  {
    var row := NewOtp(t, userId, code, purpose, expiresAt);
    var kept := WithoutKey(t.otps, OtpKey, (userId, purpose));
    Supersede(t.otps, OtpKey, row);
    WithoutKeyKeepsAtMostOne(t.otps, OtpKey, (userId, purpose), OtpId);
    AppendFreshKeepsAtMostOne(kept, OtpId, row);
    assert OtpIdsBelow(kept + [row], t.nextOtpId + 1) by {
      forall o | o in kept + [row] ensures o.id < t.nextOtpId + 1 {
        if o != row {
          assert o in kept;
        }
      }
    }
  }

  lemma MarkOtpUsedKeepsValid(t: Tables, id: nat, now: Time)
    requires ValidTables(t)
    ensures ValidTables(MarkOtpUsed(t, id, now))
  {
    var os := MarkOtpUsed(t, id, now).otps;
    SameKeysKeepAtMostOne(t.otps, os, OtpKey);
    SameKeysKeepAtMostOne(t.otps, os, OtpId);
    forall o | o in os ensures o.id < t.nextOtpId {
      var i :| 0 <= i < |os| && os[i] == o;
      assert t.otps[i] in t.otps;
    }
  }

  lemma ClearOtpsForPurposeKeepsValid(t: Tables, userId: nat, purpose: string)
    requires ValidTables(t)
    ensures ValidTables(ClearOtpsForPurpose(t, userId, purpose))
  {
    DeleteKeepsAtMostOne(t.otps, OtpKey, (userId, purpose));
    WithoutKeyKeepsAtMostOne(t.otps, OtpKey, (userId, purpose), OtpId);
  }

  /** Marking the code `id` used and then clearing the (user, purpose) that
      code belongs to leaves exactly the codes of the other pairs. */
  lemma MarkThenClearKeepsOtherCodes(t: Tables, id: nat, userId: nat, purpose: string, now: Time)
    requires AtMostOnePerKey(t.otps, OtpId)
    requires exists o :: o in t.otps && o.id == id && OtpKey(o) == (userId, purpose)
    ensures forall x :: x in ClearOtpsForPurpose(MarkOtpUsed(t, id, now), userId, purpose).otps <==>
      x in t.otps && OtpKey(x) != (userId, purpose)
  {
    var found :| found in t.otps && found.id == id && OtpKey(found) == (userId, purpose);
    var marked := MarkOtpUsed(t, id, now).otps;
    forall i | 0 <= i < |t.otps| && t.otps[i].id == id ensures OtpKey(t.otps[i]) == (userId, purpose) {
      AtMostOneSameRow(t.otps, OtpId, t.otps[i], found);
    }
    forall x ensures x in marked && OtpKey(x) != (userId, purpose) <==> x in t.otps && OtpKey(x) != (userId, purpose) {
      if x in marked && OtpKey(x) != (userId, purpose) {
        var i :| 0 <= i < |marked| && marked[i] == x;
      }
      if x in t.otps && OtpKey(x) != (userId, purpose) {
        var i :| 0 <= i < |t.otps| && t.otps[i] == x;
        assert marked[i] == x;
      }
    }
  }

  lemma CreatePasswordResetEntryKeepsValid(t: Tables, userId: nat, token: string, otpCode: string, expiresAt: Time)
    requires ValidTables(t)
    ensures ValidTables(CreatePasswordResetEntry(t, userId, token, otpCode, expiresAt).tables)
  {
    Supersede(t.resets, ResetOpenKey, NewReset(t, userId, token, otpCode, expiresAt));
  }

  /** Under the invariant, the entry `createPasswordResetEntry` reads back is
      the one it inserted. */
  lemma CreatePasswordResetEntryReturnsNew(t: Tables, userId: nat, token: string, otpCode: string, expiresAt: Time)
    requires ValidTables(t)
    ensures CreatePasswordResetEntry(t, userId, token, otpCode, expiresAt).result.value
            == NewReset(t, userId, token, otpCode, expiresAt)
  {
    var row := NewReset(t, userId, token, otpCode, expiresAt);
    var rs := WithoutKey(t.resets, ResetOpenKey, Some(userId)) + [row];
    Supersede(t.resets, ResetOpenKey, row);
    var found := ResetByUser(rs, userId);
    assert found.value in rs;
  }
}
