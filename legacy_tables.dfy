/** The tables of the older server (`users`, `password_reset_tokens`,
    `email_verification_tokens`, `sessions`) and what each of its store
    functions does to them, as functions from one snapshot to the next. The
    flags of this schema are the strings "true" and "false"; tokens are keyed
    by email, not by user. `now` is the clock of both the server and the
    database. */
module LegacyTables {
  import opened Wrappers
  import opened Errors
  import opened TableOps
  import opened Hashing
  import AuthTables

  type Time = AuthTables.Time
  type Role = AuthTables.Role

  const True := "true"
  const False := "false"

  datatype User = User(
    id: nat, email: string, name: Option<string>, passwordHash: StoredHash,
    openId: Option<string>, loginMethod: string, role: Role,
    isEmailVerified: string, lastSignedIn: Option<Time>, createdAt: Time, updatedAt: Time)

  datatype ResetToken = ResetToken(
    id: nat, email: string, otp: string, isVerified: string,
    expiresAt: Time, createdAt: Time, updatedAt: Time)

  datatype VerificationToken = VerificationToken(
    id: nat, email: string, code: string, isVerified: string,
    expiresAt: Time, createdAt: Time, updatedAt: Time)

  datatype Session = Session(
    id: nat, userId: nat, token: string, expiresAt: Time,
    ipAddress: Option<string>, userAgent: Option<string>, isActive: string,
    createdAt: Time, updatedAt: Time)

  datatype State = State(
    users: seq<User>, resets: seq<ResetToken>,
    verifications: seq<VerificationToken>, sessions: seq<Session>,
    nextUserId: nat, nextResetId: nat, nextVerificationId: nat, nextSessionId: nat)

  /** A store function's outcome: what it returns or throws, and the tables after it. */
  datatype Stored<R> = Stored(result: Result<R, AppError>, state: State)

  // Keys of the `where` clauses.

  function UserEmail(u: User): string { u.email }
  function ResetEmail(r: ResetToken): string { r.email }
  function ResetPair(r: ResetToken): (string, string) { (r.email, r.otp) }
  function VerificationEmail(v: VerificationToken): string { v.email }
  function VerificationPair(v: VerificationToken): (string, string) { (v.email, v.code) }

  // Lookups.

  /** `getUserByEmail(email)`: the first user whose email is `email` as given. */
  function GetUserByEmail(users: seq<User>, email: string): (r: Option<User>)
    ensures r.Some? ==> r.value in users && r.value.email == email
    ensures r.None? <==> forall u :: u in users ==> u.email != email
  {
    FirstMatch(users, (u: User) => u.email == email)
  }

  /** `getUserById(id)`. */
  function GetUserById(users: seq<User>, id: nat): (r: Option<User>)
    ensures r.Some? ==> r.value in users && r.value.id == id
    ensures r.None? <==> forall u :: u in users ==> u.id != id
  {
    FirstMatch(users, (u: User) => u.id == id)
  }

  /** `getUserByOpenId(openId)`. */
  function GetUserByOpenId(users: seq<User>, openId: string): (r: Option<User>)
    ensures r.Some? ==> r.value in users && r.value.openId == Some(openId)
    ensures r.None? <==> forall u :: u in users ==> u.openId != Some(openId)
  {
    FirstMatch(users, (u: User) => u.openId == Some(openId))
  }

  /** The condition of `getPasswordResetToken`: email, code and `expiresAt > now`;
      the `isVerified` flag plays no part. */
  predicate IsLiveReset(r: ResetToken, email: string, otp: string, now: Time)
  {
    r.email == email && r.otp == otp && r.expiresAt > now
  }

  /** `getPasswordResetToken(email, otp)`. */
  function GetPasswordResetToken(resets: seq<ResetToken>, email: string, otp: string, now: Time): (r: Option<ResetToken>)
    ensures r.Some? ==> r.value in resets && IsLiveReset(r.value, email, otp, now)
    ensures r.None? <==> forall x :: x in resets ==> !IsLiveReset(x, email, otp, now)
  {
    FirstMatch(resets, (x: ResetToken) => IsLiveReset(x, email, otp, now))
  }

  predicate IsLiveVerification(v: VerificationToken, email: string, code: string, now: Time)
  {
    v.email == email && v.code == code && v.expiresAt > now
  }

  /** `getEmailVerificationToken(email, code)`. */
  function GetEmailVerificationToken(vs: seq<VerificationToken>, email: string, code: string, now: Time): (r: Option<VerificationToken>)
    ensures r.Some? ==> r.value in vs && IsLiveVerification(r.value, email, code, now)
    ensures r.None? <==> forall v :: v in vs ==> !IsLiveVerification(v, email, code, now)
  {
    FirstMatch(vs, (v: VerificationToken) => IsLiveVerification(v, email, code, now))
  }

  /** The condition of `getSession`: the token, `isActive = "true"` and `expiresAt > now`. */
  predicate IsLiveSession(s: Session, token: string, now: Time)
  {
    s.token == token && s.isActive == True && s.expiresAt > now
  }

  /** `getSession(token)`. */
  function GetSession(sessions: seq<Session>, token: string, now: Time): (r: Option<Session>)
    ensures r.Some? ==> r.value in sessions && IsLiveSession(r.value, token, now)
    ensures r.None? <==> forall s :: s in sessions ==> !IsLiveSession(s, token, now)
  {
    FirstMatch(sessions, (s: Session) => IsLiveSession(s, token, now))
  }

  // Users.

  /** The row `createUser` inserts: login method "email", role and verified
      flag at their column defaults ("user", "false"). */
  function NewUser(t: State, email: string, name: string, passwordHash: StoredHash, now: Time): User
  {
    User(t.nextUserId, email, Some(name), passwordHash, None, "email", AuthTables.UserRole, False, None, now, now)
  }

  predicate EmailTaken(users: seq<User>, email: string)
  {
    exists u :: u in users && u.email == email
  }

  /** `createUser(email, name, passwordHash)`. The unique index on `email`
      makes the insert throw when the email is taken; the new user is then
      read back by email. */
  function CreateUser(t: State, email: string, name: string, passwordHash: StoredHash, now: Time): (r: Stored<User>)
    ensures r.result.Failure? <==> EmailTaken(t.users, email)
    ensures r.result.Failure? ==> r.state == t
    ensures r.result.Success? ==>
      && r.result.value == NewUser(t, email, name, passwordHash, now)
      && r.state == t.(users := t.users + [r.result.value], nextUserId := t.nextUserId + 1)
  {
    var row := NewUser(t, email, name, passwordHash, now);
    if EmailTaken(t.users, email) then
      Stored(Failure(Internal("Duplicate entry")), t)
    else
      var t' := t.(users := t.users + [row], nextUserId := t.nextUserId + 1);
      assert row in t'.users;
      var created := GetUserByEmail(t'.users, email);
      if created.None? then Stored(Failure(Internal("Failed to create user")), t')
      else Stored(Success(created.value), t')
  }

  /** `updateUserPassword(email, passwordHash)`: every user with the email. */
  function UpdateUserPassword(t: State, email: string, passwordHash: StoredHash, now: Time): (r: State)
    ensures r == t.(users := r.users)
    ensures |r.users| == |t.users|
    ensures forall i :: 0 <= i < |t.users| ==> (r.users[i] ==
      if t.users[i].email == email then t.users[i].(passwordHash := passwordHash, updatedAt := now) else t.users[i])
  {
    t.(users := UpdateWhere(t.users, (u: User) => u.email == email,
                            (u: User) => u.(passwordHash := passwordHash, updatedAt := now)))
  }

  /** `updateUserEmailVerified(email, isVerified)`: the flag as "true" or "false". */
  function UpdateUserEmailVerified(t: State, email: string, isVerified: bool, now: Time): (r: State)
    ensures r == t.(users := r.users)
    ensures |r.users| == |t.users|
    ensures forall i :: 0 <= i < |t.users| ==> (r.users[i] ==
      if t.users[i].email == email
      then t.users[i].(isEmailVerified := if isVerified then True else False, updatedAt := now)
      else t.users[i])
  {
    var flag := if isVerified then True else False;
    t.(users := UpdateWhere(t.users, (u: User) => u.email == email,
                            (u: User) => u.(isEmailVerified := flag, updatedAt := now)))
  }

  /** `updateUserLastSignedIn(userId)`. */
  function UpdateUserLastSignedIn(t: State, userId: nat, now: Time): (r: State)
    ensures r == t.(users := r.users)
    ensures |r.users| == |t.users|
    ensures forall i :: 0 <= i < |t.users| ==> (r.users[i] ==
      if t.users[i].id == userId then t.users[i].(lastSignedIn := Some(now), updatedAt := now) else t.users[i])
  {
    t.(users := UpdateWhere(t.users, (u: User) => u.id == userId,
                            (u: User) => u.(lastSignedIn := Some(now), updatedAt := now)))
  }

  // The OAuth upsert.

  /** A field of the insert record: absent (`undefined`), `null`, or a value. */
  datatype Nullable<T> = Undefined | Null | Given(value: T)

  /** The record `upsertUser` receives. A role is either absent or given. */
  datatype InsertUser = InsertUser(
    openId: Nullable<string>, email: Nullable<string>, name: Nullable<string>,
    loginMethod: Nullable<string>, lastSignedIn: Nullable<Time>, role: Option<Role>)

  /** A value placed in `values` or `updateSet`. */
  datatype Field = Text(text: string) | Stamp(at: Option<Time>) | RoleValue(role: Role)

  /** The fields copied by `assignNullable`, in the order the `forEach` visits them. */
  const TextFields: seq<string> := ["name", "loginMethod"]

  /** `user[field]` for a text field. */
  function TextField(user: InsertUser, field: string): Nullable<string>
  {
    if field == "name" then user.name
    else if field == "loginMethod" then user.loginMethod
    else Undefined
  }

  /** `assignNullable(field)` on one of the two dictionaries: the value is
      copied when it is neither `undefined` nor `null`. */
  function AssignNullable(m: map<string, Field>, user: InsertUser, field: string): map<string, Field>
  {
    var v := TextField(user, field);
    if v.Given? then m[field := Text(v.value)] else m
  }

  /** `fields.forEach(assignNullable)` on one dictionary. */
  function AssignAll(m: map<string, Field>, user: InsertUser, fields: seq<string>): map<string, Field>
    decreases |fields|
  {
    if fields == [] then m
    else AssignNullable(AssignAll(m, user, fields[..|fields| - 1]), user, fields[|fields| - 1])
  }

  /** `!user.openId`: missing, `null` or empty. */
  predicate OpenIdGiven(user: InsertUser)
  {
    user.openId.Given? && user.openId.value != ""
  }

  /** `user.email || ""`. */
  function EmailOrEmpty(user: InsertUser): string
  {
    if user.email.Given? then user.email.value else ""
  }

  function BaseValues(openId: string, user: InsertUser): map<string, Field>
  {
    map["openId" := Text(openId), "email" := Text(EmailOrEmpty(user)), "loginMethod" := Text("oauth")]
  }

  /** `lastSignedIn` as it is copied when not `undefined`; `null` stays null. */
  function StampOf(v: Nullable<Time>): Field
  {
    Stamp(if v.Given? then Some(v.value) else None)
  }

  /** The role both dictionaries receive: the given one, else "admin" for the
      owner, else none. */
  function AssignedRole(user: InsertUser, openId: string, ownerOpenId: string): Option<Role>
  {
    if user.role.Some? then user.role
    else if openId == ownerOpenId then Some(AuthTables.AdminRole)
    else None
  }

  /** `values` and `updateSet` after the assignments of `upsertUser` that
      follow the text fields, given the two dictionaries after them. */
  function FinishAssignments(values: map<string, Field>, updateSet: map<string, Field>,
                             user: InsertUser, openId: string, ownerOpenId: string, now: Time): (map<string, Field>, map<string, Field>)
  {
    var v1 := if user.lastSignedIn != Undefined then values["lastSignedIn" := StampOf(user.lastSignedIn)] else values;
    var u1 := if user.lastSignedIn != Undefined then updateSet["lastSignedIn" := StampOf(user.lastSignedIn)] else updateSet;
    var role := AssignedRole(user, openId, ownerOpenId);
    var v2 := if role.Some? then v1["role" := RoleValue(role.value)] else v1;
    var u2 := if role.Some? then u1["role" := RoleValue(role.value)] else u1;
    var v3 := if "lastSignedIn" !in v2 || v2["lastSignedIn"] == Stamp(None) then v2["lastSignedIn" := Stamp(Some(now))] else v2;
    var u3 := if |u2| == 0 then u2["lastSignedIn" := Stamp(Some(now))] else u2;
    (v3, u3)
  }

  /** The dictionaries `upsertUser` passes to `insert ... on duplicate key update`. */
  function UpsertAssignments(user: InsertUser, openId: string, ownerOpenId: string, now: Time): (map<string, Field>, map<string, Field>)
  {
    FinishAssignments(AssignAll(BaseValues(openId, user), user, TextFields),
                      AssignAll(map[], user, TextFields), user, openId, ownerOpenId, now)
  }

  function TextOr(m: map<string, Field>, k: string, d: string): string
  {
    if k in m && m[k].Text? then m[k].text else d
  }

  /** The row inserted from `values`, with the column defaults for what it lacks. */
  function RowFromValues(id: nat, values: map<string, Field>, now: Time): User
  {
    User(id, TextOr(values, "email", ""),
         if "name" in values && values["name"].Text? then Some(values["name"].text) else None,
         Empty,
         if "openId" in values && values["openId"].Text? then Some(values["openId"].text) else None,
         TextOr(values, "loginMethod", "email"),
         if "role" in values && values["role"].RoleValue? then values["role"].role else AuthTables.UserRole,
         False,
         if "lastSignedIn" in values && values["lastSignedIn"].Stamp? then values["lastSignedIn"].at else None,
         now, now)
  }

  /** The conflicting row after `on duplicate key update set updateSet`. */
  function ApplyUpdateSet(u: User, updateSet: map<string, Field>, now: Time): User
  {
    u.(name := if "name" in updateSet && updateSet["name"].Text? then Some(updateSet["name"].text) else u.name,
       loginMethod := TextOr(updateSet, "loginMethod", u.loginMethod),
       lastSignedIn := if "lastSignedIn" in updateSet && updateSet["lastSignedIn"].Stamp? then updateSet["lastSignedIn"].at else u.lastSignedIn,
       role := if "role" in updateSet && updateSet["role"].RoleValue? then updateSet["role"].role else u.role,
       updatedAt := now)
  }

  /** Whether a row collides with the unique `openId` or `email` of the insert. */
  predicate Collides(u: User, openId: string, email: string)
  {
    u.openId == Some(openId) || u.email == email
  }

  /** The index of the first row that collides, if any. */
  function FirstCollision(users: seq<User>, openId: string, email: string): (r: Option<nat>)
    ensures r.Some? ==> r.value < |users| && Collides(users[r.value], openId, email)
    ensures r.Some? ==> forall j :: 0 <= j < r.value ==> !Collides(users[j], openId, email)
    ensures r.None? <==> forall u :: u in users ==> !Collides(u, openId, email)
  {
    if users == [] then None
    else if Collides(users[0], openId, email) then Some(0)
    else
      var r := FirstCollision(users[1..], openId, email);
      if r.None? then None else Some(r.value + 1)
  }

  /** `insert into users values(values) on duplicate key update set updateSet`. */
  function InsertOrUpdate(t: State, values: map<string, Field>, updateSet: map<string, Field>,
                          openId: string, email: string, now: Time): (r: State)
  {
    var hit := FirstCollision(t.users, openId, email);
    if hit.Some? then t.(users := t.users[hit.value := ApplyUpdateSet(t.users[hit.value], updateSet, now)])
    else t.(users := t.users + [RowFromValues(t.nextUserId, values, now)], nextUserId := t.nextUserId + 1)
  }

  /** `upsertUser(user)`, with the owner's OAuth id as `ownerOpenId`. */
  function UpsertUser(t: State, user: InsertUser, ownerOpenId: string, now: Time): (r: Stored<()>)
    ensures r.result.Failure? <==> !OpenIdGiven(user)
    ensures r.result.Failure? ==> r.state == t
  {
    if !OpenIdGiven(user) then Stored(Failure(Internal("User openId is required for upsert")), t)
    else
      var openId := user.openId.value;
      var (values, updateSet) := UpsertAssignments(user, openId, ownerOpenId, now);
      Stored(Success(()), InsertOrUpdate(t, values, updateSet, openId, EmailOrEmpty(user), now))
  }

  // Reset and verification tokens.

  function NewResetToken(t: State, email: string, otp: string, expiresAt: Time, now: Time): ResetToken
  {
    ResetToken(t.nextResetId, email, otp, False, expiresAt, now, now)
  }

  /** `createPasswordResetToken(email, otp, expiresAt)`: delete the rows of
      the email, insert the new one with `isVerified = "false"`, then read it
      back; an already expired token is not found and the function throws,
      with the row inserted. */
  function CreatePasswordResetToken(t: State, email: string, otp: string, expiresAt: Time, now: Time): (r: Stored<ResetToken>)
    ensures r.state == t.(resets := WithoutKey(t.resets, ResetEmail, email) + [NewResetToken(t, email, otp, expiresAt, now)],
                          nextResetId := t.nextResetId + 1)
    ensures r.result.Success? <==> expiresAt > now
    ensures r.result.Success? ==> r.result.value == NewResetToken(t, email, otp, expiresAt, now)
  {
    var row := NewResetToken(t, email, otp, expiresAt, now);
    var rs := WithoutKey(t.resets, ResetEmail, email) + [row];
    var t' := t.(resets := rs, nextResetId := t.nextResetId + 1);
    SupersedeReset(t.resets, row, now);
    var token := GetPasswordResetToken(rs, email, otp, now);
    if token.None? then Stored(Failure(Internal("Failed to create password reset token")), t')
    else Stored(Success(token.value), t')
  }

  /** After superseding, the lookup of the new row's email and code finds the
      new row when it is unexpired and nothing otherwise. */
  lemma SupersedeReset(rs: seq<ResetToken>, row: ResetToken, now: Time)
    ensures var s := WithoutKey(rs, ResetEmail, row.email) + [row];
      GetPasswordResetToken(s, row.email, row.otp, now) == if row.expiresAt > now then Some(row) else None
  {
    var s := WithoutKey(rs, ResetEmail, row.email) + [row];
    Supersede(rs, ResetEmail, row);
    var found := GetPasswordResetToken(s, row.email, row.otp, now);
    if found.Some? {
      assert found.value in ByKey(s, ResetEmail, row.email);
    }
    if row.expiresAt > now {
      assert row in s;
    }
  }

  /** `verifyPasswordResetToken(email, otp)`: every (email, otp) row, expired or not. */
  function VerifyPasswordResetToken(t: State, email: string, otp: string, now: Time): (r: State)
    ensures r == t.(resets := r.resets)
    ensures |r.resets| == |t.resets|
    ensures forall i :: 0 <= i < |t.resets| ==> (r.resets[i] ==
      if ResetPair(t.resets[i]) == (email, otp) then t.resets[i].(isVerified := True, updatedAt := now) else t.resets[i])
  {
    t.(resets := UpdateWhere(t.resets, (x: ResetToken) => ResetPair(x) == (email, otp),
                             (x: ResetToken) => x.(isVerified := True, updatedAt := now)))
  }

  /** `deletePasswordResetToken(email, otp)`. */
  function DeletePasswordResetToken(t: State, email: string, otp: string): (r: State)
    ensures r == t.(resets := r.resets)
    ensures forall x :: x in r.resets <==> x in t.resets && ResetPair(x) != (email, otp)
  {
    t.(resets := WithoutKey(t.resets, ResetPair, (email, otp)))
  }

  function NewVerificationToken(t: State, email: string, code: string, expiresAt: Time, now: Time): VerificationToken
  {
    VerificationToken(t.nextVerificationId, email, code, False, expiresAt, now, now)
  }

  /** `createEmailVerificationToken(email, code, expiresAt)`, the same steps
      as the reset token on the verification table. */
  function CreateEmailVerificationToken(t: State, email: string, code: string, expiresAt: Time, now: Time): (r: Stored<VerificationToken>)
    ensures r.state == t.(verifications := WithoutKey(t.verifications, VerificationEmail, email)
                                          + [NewVerificationToken(t, email, code, expiresAt, now)],
                          nextVerificationId := t.nextVerificationId + 1)
    ensures r.result.Success? <==> expiresAt > now
    ensures r.result.Success? ==> r.result.value == NewVerificationToken(t, email, code, expiresAt, now)
  {
    var row := NewVerificationToken(t, email, code, expiresAt, now);
    var vs := WithoutKey(t.verifications, VerificationEmail, email) + [row];
    var t' := t.(verifications := vs, nextVerificationId := t.nextVerificationId + 1);
    SupersedeVerification(t.verifications, row, now);
    var token := GetEmailVerificationToken(vs, email, code, now);
    if token.None? then Stored(Failure(Internal("Failed to create email verification token")), t')
    else Stored(Success(token.value), t')
  }

  lemma SupersedeVerification(vs: seq<VerificationToken>, row: VerificationToken, now: Time)
    ensures var s := WithoutKey(vs, VerificationEmail, row.email) + [row];
      GetEmailVerificationToken(s, row.email, row.code, now) == if row.expiresAt > now then Some(row) else None
  {
    var s := WithoutKey(vs, VerificationEmail, row.email) + [row];
    Supersede(vs, VerificationEmail, row);
    var found := GetEmailVerificationToken(s, row.email, row.code, now);
    if found.Some? {
      assert found.value in ByKey(s, VerificationEmail, row.email);
    }
    if row.expiresAt > now {
      assert row in s;
    }
  }

  /** `verifyEmailVerificationToken(email, code)`. */
  function VerifyEmailVerificationToken(t: State, email: string, code: string, now: Time): (r: State)
    ensures r == t.(verifications := r.verifications)
    ensures |r.verifications| == |t.verifications|
    ensures forall i :: 0 <= i < |t.verifications| ==> (r.verifications[i] ==
      if VerificationPair(t.verifications[i]) == (email, code)
      then t.verifications[i].(isVerified := True, updatedAt := now) else t.verifications[i])
  {
    t.(verifications := UpdateWhere(t.verifications, (v: VerificationToken) => VerificationPair(v) == (email, code),
                                    (v: VerificationToken) => v.(isVerified := True, updatedAt := now)))
  }

  /** `deleteEmailVerificationToken(email, code)`. */
  function DeleteEmailVerificationToken(t: State, email: string, code: string): (r: State)
    ensures r == t.(verifications := r.verifications)
    ensures forall v :: v in r.verifications <==> v in t.verifications && VerificationPair(v) != (email, code)
  {
    t.(verifications := WithoutKey(t.verifications, VerificationPair, (email, code)))
  }

  // Sessions.

  function NewSession(t: State, userId: nat, token: string, expiresAt: Time,
                      ipAddress: Option<string>, userAgent: Option<string>, now: Time): Session
  {
    Session(t.nextSessionId, userId, token, expiresAt, ipAddress, userAgent, True, now, now)
  }

  /** `createSession(userId, token, expiresAt, ipAddress, userAgent)`: insert
      an active row, then read a live session of the token back. The
      read-back misses only when the new row is already expired and no older
      live row has the token. */
  function CreateSession(t: State, userId: nat, token: string, expiresAt: Time,
                         ipAddress: Option<string>, userAgent: Option<string>, now: Time): (r: Stored<Session>)
    ensures r.state == t.(sessions := t.sessions + [NewSession(t, userId, token, expiresAt, ipAddress, userAgent, now)],
                          nextSessionId := t.nextSessionId + 1)
    ensures expiresAt > now ==> r.result.Success?
    ensures r.result.Success? ==> r.result.value in r.state.sessions && IsLiveSession(r.result.value, token, now)
    ensures r.result.Success? && (forall s :: s in t.sessions ==> !IsLiveSession(s, token, now)) ==>
      r.result.value == NewSession(t, userId, token, expiresAt, ipAddress, userAgent, now)
  {
    var row := NewSession(t, userId, token, expiresAt, ipAddress, userAgent, now);
    var ss := t.sessions + [row];
    var t' := t.(sessions := ss, nextSessionId := t.nextSessionId + 1);
    assert row in ss;
    var found := GetSession(ss, token, now);
    if found.None? then Stored(Failure(Internal("Failed to create session")), t')
    else Stored(Success(found.value), t')
  }

  /** `invalidateSession(token)`. */
  function InvalidateSession(t: State, token: string, now: Time): (r: State)
    ensures r == t.(sessions := r.sessions)
    ensures |r.sessions| == |t.sessions|
    ensures forall i :: 0 <= i < |t.sessions| ==> (r.sessions[i] ==
      if t.sessions[i].token == token then t.sessions[i].(isActive := False, updatedAt := now) else t.sessions[i])
  {
    t.(sessions := UpdateWhere(t.sessions, (s: Session) => s.token == token,
                               (s: Session) => s.(isActive := False, updatedAt := now)))
  }

  /** `invalidateAllUserSessions(userId)`. */
  function InvalidateAllUserSessions(t: State, userId: nat, now: Time): (r: State)
    ensures r == t.(sessions := r.sessions)
    ensures |r.sessions| == |t.sessions|
    ensures forall i :: 0 <= i < |t.sessions| ==> (r.sessions[i] ==
      if t.sessions[i].userId == userId then t.sessions[i].(isActive := False, updatedAt := now) else t.sessions[i])
  {
    t.(sessions := UpdateWhere(t.sessions, (s: Session) => s.userId == userId,
                               (s: Session) => s.(isActive := False, updatedAt := now)))
  }

  // The invariant the store functions keep.

  ghost predicate UserIdsBelow(users: seq<User>, next: nat)
  {
    forall u :: u in users ==> u.id < next
  }

  /** Two users never share an OAuth id; users without one are not constrained. */
  ghost predicate OpenIdsUnique(users: seq<User>)
  {
    forall i, j :: 0 <= i < j < |users| && users[i].openId.Some? ==> users[i].openId != users[j].openId
  }

  /** What the unique indexes and the supersession of tokens maintain: user
      ids below the counter, distinct emails and OAuth ids, and at most one
      reset token and one verification token per email. */
  ghost predicate ValidState(t: State)
  {
    && UserIdsBelow(t.users, t.nextUserId)
    && AtMostOnePerKey(t.users, UserEmail)
    && OpenIdsUnique(t.users)
    && AtMostOnePerKey(t.resets, ResetEmail)
    && AtMostOnePerKey(t.verifications, VerificationEmail)
  }

  function EmptyState(): (t: State)
    ensures ValidState(t)
  {
    State([], [], [], [], 1, 1, 1, 1)
  }
}
