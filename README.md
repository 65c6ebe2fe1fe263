# Osmora AI authentication and one-time codes, in Dafny

This project models the email/password authentication of the Osmora AI
server and the life cycle of its one-time codes. It then proves what that
code promises. Two generations of the server are modelled, each over an
in-memory store.

* **The bundled server** (`dist/index.js`).
  * The MySQL tables `users`, `sessions`, `email_verification_tokens`,
    `otp_codes` and `password_reset_tokens` are sequences of rows. The store
    functions are pure table functions (`AuthTables`) and the methods of a
    `Database` class that update its table fields in place (`AuthStore`).
  * The auth service operations are methods on that class, each proved equal
    to a step-by-step specification function (`AuthService`):
    * register;
    * verify a code;
    * login;
    * forgot password and resend code;
    * reset password;
    * change password.
  * The lemmas about those functions live in `AuthServiceProps`.
  * The validators beside the service are pure functions:
    * password strength, an imperative checker proved against a reference
      function;
    * the arithmetic captcha;
    * notification payloads;
    * token extraction, `isSecureRequest` and the resend-purpose mapping.
* **The older TypeScript server.**
  * The store is `server/db.ts`: string flags `"true"`/`"false"`, with reset
    and verification tokens keyed by email. It appears as table functions
    (`LegacyTables`) and a `LegacyDatabase` class (`LegacyStore`), whose
    `upsertUser` builds its two dictionaries field by field.
  * The route handlers are `server/auth/routes.ts`: register, verify-email,
    login, request-reset, verify-otp, reset-password and change-password.
    Each handler is a method on the class, proved equal to a function from
    (input, store, now) to (reply, new store, mail) (`LegacyRoutes`,
    `LegacyRouteProps`).
* **Small helpers:**
  * OTP padding and expiry (`server/otp.ts`, `OtpUtil`);
  * the digit generator and the email check (`server/auth/email.ts`,
    `OtpDigits`, `EmailUtil`);
  * the JSON Web Token middleware and role gates (`Middleware`);
  * the wallet table of the crypto checkout (`CryptoWallets`).

Time, bcrypt salts, JSON Web Tokens, `nanoid` tokens, `Math.random` digits
and whether a mail was delivered are all parameters of the operations that
use them. The store invariants the model keeps are `ValidTables` (bundled)
and `ValidState` (older server):

* user ids below the next id;
* unique user emails, and unique usernames or OAuth ids;
* lower-cased emails in the bundled store;
* at most one code row per (user, purpose) or per email;
* in the bundled store, distinct OTP code ids below the next id;
* in the bundled store, at most one reset entry per user, and none marked
  used.

## Model

| member | source | states |
|---|---|---|
| AuthTables.GetUserByEmail | dist/index.js:270-275 | the user found has the lower-cased email; none is found exactly when no user has it |
| AuthTables.GetUserByEmailOrUsername | dist/index.js:276-282 | the user found has the lower-cased identifier as email or the identifier as username; none exactly when no user matches either |
| AuthTables.GetUserByEmailOrUsernameIsFirst | dist/index.js:276-282 | the user found is the first in table order matching by email or by username, so one kind of match can hide a later one of the other |
| AuthTables.GetUserById | dist/index.js:283-288 | the user found has the id; none exactly when no user has it |
| AuthTables.GetActiveOtpCode | dist/index.js:399-412 | a row is found only if it matches user, code and purpose, is unused and `expiresAt > now`; none exactly when no such row exists |
| AuthTables.ActiveVerification | dist/index.js:360-374 | a verification row is found only if it matches email and code, is unused and unexpired; none exactly when no such row exists |
| AuthTables.GetActivePasswordResetToken | dist/index.js:443-455 | a reset entry is found only if it matches user and code, is unused and unexpired; none exactly when no such entry exists |
| AuthTables.ResetByUser | dist/index.js:437-441 | the read-back after the insert finds an entry of that user, used or not |
| AuthTables.SessionByToken | dist/index.js:324-328 | the read-back after the insert finds a session with that token |
| AuthTables.CreateUser | dist/index.js:251-269 | the insert fails exactly when the lower-cased email or the username is taken, with the tables unchanged; on success the new row, with `isVerified` false, is appended and the next id advances |
| AuthTables.UpdateUsers | dist/index.js:289-312 | the rows with that id are transformed, every other row is kept, and the length is unchanged |
| AuthTables.UpdateUserPassword | dist/index.js:289-296 | only that user's hash and `updatedAt` change; no other table changes |
| AuthTables.UpdateUserVerified | dist/index.js:297-304 | only that user's `isVerified` and `updatedAt` change |
| AuthTables.UpdateUserLastSignedIn | dist/index.js:305-312 | only that user's `lastSignedIn` and `updatedAt` become now |
| AuthTables.CreateSession | dist/index.js:313-329 | exactly one session is appended with the given token and expiry; the returned row carries that token |
| AuthTables.RevokeSession | dist/index.js:330-334 | every session with the token gets `revokedAt = now`; other sessions are untouched |
| AuthTables.SaveEmailVerificationToken | dist/index.js:335-359 | every row of the email is deleted and the new row appended; the read-back succeeds exactly when the expiry is in the future |
| AuthTables.SupersedeSelects | dist/index.js:338-357 | after delete-then-insert, the re-select finds exactly the new row while it is unexpired |
| AuthTables.MarkVerificationUsed | dist/index.js:372 | only the row with that id becomes used at now |
| AuthTables.ConsumeEmailVerificationCode | dist/index.js:360-374 | a row is returned exactly when an active one exists, and it is then marked used; otherwise nothing changes |
| AuthTables.CreateOtpCode | dist/index.js:375-398 | all rows of (user, purpose) are deleted and the new one appended; the read-back succeeds exactly when the expiry is in the future |
| AuthTables.SupersedeOtpSelects | dist/index.js:378-397 | after delete-then-insert, the active lookup finds exactly the new row while it is unexpired |
| AuthTables.MarkOtpUsed | dist/index.js:413-420 | only the row with that id is marked used at now |
| AuthTables.ClearOtpsForPurpose | dist/index.js:421-425 | exactly the rows of (user, purpose) are removed |
| AuthTables.CreatePasswordResetEntry | dist/index.js:426-442 | the user's unused entries are deleted and the new entry appended; the result is an entry of that user |
| AuthTables.CreatePasswordResetEntryReturnsNew | dist/index.js:426-442 | under the invariant, the read-back returns exactly the new entry |
| AuthTables.EmptyTables | dist/index.js:111-201 | the empty database satisfies the store invariant |
| AuthTables.CreateOtpCodeSupersedes | dist/index.js:375-398 | after `createOtpCode`, (user, purpose) has exactly one row: the new unused one with the new code; every other key's rows are unchanged |
| AuthTables.SaveEmailVerificationTokenSupersedes | dist/index.js:335-359 | after `saveEmailVerificationToken`, the email has exactly one row, the new one; other emails are untouched |
| AuthTables.CreatePasswordResetEntrySupersedes | dist/index.js:426-442 | after `createPasswordResetEntry`, the user has exactly one unused entry; other users are untouched |
| AuthTables.MarkOtpUsedIsSingleUse | dist/index.js:399-420 | once the active code is marked used, the same lookup finds nothing at any later instant |
| AuthTables.MarkOtpUsedChangesOneRow | dist/index.js:413-420 | marking a code used changes that row only, and only its `used`/`usedAt` |
| AuthTables.MarkThenClearKeepsOtherCodes | dist/index.js:413-425 | with distinct code ids, marking a code used and then clearing its (user, purpose) leaves exactly the codes of the other pairs |
| AuthTables.ConsumeIsSingleUse | dist/index.js:360-374 | a consumed verification code cannot be consumed again |
| AuthTables.CreateUserKeepsValid | dist/index.js:251-269 | creating a user keeps the store invariant |
| AuthTables.UpdateUsersKeepsValid | dist/index.js:289-312 | updates that keep ids, emails and usernames keep the invariant |
| AuthTables.CreateSessionKeepsValid | dist/index.js:313-329 | creating a session keeps the invariant |
| AuthTables.SaveEmailVerificationTokenKeepsValid | dist/index.js:335-359 | issuing a verification code keeps one row per email |
| AuthTables.ConsumeKeepsValid | dist/index.js:360-374 | consuming a code keeps the invariant |
| AuthTables.CreateOtpCodeKeepsValid | dist/index.js:375-398 | issuing an OTP keeps one row per (user, purpose) and distinct code ids below the counter |
| AuthTables.MarkOtpUsedKeepsValid | dist/index.js:413-420 | marking a code used keeps the invariant |
| AuthTables.ClearOtpsForPurposeKeepsValid | dist/index.js:421-425 | clearing codes keeps the invariant |
| AuthTables.CreatePasswordResetEntryKeepsValid | dist/index.js:426-442 | creating a reset entry keeps one unused entry per user |
| AuthStore.Database.constructor | dist/index.js:111-201 | a new database is empty and valid |
| AuthStore.Database.CreateUser | dist/index.js:251-269 | the fields after the call are what `AuthTables.CreateUser` gives, and the invariant is kept |
| AuthStore.Database.UpdateUserPassword | dist/index.js:289-296 | the new state is `AuthTables.UpdateUserPassword` of the old; the invariant is kept |
| AuthStore.Database.UpdateUserVerified | dist/index.js:297-304 | the new state is `AuthTables.UpdateUserVerified` of the old; the invariant is kept |
| AuthStore.Database.UpdateUserLastSignedIn | dist/index.js:305-312 | the new state is `AuthTables.UpdateUserLastSignedIn` of the old; the invariant is kept |
| AuthStore.Database.CreateSession | dist/index.js:313-329 | result and new state as `AuthTables.CreateSession`; invariant kept |
| AuthStore.Database.RevokeSession | dist/index.js:330-334 | new state as `AuthTables.RevokeSession`; invariant kept |
| AuthStore.Database.SaveEmailVerificationToken | dist/index.js:335-359 | result and new state as `AuthTables.SaveEmailVerificationToken`; invariant kept |
| AuthStore.Database.ConsumeEmailVerificationCode | dist/index.js:360-374 | result and new state as `AuthTables.ConsumeEmailVerificationCode`; invariant kept |
| AuthStore.Database.CreateOtpCode | dist/index.js:375-398 | result and new state as `AuthTables.CreateOtpCode`; invariant kept |
| AuthStore.Database.MarkOtpUsed | dist/index.js:413-420 | new state as `AuthTables.MarkOtpUsed`; invariant kept |
| AuthStore.Database.ClearOtpsForPurpose | dist/index.js:421-425 | new state as `AuthTables.ClearOtpsForPurpose`; invariant kept |
| AuthStore.Database.CreatePasswordResetEntry | dist/index.js:426-442 | result and new state as `AuthTables.CreatePasswordResetEntry`; invariant kept |
| AuthService.NormalizeUsername | dist/index.js:666 | a username kept is the trimmed given one and is not empty |
| AuthService.RegisterUserOn | dist/index.js:664-697 | the database after the call, the result and the mail are those of the specification `RegisterUser`; the invariant is kept |
| AuthService.VerifyOtpOn | dist/index.js:698-727 | result and new state are those of `VerifyOtp`; invariant kept |
| AuthService.LoginUserOn | dist/index.js:728-756 | result and new state are those of `LoginUser`; invariant kept |
| AuthService.SendForgotPasswordCodeOn | dist/index.js:757-778 | result, new state and mail are those of `SendForgotPasswordCode`; invariant kept |
| AuthService.ResendOtpCodeOn | dist/index.js:779-802 | result, new state and mail are those of `ResendOtpCode`; invariant kept |
| AuthService.ResetPasswordOn | dist/index.js:803-833 | result and new state are those of `ResetPasswordOp`; invariant kept |
| AuthService.ChangePasswordOn | dist/index.js:834-845 | result and new state are those of `ChangePassword`; invariant kept |
| AuthServiceProps.RegisterStoreMeaning | dist/index.js:680-696 | once the checks pass: the user is appended with the lower-cased email, hash, `isVerified` false and role user; the email has exactly one verification row holding the mailed six-digit code; success iff the mail was delivered |
| AuthServiceProps.RegisterRejectsWithoutWriting | dist/index.js:667-679 | every rejection other than a failed mail leaves the tables unchanged and sends nothing; a weak password is rejected before the duplicate-email and duplicate-username checks |
| AuthServiceProps.RegisterFreeAfterChecks | dist/index.js:667-679 | passing the checks means a non-empty email, a strong password, and neither the email nor the username taken |
| AuthServiceProps.RegisterSuccess | dist/index.js:664-697 | a successful registration has a trimmed, lower-cased, previously unused email and a strong password whose hash verifies; the user is unverified; exactly one verification row with the mailed code |
| AuthServiceProps.RegisterThenVerify | dist/index.js:664-727 | verifying with the mailed code before it expires succeeds, returns the new user and marks them verified |
| AuthServiceProps.RegisteredCodeIsLive | dist/index.js:664-697 | after registration the store is valid, the email looks up the new user, and a live row holds the mailed code |
| AuthServiceProps.FreshCodeVerifies | dist/index.js:698-716 | a live verification row for a user's email and code makes `verifyOtp` succeed and sets `isVerified` |
| AuthServiceProps.RegisterKeepsValid | dist/index.js:664-697 | registration keeps the store invariant |
| AuthServiceProps.VerifyEmailPath | dist/index.js:703-716 | for `verify_email`, success iff an active verification row matches; failure is "Invalid or expired code" with nothing changed; success returns the user, sets `isVerified`, changes only the users and the verification rows, and the same code is refused at any later time |
| AuthServiceProps.VerifyEmailSingleUse | dist/index.js:703-716 | after a successful `verify_email`, the same code is refused at any later time |
| AuthServiceProps.VerifyOtherPurposePath | dist/index.js:717-726 | for another purpose, success iff an active otp matches; success marks it used, leaves users and verification rows untouched, and the code no longer matches |
| AuthServiceProps.VerifyOtpFailures | dist/index.js:698-727 | every failure is a 400 that changes nothing; "Invalid code or email" exactly when the email is unknown |
| AuthServiceProps.VerifyOtpKeepsValid | dist/index.js:698-727 | code verification keeps the invariant |
| AuthServiceProps.LoginMergesUnknownAndWrongPassword | dist/index.js:729-740 | "Invalid email/username or password" is returned iff the identifier is unknown or a bcrypt hash rejects the password |
| AuthServiceProps.LoginRevealsUnverifiedOnlyAfterPassword | dist/index.js:737-743 | the 403 "not verified" answer is given iff the password matched and the user is unverified |
| AuthServiceProps.LoginOutcome | dist/index.js:728-756 | success iff the user exists, the password verifies and the user is verified; failures change nothing; success returns the signed token, appends exactly one session with it expiring at now+24h, sets only `lastSignedIn` and `updatedAt` on that user, and leaves the other users and every other table unchanged |
| AuthServiceProps.LoginSucceeds | dist/index.js:741-756 | for a verified user whose password matches: the token and user are returned, one session is appended, and only that user's `lastSignedIn` and `updatedAt` change |
| AuthServiceProps.LoginKeepsValid | dist/index.js:728-756 | login keeps the invariant |
| AuthServiceProps.ForgotDoesNotRevealAccounts | dist/index.js:757-778 | the caller always gets success; an unknown email gives no write and no mail whatever the delivery outcome |
| AuthServiceProps.ForgotKnownEmail | dist/index.js:757-778 | a known email gets exactly one `reset_password` otp and one unused reset entry, both with the mailed code and expiry now+10min; the otps and entries of every other key, the users, the sessions and the verification rows are unchanged |
| AuthServiceProps.ForgotThenResetAccepts | dist/index.js:757-833 | the mailed reset code is accepted by the reset-code check until it expires |
| AuthServiceProps.ForgotKeepsValid | dist/index.js:757-778 | the forgot-password path keeps the invariant |
| AuthServiceProps.ResendOutcome | dist/index.js:779-802 | a reset purpose is exactly the forgot path; for `verify_email`: an unknown email changes nothing, a verified user gets "Email sudah terverifikasi" (400), an unverified one gets one fresh verification row and the mail |
| AuthServiceProps.ResendKeepsValid | dist/index.js:779-802 | resending keeps the invariant |
| AuthServiceProps.ResetChecks | dist/index.js:803-833 | an unknown email is "Invalid reset request"; the code passes iff an active otp OR an active reset entry matches; strength is checked only after the code; success iff both pass; failures change nothing |
| AuthServiceProps.ResetSuccess | dist/index.js:820-832 | success replaces that user's hash with one verifying the new password (only `passwordHash` and `updatedAt` change on the row), keeps all other users, removes all of the user's `reset_password` otps and, codes having distinct ids, keeps every other otp; sessions, verification rows and reset entries are unchanged |
| AuthServiceProps.ResetWritesMeaning | dist/index.js:820-832 | the writes of an accepted reset, whichever path accepted the code: only the users and otps change; that user's row gets a hash verifying the new password and a new `updatedAt`; other users are kept; the user's `reset_password` otps are gone and, codes having distinct ids, every other otp is kept |
| AuthServiceProps.ResetEntryReplayable | dist/index.js:803-833 | since the reset entry is never marked used, the same code resets the password a second time while it is unexpired |
| AuthServiceProps.ResetKeepsValid | dist/index.js:803-833 | the reset keeps the invariant |
| AuthServiceProps.ChangePasswordOutcome | dist/index.js:834-845 | success iff the user exists, the current password verifies and the new one is strong; an unknown user and a wrong current password give their 401s; failures change nothing; success sets only that user's `passwordHash` (to a hash of the new password) and `updatedAt`, and no other user or table changes |
| AuthServiceProps.ChangePasswordKeepsValid | dist/index.js:834-845 | changing a password keeps the invariant |
| Captcha.ValidateSimpleCaptcha | dist/index.js:470-481 | accepted iff the payload is present, all three fields are numbers and a + b = answer; missing gives "required", a non-number gives "invalid"; every refusal is a 400 |
| Captcha.CaptchaAnswerUnique | dist/index.js:470-481 | at most one answer is accepted for each pair of numbers |
| Captcha.WrongAnswerIsIncorrect | dist/index.js:478-480 | a wrong numeric answer gives "incorrect", never "invalid" |
| PasswordPolicy.StrengthErrorsMeaning | dist/index.js:507-528 | the message list is the messages of the violated rules in rule order (length, upper, lower, digit, special), each at most once, a rule's message present iff the rule fails; empty iff all five hold |
| PasswordPolicy.MessagesDistinct | dist/index.js:509-523 | the five messages are pairwise distinct |
| PasswordPolicy.MessagesOfMembership | dist/index.js:509-523 | a rule's message is listed iff the rule is |
| PasswordPolicy.AllRulesHold | dist/index.js:507-528 | no rule violated iff length >= 8 and an upper, a lower, a digit and a special character occur |
| PasswordPolicy.StrengthErrorsUnrolled | dist/index.js:508-523 | the list is the five checks' pushes concatenated, none short-circuiting |
| PasswordPolicy.ValidatePasswordStrength | dist/index.js:507-528 | the pushed list equals the reference message list; `isValid` iff it is empty iff all five rules hold |
| PasswordPolicy.StrongPasswordPasses | server/auth/auth.test.ts:62-66 | `SecurePass123!` yields no errors |
| PasswordPolicy.OnlyRuleBroken | dist/index.js:507-528 | a password breaking exactly one rule gets exactly that rule's message |
| PasswordPolicy.ShortPasswordFails | server/auth/auth.test.ts:69-74 | `Pass1!` gets exactly the length message |
| PasswordPolicy.NoUpperFails | server/auth/auth.test.ts:76-81 | `securepass123!` gets exactly the upper-case message |
| PasswordPolicy.NoLowerFails | server/auth/auth.test.ts:83-88 | `SECUREPASS123!` gets exactly the lower-case message |
| PasswordPolicy.NoDigitFails | server/auth/auth.test.ts:90-95 | `SecurePass!` gets exactly the number message |
| PasswordPolicy.NoSpecialFails | server/auth/auth.test.ts:97-104 | `SecurePass123` gets exactly the special-character message |
| PasswordPolicy.WeakPasswordFails | server/auth/auth.test.ts:106-111 | `pass` gets four messages, in rule order: length, upper case, number, special character |
| PasswordPolicy.TildeIsNotSpecial | dist/index.js:521 | `~` is outside the special-character class, so `Pass~word1` gets exactly the special-character message |
| PasswordPolicy.ViolatedRulesMeaning | dist/index.js:508-523 | rule k is listed among the violated rules iff it fails, and the list is strictly increasing |
| Hashing.HashPassword | dist/index.js:489-497 | a hash is never the empty one of OAuth accounts |
| Hashing.VerifyPassword | dist/index.js:498-506 | only a real hash can verify |
| Hashing.VerifyHashed | server/auth/auth.test.ts:35-58 | a hash verifies its own password and no other |
| Hashing.HashIsSalted | server/auth/auth.test.ts:26-33 | two salts give two different hashes of one password |
| Notification.ValidatePayload | dist/index.js:1035-1063 | accepted iff title and content are non-blank strings within their length limits after trimming; the values are the trimmed ones; a missing title is reported first, then content; every refusal is 400 |
| Notification.ValidatePayloadNormalises | dist/index.js:1035-1063 | accepted values are non-empty with non-white ends, and validating them again gives them unchanged |
| Notification.TrimmedField | dist/index.js:1048-1049 | the trimmed form of a non-blank field has non-white ends |
| Notification.BlankTitleIsMissing | dist/index.js:1036-1041 | a title of only white space is refused as missing |
| RequestContext.TruthyCookie | dist/index.js:1386-1387 | a cookie is taken iff it is set and non-empty |
| RequestContext.ExtractToken | dist/index.js:1381-1388 | a "Bearer " header gives the rest of the header, else the first truthy fallback cookie |
| RequestContext.ExtractTokenMeaning | dist/index.js:1381-1388 | a cookie token is a non-empty value of a fallback cookie; a bare "Bearer " gives the empty token; no token iff every fallback cookie is empty or absent |
| RequestContext.IsSecureRequest | dist/index.js:76-82 | secure iff the protocol is https or a trimmed, lower-cased `x-forwarded-proto` entry is https |
| RequestContext.AnyHttps | dist/index.js:81 | true iff some listed protocol is https |
| RequestContext.ForwardedPieces | dist/index.js:79-81 | a comma-separated header is secure iff one of its pieces is https; the pieces join back to the header |
| RequestContext.NormalizeResendPurpose | dist/index.js:1000 | the purpose is `verify_email` exactly when that is what was asked, otherwise `reset_password` |
| OtpDigits.DigitChar | dist/index.js:660 | a digit's text is the character of its value |
| OtpDigits.DrawnCode | dist/index.js:657-663 | the first n draws make an n-character all-digit code |
| OtpDigits.GenerateOtp | server/auth/email.ts:238-244 | the loop returns the code of the draws, of the length asked (none for a negative one), all digits |
| OtpDigits.DrawnCodeDeterminesDraws | dist/index.js:657-663 | equal codes iff equal draws, so the code determines the digits drawn |
| OtpUtil.DecimalString | server/otp.ts:9-10 | `toString` of a number is a non-empty digit string denoting it |
| OtpUtil.PadStart | server/otp.ts:11 | a short string is left-filled to the width and ends with itself; a long one is unchanged |
| OtpUtil.GenerateOtpPaddedMeaning | server/otp.ts:8-13 | the code has 6 digits, denotes the draw, and starts with "0" below 100000 |
| OtpUtil.LeadingDigitNonZero | server/otp.ts:9-10 | a positive number's decimal text has no leading zero |
| OtpUtil.ValueAtLeast | server/otp.ts:11 | six digits beginning with a non-zero digit denote at least 100000 |
| OtpUtil.GenerateOtpPaddedInjective | server/otp.ts:8-13 | distinct draws give distinct codes, so padding and parsing round-trip |
| OtpUtil.ExpiryWindow | server/otp.ts:18-29 | a code issued at t expires at t + 5 min; it is expired iff more than 5 minutes have passed, not at exactly t + 5 min, and never at or before issue |
| EmailUtil.IndexOf | server/auth/email.ts:250-251 | the index found is the first occurrence; none iff the character is absent |
| EmailUtil.IsValidEmailMatchesPattern | server/auth/email.ts:249-252 | the first-'@' check accepts exactly the strings the regular expression `^[^\s@]+@[^\s@]+\.[^\s@]+$` matches |
| EmailUtil.AcceptsPlainAddress | server/auth/auth.test.ts:190-192 | `user@example.com` is accepted |
| EmailUtil.AcceptsDottedAddress | server/auth/auth.test.ts:190-192 | `john.doe@company.co.uk` is accepted |
| EmailUtil.AcceptsTaggedAddress | server/auth/auth.test.ts:193 | `test+tag@domain.org` is accepted |
| EmailUtil.RejectsMissingAt | server/auth/auth.test.ts:196-197 | `invalid.email` is rejected |
| EmailUtil.RejectsMalformedAddresses | server/auth/auth.test.ts:196-205 | `@example.com`, `user@`, `user @example.com` and the empty string are rejected |
| LegacyTables.GetUserByEmail | server/db.ts:67-80 | the user found has exactly that email; none iff no user has it |
| LegacyTables.GetUserById | server/db.ts:85-94 | the user found has the id; none iff no user has it |
| LegacyTables.GetUserByOpenId | server/db.ts:222-236 | the user found has the OAuth id; none iff no user has it |
| LegacyTables.GetPasswordResetToken | server/db.ts:278-300 | a token is found only if email, otp match and `expiresAt > now`, whatever its `isVerified`; none iff no such token |
| LegacyTables.GetEmailVerificationToken | server/db.ts:390-412 | a token is found only if email, code match and it is unexpired; none iff no such token |
| LegacyTables.GetSession | server/db.ts:501-520 | a session is found only if active and unexpired; none iff no such session |
| LegacyTables.CreateUser | server/db.ts:38-62 | fails iff the email is taken, changing nothing; otherwise appends the user with `isEmailVerified "false"` |
| LegacyTables.UpdateUserPassword | server/db.ts:99-115 | every user with the email gets the new hash; others unchanged |
| LegacyTables.UpdateUserEmailVerified | server/db.ts:120-136 | every user with the email gets the flag as "true"/"false"; others unchanged |
| LegacyTables.UpdateUserLastSignedIn | server/db.ts:141-154 | only that user's `lastSignedIn` is set to now |
| LegacyTables.FirstCollision | server/db.ts:210-212 | the first row whose OAuth id or email collides with the insert, none iff no row collides |
| LegacyTables.UpsertUser | server/db.ts:159-217 | throws iff `openId` is missing, and then changes nothing |
| LegacyTables.CreatePasswordResetToken | server/db.ts:245-273 | every row of the email is deleted and one appended; read-back succeeds iff unexpired |
| LegacyTables.SupersedeReset | server/db.ts:256-270 | after delete-then-insert the lookup finds exactly the new token while it is unexpired |
| LegacyTables.VerifyPasswordResetToken | server/db.ts:305-326 | every (email, otp) row, expired or not, gets `isVerified "true"`; nothing else changes |
| LegacyTables.DeletePasswordResetToken | server/db.ts:331-348 | exactly the (email, otp) rows are removed |
| LegacyTables.CreateEmailVerificationToken | server/db.ts:357-385 | every row of the email is deleted and one appended; read-back succeeds iff unexpired |
| LegacyTables.SupersedeVerification | server/db.ts:368-382 | after delete-then-insert the lookup finds exactly the new token while it is unexpired |
| LegacyTables.VerifyEmailVerificationToken | server/db.ts:417-438 | every (email, code) row gets `isVerified "true"`; nothing else changes |
| LegacyTables.DeleteEmailVerificationToken | server/db.ts:443-460 | exactly the (email, code) rows are removed |
| LegacyTables.CreateSession | server/db.ts:469-496 | a session with `isActive "true"` is appended; a future expiry makes the read-back succeed with a live session of that token |
| LegacyTables.InvalidateSession | server/db.ts:525-538 | every session with the token becomes inactive; others unchanged |
| LegacyTables.InvalidateAllUserSessions | server/db.ts:543-556 | every session of that user becomes inactive and no other user's |
| LegacyTables.EmptyState | server/db.ts:38-556 | the empty store satisfies the invariant |
| LegacyTableProps.ResetTokenSupersedes | server/db.ts:245-273 | after creating a reset token the email has exactly one, with `isVerified "false"`; other emails untouched |
| LegacyTableProps.VerificationTokenSupersedes | server/db.ts:357-385 | the same for verification tokens |
| LegacyTableProps.ResetLookupIgnoresFlag | server/db.ts:278-300 | a fresh reset token is found iff unexpired, and is found while still unverified |
| LegacyTableProps.VerifyResetMarksFound | server/db.ts:305-326 | after `verifyPasswordResetToken` the lookup finds a token exactly when it did before, and finds it marked "true" |
| LegacyTableProps.VerifyEmailTokenMarksFound | server/db.ts:417-438 | after `verifyEmailVerificationToken` the lookup finds a token exactly when it did before, and finds it marked "true" |
| LegacyTableProps.DeletedTokensAreGone | server/db.ts:331-348 | a deleted (email, code) pair is never found again, and every other row survives; likewise for verification tokens (443-460) |
| LegacyTableProps.InvalidateSessionEndsIt | server/db.ts:525-538 | after `invalidateSession(token)`, `getSession(token)` finds nothing at any instant |
| LegacyTableProps.SessionLifecycle | server/db.ts:469-538 | a created session is active and found, and not found once invalidated |
| LegacyTableProps.InvalidateAllOnlyThatUser | server/db.ts:543-556 | after `invalidateAllUserSessions` the user has no active session, and a token of no session of theirs is looked up as before |
| LegacyTableProps.AssignAllTextFields | server/db.ts:178-188 | the `forEach` assigns `name` then `loginMethod` |
| LegacyTableProps.UpsertAssignmentsMeaning | server/db.ts:171-208 | `updateSet` is never empty and holds only name, loginMethod, lastSignedIn and role; a given name or loginMethod goes into both dictionaries; "admin" is assigned iff given or no role is given and the OAuth id is the owner's; `lastSignedIn` defaults to now |
| LegacyTableProps.UpsertInsertsNewUser | server/db.ts:159-217 | with no collision, one user is appended with the OAuth id, the email or "", no password and the defaulted fields, and is what the OAuth lookup finds |
| LegacyTableProps.UpsertUpdatesExistingUser | server/db.ts:159-217 | on a collision only the first colliding row changes, and only name, loginMethod, role, lastSignedIn and updatedAt from `updateSet` |
| LegacyTableProps.UsersSameKeysKeepValid | server/db.ts:99-154 | user updates that keep ids, emails and OAuth ids keep the invariant |
| LegacyTableProps.CreateUserKeepsValid | server/db.ts:38-62 | creating a user keeps the invariant |
| LegacyTableProps.UserUpdatesKeepValid | server/db.ts:99-154 | the three user updates keep the invariant |
| LegacyTableProps.UpsertKeepsValid | server/db.ts:159-217 | the upsert keeps the invariant |
| LegacyTableProps.TokenWritesKeepValid | server/db.ts:245-556 | the token and session writes keep one token per email |
| LegacyStore.LegacyDatabase.constructor | server/db.ts:38-556 | a new store is empty and valid |
| LegacyStore.LegacyDatabase.CreateUser | server/db.ts:38-62 | result and new state as `LegacyTables.CreateUser`; invariant kept |
| LegacyStore.LegacyDatabase.UpdateUserPassword | server/db.ts:99-115 | new state as `LegacyTables.UpdateUserPassword`; invariant kept |
| LegacyStore.LegacyDatabase.UpdateUserEmailVerified | server/db.ts:120-136 | new state as `LegacyTables.UpdateUserEmailVerified`; invariant kept |
| LegacyStore.LegacyDatabase.UpdateUserLastSignedIn | server/db.ts:141-154 | new state as `LegacyTables.UpdateUserLastSignedIn`; invariant kept |
| LegacyStore.LegacyDatabase.UpsertUser | server/db.ts:159-217 | result and new state as `LegacyTables.UpsertUser`; invariant kept |
| LegacyStore.LegacyDatabase.InsertOrUpdate | server/db.ts:210-212 | new state is the insert-or-update of `LegacyTables.InsertOrUpdate` |
| LegacyStore.LegacyDatabase.CreatePasswordResetToken | server/db.ts:245-273 | result and new state as `LegacyTables.CreatePasswordResetToken`; invariant kept |
| LegacyStore.LegacyDatabase.VerifyPasswordResetToken | server/db.ts:305-326 | new state as `LegacyTables.VerifyPasswordResetToken`; invariant kept |
| LegacyStore.LegacyDatabase.DeletePasswordResetToken | server/db.ts:331-348 | new state as `LegacyTables.DeletePasswordResetToken`; invariant kept |
| LegacyStore.LegacyDatabase.CreateEmailVerificationToken | server/db.ts:357-385 | result and new state as `LegacyTables.CreateEmailVerificationToken`; invariant kept |
| LegacyStore.LegacyDatabase.VerifyEmailVerificationToken | server/db.ts:417-438 | new state as `LegacyTables.VerifyEmailVerificationToken`; invariant kept |
| LegacyStore.LegacyDatabase.DeleteEmailVerificationToken | server/db.ts:443-460 | new state as `LegacyTables.DeleteEmailVerificationToken`; invariant kept |
| LegacyStore.LegacyDatabase.CreateSession | server/db.ts:469-496 | result and new state as `LegacyTables.CreateSession`; invariant kept |
| LegacyStore.LegacyDatabase.InvalidateSession | server/db.ts:525-538 | new state as `LegacyTables.InvalidateSession`; invariant kept |
| LegacyStore.LegacyDatabase.InvalidateAllUserSessions | server/db.ts:543-556 | new state as `LegacyTables.InvalidateAllUserSessions`; invariant kept |
| LegacyStore.AssignTextFields | server/db.ts:171-188 | the two dictionaries after the initial values and the `forEach` are the reference `AssignAll` ones |
| LegacyStore.AssignRemaining | server/db.ts:190-208 | the remaining assignments give the reference `FinishAssignments` dictionaries |
| LegacyRoutes.RegisterOn | server/auth/routes.ts:39-99 | reply, new store and mail are those of the handler function `Register`; invariant kept |
| LegacyRoutes.VerifyEmailOn | server/auth/routes.ts:109-145 | as `VerifyEmail`; invariant kept |
| LegacyRoutes.LoginOn | server/auth/routes.ts:155-225 | as `Login`; invariant kept |
| LegacyRoutes.RequestResetOn | server/auth/routes.ts:235-271 | as `RequestReset`; invariant kept |
| LegacyRoutes.VerifyResetOtpOn | server/auth/routes.ts:281-307 | as `VerifyResetOtp`; invariant kept |
| LegacyRoutes.ResetPasswordOn | server/auth/routes.ts:317-370 | as `ResetPassword`; invariant kept |
| LegacyRoutes.ChangePasswordOn | server/auth/routes.ts:437-493 | as `ChangePassword`; invariant kept |
| LegacyRouteProps.RegisterChecksInOrder | server/auth/routes.ts:44-74 | missing fields → 400, bad email → 400, mismatch → 400, weak → 400 with the strength messages, taken email → 409, in that order; any refusal leaves the store unchanged with no mail |
| LegacyRouteProps.RegisterSuccess | server/auth/routes.ts:76-94 | an accepted registration answers 201 with the new id; appends the user with `isEmailVerified "false"` and a hash verifying exactly the password; leaves one verification token for the email, expiring at now+24h, whose six-digit code is mailed |
| LegacyRouteProps.RegisterThenVerifyEmail | server/auth/routes.ts:76-145 | verifying with the mailed code within 24h answers 200 and marks the new user verified |
| LegacyRouteProps.VerifyEmailOutcome | server/auth/routes.ts:109-145 | success iff both fields are given and a live token matches; failure changes nothing; success marks every user of the email verified and deletes the token, so repeating the request gives 400 |
| LegacyRouteProps.LoginOutcome | server/auth/routes.ts:155-225 | an unknown email and a wrong password give the same 401; an account without a password hash gets its own 401; 403 iff the password matched and the flag is not "true"; a token is issued iff password and flag pass; only a login changes the store, and only `lastSignedIn` |
| LegacyRouteProps.RequestResetOutcome | server/auth/routes.ts:235-271 | always 200; an unknown email writes nothing and mails nothing; a known one leaves exactly one unverified token expiring at now+10min, mails its code, and the message tells which case it was |
| LegacyRouteProps.VerifyResetOtpOutcome | server/auth/routes.ts:281-307 | 400 iff no live token matches, then nothing changes; otherwise 200 and the token is marked verified |
| LegacyRouteProps.ResetPasswordOutcome | server/auth/routes.ts:317-370 | strength is checked before the lookup; success iff strong and a live token with `isVerified "true"`; failure changes nothing; success rehashes every user of the email and deletes the token, so a second reset gives 400 |
| LegacyRouteProps.ResetFlow | server/auth/routes.ts:235-370 | resetting straight after request-reset is refused as not verified, and succeeds once verify-otp has run |
| LegacyRouteProps.RequestedTokenFound | server/auth/routes.ts:235-266 | the requested token is what the lookup finds while it is unexpired |
| LegacyRouteProps.ChangePasswordOutcome | server/auth/routes.ts:437-493 | mismatch → 400, wrong current password → 401, weak → 400 with details; success iff all pass; only success changes the store, and then the new password verifies and the old one no longer does |
| Middleware.BearerPart | server/auth/middleware.ts:25-28 | a "Bearer " header is the prefix followed by the part; any other header gives nothing |
| Middleware.CookieValue | server/auth/middleware.ts:31-33 | a cookie counts iff set and non-empty |
| Middleware.RequestToken | server/auth/middleware.ts:22-33 | the bearer part if non-empty, else `cookies.token`, else `cookies.jwt`; none iff all three are empty |
| Middleware.AuthMiddleware | server/auth/middleware.ts:19-56 | `next` is called iff a token exists and verifies, with its claims and token attached; otherwise 401 "No token provided" or "Invalid or expired token" |
| Middleware.RequireAuth | server/auth/middleware.ts:62-68 | passes iff a user is attached, else 401 |
| Middleware.RequireAdmin | server/auth/middleware.ts:73-85 | passes only an admin; no user → 401, another role → 403 |
| Middleware.RequireRole | server/auth/middleware.ts:90-104 | passes only the role; no user → 401, another role → 403 naming the role |
| Middleware.OptionalAuth | server/auth/middleware.ts:110-136 | always calls `next` |
| Middleware.OptionalAuthFollowsAuthMiddleware | server/auth/middleware.ts:110-136 | `optionalAuth` attaches what `authMiddleware` would, and leaves the request untouched where it would refuse |
| Middleware.AuthenticatedThenGated | server/auth/middleware.ts:19-104 | a request let through passes `requireAuth`, and passes a role gate iff its token's claims carry the role |
| Middleware.RequireAdminIsRequireRoleAdmin | server/auth/middleware.ts:73-104 | `requireAdmin` is `requireRole("admin")` except for the capital letter of the 403 message |
| Middleware.BearerHeaderWins | server/auth/middleware.ts:25-28 | a bearer header with a token decides it whatever the cookies say |
| Middleware.BareBearerFallsBack | server/auth/middleware.ts:25-33 | a bare "Bearer " falls back to the cookies, whereas the bundled `extractToken` yields the empty token |
| Middleware.NoCredentialsRefused | server/auth/middleware.ts:35-38 | with no header and no cookies the request is refused with "No token provided" and `optionalAuth` passes it on untouched |
| CryptoWallets.GetCryptoConfig | server/crypto.ts:59-65 | a success is the table's entry for the coin; a failure is "Unknown crypto type: " and the coin |
| CryptoWallets.GetAvailableCryptos | server/crypto.ts:70-75 | one (coin, config) pair per table entry, in table order |
| CryptoWallets.WalletKeys | server/crypto.ts:5-54 | the table has five entries; its keys are exactly the five coin types, none written twice |
| CryptoWallets.GetCryptoConfigTotalOnTypes | server/crypto.test.ts:11-48 | the lookup succeeds iff the coin is one of the five types, with each coin's stored configuration |
| CryptoWallets.AvailableCryptosAgree | server/crypto.test.ts:52-65 | five options, each agreeing with `getCryptoConfig` of its coin, every type listed |
| CryptoWallets.ConfigsFilledIn | server/crypto.test.ts:67-76 | every field of every entry is non-empty |
| CryptoWallets.SharedEthereumAddress | server/crypto.ts:18-54 | ETH and USDT ERC-20 share one address; every other pair of entries has distinct addresses |
| CryptoWallets.NoBinanceChain | server/crypto.test.ts:113-127 | no key is BNB or BEP20, and no network name contains "BNB" or "BEP-20" |
| CryptoWallets.OnlyLeadingB | server/crypto.ts:18-54 | the only 'B' in any network name is the first letter of "Bitcoin mainnet" |

## Left out

- Lower-casing is ASCII-only (`JsText.ToLower`), and strings are sequences of characters. JavaScript's full Unicode `toLowerCase` and its UTF-16 lengths are not modelled.
- bcrypt is an idealised salted hash: each hash verifies its own password and no other. Its 72-byte truncation and the cost factor `SALT_ROUNDS` are not modelled.
- MySQL's case-insensitive collation is not modelled. Lookups compare strings exactly, which is what the code's own lower-casing aims at.
- The captcha's numbers are integers. JavaScript's floating-point addition is not modelled.
- Mail delivery is not modelled. A mail is an output value, and whether it was delivered is a boolean parameter. The HTML templates and the nodemailer transport are left out.
- Concurrency is not modelled. Every operation runs alone, so the race between a consume's select and its update is out of reach.
- Tokens are not required to be unique. Fresh `nanoid` and JSON Web Token strings are parameters.
- The "database not available" paths are not modelled, because the store always exists. This covers `getDb()` returning null, and the warnings and throws that follow.
- The `/me` and `/logout` handlers of the older server are not modelled. Neither are the express cookie handlers of the bundled server, apart from the resend-purpose mapping.
- JSON Web Token signing and verification are parameters. `verifyToken` is a function giving the claims or nothing, and `createToken` is the given `jwt` string.
- `authMiddleware`'s catch branch ("Authentication failed") is not modelled. With a total `verify` parameter it cannot be reached.
- `LegacyTables.UpsertUser`: only the first row that collides on `openId` or `email` is updated. What MySQL does when two different rows collide is not modelled.
- Columns that MySQL updates automatically with `onUpdateNow` are set only where the code writes them.
- `CryptoWallets.GetCryptoConfig`: keys inherited from `Object.prototype` (such as "toString") are not table entries here. In JavaScript they would return a non-config value instead of throwing.
- `getCryptoPrice` is left out because it fetches over the network. `calculateCryptoAmount` is left out because it is floating point.
- The older server's password strength check uses `PasswordPolicy`, the bundled `validatePasswordStrength`. `server/auth/password.ts` is not part of this model.
- `sendOTPEmail` in `server/otp.ts` is left out, because it is a logging placeholder.
- `generateOTP` in `server/otp.ts` and `generateOtp` in the bundled server take their random input as a parameter: a draw in [0, 10^6) and a function from the position of a digit to the digit drawn there, respectively.
- The client pages, `server/routers.ts` and `drizzle/schema.ts` are not modelled. The schema gives only the row shapes.
