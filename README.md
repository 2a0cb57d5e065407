# User service: account and credential lifecycle

This project models the server side of the user service's account and
credential handling, and proves properties of the model. It covers three
parts.

- **Password reset** (`PasswordResetService`). A request looks up a user by
  username or email. It then stores a fresh token for that user, valid for one
  hour, and emails the token to the user. Redeeming a token has three cases:
  an unknown token fails; an expired token is deleted and fails; a live token
  sets its owner's password and is deleted.
- **Login and second factor** (`AuthenticationController`). Login has four
  outcomes: rejected credentials give 401; an unknown user gives 401; a
  2FA-enabled user is sent a code and gets no token; any other user gets a
  JWT. verify-2fa has two outcomes: a wrong code gives 403; a matching code is
  deleted and a JWT is issued.
- **User directory** (`UserController`). It covers listing users, lookup
  by id, registration with a duplicate check and password encoding, partial
  profile update, and delete.

Modules, one per component:

- `Wrappers` (wrappers.dfy): `Option`, `Result`, `Outcome`.
- `Users` (users.dfy): the `User` entity, the update DTO, and the
  username-or-email lookup. The `UserRepository` class holds users in a map
  keyed by id.
- `UserApi` (user_api.dfy): the `UserController` class.
- `PasswordReset` (password_reset.dfy): the token repository, the
  `PasswordResetService` class, and the reset lemmas.
- `Authentication` (authentication.dfy): the 2FA code store
  (`TwoFactorAuthService`), the `AuthenticationController` class, and the
  login lemmas.

The stores are classes whose methods reassign a `map` field. Five
state-changing methods ensure that their answer and the new store equal a
step function applied to the old store:
`PasswordResetService.GenerateResetTokenAndSendEmail` (`RequestStep`),
`PasswordResetService.ResetPassword` (`ResetStep`),
`AuthenticationController.AuthenticateUser` (`LoginStep`),
`AuthenticationController.Verify2FA` (`Verify2FAStep`) and
`UserController.CreateUser` (`Register`). Lemmas about those step functions
state the properties, including ones that span several calls. The other
state-changing methods (`UserController.UpdateUser`,
`UserController.DeleteUser`, and the repository and code-store primitives)
state their new map directly in their `ensures`.

Collaborators outside the model become parameters:

- the clock (`now`, in seconds);
- the random reset token and the random 2FA code, each a parameter (the reset
  token must not already be stored);
- the authentication manager's answer (`Call<Authentication>`: an
  authentication, or the exception it threw);
- the user-details lookup in verify-2fa (the user's authorities, or an
  exception);
- the password encoder (a function `encode` given to each registration);
- the database-generated id of a new user.

A JWT is the datatype value `JwtResponse(subject)`, the token minted from
that authentication. Sent emails are recorded in ghost `outbox` sequences.

`findByUsernameOrEmail(x, x)` is a single-result query, and its outcomes
are modelled as `Lookup`:

- `NoMatch`: the query returns null;
- `Found(id)`: exactly one user has `x` as username or email;
- `Ambiguous`: several users match, so the query throws. At login the
  generic handler turns this into 500. In a reset request the exception
  propagates.

Where the code's behaviour is surprising, the model follows the code:

- Login authenticates first and looks the user up second, so an unknown user
  with accepted credentials gets 401 "User not found".
- `TwoFactorAuthService` is not modelled; its codes are taken to have no expiry.
- A failed reset throws a `RuntimeException` rather than answering 400.

## Model

| member | source | states |
|---|---|---|
| Users.LookupIn | application/user-service/src/main/java/com/hypehouse/user_service/email/PasswordResetService.java:31-34 | no match iff no user has the identifier as username or email; Found names the only such user, who is stored; Ambiguous iff more than one matches |
| Users.UserRepository.FindByUsernameOrEmail | application/user-service/src/main/java/com/hypehouse/user_service/authentication/AuthenticationController.java:53 | the repository query answers exactly `LookupIn` of the stored users |
| Users.UserRepository.Save | application/user-service/src/main/java/com/hypehouse/user_service/UserController.java:54 | saving stores the user under its own id, replacing any row with that id, and nothing else changes |
| Users.UserRepository.DeleteById | application/user-service/src/main/java/com/hypehouse/user_service/UserController.java:77 | deleting removes exactly the row with that id |
| Users.MergeByFields | application/user-service/src/main/java/com/hypehouse/user_service/UserController.java:95-126 | setting each of the ten profile fields to the DTO's value when non-null, else keeping it, and touching nothing else, is a merge in the sense of `IsMergeOf` |
| Users.MergeIsDeterministic | application/user-service/src/main/java/com/hypehouse/user_service/UserController.java:95-126 | the merged user is determined by the user and the DTO |
| Users.MergeIsIdempotent | application/user-service/src/main/java/com/hypehouse/user_service/UserController.java:95-126 | applying the same DTO to the merged user gives the same user again |
| Users.EmptyDtoIsIdentity | application/user-service/src/main/java/com/hypehouse/user_service/UserController.java:95-126 | an all-null DTO leaves the user unchanged |
| UserApi.UserController.GetAllUsers | application/user-service/src/main/java/com/hypehouse/user_service/UserController.java:28-31 | 200 with exactly the stored users |
| UserApi.UserController.GetUserById | application/user-service/src/main/java/com/hypehouse/user_service/UserController.java:35-39 | 200 with the stored user iff the id is present; otherwise UserNotFoundException for that id |
| UserApi.RegisterRejectsDuplicates | application/user-service/src/main/java/com/hypehouse/user_service/UserController.java:44-47 | registration fails iff some stored user has the same email or the same username; on failure the directory is unchanged |
| UserApi.RegisterSavesEncodedUser | application/user-service/src/main/java/com/hypehouse/user_service/UserController.java:49-55 | a successful registration answers 201 with the saved user and adds exactly that user. A non-null, non-empty password is saved encoded, and a null or empty one is saved as given. All profile fields and the 2FA flag are saved as submitted. |
| UserApi.RegisterPreservesUniqueness | application/user-service/src/main/java/com/hypehouse/user_service/UserController.java:44-55 | if usernames are unique and emails are unique before a registration, they still are after it |
| UserApi.UserController.CreateUser | application/user-service/src/main/java/com/hypehouse/user_service/UserController.java:43-56 | the answer and new directory are `Register` of the old directory; uniqueness of usernames and of emails is preserved |
| UserApi.UserController.UpdateUserFields | application/user-service/src/main/java/com/hypehouse/user_service/UserController.java:95-126 | the result overwrites exactly the profile fields the DTO supplies; the id, password and 2FA flag are unchanged |
| UserApi.UserController.UpdateUser | application/user-service/src/main/java/com/hypehouse/user_service/UserController.java:60-68 | an absent id gives UserNotFoundException and no change; a present one answers 200 with the merged user, and only that user's row changes |
| UserApi.UpdateMayDuplicateUsername | application/user-service/src/main/java/com/hypehouse/user_service/UserController.java:60-68 | update does not re-check uniqueness: an update can give a user another user's username |
| UserApi.UserController.DeleteUser | application/user-service/src/main/java/com/hypehouse/user_service/UserController.java:72-79 | an absent id gives UserNotFoundException and no change; a present one is removed, alone, with 204 |
| PasswordReset.RequestForUnknownUserFails | application/user-service/src/main/java/com/hypehouse/user_service/email/PasswordResetService.java:30-34 | with no single matching user the request fails ("User not found" when none matches); no token is stored and no email is sent |
| PasswordReset.RequestIssuesOneHourToken | application/user-service/src/main/java/com/hypehouse/user_service/email/PasswordResetService.java:36-40 | a request adds one token bound to the found user, expiring exactly one hour after now. Earlier tokens, including that user's, are kept. The email goes to the user's address and carries the stored token. |
| PasswordReset.UnknownTokenChangesNothing | application/user-service/src/main/java/com/hypehouse/user_service/email/PasswordResetService.java:45-46 | an unknown token fails with "Invalid or expired token"; users and tokens are unchanged |
| PasswordReset.ExpiredTokenIsDeleted | application/user-service/src/main/java/com/hypehouse/user_service/email/PasswordResetService.java:48-51 | an expired token is deleted and the reset fails with "Token expired"; no password changes |
| PasswordReset.RedeemSetsOnlyOwnersPassword | application/user-service/src/main/java/com/hypehouse/user_service/email/PasswordResetService.java:53-58 | a live token sets its owner's password to exactly the supplied string and is deleted. All other users, all other tokens and the owner's other fields are unchanged. |
| PasswordReset.RedeemIsSingleUse | application/user-service/src/main/java/com/hypehouse/user_service/email/PasswordResetService.java:53-58 | after a successful reset, the same token fails as unknown |
| PasswordReset.RequestThenRedeem | application/user-service/src/main/java/com/hypehouse/user_service/email/PasswordResetService.java:30-58 | a token requested for a user and redeemed within the hour sets that user's password and leaves the tokens as before the request; a second redemption fails |
| PasswordReset.RequestThenRedeemTooLate | application/user-service/src/main/java/com/hypehouse/user_service/email/PasswordResetService.java:36-51 | a token redeemed more than an hour after its request fails as expired, and both stores return to their state before the request |
| PasswordReset.ApplyAddsOnlyRequestedToken | application/user-service/src/main/java/com/hypehouse/user_service/email/PasswordResetService.java:36-58 | no call stores a token other than the one a request draws |
| PasswordReset.NeverStoredNeverRedeemed | application/user-service/src/main/java/com/hypehouse/user_service/email/PasswordResetService.java:45-46 | a token neither stored nor requested is never redeemed, whatever the calls |
| PasswordReset.RedeemedAtMostOnce | application/user-service/src/main/java/com/hypehouse/user_service/email/PasswordResetService.java:43-58 | when every request draws a never-seen token, each token is redeemed successfully at most once over any sequence of requests and redemptions |
| PasswordReset.ExpiredTokenSurvivesRollback | application/user-service/src/main/java/com/hypehouse/user_service/email/PasswordResetService.java:43-51 | when a failing reset is rolled back, an expired token stays stored; every later attempt, at any later time and with any password, fails with "Token expired" and commits nothing (see Findings) |
| PasswordReset.PasswordResetToken.IsExpired | application/user-service/src/main/java/com/hypehouse/user_service/email/PasswordResetService.java:48 | a token is expired exactly when the current time is past its expiry date |
| PasswordReset.PasswordResetTokenRepository.Save | application/user-service/src/main/java/com/hypehouse/user_service/email/PasswordResetService.java:38 | stores the token under its own string, replacing any token with that string, and nothing else changes |
| PasswordReset.PasswordResetTokenRepository.Delete | application/user-service/src/main/java/com/hypehouse/user_service/email/PasswordResetService.java:49-58 | removes exactly the token with that string |
| PasswordReset.RequestStep | application/user-service/src/main/java/com/hypehouse/user_service/email/PasswordResetService.java:30-41 | a request never changes the users and either leaves the tokens alone or adds exactly the new token; it succeeds exactly when it sends an email |
| PasswordReset.ResetStep | application/user-service/src/main/java/com/hypehouse/user_service/email/PasswordResetService.java:43-61 | a redemption never adds a token or a user; it succeeds only for a stored, unexpired token, which it removes; a failure leaves the users unchanged |
| Authentication.LoginStep | application/user-service/src/main/java/com/hypehouse/user_service/authentication/AuthenticationController.java:40-75 | login either leaves the codes alone or stores the new code under the submitted username; a JWT is only ever minted from the authentication the manager returned |
| Authentication.Verify2FAStep | application/user-service/src/main/java/com/hypehouse/user_service/authentication/AuthenticationController.java:78-104 | verify-2fa either leaves the codes alone or removes the identifier's code; a JWT always names the submitted identifier |
| UserApi.Register | application/user-service/src/main/java/com/hypehouse/user_service/UserController.java:43-56 | registration adds at most the row under the new id; a failure changes nothing; a success answers the saved user, which is stored under the new id |
| PasswordReset.PasswordResetTokenRepository.FindByToken | application/user-service/src/main/java/com/hypehouse/user_service/email/PasswordResetService.java:45 | finds the stored token with that string, or nothing if none is stored |
| PasswordReset.PasswordResetService.GenerateResetTokenAndSendEmail | application/user-service/src/main/java/com/hypehouse/user_service/email/PasswordResetService.java:30-41 | outcome and token store are `RequestStep` of the old stores; the outbox gains exactly the email sent |
| PasswordReset.PasswordResetService.ResetPassword | application/user-service/src/main/java/com/hypehouse/user_service/email/PasswordResetService.java:43-61 | outcome, users and tokens are `ResetStep` of the old stores |
| Authentication.BadCredentialsAreRejected | application/user-service/src/main/java/com/hypehouse/user_service/authentication/AuthenticationController.java:68-70 | rejected credentials give 401 "Invalid credentials", no JWT, and no code stored |
| Authentication.OtherAuthenticationFailureIsServerError | application/user-service/src/main/java/com/hypehouse/user_service/authentication/AuthenticationController.java:71-73 | any other exception during authentication gives 500 "Authentication error" and no code |
| Authentication.UnknownUserIsRejected | application/user-service/src/main/java/com/hypehouse/user_service/authentication/AuthenticationController.java:53-57 | accepted credentials for an identifier no user has give 401 "User not found" with no JWT |
| Authentication.TwoFactorLoginSendsCode | application/user-service/src/main/java/com/hypehouse/user_service/authentication/AuthenticationController.java:59-63 | a 2FA-enabled user gets 200 with the code-sent message and no JWT; a code is stored under the submitted identifier |
| Authentication.LoginJwtOnlyWithoutSecondFactor | application/user-service/src/main/java/com/hypehouse/user_service/authentication/AuthenticationController.java:59-66 | login answers with a JWT iff authentication succeeded and the identifier names exactly one user, who has 2FA disabled. The JWT is minted from that authentication, with status 200, and no code is stored. |
| Authentication.LoginStoringCodeGivesNoJwt | application/user-service/src/main/java/com/hypehouse/user_service/authentication/AuthenticationController.java:59-63 | a login that changes the code store has stored the new code under the submitted identifier and answered with the message, not a JWT |
| Authentication.WrongCodeIsRejected | application/user-service/src/main/java/com/hypehouse/user_service/authentication/AuthenticationController.java:94-96 | a code that is not the stored one gives 403 "Invalid or expired code"; the stored code stays |
| Authentication.Verify2FAJwtOnlyForStoredCode | application/user-service/src/main/java/com/hypehouse/user_service/authentication/AuthenticationController.java:82-93 | verify-2fa answers with a JWT iff the code matches the stored one and the user's details load. The JWT's principal is the submitted identifier and the code is deleted. In every other case no code is deleted. |
| Authentication.Verify2FAExceptionStatus | application/user-service/src/main/java/com/hypehouse/user_service/authentication/AuthenticationController.java:97-103 | with a matching code, an unchecked exception gives 403 with its message and any other gives 500; the code stays |
| Authentication.CodeIsSingleUse | application/user-service/src/main/java/com/hypehouse/user_service/authentication/AuthenticationController.java:82-95 | replaying a code that was just accepted gives 403 "Invalid or expired code" |
| Authentication.TwoFactorRoundTrip | application/user-service/src/main/java/com/hypehouse/user_service/authentication/AuthenticationController.java:59-93 | a 2FA login gives no JWT; verifying the sent code under the same identifier gives a JWT for that identifier and removes the code; a replay gives 403 |
| Authentication.TwoFactorAuthService.Send2FACode | application/user-service/src/main/java/com/hypehouse/user_service/authentication/AuthenticationController.java:61 | stores the code under the identifier, replacing any earlier one, and records the email |
| Authentication.TwoFactorAuthService.Verify2FACode | application/user-service/src/main/java/com/hypehouse/user_service/authentication/AuthenticationController.java:82 | accepts exactly the code on record for the identifier |
| Authentication.TwoFactorAuthService.Delete2FACode | application/user-service/src/main/java/com/hypehouse/user_service/authentication/AuthenticationController.java:91 | removes the identifier's code and nothing else |
| Authentication.AuthenticationController.AuthenticateUser | application/user-service/src/main/java/com/hypehouse/user_service/authentication/AuthenticationController.java:40-75 | response and code store are `LoginStep` of the users and old codes; the outbox gains a code email exactly when the code-sent message is returned |
| Authentication.AuthenticationController.Verify2FA | application/user-service/src/main/java/com/hypehouse/user_service/authentication/AuthenticationController.java:78-104 | response and code store are `Verify2FAStep` of the old codes; no email is sent |

## Left out

- The password encoder, JWT minting and the authentication manager are foreign or cryptographic code. They enter as parameters or as the symbolic `JwtResponse(subject)`. Salting, signatures and token validation are not modelled.
- `UUID.randomUUID`, `LocalDateTime.now` and the 2FA code generator are replaced by parameters. Uniqueness of UUIDs enters as a precondition: on the reset request, and as `FreshTokens` in `RedeemedAtMostOnce`.
- Email delivery is reduced to ghost outboxes. Failure to deliver is not modelled.
- `TwoFactorAuthService` internals are not part of this model. Codes are an exact-match map keyed by the submitted identifier, with no expiry.
- `CustomUserDetailsService` is not part of this model. Its answer in verify-2fa is a parameter.
- Login and verify-2fa call `SecurityContextHolder.setAuthentication`, and a reset clears the context. The thread-local security context is left out.
- `@Transactional` is left out of the main model, and so is any race between concurrent redemptions. The model is sequential and cannot speak to atomicity. The rollback is examined only under Findings.
- `@RateLimit`, `@Valid` bean validation and logging are left out; this includes the log line that prints the new password.
- `enable2FA` and `disable2FA` only delegate to `UserService`, which is not part of this model.
- `UserService` is treated as a direct pass-through to the user repository.
- UserApi.UserController.GetAllUsers: answers the stored users as a set, so the order of the `List` the source returns is not captured.
- Users are values in a map. The setter-by-setter mutation of a managed entity is modelled as building an updated value, so aliasing of entity objects is not captured.
- `UserController.CreateUser` stores a new user under the id the database generates (`freshId`). This is the model's choice: the source passes the submitted `User`, with whatever id it carries, to `saveUser`, and what happens to a supplied id depends on the JPA entity mapping, which the model does not capture.
- Two cases depend on code the model does not cover (the JPA mapping of `PasswordResetToken.user`, and `UserService.getUserByEmailOrUsername`):
  - a reset token whose owner is no longer stored fails with `OwnerMissing` and changes nothing;
  - a registration lookup that matches several users fails like a duplicate.
- Exceptions thrown by minting a JWT or by sending a 2FA code are not modelled.
- The HTTP status a global handler would give `UserNotFoundException`, `UsernameNotFoundException` and the reset service's `RuntimeException`s is not modelled. They are error values.

## Findings

| source | as written | input that shows it | evidently intended | confidence | as-written member | corrected member |
|---|---|---|---|---|---|---|
| application/user-service/src/main/java/com/hypehouse/user_service/email/PasswordResetService.java:43-51 | `resetPassword` is `@Transactional`. Transactions roll back on an unchecked exception, so the expired token's `delete` is undone by the `RuntimeException("Token expired")` thrown right after it. | a stored token with `expiryDate < now`: after the call the token is still stored, and every later attempt fails with "Token expired" again | the expired token is deleted on detection | medium (depends on the Spring transaction configuration); not executed | PasswordReset.CommittedReset, PasswordReset.ExpiredTokenSurvivesRollback | PasswordReset.ResetStep, PasswordReset.ExpiredTokenIsDeleted |
