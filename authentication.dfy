/**
 * The login and second-factor endpoints: login checks credentials, then
 * either sends a 2FA code or answers with a JWT; verify-2fa checks a code,
 * consumes it and answers with a JWT.
 */
module Authentication {
  import opened Wrappers
  import opened Users
  import opened Http

  const TwoFactorCodeSent := "2FA code sent. Please verify your code."

  /** An authenticated principal: its name and the authorities granted to it. */
  datatype Authentication = Authentication(principal: string, authorities: set<string>)

  /** The exceptions the handlers tell apart. */
  datatype Exception =
    | BadCredentialsException(message: string)
    | RuntimeException(message: string)   // any other unchecked exception
    | CheckedException(message: string)
  {
    predicate IsRuntime() {
      !CheckedException?
    }
  }

  /** What a call into code outside this model returned, or what it threw. */
  datatype Call<+T> = Returned(value: T) | Threw(e: Exception)

  /** A response body: a JWT minted from an authentication, or a text message. */
  datatype Body = JwtResponse(subject: Authentication) | Text(text: string)

  datatype Response = Response(status: int, body: Body)

  datatype LoginRequest = LoginRequest(username: string, password: string)

  datatype TwoFARequest = TwoFARequest(usernameOrEmail: string, code: string)

  /** A second-factor email: the identifier the code was issued for, and the code. */
  datatype CodeMail = CodeMail(usernameOrEmail: string, code: string)

  /** A login's response and the 2FA codes after it. */
  datatype LoggedIn = LoggedIn(response: Response, codes: map<string, string>)

  /**
   * Login: `authenticated` is what the authentication manager answered for the
   * credentials, and `code` the random code a 2FA login would send.
   */
  ghost function LoginStep(users: map<UserId, User>, codes: map<string, string>, request: LoginRequest,
                           authenticated: Call<Authentication>, code: string): (r: LoggedIn)
    ensures r.codes == codes || r.codes == codes[request.username := code]
    ensures r.response.body.JwtResponse? ==> authenticated.Returned? && r.response.body.subject == authenticated.value
  {
    match authenticated
    case Threw(BadCredentialsException(_)) => LoggedIn(Response(UNAUTHORIZED, Text("Invalid credentials")), codes)
    case Threw(_) => LoggedIn(Response(INTERNAL_SERVER_ERROR, Text("Authentication error")), codes)
    case Returned(auth) =>
      match LookupIn(users, request.username)
      case NoMatch => LoggedIn(Response(UNAUTHORIZED, Text("User not found")), codes)
      case Ambiguous => LoggedIn(Response(INTERNAL_SERVER_ERROR, Text("Authentication error")), codes)
      case Found(id) =>
        if users[id].is2faEnabled then
          LoggedIn(Response(OK, Text(TwoFactorCodeSent)), codes[request.username := code])
        else
          LoggedIn(Response(OK, JwtResponse(auth)), codes)
  }

  /** `code` is the one on record for `usernameOrEmail`. */
  predicate CodeMatches(codes: map<string, string>, usernameOrEmail: string, code: string) {
    usernameOrEmail in codes && codes[usernameOrEmail] == code
  }

  /**
   * verify-2fa: `details` is what loading the user's details answered (their
   * authorities, or the exception it threw).
   */
  function Verify2FAStep(codes: map<string, string>, request: TwoFARequest, details: Call<set<string>>): (r: LoggedIn)
    ensures r.codes == codes || r.codes == codes - {request.usernameOrEmail}
    ensures r.response.body.JwtResponse? ==> r.response.body.subject.principal == request.usernameOrEmail
  {
    if !CodeMatches(codes, request.usernameOrEmail, request.code) then
      LoggedIn(Response(FORBIDDEN, Text("Invalid or expired code")), codes)
    else
      match details
      case Threw(e) =>
        if e.IsRuntime() then LoggedIn(Response(FORBIDDEN, Text(e.message)), codes)
        else LoggedIn(Response(INTERNAL_SERVER_ERROR, Text("2FA verification error")), codes)
      case Returned(authorities) =>
        LoggedIn(Response(OK, JwtResponse(Authentication(request.usernameOrEmail, authorities))),
                 codes - {request.usernameOrEmail})
  }

  /** Rejected credentials give 401 "Invalid credentials": no JWT and no code. */
  lemma BadCredentialsAreRejected(users: map<UserId, User>, codes: map<string, string>, request: LoginRequest,
                                  message: string, code: string)
    ensures LoginStep(users, codes, request, Threw(BadCredentialsException(message)), code)
         == LoggedIn(Response(UNAUTHORIZED, Text("Invalid credentials")), codes)
  {
  }

  /** Any other exception from authentication gives 500 "Authentication error". */
  lemma OtherAuthenticationFailureIsServerError(users: map<UserId, User>, codes: map<string, string>,
                                                request: LoginRequest, e: Exception, code: string)
    requires !e.BadCredentialsException?
    ensures LoginStep(users, codes, request, Threw(e), code)
         == LoggedIn(Response(INTERNAL_SERVER_ERROR, Text("Authentication error")), codes)
  {
  }

  /** Accepted credentials for an identifier no user has give 401 "User not found", with no JWT. */
  lemma UnknownUserIsRejected(users: map<UserId, User>, codes: map<string, string>, request: LoginRequest,
                              auth: Authentication, code: string)
    requires Matching(users, request.username) == {}
    ensures LoginStep(users, codes, request, Returned(auth), code)
         == LoggedIn(Response(UNAUTHORIZED, Text("User not found")), codes)
  {
  }

  /**
   * A 2FA-enabled user gets 200 with a message and no JWT, and a code is
   * stored under the identifier they submitted, replacing any earlier one.
   */
  lemma TwoFactorLoginSendsCode(users: map<UserId, User>, codes: map<string, string>, request: LoginRequest,
                                auth: Authentication, code: string, id: UserId)
    requires Matching(users, request.username) == {id} && users[id].is2faEnabled
    ensures var r := LoginStep(users, codes, request, Returned(auth), code);
      && r.response == Response(OK, Text(TwoFactorCodeSent))
      && r.codes == codes[request.username := code]
  {
  }

  /**
   * Login answers with a JWT exactly when authentication succeeded and the
   * identifier names exactly one user, who has 2FA disabled; the JWT is minted
   * from that authentication and no code is stored.
   */
  lemma LoginJwtOnlyWithoutSecondFactor(users: map<UserId, User>, codes: map<string, string>, request: LoginRequest,
                                        authenticated: Call<Authentication>, code: string)
    ensures var r := LoginStep(users, codes, request, authenticated, code);
      r.response.body.JwtResponse? <==>
        && authenticated.Returned?
        && LookupIn(users, request.username).Found?
        && !users[LookupIn(users, request.username).id].is2faEnabled
    ensures var r := LoginStep(users, codes, request, authenticated, code);
      r.response.body.JwtResponse? ==>
        r.response == Response(OK, JwtResponse(authenticated.value)) && r.codes == codes
  {
  }

  /** A login that changes the code store has sent a code, and answers with no JWT. */
  lemma LoginStoringCodeGivesNoJwt(users: map<UserId, User>, codes: map<string, string>, request: LoginRequest,
                                   authenticated: Call<Authentication>, code: string)
    requires LoginStep(users, codes, request, authenticated, code).codes != codes
    ensures LoginStep(users, codes, request, authenticated, code).response == Response(OK, Text(TwoFactorCodeSent))
    ensures LoginStep(users, codes, request, authenticated, code).codes == codes[request.username := code]
  {
  }

  /** A code that does not match the stored one gives 403 and leaves the stored code in place. */
  lemma WrongCodeIsRejected(codes: map<string, string>, request: TwoFARequest, details: Call<set<string>>)
    requires !CodeMatches(codes, request.usernameOrEmail, request.code)
    ensures Verify2FAStep(codes, request, details)
         == LoggedIn(Response(FORBIDDEN, Text("Invalid or expired code")), codes)
  {
  }

  /**
   * verify-2fa answers with a JWT exactly when the code matches and the user's
   * details load; the JWT's principal is the submitted identifier and the code
   * is deleted. Otherwise no code is deleted.
   */
  lemma Verify2FAJwtOnlyForStoredCode(codes: map<string, string>, request: TwoFARequest, details: Call<set<string>>)
    ensures var r := Verify2FAStep(codes, request, details);
      r.response.body.JwtResponse? <==> CodeMatches(codes, request.usernameOrEmail, request.code) && details.Returned?
    ensures var r := Verify2FAStep(codes, request, details);
      r.response.body.JwtResponse? ==>
        && r.response.status == OK
        && r.response.body.subject == Authentication(request.usernameOrEmail, details.value)
        && r.codes == codes - {request.usernameOrEmail}
    ensures var r := Verify2FAStep(codes, request, details);
      !r.response.body.JwtResponse? ==> r.codes == codes
  {
  }

  /**
   * With a matching code, an unchecked exception while loading the user gives
   * 403 with the exception's message and any other exception gives 500; the
   * code stays stored either way.
   */
  lemma Verify2FAExceptionStatus(codes: map<string, string>, request: TwoFARequest, e: Exception)
    requires CodeMatches(codes, request.usernameOrEmail, request.code)
    ensures var r := Verify2FAStep(codes, request, Threw(e));
      && r.codes == codes
      && (e.IsRuntime() ==> r.response == Response(FORBIDDEN, Text(e.message)))
      && (!e.IsRuntime() ==> r.response == Response(INTERNAL_SERVER_ERROR, Text("2FA verification error")))
  {
  }

  /** Replaying a code that has just been accepted is rejected. */
  lemma CodeIsSingleUse(codes: map<string, string>, request: TwoFARequest, details: Call<set<string>>,
                        replayDetails: Call<set<string>>)
    requires Verify2FAStep(codes, request, details).response.body.JwtResponse?
    ensures var codes' := Verify2FAStep(codes, request, details).codes;
      Verify2FAStep(codes', request, replayDetails)
        == LoggedIn(Response(FORBIDDEN, Text("Invalid or expired code")), codes')
  {
  }

  /**
   * The two-step login: a 2FA-enabled user logs in and gets no JWT; verifying
   * the code that was sent, under the same identifier, gives a JWT for that
   * identifier; replaying it gives 403.
   */
  lemma TwoFactorRoundTrip(users: map<UserId, User>, codes: map<string, string>, request: LoginRequest,
                           auth: Authentication, code: string, id: UserId, authorities: set<string>)
    requires Matching(users, request.username) == {id} && users[id].is2faEnabled
    ensures var login := LoginStep(users, codes, request, Returned(auth), code);
      var verify := Verify2FAStep(login.codes, TwoFARequest(request.username, code), Returned(authorities));
      && !login.response.body.JwtResponse?
      && verify.response == Response(OK, JwtResponse(Authentication(request.username, authorities)))
      && verify.codes == codes - {request.username}
      && Verify2FAStep(verify.codes, TwoFARequest(request.username, code), Returned(authorities)).response.status
         == FORBIDDEN
  {
    var login := LoginStep(users, codes, request, Returned(auth), code);
    assert login.codes - {request.username} == codes - {request.username};
  }

  /** The 2FA code store, keyed by the identifier the user logged in with. */
  class TwoFactorAuthService {
    var codes: map<string, string>
    /** Every code sent, oldest first. */
    ghost var outbox: seq<CodeMail>

    constructor ()
      ensures codes == map[] && outbox == []
    {
      codes := map[];
      outbox := [];
    }

    /** Stores `code` (freshly drawn at random) for `usernameOrEmail` and sends it. */
    method Send2FACode(usernameOrEmail: string, code: string)
      modifies this
      ensures codes == old(codes)[usernameOrEmail := code]
      ensures outbox == old(outbox) + [CodeMail(usernameOrEmail, code)]
    {
      codes := codes[usernameOrEmail := code];
      outbox := outbox + [CodeMail(usernameOrEmail, code)];
    }

    /** Accepts exactly the code on record for `usernameOrEmail`. */
    method Verify2FACode(usernameOrEmail: string, code: string) returns (valid: bool)
      ensures valid <==> CodeMatches(codes, usernameOrEmail, code)
      ensures valid ==> usernameOrEmail in codes
    {
      valid := usernameOrEmail in codes && codes[usernameOrEmail] == code;
    }

    method Delete2FACode(usernameOrEmail: string)
      modifies this
      ensures codes == old(codes) - {usernameOrEmail} && outbox == old(outbox)
    {
      codes := codes - {usernameOrEmail};
    }
  }

  class AuthenticationController {
    const userRepository: UserRepository
    const twoFactorAuthService: TwoFactorAuthService

    constructor (userRepository: UserRepository, twoFactorAuthService: TwoFactorAuthService)
      ensures this.userRepository == userRepository && this.twoFactorAuthService == twoFactorAuthService
    {
      this.userRepository := userRepository;
      this.twoFactorAuthService := twoFactorAuthService;
    }

    /**
     * POST /login. `authenticated` is the authentication manager's answer for
     * the submitted credentials; `code` is the code a 2FA login sends.
     */
    method AuthenticateUser(loginRequest: LoginRequest, authenticated: Call<Authentication>, code: string)
      returns (response: Response)
      modifies twoFactorAuthService
      ensures var step := LoginStep(userRepository.users, old(twoFactorAuthService.codes), loginRequest, authenticated, code);
        response == step.response && twoFactorAuthService.codes == step.codes
      ensures twoFactorAuthService.outbox ==
        old(twoFactorAuthService.outbox) +
        (if response == Response(OK, Text(TwoFactorCodeSent)) then [CodeMail(loginRequest.username, code)] else [])
    {
      match authenticated
      case Threw(e) =>
        if e.BadCredentialsException? {
          response := Response(UNAUTHORIZED, Text("Invalid credentials"));
        } else {
          response := Response(INTERNAL_SERVER_ERROR, Text("Authentication error"));
        }
      case Returned(authentication) =>
        var found := userRepository.FindByUsernameOrEmail(loginRequest.username);
        match found
        case NoMatch =>
          response := Response(UNAUTHORIZED, Text("User not found"));
        case Ambiguous =>
          // the single-result query throws, and the generic handler answers
          response := Response(INTERNAL_SERVER_ERROR, Text("Authentication error"));
        case Found(id) =>
          var user := userRepository.users[id];
          if user.is2faEnabled {
            twoFactorAuthService.Send2FACode(loginRequest.username, code);
            response := Response(OK, Text(TwoFactorCodeSent));
          } else {
            response := Response(OK, JwtResponse(authentication));
          }
    }

    /** POST /verify-2fa. `details` is what loading the user's details answered. */
    method Verify2FA(twoFARequest: TwoFARequest, details: Call<set<string>>) returns (response: Response)
      modifies twoFactorAuthService
      ensures var step := Verify2FAStep(old(twoFactorAuthService.codes), twoFARequest, details);
        response == step.response && twoFactorAuthService.codes == step.codes
      ensures twoFactorAuthService.outbox == old(twoFactorAuthService.outbox)
    {
      var isValid := twoFactorAuthService.Verify2FACode(twoFARequest.usernameOrEmail, twoFARequest.code);
      if isValid {
        match details
        case Threw(e) =>
          if e.IsRuntime() {
            response := Response(FORBIDDEN, Text(e.message));
          } else {
            response := Response(INTERNAL_SERVER_ERROR, Text("2FA verification error"));
          }
        case Returned(authorities) =>
          var authentication := Authentication(twoFARequest.usernameOrEmail, authorities);
          twoFactorAuthService.Delete2FACode(twoFARequest.usernameOrEmail);
          response := Response(OK, JwtResponse(authentication));
      } else {
        response := Response(FORBIDDEN, Text("Invalid or expired code"));
      }
    }
  }
}
