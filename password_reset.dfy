/**
 * Password-reset tokens: a request stores a fresh token for the user named by
 * a username or email and mails it to them; redeeming a live token sets that
 * user's password and deletes the token.
 */
module PasswordReset {
  import opened Wrappers
  import opened Users

  /** A reset token is valid for one hour after it is issued; time is in seconds. */
  const TokenValiditySeconds := 60 * 60

  /** A stored reset token: its owner, the token string, and its expiry time. */
  datatype PasswordResetToken = PasswordResetToken(user: UserId, token: string, expiryDate: int) {
    /** Expired once the clock has passed the expiry time. */
    predicate IsExpired(now: int) {
      now > expiryDate
    }
  }

  /** Why a request or a redemption failed. */
  datatype ResetError =
    | UsernameNotFound       // "User not found": no user has that username or email
    | AmbiguousIdentifier    // the single-result lookup matched more than one user
    | InvalidOrExpiredToken  // "Invalid or expired token": no such token is stored
    | TokenExpired           // "Token expired"
    | OwnerMissing           // the token's user is no longer in the directory

  /** A password-reset email: recipient address and the token it carries. */
  datatype Mail = ResetMail(to: string, token: string)

  /** The two stores the service works on: users by id, reset tokens by token string. */
  datatype Store = Store(users: map<UserId, User>, tokens: map<string, PasswordResetToken>)

  /** A request's outcome, the stores after it, and the email it sent, if any. */
  datatype Requested = Requested(outcome: Outcome<ResetError>, store: Store, sent: Option<Mail>)

  /** A redemption's outcome and the stores after it. */
  datatype Redeemed = Redeemed(outcome: Outcome<ResetError>, store: Store)

  /** A reset request for `usernameOrEmail` at time `now`, with `token` as the new random token. */
  ghost function RequestStep(s: Store, usernameOrEmail: string, token: string, now: int): (r: Requested)
    ensures r.store.users == s.users
    ensures r.store.tokens == s.tokens || r.store.tokens.Keys == s.tokens.Keys + {token}
    ensures r.outcome.Pass? <==> r.sent.Some?
  {
    match LookupIn(s.users, usernameOrEmail)
    case NoMatch => Requested(Fail(UsernameNotFound), s, None)
    case Ambiguous => Requested(Fail(AmbiguousIdentifier), s, None)
    case Found(id) =>
      var t := PasswordResetToken(id, token, now + TokenValiditySeconds);
      Requested(Pass, s.(tokens := s.tokens[token := t]), Some(ResetMail(s.users[id].email, token)))
  }

  /** Redeeming `token` at time `now`, setting the owner's password to `hashedPassword`. */
  function ResetStep(s: Store, token: string, hashedPassword: string, now: int): (r: Redeemed)
    ensures r.store.tokens.Keys <= s.tokens.Keys && r.store.users.Keys == s.users.Keys
    ensures r.outcome.Pass? ==> token in s.tokens && !s.tokens[token].IsExpired(now) && token !in r.store.tokens
    ensures r.outcome.Fail? ==> r.store.users == s.users
  {
    if token !in s.tokens then
      Redeemed(Fail(InvalidOrExpiredToken), s)
    else
      var t := s.tokens[token];
      if t.IsExpired(now) then
        Redeemed(Fail(TokenExpired), s.(tokens := s.tokens - {token}))
      else if t.user !in s.users then
        Redeemed(Fail(OwnerMissing), s)
      else
        var owner := s.users[t.user];
        Redeemed(Pass, Store(s.users[t.user := owner.(password := Some(hashedPassword))], s.tokens - {token}))
  }

  /**
   * A request for an identifier no user has fails with "User not found"; a
   * request whose identifier is matched by several users fails too. Either way
   * no token is stored and no email is sent.
   */
  lemma RequestForUnknownUserFails(s: Store, usernameOrEmail: string, token: string, now: int)
    requires !LookupIn(s.users, usernameOrEmail).Found?
    ensures var r := RequestStep(s, usernameOrEmail, token, now);
      && r.outcome.Fail? && r.store == s && r.sent == None
      && (Matching(s.users, usernameOrEmail) == {} ==> r.outcome.error == UsernameNotFound)
  {
  }

  /**
   * A request for a user's username or email adds one token bound to that user
   * expiring one hour from now, keeps every earlier token (including that
   * user's), leaves the users alone, and mails that same token to the user's email.
   */
  lemma RequestIssuesOneHourToken(s: Store, usernameOrEmail: string, token: string, now: int, id: UserId)
    requires Matching(s.users, usernameOrEmail) == {id}
    requires token !in s.tokens
    ensures var r := RequestStep(s, usernameOrEmail, token, now);
      && r.outcome.Pass?
      && r.store.users == s.users
      && r.store.tokens.Keys == s.tokens.Keys + {token}
      && r.store.tokens[token] == PasswordResetToken(id, token, now + TokenValiditySeconds)
      && (forall k :: k in s.tokens ==> r.store.tokens[k] == s.tokens[k])
      && r.sent == Some(ResetMail(s.users[id].email, token))
  {
  }

  /** Redeeming a token that is not stored fails and changes nothing. */
  lemma UnknownTokenChangesNothing(s: Store, token: string, hashedPassword: string, now: int)
    requires token !in s.tokens
    ensures ResetStep(s, token, hashedPassword, now) == Redeemed(Fail(InvalidOrExpiredToken), s)
  {
  }

  /** Redeeming an expired token deletes it, fails with "Token expired", and changes no password. */
  lemma ExpiredTokenIsDeleted(s: Store, token: string, hashedPassword: string, now: int)
    requires token in s.tokens && now > s.tokens[token].expiryDate
    ensures var r := ResetStep(s, token, hashedPassword, now);
      && r.outcome == Fail(TokenExpired)
      && r.store.users == s.users
      && r.store.tokens == s.tokens - {token}
  {
  }

  /**
   * Redeeming a live token sets its owner's password to exactly the supplied
   * string and deletes the token; every other user and every other token is
   * unchanged, and the owner's other fields are kept.
   */
  lemma RedeemSetsOnlyOwnersPassword(s: Store, token: string, hashedPassword: string, now: int)
    requires token in s.tokens && !s.tokens[token].IsExpired(now) && s.tokens[token].user in s.users
    ensures var r := ResetStep(s, token, hashedPassword, now);
      var owner := s.tokens[token].user;
      && r.outcome == Pass
      && r.store.users.Keys == s.users.Keys
      && r.store.users[owner] == s.users[owner].(password := Some(hashedPassword))
      && (forall id :: id in s.users && id != owner ==> r.store.users[id] == s.users[id])
      && r.store.tokens == s.tokens - {token}
  {
  }

  /** Once a redemption has succeeded, redeeming the same token again fails as unknown. */
  lemma RedeemIsSingleUse(s: Store, token: string, p1: string, p2: string, now1: int, now2: int)
    requires ResetStep(s, token, p1, now1).outcome.Pass?
    ensures var s' := ResetStep(s, token, p1, now1).store;
      ResetStep(s', token, p2, now2) == Redeemed(Fail(InvalidOrExpiredToken), s')
  {
  }

  /**
   * The reset round trip: a token requested for a user and redeemed within the
   * hour sets that user's password; a second redemption fails as unknown.
   */
  lemma RequestThenRedeem(s: Store, usernameOrEmail: string, token: string, now: int,
                          hashedPassword: string, later: int, id: UserId)
    requires Matching(s.users, usernameOrEmail) == {id}
    requires token !in s.tokens
    requires now <= later <= now + TokenValiditySeconds
    ensures var s1 := RequestStep(s, usernameOrEmail, token, now).store;
      var r := ResetStep(s1, token, hashedPassword, later);
      && r.outcome == Pass
      && r.store.users == s.users[id := s.users[id].(password := Some(hashedPassword))]
      && r.store.tokens == s.tokens
      && ResetStep(r.store, token, hashedPassword, later).outcome == Fail(InvalidOrExpiredToken)
  {
    var s1 := RequestStep(s, usernameOrEmail, token, now).store;
    assert s1.tokens - {token} == s.tokens;
  }

  /** A token redeemed more than an hour after its request fails as expired and is gone afterwards. */
  lemma RequestThenRedeemTooLate(s: Store, usernameOrEmail: string, token: string, now: int,
                                 hashedPassword: string, later: int, id: UserId)
    requires Matching(s.users, usernameOrEmail) == {id}
    requires token !in s.tokens
    requires later > now + TokenValiditySeconds
    ensures var s1 := RequestStep(s, usernameOrEmail, token, now).store;
      var r := ResetStep(s1, token, hashedPassword, later);
      && r.outcome == Fail(TokenExpired)
      && r.store == s
  {
    var s1 := RequestStep(s, usernameOrEmail, token, now).store;
    assert s1.tokens - {token} == s.tokens;
  }

  // Any sequence of requests and redemptions redeems each token at most once.

  /** One call to the service. */
  datatype Call =
    | Request(usernameOrEmail: string, token: string, now: int)
    | Redeem(token: string, hashedPassword: string, now: int)

  ghost function Apply(s: Store, c: Call): Redeemed {
    match c
    case Request(who, token, now) =>
      var r := RequestStep(s, who, token, now);
      Redeemed(r.outcome, r.store)
    case Redeem(token, password, now) => ResetStep(s, token, password, now)
  }

  /** The tokens the requests in `calls` draw. */
  ghost function RequestedTokens(calls: seq<Call>): set<string>
    decreases |calls|
  {
    if calls == [] then {}
    else (if calls[0].Request? then {calls[0].token} else {}) + RequestedTokens(calls[1..])
  }

  /** No two requests in `calls` draw the same token. */
  ghost predicate DistinctRequests(calls: seq<Call>)
    decreases |calls|
  {
    calls == [] ||
    ((calls[0].Request? ==> calls[0].token !in RequestedTokens(calls[1..])) && DistinctRequests(calls[1..]))
  }

  /**
   * Every request draws a token never seen before: none is stored at the start
   * and no two requests draw the same one (what a random UUID gives).
   */
  ghost predicate FreshTokens(s: Store, calls: seq<Call>) {
    DistinctRequests(calls) && forall t :: t in RequestedTokens(calls) ==> t !in s.tokens
  }

  /** How many calls in `calls`, run from `s`, redeem `token` successfully. */
  ghost function SuccessfulRedemptions(s: Store, calls: seq<Call>, token: string): nat
    decreases |calls|
  {
    if calls == [] then 0
    else
      var r := Apply(s, calls[0]);
      (if calls[0].Redeem? && calls[0].token == token && r.outcome.Pass? then 1 else 0)
        + SuccessfulRedemptions(r.store, calls[1..], token)
  }

  /** A call stores no token except the one a request draws. */
  lemma ApplyAddsOnlyRequestedToken(s: Store, c: Call)
    ensures Apply(s, c).store.tokens.Keys <= s.tokens.Keys + (if c.Request? then {c.token} else {})
  {
  }

  /** A token that is neither stored nor requested is never redeemed. */
  lemma {:induction false} NeverStoredNeverRedeemed(s: Store, calls: seq<Call>, token: string)
    requires token !in s.tokens && token !in RequestedTokens(calls)
    ensures SuccessfulRedemptions(s, calls, token) == 0
    decreases |calls|
  {
    if calls != [] {
      ApplyAddsOnlyRequestedToken(s, calls[0]);
      NeverStoredNeverRedeemed(Apply(s, calls[0]).store, calls[1..], token);
    }
  }

  /** Fresh tokens stay fresh after the first call. */
  lemma FreshTokensAfterFirstCall(s: Store, calls: seq<Call>)
    requires calls != [] && FreshTokens(s, calls)
    ensures FreshTokens(Apply(s, calls[0]).store, calls[1..])
  {
    ApplyAddsOnlyRequestedToken(s, calls[0]);
    forall t | t in RequestedTokens(calls[1..]) ensures t !in Apply(s, calls[0]).store.tokens {
      assert t in RequestedTokens(calls);
    }
  }

  /**
   * Single use: when every request draws a fresh token, no token is
   * redeemed successfully more than once, whatever the order of calls.
   */
  lemma {:induction false} RedeemedAtMostOnce(s: Store, calls: seq<Call>, token: string)
    requires FreshTokens(s, calls)
    ensures SuccessfulRedemptions(s, calls, token) <= 1
    decreases |calls|
  {
    if calls != [] {
      var r := Apply(s, calls[0]);
      FreshTokensAfterFirstCall(s, calls);
      if calls[0].Redeem? && calls[0].token == token && r.outcome.Pass? {
        assert token in s.tokens;
        assert RequestedTokens(calls[1..]) <= RequestedTokens(calls);
        NeverStoredNeverRedeemed(r.store, calls[1..], token);
      } else {
        RedeemedAtMostOnce(r.store, calls[1..], token);
      }
    }
  }

  // The service as written runs `resetPassword` in a transaction that rolls
  // back on any runtime exception, so the deletion of an expired token, which
  // is followed by a throw, is undone.

  /** The stores as committed: a redemption that fails leaves them as they were. */
  function CommittedReset(s: Store, token: string, hashedPassword: string, now: int): Store {
    var r := ResetStep(s, token, hashedPassword, now);
    if r.outcome.Fail? then s else r.store
  }

  /**
   * Under rollback the expired token stays stored: the attempt commits nothing,
   * and every later attempt, with any password, fails with "Token expired" and
   * commits nothing either.
   */
  lemma ExpiredTokenSurvivesRollback(s: Store, token: string, hashedPassword: string, now: int,
                                     laterPassword: string, later: int)
    requires token in s.tokens && s.tokens[token].IsExpired(now)
    requires later >= now
    ensures var s' := CommittedReset(s, token, hashedPassword, now);
      && s' == s
      && token in s'.tokens
      && ResetStep(s', token, laterPassword, later).outcome == Fail(TokenExpired)
      && CommittedReset(s', token, laterPassword, later) == s'
  {
  }

  /** The reset-token table, keyed by token string. */
  class PasswordResetTokenRepository {
    var tokens: map<string, PasswordResetToken>

    /** Every token is stored under its own string. */
    ghost predicate Valid()
      reads this
    {
      forall k :: k in tokens ==> tokens[k].token == k
    }

    constructor (initial: map<string, PasswordResetToken>)
      requires forall k :: k in initial ==> initial[k].token == k
      ensures Valid() && tokens == initial
    {
      tokens := initial;
    }

    method FindByToken(token: string) returns (r: Option<PasswordResetToken>)
      ensures r.Some? <==> token in tokens
      ensures r.Some? ==> r.value == tokens[token]
    {
      if token in tokens {
        r := Some(tokens[token]);
      } else {
        r := None;
      }
    }

    method Save(t: PasswordResetToken)
      requires Valid()
      modifies this
      ensures Valid() && tokens == old(tokens)[t.token := t]
    {
      tokens := tokens[t.token := t];
    }

    method Delete(t: PasswordResetToken)
      requires Valid()
      modifies this
      ensures Valid() && tokens == old(tokens) - {t.token}
    {
      tokens := tokens - {t.token};
    }
  }

  class PasswordResetService {
    const userRepository: UserRepository
    const passwordResetTokenRepository: PasswordResetTokenRepository
    /** Every reset email sent, oldest first. */
    ghost var outbox: seq<Mail>

    constructor (userRepository: UserRepository, passwordResetTokenRepository: PasswordResetTokenRepository)
      ensures this.userRepository == userRepository
      ensures this.passwordResetTokenRepository == passwordResetTokenRepository
      ensures outbox == []
    {
      this.userRepository := userRepository;
      this.passwordResetTokenRepository := passwordResetTokenRepository;
      outbox := [];
    }

    ghost predicate Valid()
      reads this, userRepository, passwordResetTokenRepository
    {
      userRepository.Valid() && passwordResetTokenRepository.Valid()
    }

    ghost function StoreOf(): Store
      reads this, userRepository, passwordResetTokenRepository
    {
      Store(userRepository.users, passwordResetTokenRepository.tokens)
    }

    /**
     * Stores a fresh `token` (a random UUID) for the user whose username or
     * email is `usernameOrEmail`, valid until one hour after `now`, and emails
     * it to that user.
     */
    method GenerateResetTokenAndSendEmail(usernameOrEmail: string, token: string, now: int)
      returns (r: Outcome<ResetError>)
      requires Valid() && token !in passwordResetTokenRepository.tokens
      modifies passwordResetTokenRepository, this
      ensures Valid()
      ensures var req := RequestStep(old(StoreOf()), usernameOrEmail, token, now);
        && r == req.outcome
        && StoreOf() == req.store
        && outbox == old(outbox) + (if req.sent.Some? then [req.sent.value] else [])
    {
      var found := userRepository.FindByUsernameOrEmail(usernameOrEmail);
      match found
      case NoMatch =>
        r := Fail(UsernameNotFound);
      case Ambiguous =>
        r := Fail(AmbiguousIdentifier);
      case Found(id) =>
        var user := userRepository.users[id];
        var resetToken := PasswordResetToken(id, token, now + TokenValiditySeconds);
        passwordResetTokenRepository.Save(resetToken);
        outbox := outbox + [ResetMail(user.email, token)];
        r := Pass;
    }

    /**
     * Redeems `token` at time `now`: an unknown token fails, an expired one is
     * deleted and fails, and a live one sets its owner's password to
     * `hashedPassword` and is deleted.
     */
    method ResetPassword(token: string, hashedPassword: string, now: int) returns (r: Outcome<ResetError>)
      requires Valid()
      modifies userRepository, passwordResetTokenRepository
      ensures Valid()
      ensures Redeemed(r, StoreOf()) == ResetStep(old(StoreOf()), token, hashedPassword, now)
    {
      var found := passwordResetTokenRepository.FindByToken(token);
      if found.None? {
        return Fail(InvalidOrExpiredToken);
      }
      var resetToken := found.value;
      if resetToken.IsExpired(now) {
        passwordResetTokenRepository.Delete(resetToken);
        return Fail(TokenExpired);
      }
      if resetToken.user !in userRepository.users {
        return Fail(OwnerMissing);
      }
      var user := userRepository.users[resetToken.user];
      user := user.(password := Some(hashedPassword));
      userRepository.Save(user);
      passwordResetTokenRepository.Delete(resetToken);
      r := Pass;
    }
  }
}
