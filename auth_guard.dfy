/**
 * The authentication guard (auth.middleware.ts): whether a request may
 * reach its handler, checking the bearer token against the single session
 * stored for its user.
 *
 * Whether the handler needs authentication, the `Authorization` header
 * and the result of verifying the token are inputs; verification is an
 * oracle from the token (absent when the header has no second word) to a
 * valid payload, an expiry with whatever e-mail the payload decodes to, or
 * any other failure.
 */
module AuthGuard {
  import opened Wrappers
  import opened Errors
  import opened Text
  import opened UserModel
  import opened UserService

  /** What `jwtService.verify(token)` does. */
  datatype TokenCheck = Valid(payload: TokenPayload) | Expired(decodedEmail: Option<string>) | Invalid

  /** `auth[0] === 'Bearer'` for `auth = header.split(' ')`. */
  predicate IsBearer(header: string) {
    Split(header, ' ')[0] == "Bearer"
  }

  /** `auth[1]`: the second word of the header, when there is one. */
  function TokenOf(header: string): Option<string> {
    var auth := Split(header, ' ');
    if |auth| > 1 then Some(auth[1]) else None
  }

  /** The user a valid token names, if the stored session is the token's. */
  predicate SessionMatches(users: seq<User>, payload: TokenPayload) {
    var i := FindByEmail(users, payload.email);
    i >= 0 && users[i].session == Sid(payload.sessionId)
  }

  /**
   * `canActivate(context)`: the decision, as the id it puts on the request
   * (None when the handler needs no authentication) or the 401 it throws,
   * and the users afterwards. Only an expired token with a decodable
   * e-mail writes: it signs that user out.
   */
  function GuardStep(users: seq<User>, needsAuth: bool, header: Option<string>, verify: Option<string> -> TokenCheck,
                     now: int): (r: (Result<Option<UserId>, Failure>, seq<User>))
    ensures !needsAuth ==> r == (Ok(None), users)
    ensures needsAuth && (header.None? || !IsBearer(header.value)) ==>
      r == (Err(Unauthorized("Authentication token is missing")), users)
    ensures r.0.Ok? && needsAuth ==> r.0.value.Some?
    ensures r.1 != users ==>
      needsAuth && header.Some? && IsBearer(header.value) && verify(TokenOf(header.value)).Expired?
      && verify(TokenOf(header.value)).decodedEmail.Some? && verify(TokenOf(header.value)).decodedEmail.value != ""
  {
    if !needsAuth then (Ok(None), users)
    else if header.None? || !IsBearer(header.value) then (Err(Unauthorized("Authentication token is missing")), users)
    else
      match verify(TokenOf(header.value))
      case Expired(decoded) =>
        var i := if decoded.Some? && decoded.value != "" then FindByEmail(users, decoded.value) else -1;
        (Err(Unauthorized("Token has expired")), if i >= 0 then users[i := SignedOut(users[i], now)] else users)
      case Invalid => (Err(Unauthorized("Invalid token")), users)
      case Valid(payload) =>
        var i := FindByEmail(users, payload.email);
        if i < 0 || users[i].session != Sid(payload.sessionId) then (Err(Unauthorized("Session invalid or expired")), users)
        else (Ok(Some(users[i].id)), users)
  }

  /**
   * A request that needs authentication is admitted exactly when it carries
   * a bearer token that verifies and whose session is the one stored for
   * its user; it is then admitted as that user, and nothing changes.
   */
  lemma {:induction false} GuardAdmits(users: seq<User>, header: Option<string>, verify: Option<string> -> TokenCheck, now: int)
    ensures var (r, after) := GuardStep(users, true, header, verify, now);
      r.Ok? <==>
        header.Some? && IsBearer(header.value) && verify(TokenOf(header.value)).Valid?
        && SessionMatches(users, verify(TokenOf(header.value)).payload)
    ensures var (r, after) := GuardStep(users, true, header, verify, now);
      r.Ok? ==>
        var i := FindByEmail(users, verify(TokenOf(header.value)).payload.email);
        after == users && r.value == Some(users[i].id)
  {
  }

  /** The refusals after a bearer token, each with its message. */
  lemma {:induction false} GuardRefusals(users: seq<User>, header: string, verify: Option<string> -> TokenCheck, now: int)
    requires IsBearer(header)
    ensures verify(TokenOf(header)).Invalid? ==>
      GuardStep(users, true, Some(header), verify, now) == (Err(Unauthorized("Invalid token")), users)
    ensures verify(TokenOf(header)).Valid? && !SessionMatches(users, verify(TokenOf(header)).payload) ==>
      GuardStep(users, true, Some(header), verify, now) == (Err(Unauthorized("Session invalid or expired")), users)
    ensures verify(TokenOf(header)).Expired? ==>
      GuardStep(users, true, Some(header), verify, now).0 == Err(Unauthorized("Token has expired"))
  {
  }

  /**
   * An expired token whose payload decodes to a registered e-mail signs
   * that user out before the refusal; no other user changes.
   */
  lemma {:induction false} ExpiredTokenSignsOut(users: seq<User>, header: string, verify: Option<string> -> TokenCheck,
                                                now: int, email: string)
    requires IsBearer(header) && verify(TokenOf(header)) == Expired(Some(email)) && email != ""
    requires UniqueUsers(users)
    ensures var after := GuardStep(users, true, Some(header), verify, now).1;
      |after| == |users|
      && (forall k :: 0 <= k < |users| && users[k].email == email ==>
            after[k] == SignedOut(users[k], now))
      && (forall k :: 0 <= k < |users| && users[k].email != email ==> after[k] == users[k])
  {
    var i := FindByEmail(users, email);
    forall k | 0 <= k < |users| && users[k].email == email ensures k == i {
    }
  }

  /** The guard keeps the collection consistent and unique. */
  lemma {:induction false} GuardKeeps(users: seq<User>, needsAuth: bool, header: Option<string>,
                                      verify: Option<string> -> TokenCheck, now: int)
    requires SessionConsistent(users) && UniqueUsers(users)
    ensures SessionConsistent(GuardStep(users, needsAuth, header, verify, now).1)
    ensures UniqueUsers(GuardStep(users, needsAuth, header, verify, now).1)
  {
    if needsAuth && header.Some? && IsBearer(header.value) && verify(TokenOf(header.value)).Expired? {
      var decoded := verify(TokenOf(header.value)).decodedEmail;
      if decoded.Some? && decoded.value != "" {
        var i := FindByEmail(users, decoded.value);
        if i >= 0 {
          SignedOutKeeps(users, i, now);
        }
      }
    }
  }

  /**
   * The token a login issues admits its user, as long as nothing has
   * changed the user's session since.
   */
  lemma {:induction false} LoginTokenAdmitted(users: seq<User>, email: string, password: string,
                                              verifyPassword: (string, string) -> bool, sid: string, now: int,
                                              header: string, verify: Option<string> -> TokenCheck, later: int)
    requires LoginStep(users, email, password, verifyPassword, sid, now).0.Ok?
    requires IsBearer(header) && verify(TokenOf(header)) == Valid(LoginStep(users, email, password, verifyPassword, sid, now).0.value.token)
    ensures var after := LoginStep(users, email, password, verifyPassword, sid, now).1;
      GuardStep(after, true, Some(header), verify, later)
        == (Ok(Some(users[FindByEmail(users, email)].id)), after)
  {
    var i := FindByEmail(users, email);
    var after := LoginStep(users, email, password, verifyPassword, sid, now).1;
    LoginGrants(users, email, password, verifyPassword, sid, now);
    assert forall k :: 0 <= k < i ==> after[k] == users[k];
    assert FindByEmail(after, email) == i;
  }

  /**
   * A logout revokes every token of that user issued before it: the stored
   * session is cleared, so no payload's session identifier matches it.
   */
  lemma {:induction false} LogoutRevokes(users: seq<User>, id: UserId, now: int,
                                         header: string, verify: Option<string> -> TokenCheck, later: int)
    requires UniqueUsers(users)
    requires IsBearer(header) && verify(TokenOf(header)).Valid?
    requires exists k :: 0 <= k < |users| && users[k].id == id && users[k].email == verify(TokenOf(header)).payload.email
    ensures var after := LogoutStep(users, id, now);
      GuardStep(after, true, Some(header), verify, later)
        == (Err(Unauthorized("Session invalid or expired")), after)
  {
    var payload := verify(TokenOf(header)).payload;
    var after := LogoutStep(users, id, now);
    var k :| 0 <= k < |users| && users[k].id == id && users[k].email == payload.email;
    LogoutSignsOut(users, id, now);
    assert after[k].session == Null && after[k].email == payload.email;
    assert FindByEmail(after, payload.email) == k;
  }

  /** `canActivate` on the store: the decision, and the sign-out an expired token causes. */
  method CanActivate(store: UserStore, needsAuth: bool, header: Option<string>, verify: Option<string> -> TokenCheck,
                     now: int) returns (result: Result<Option<UserId>, Failure>)
    requires store.Valid()
    modifies store
    ensures (result, store.users) == GuardStep(old(store.users), needsAuth, header, verify, now)
    ensures store.Valid()
  {
    GuardKeeps(store.users, needsAuth, header, verify, now);
    if !needsAuth {
      return Ok(None);
    }
    if header.None? || !IsBearer(header.value) {
      return Err(Unauthorized("Authentication token is missing"));
    }
    var check := verify(TokenOf(header.value));
    match check
    case Expired(decoded) =>
      if decoded.Some? && decoded.value != "" {
        var i := FindByEmail(store.users, decoded.value);
        if i >= 0 {
          store.users := store.users[i := SignedOut(store.users[i], now)];
        }
      }
      result := Err(Unauthorized("Token has expired"));
    case Invalid =>
      result := Err(Unauthorized("Invalid token"));
    case Valid(payload) =>
      var i := FindByEmail(store.users, payload.email);
      if i < 0 || store.users[i].session != Sid(payload.sessionId) {
        return Err(Unauthorized("Session invalid or expired"));
      }
      result := Ok(Some(store.users[i].id));
  }
}
