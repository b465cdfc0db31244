/**
 * Account sign-up, login and logout (user.service.ts) as transitions of
 * the user collection.
 *
 * Password hashing (the save hook) and its verification are oracles
 * `hash(password)` and `verify(storedHash, password)`; the session
 * identifier `randomUUID()` gives, the new user's id and the clock are
 * parameters. The signed token is represented by its payload.
 */
module UserService {
  import opened Wrappers
  import opened Errors
  import opened UserModel

  // ================================================================ signup

  /**
   * `signup(dto)`: an e-mail already registered is refused and nothing is
   * created; otherwise a user with the hashed password is appended, not
   * signed in and without a session.
   */
  function SignupStep(users: seq<User>, email: string, password: string, name: string,
                      hash: string -> string, newId: UserId, now: int): (r: (Result<string, Failure>, seq<User>))
    ensures r.0.Err? <==> exists k :: 0 <= k < |users| && users[k].email == email
    ensures r.0.Err? ==> r.0.error == BadRequest("Email already registered") && r.1 == users
    ensures r.0.Ok? ==>
      r.0.value == "User registered successfully"
      && r.1 == users + [User(newId, email, hash(password), name, false, Absent, now)]
  {
    if FindByEmail(users, email) >= 0 then (Err(BadRequest("Email already registered")), users)
    else (Ok("User registered successfully"), users + [User(newId, email, hash(password), name, false, Absent, now)])
  }

  /** Signing up keeps sessions consistent and, with a fresh id, users unique. */
  lemma {:induction false} SignupKeeps(users: seq<User>, email: string, password: string, name: string,
                                       hash: string -> string, newId: UserId, now: int)
    requires SessionConsistent(users) && UniqueUsers(users)
    requires forall k :: 0 <= k < |users| ==> users[k].id != newId
    ensures SessionConsistent(SignupStep(users, email, password, name, hash, newId, now).1)
    ensures UniqueUsers(SignupStep(users, email, password, name, hash, newId, now).1)
  {
    var r := SignupStep(users, email, password, name, hash, newId, now).1;
    if r != users {
      assert forall k :: 0 <= k < |users| ==> r[k] == users[k];
    }
  }

  // ================================================================ login

  /** The token payload `{ sub, email, mode: 'lecturer', sessionId }`. */
  datatype TokenPayload = TokenPayload(sub: UserId, email: string, mode: string, sessionId: string)

  /** What a successful login returns: the token and the user's name. */
  datatype LoginGrant = LoginGrant(token: TokenPayload, name: string)

  /**
   * `login(dto)`. An unknown e-mail or a wrong password is refused with the
   * same message; a user with an active session is refused; otherwise the
   * user is signed in with the new session identifier, which the token
   * carries.
   */
  function LoginStep(users: seq<User>, email: string, password: string, verify: (string, string) -> bool,
                     sessionId: string, now: int): (r: (Result<LoginGrant, Failure>, seq<User>))
  {
    var i := FindByEmail(users, email);
    if i < 0 || !verify(users[i].passwordHash, password) then (Err(Unauthorized("Invalid credentials")), users)
    else if HasActiveSession(users[i]) then (Err(BadRequest("Already signed in from another device/session")), users)
    else
      var u := users[i];
      (Ok(LoginGrant(TokenPayload(u.id, u.email, "lecturer", sessionId), u.name)),
       users[i := u.(isSignedIn := true, session := Sid(sessionId), updatedAt := now)])
  }

  /** The refusals of a login: each leaves every user as it was. */
  lemma {:induction false} LoginRefusals(users: seq<User>, email: string, password: string,
                                         verify: (string, string) -> bool, sessionId: string, now: int)
    ensures var (r, after) := LoginStep(users, email, password, verify, sessionId, now);
      r.Err? ==> after == users
    ensures (forall k :: 0 <= k < |users| ==> users[k].email != email) ==>
      LoginStep(users, email, password, verify, sessionId, now).0 == Err(Unauthorized("Invalid credentials"))
    ensures forall k :: 0 <= k < |users| && users[k].email == email && (forall j :: 0 <= j < k ==> users[j].email != email) ==>
      (!verify(users[k].passwordHash, password) ==>
         LoginStep(users, email, password, verify, sessionId, now).0 == Err(Unauthorized("Invalid credentials")))
      && (verify(users[k].passwordHash, password) && HasActiveSession(users[k]) ==>
         LoginStep(users, email, password, verify, sessionId, now).0
           == Err(BadRequest("Already signed in from another device/session")))
  {
    var i := FindByEmail(users, email);
    forall k | 0 <= k < |users| && users[k].email == email && (forall j :: 0 <= j < k ==> users[j].email != email)
      ensures k == i
    {
    }
  }

  /**
   * A login succeeds exactly for a registered user with a matching password
   * and no active session; it changes that user alone, signing them in with
   * the new identifier, which the token carries together with the user's id.
   */
  lemma {:induction false} LoginGrants(users: seq<User>, email: string, password: string,
                                       verify: (string, string) -> bool, sessionId: string, now: int)
    ensures var i := FindByEmail(users, email);
      LoginStep(users, email, password, verify, sessionId, now).0.Ok?
      <==> 0 <= i && verify(users[i].passwordHash, password) && !HasActiveSession(users[i])
    ensures var (r, after) := LoginStep(users, email, password, verify, sessionId, now);
      var i := FindByEmail(users, email);
      r.Ok? ==>
      0 <= i < |users| && users[i].email == email
      && |after| == |users|
      && after[i].isSignedIn && after[i].session == Sid(sessionId) && after[i].updatedAt == now
      && after[i].id == users[i].id && after[i].email == email && after[i].passwordHash == users[i].passwordHash
      && (forall k :: 0 <= k < |users| && k != i ==> after[k] == users[k])
      && r.value.token == TokenPayload(users[i].id, email, "lecturer", sessionId)
      && r.value.name == users[i].name
  {
  }

  /** Every login keeps the collection consistent and unique. */
  lemma {:induction false} LoginKeeps(users: seq<User>, email: string, password: string,
                                      verify: (string, string) -> bool, sessionId: string, now: int)
    requires SessionConsistent(users) && UniqueUsers(users)
    ensures SessionConsistent(LoginStep(users, email, password, verify, sessionId, now).1)
    ensures UniqueUsers(LoginStep(users, email, password, verify, sessionId, now).1)
  {
    var after := LoginStep(users, email, password, verify, sessionId, now).1;
    if after != users {
      var i := FindByEmail(users, email);
      assert forall k :: 0 <= k < |users| && k != i ==> after[k] == users[k];
    }
  }

  /**
   * A second login while a session is active is refused, so a user holds at
   * most one session: a login that succeeds never replaces an active one.
   */
  lemma {:induction false} OneSessionAtATime(users: seq<User>, email: string, password: string, password2: string,
                                             verify: (string, string) -> bool, sid: string, sid2: string,
                                             now: int, now2: int)
    requires sid != ""
    requires LoginStep(users, email, password, verify, sid, now).0.Ok?
    ensures var after := LoginStep(users, email, password, verify, sid, now).1;
      LoginStep(after, email, password2, verify, sid2, now2).0.Err?
      && LoginStep(after, email, password2, verify, sid2, now2).1 == after
  {
    var i := FindByEmail(users, email);
    var after := LoginStep(users, email, password, verify, sid, now).1;
    LoginGrants(users, email, password, verify, sid, now);
    assert after[i].email == email;
    assert forall k :: 0 <= k < i ==> after[k] == users[k];
    assert FindByEmail(after, email) == i;
  }

  // ================================================================ logout

  /** `logout(id)`: the user with that id is signed out; an unknown id changes nothing. */
  function LogoutStep(users: seq<User>, id: UserId, now: int): (after: seq<User>)
  {
    var i := FindById(users, id);
    if i < 0 then users else users[i := SignedOut(users[i], now)]
  }

  /**
   * After a logout the user with that id is signed out with a cleared
   * session, and no other user changes.
   */
  lemma {:induction false} LogoutSignsOut(users: seq<User>, id: UserId, now: int)
    requires UniqueUsers(users)
    ensures var after := LogoutStep(users, id, now);
      |after| == |users|
      && (forall k :: 0 <= k < |users| && users[k].id != id ==> after[k] == users[k])
      && (forall k :: 0 <= k < |users| && users[k].id == id ==>
            !after[k].isSignedIn && after[k].session == Null && after[k].updatedAt == now
            && after[k].email == users[k].email && after[k].id == id)
  {
    var i := FindById(users, id);
    forall k | 0 <= k < |users| && users[k].id == id ensures k == i {
    }
  }

  lemma {:induction false} LogoutKeeps(users: seq<User>, id: UserId, now: int)
    requires SessionConsistent(users) && UniqueUsers(users)
    ensures SessionConsistent(LogoutStep(users, id, now)) && UniqueUsers(LogoutStep(users, id, now))
  {
    var i := FindById(users, id);
    if i >= 0 {
      SignedOutKeeps(users, i, now);
    }
  }

  // ================================================================ the service on the store

  method Signup(store: UserStore, email: string, password: string, name: string,
                hash: string -> string, newId: UserId, now: int) returns (result: Result<string, Failure>)
    requires store.Valid() && forall k :: 0 <= k < |store.users| ==> store.users[k].id != newId
    modifies store
    ensures (result, store.users) == SignupStep(old(store.users), email, password, name, hash, newId, now)
    ensures store.Valid()
  {
    SignupKeeps(store.users, email, password, name, hash, newId, now);
    var r := SignupStep(store.users, email, password, name, hash, newId, now);
    result := r.0;
    store.users := r.1;
  }

  method Login(store: UserStore, email: string, password: string, verify: (string, string) -> bool,
               sessionId: string, now: int) returns (result: Result<LoginGrant, Failure>)
    requires store.Valid()
    modifies store
    ensures (result, store.users) == LoginStep(old(store.users), email, password, verify, sessionId, now)
    ensures store.Valid()
  {
    var i := FindByEmail(store.users, email);
    if i < 0 || !verify(store.users[i].passwordHash, password) {
      return Err(Unauthorized("Invalid credentials"));
    }
    if HasActiveSession(store.users[i]) {
      return Err(BadRequest("Already signed in from another device/session"));
    }
    LoginKeeps(store.users, email, password, verify, sessionId, now);
    var u := store.users[i];
    store.users := store.users[i := u.(isSignedIn := true, session := Sid(sessionId), updatedAt := now)];
    result := Ok(LoginGrant(TokenPayload(u.id, u.email, "lecturer", sessionId), u.name));
  }

  method Logout(store: UserStore, id: UserId, now: int) returns (message: string)
    requires store.Valid()
    modifies store
    ensures store.users == LogoutStep(old(store.users), id, now)
    ensures store.Valid()
    ensures message == "User logged out"
  {
    LogoutKeeps(store.users, id, now);
    var i := FindById(store.users, id);
    if i >= 0 {
      store.users := store.users[i := SignedOut(store.users[i], now)];
    }
    message := "User logged out";
  }
}
