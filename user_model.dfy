/**
 * The lecturer accounts (user.model.ts plus the session fields the services
 * write): each user's identity, the single-session state and the time of
 * the last update, and the user collection they live in.
 *
 * The collection is a list in insertion order; a lookup by e-mail or by id
 * finds the first matching user, as `findOne`/`updateOne` do.
 */
module UserModel {
  import opened Wrappers

  /** A user's identifier (`_id`). */
  type UserId = nat

  /**
   * `currentSessionId`: never set or `$unset` (absent), cleared to `null`,
   * or a session identifier. The guard's strict comparison tells absent and
   * null apart from every identifier.
   */
  datatype SessionField = Absent | Null | Sid(id: string)

  /** One lecturer account; `updatedAt` is the schema's timestamp in milliseconds. */
  datatype User = User(
    id: UserId,
    email: string,
    passwordHash: string,
    name: string,
    isSignedIn: bool,
    session: SessionField,
    updatedAt: int)

  /** `if (user.currentSessionId)`: an identifier that is not the empty string. */
  predicate HasActiveSession(u: User) {
    u.session.Sid? && u.session.id != ""
  }

  /** Signed in exactly when a session identifier is stored. */
  predicate SessionConsistent(users: seq<User>) {
    forall i :: 0 <= i < |users| ==> (users[i].isSignedIn <==> users[i].session.Sid?)
  }

  /** No e-mail (the unique index) and no id occurs twice. */
  predicate UniqueUsers(users: seq<User>) {
    forall i, j :: 0 <= i < j < |users| ==> users[i].email != users[j].email && users[i].id != users[j].id
  }

  /** `findOne({ email })`: the index of the first user with that e-mail, or -1. */
  function FindByEmail(users: seq<User>, email: string): (i: int)
    ensures -1 <= i < |users|
    ensures i >= 0 ==> users[i].email == email && forall k :: 0 <= k < i ==> users[k].email != email
    ensures i < 0 ==> forall k :: 0 <= k < |users| ==> users[k].email != email
  {
    if users == [] then -1
    else if users[0].email == email then 0
    else
      var j := FindByEmail(users[1..], email);
      if j < 0 then -1 else j + 1
  }

  /** `updateOne({ _id: id })`: the index of the first user with that id, or -1. */
  function FindById(users: seq<User>, id: UserId): (i: int)
    ensures -1 <= i < |users|
    ensures i >= 0 ==> users[i].id == id && forall k :: 0 <= k < i ==> users[k].id != id
    ensures i < 0 ==> forall k :: 0 <= k < |users| ==> users[k].id != id
  {
    if users == [] then -1
    else if users[0].id == id then 0
    else
      var j := FindById(users[1..], id);
      if j < 0 then -1 else j + 1
  }

  /** The update `{ isSignedIn: false, currentSessionId: null }`, stamped with the time. */
  function SignedOut(u: User, now: int): (r: User)
    ensures !r.isSignedIn && r.session == Null && r.updatedAt == now
    ensures r.id == u.id && r.email == u.email && r.passwordHash == u.passwordHash && r.name == u.name
  {
    u.(isSignedIn := false, session := Null, updatedAt := now)
  }

  /** Signing a user out at some index keeps the collection consistent and unique. */
  lemma {:induction false} SignedOutKeeps(users: seq<User>, i: nat, now: int)
    requires i < |users|
    ensures SessionConsistent(users) ==> SessionConsistent(users[i := SignedOut(users[i], now)])
    ensures UniqueUsers(users) ==> UniqueUsers(users[i := SignedOut(users[i], now)])
  {
  }

  /** The user collection. */
  class UserStore {
    var users: seq<User>

    constructor ()
      ensures users == []
    {
      users := [];
    }

    /** The invariants every operation keeps. */
    ghost predicate Valid()
      reads this
    {
      SessionConsistent(users) && UniqueUsers(users)
    }
  }
}
