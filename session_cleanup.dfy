/**
 * The hourly session sweep (session-cleanup.service.ts): sessions idle for
 * more than a day are cleared.
 *
 * The clock is a parameter `now` in milliseconds; `dbFails` says whether
 * the database rejects the query or the update, which the sweep catches
 * and logs, leaving the users as they were.
 */
module SessionCleanup {
  import opened Wrappers
  import opened Errors
  import opened Text
  import opened UserModel
  import opened UserService
  import opened AuthGuard

  /** 24 hours in milliseconds. */
  const OneDayMs: int := 24 * 60 * 60 * 1000

  /** `new Date(Date.now() - oneDayInMs)` */
  function Threshold(now: int): int {
    now - OneDayMs
  }

  /** The filter `{ currentSessionId: { $ne: null }, updatedAt: { $lt: threshold } }`. */
  predicate Stale(u: User, threshold: int) {
    u.session.Sid? && u.updatedAt < threshold
  }

  /** The update `{ $unset: { currentSessionId: 1 }, isSignedIn: false }`, stamped with the time. */
  function Cleared(u: User, now: int): (r: User)
    ensures r.session == Absent && !r.isSignedIn && r.updatedAt == now
    ensures r.id == u.id && r.email == u.email && r.passwordHash == u.passwordHash && r.name == u.name
  {
    u.(session := Absent, isSignedIn := false, updatedAt := now)
  }

  /** How many users the filter matches. */
  function CountStale(users: seq<User>, threshold: int): (n: nat)
    ensures n <= |users|
    ensures n == 0 <==> forall k :: 0 <= k < |users| ==> !Stale(users[k], threshold)
  {
    if users == [] then 0
    else (if Stale(users[0], threshold) then 1 else 0) + CountStale(users[1..], threshold)
  }

  /** `updateMany`: every matched user cleared, every other user as it was. */
  function Swept(users: seq<User>, threshold: int, now: int): (r: seq<User>)
    ensures |r| == |users|
  {
    seq(|users|, k requires 0 <= k < |users| => if Stale(users[k], threshold) then Cleared(users[k], now) else users[k])
  }

  /**
   * `handleCron()`: with no stale session nothing is written; otherwise
   * every stale session is cleared at once.
   */
  function SweepStep(users: seq<User>, now: int): seq<User> {
    if CountStale(users, Threshold(now)) == 0 then users else Swept(users, Threshold(now), now)
  }

  /**
   * The cut-off is one day: a session last updated exactly 86 400 000 ms ago
   * survives the sweep, and one updated a millisecond earlier is cleared.
   */
  lemma {:induction false} OneDayBoundary(users: seq<User>, now: int, k: nat)
    requires k < |users| && users[k].session.Sid?
    ensures users[k].updatedAt == now - 86_400_000 ==> SweepStep(users, now)[k] == users[k]
    ensures users[k].updatedAt == now - 86_400_001 ==> SweepStep(users, now)[k] == Cleared(users[k], now)
  {
    SweepClears(users, now);
  }

  /**
   * After the sweep no session is stale: each stale one has been removed
   * and its user signed out, and every other user is as it was.
   */
  lemma {:induction false} SweepClears(users: seq<User>, now: int)
    ensures var after := SweepStep(users, now);
      |after| == |users|
      && (forall k :: 0 <= k < |users| ==> !Stale(after[k], Threshold(now)))
      && (forall k :: 0 <= k < |users| && Stale(users[k], Threshold(now)) ==> after[k] == Cleared(users[k], now))
      && (forall k :: 0 <= k < |users| && !Stale(users[k], Threshold(now)) ==> after[k] == users[k])
  {
    if CountStale(users, Threshold(now)) != 0 {
      var after := Swept(users, Threshold(now), now);
      forall k | 0 <= k < |users| ensures !Stale(after[k], Threshold(now)) {
        if Stale(users[k], Threshold(now)) {
          assert after[k] == Cleared(users[k], now);
        }
      }
    }
  }

  /** Only sessions idle for more than a day qualify: a session used within the day survives. */
  lemma {:induction false} RecentSessionSurvives(users: seq<User>, now: int, k: nat)
    requires k < |users| && users[k].updatedAt >= now - 86_400_000
    ensures SweepStep(users, now)[k] == users[k]
  {
    SweepClears(users, now);
  }

  /** The sweep keeps the collection consistent and unique. */
  lemma {:induction false} SweepKeeps(users: seq<User>, now: int)
    requires SessionConsistent(users) && UniqueUsers(users)
    ensures SessionConsistent(SweepStep(users, now)) && UniqueUsers(SweepStep(users, now))
  {
    SweepClears(users, now);
  }

  /** A swept user's tokens are refused afterwards: the stored session is gone. */
  lemma {:induction false} SweepRevokes(users: seq<User>, now: int, header: string,
                                        verify: Option<string> -> TokenCheck, later: int)
    requires UniqueUsers(users) && IsBearer(header) && verify(TokenOf(header)).Valid?
    requires exists k :: 0 <= k < |users| && Stale(users[k], Threshold(now))
                         && users[k].email == verify(TokenOf(header)).payload.email
    ensures var after := SweepStep(users, now);
      GuardStep(after, true, Some(header), verify, later) == (Err(Unauthorized("Session invalid or expired")), after)
  {
    var payload := verify(TokenOf(header)).payload;
    var k :| 0 <= k < |users| && Stale(users[k], Threshold(now)) && users[k].email == payload.email;
    SweepClears(users, now);
    var after := SweepStep(users, now);
    assert after[k].email == payload.email && after[k].session == Absent;
    assert FindByEmail(after, payload.email) == k by {
      forall j | 0 <= j < k ensures after[j].email != payload.email {
        assert after[j].email == users[j].email;
      }
    }
  }

  /**
   * `handleCron()` on the store. A failing database leaves the users as they
   * were and the error is not propagated. `cleared` is the number of
   * stale sessions found, zero when nothing was written.
   */
  method HandleCron(store: UserStore, now: int, dbFails: bool) returns (cleared: nat)
    requires store.Valid()
    modifies store
    ensures dbFails ==> store.users == old(store.users) && cleared == 0
    ensures !dbFails ==> store.users == SweepStep(old(store.users), now)
                         && cleared == CountStale(old(store.users), Threshold(now))
    ensures store.Valid()
  {
    SweepKeeps(store.users, now);
    if dbFails {
      return 0;
    }
    var threshold := Threshold(now);
    cleared := CountStale(store.users, threshold);
    if cleared == 0 {
      return;
    }
    ghost var before := store.users;
    var i := 0;
    while i < |store.users|
      invariant 0 <= i <= |store.users| == |before|
      invariant forall k :: 0 <= k < i ==> store.users[k] == Swept(before, threshold, now)[k]
      invariant forall k :: i <= k < |before| ==> store.users[k] == before[k]
    {
      if Stale(store.users[i], threshold) {
        store.users := store.users[i := Cleared(store.users[i], now)];
      }
      i := i + 1;
    }
    assert store.users == Swept(before, threshold, now);
  }
}
