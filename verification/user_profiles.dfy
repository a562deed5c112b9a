/** User profiles kept for broadcasting and statistics: `cleanUserData`,
    `trackUser`, and the thirty-day active-user count. */
module UserProfiles {
  import opened JsSemantics
  import opened EntitlementStore

  /** Users seen within this span of `now` count as active (30 days). */
  const ACTIVE_SPAN_MS: int := 30 * 24 * HOUR_MS

  predicate Present(v: JsValue)
  {
    v != Undefined && v != Null
  }

  /** `cleanUserData(userData)`: keeps exactly the fields whose value is
      neither `undefined` nor `null`, unchanged. */
  function CleanUserData(data: Profile): (r: Profile)
    ensures forall k :: k in r <==> k in data && Present(data[k])
    ensures forall k :: k in r ==> r[k] == data[k]
  {
    map k | k in data && Present(data[k]) :: data[k]
  }

  /** Cleaning is idempotent, and leaves a record without missing values as
      it is. */
  lemma CleanUserDataIdempotent(data: Profile)
    ensures CleanUserData(CleanUserData(data)) == CleanUserData(data)
    ensures (forall k :: k in data ==> Present(data[k])) ==> CleanUserData(data) == data
  {
  }

  /** The record `trackUser` stores: the cleaned data with `lastSeen` set
      to now and `firstSeen` kept when truthy, else now. */
  function SeenRecord(data: Profile, now: int): (p: Profile)
    ensures "lastSeen" in p && p["lastSeen"] == Num(now)
    ensures "firstSeen" in p &&
            p["firstSeen"] == (if "firstSeen" in data && Truthy(data["firstSeen"]) then data["firstSeen"] else Num(now))
    ensures forall k :: k in data && Present(data[k]) && k != "lastSeen" && k != "firstSeen" ==>
              k in p && p[k] == data[k]
    ensures forall k :: k in p ==> Present(p[k]) && (k in data || k == "lastSeen" || k == "firstSeen")
  {
    var firstSeen := if "firstSeen" in data && Truthy(data["firstSeen"]) then data["firstSeen"] else Num(now);
    CleanUserData(data + map["lastSeen" := Num(now), "firstSeen" := firstSeen])
  }

  /** `trackUser(userId, userData)`: replaces the user's profile with the
      record above. The caller passes no `firstSeen`, so in practice it is
      reset on every visit. */
  function TrackUser(s: Store, user: UserId, data: Profile, now: int): (r: Store)
    ensures user in r.users && r.users[user] == SeenRecord(data, now)
    ensures r.users - {user} == s.users - {user}
    ensures r == s.(users := r.users)
  {
    s.(users := s.users[user := SeenRecord(data, now)])
  }

  /** `user.lastSeen > thirtyDaysAgo`, for a numeric `lastSeen`. */
  predicate SeenAfter(p: Profile, threshold: int)
  {
    "lastSeen" in p && p["lastSeen"].Num? && p["lastSeen"].n > threshold
  }

  /** The users seen within the last thirty days. */
  function ActiveUsers(users: map<UserId, Profile>, now: int): set<UserId>
  {
    set u | u in users && SeenAfter(users[u], now - ACTIVE_SPAN_MS)
  }

  /** `getActiveUserCount()`: one pass over the stored profiles. */
  method ActiveUserCount(users: map<UserId, Profile>, now: int) returns (n: nat)
    ensures n == |ActiveUsers(users, now)|
  {
    var threshold := now - ACTIVE_SPAN_MS;
    var remaining := users.Keys;
    ghost var counted: set<UserId> := {};
    n := 0;
    while remaining != {}
      invariant remaining <= users.Keys
      invariant counted == set u | u in users && u !in remaining && SeenAfter(users[u], threshold)
      invariant n == |counted|
      decreases remaining
    {
      var u :| u in remaining;
      if SeenAfter(users[u], threshold) {
        counted := counted + {u};
        n := n + 1;
      }
      remaining := remaining - {u};
    }
    assert counted == ActiveUsers(users, now);
  }

  /** A user tracked at `now` counts as active for the next thirty days. */
  lemma TrackedUserIsActive(s: Store, user: UserId, data: Profile, now: int, later: int)
    requires later < now + ACTIVE_SPAN_MS
    ensures user in ActiveUsers(TrackUser(s, user, data, now).users, later)
  {
  }
}
