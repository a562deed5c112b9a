/** The access-window reads of the entitlement engine (`hasValidAccess`,
    `getTimeRemaining`) and the per-media view counter (`trackView`). */
module AccessWindows {
  import opened JsSemantics
  import opened EntitlementStore

  /** A window the engine honours at `now`: present, granted, and not past its
      expiry (an expiry equal to `now` still counts). */
  predicate LiveAt(s: Store, user: UserId, now: int)
  {
    user in s.access && s.access[user].granted && now <= s.access[user].expires
  }

  /** `hasValidAccess(userId)`: answers whether the user's window is live and
      removes a granted window found expired. A missing or ungranted window
      is left as it is. */
  function HasValidAccess(s: Store, user: UserId, now: int): (r: (bool, Store))
    ensures r.0 <==> LiveAt(s, user, now)
    ensures r.1 == s.(access := r.1.access)
    ensures r.1.access - {user} == s.access - {user}
    ensures user in r.1.access <==>
              user in s.access && (!s.access[user].granted || now <= s.access[user].expires)
    ensures user in r.1.access ==> r.1.access[user] == s.access[user]
  {
    if user !in s.access || !s.access[user].granted then (false, s)
    else if now > s.access[user].expires then (false, s.(access := s.access - {user}))
    else (true, s)
  }

  /** Asking twice at the same instant gives the same answer and changes
      nothing the second time. */
  lemma HasValidAccessIdempotent(s: Store, user: UserId, now: int)
    ensures var (ok, s1) := HasValidAccess(s, user, now);
            HasValidAccess(s1, user, now) == (ok, s1)
  {
  }

  /** Once the check has answered no, the user has no live window left, so
      the answer stays no at every later instant until a new grant. */
  lemma RefusedStaysRefused(s: Store, user: UserId, now: int, later: int)
    requires !HasValidAccess(s, user, now).0
    requires now <= later
    ensures !HasValidAccess(HasValidAccess(s, user, now).1, user, later).0
  {
  }

  /** What `getTimeRemaining` reports. The source renders `Left` as
      `"<hours>h <minutes>m"` and a missing window as `"0 hours"`. */
  datatype TimeLeft = NoWindow | Left(hours: int, minutes: int)

  /** `getTimeRemaining(userId)`: whole hours and leftover whole minutes of
      `expires - now`, by `Math.floor` and JavaScript's `%`. It does not look
      at `granted` and does not reap the window. */
  function GetTimeRemaining(s: Store, user: UserId, now: int): (r: TimeLeft)
    ensures r.NoWindow? <==> user !in s.access
    ensures r.Left? && s.access[user].expires >= now ==>
              var rem := s.access[user].expires - now;
              && 0 <= r.hours && 0 <= r.minutes < 60
              && r.hours * HOUR_MS + r.minutes * MINUTE_MS <= rem
              && rem < r.hours * HOUR_MS + (r.minutes + 1) * MINUTE_MS
    ensures r.Left? && s.access[user].expires < now ==> r.hours < 0 && -60 <= r.minutes <= 0
  {
    if user !in s.access then NoWindow
    else
      var rem := s.access[user].expires - now;
      var hours := FloorDiv(rem, HOUR_MS);
      var minutes := FloorDiv(TruncRem(rem, HOUR_MS), MINUTE_MS);
      HoursMinutesBracket(rem);
      Left(hours, minutes)
  }

  /** The arithmetic behind `getTimeRemaining`. */
  lemma HoursMinutesBracket(rem: int)
    ensures var h := FloorDiv(rem, HOUR_MS);
            var m := FloorDiv(TruncRem(rem, HOUR_MS), MINUTE_MS);
            && (rem >= 0 ==>
                  && 0 <= h && 0 <= m < 60
                  && h * HOUR_MS + m * MINUTE_MS <= rem < h * HOUR_MS + (m + 1) * MINUTE_MS)
            && (rem < 0 ==> h < 0 && -60 <= m <= 0)
  {
    var h := FloorDiv(rem, HOUR_MS);
    var q := TruncRem(rem, HOUR_MS);
    var m := FloorDiv(q, MINUTE_MS);
    if rem >= 0 {
      assert rem == h * HOUR_MS + q;
      assert q == m * MINUTE_MS + q % MINUTE_MS;
      assert m * MINUTE_MS <= q < (m + 1) * MINUTE_MS;
      assert m < 60;
    } else {
      assert h * HOUR_MS <= rem;
      assert -HOUR_MS < q <= 0;
      assert m * MINUTE_MS <= q < (m + 1) * MINUTE_MS;
    }
  }

  /** Whenever the access check says yes, the time left it is shown with is
      never negative. */
  lemma LiveWindowTimeLeftNonNegative(s: Store, user: UserId, now: int)
    requires HasValidAccess(s, user, now).0
    ensures var r := GetTimeRemaining(HasValidAccess(s, user, now).1, user, now);
            r.Left? && r.hours >= 0 && r.minutes >= 0
  {
  }

  /** The stats map after one view of `mediaHash`. */
  function BumpViews(stats: map<string, MediaStats>, mediaHash: string, now: int): (m: map<string, MediaStats>)
    ensures m - {mediaHash} == stats - {mediaHash}
    ensures mediaHash in m
    ensures mediaHash in stats ==> m[mediaHash] == stats[mediaHash].(views := stats[mediaHash].views + 1)
    ensures mediaHash !in stats ==> m[mediaHash] == MediaStats(1, 0, now)
  {
    if mediaHash !in stats then stats[mediaHash := MediaStats(1, 0, now)]
    else
      var cur := stats[mediaHash];
      stats[mediaHash := cur.(views := cur.views + 1)]
  }

  /** `trackView(mediaHash)`: counts one view, creating the counter at one. */
  function TrackView(s: Store, mediaHash: string, now: int): (r: Store)
    ensures r == s.(stats := r.stats)
    ensures r.stats - {mediaHash} == s.stats - {mediaHash}
    ensures mediaHash in r.stats
    ensures r.stats[mediaHash].views == ViewsOf(s, mediaHash) + 1
    ensures mediaHash in s.stats ==>
              r.stats[mediaHash] == s.stats[mediaHash].(views := s.stats[mediaHash].views + 1)
    ensures mediaHash !in s.stats ==> r.stats[mediaHash] == MediaStats(1, 0, now)
  {
    s.(stats := BumpViews(s.stats, mediaHash, now))
  }

  /** Views recorded for a media item so far; zero without a counter. */
  function ViewsOf(s: Store, mediaHash: string): nat
  {
    if mediaHash in s.stats then s.stats[mediaHash].views else 0
  }

  /** `n` views of the same media, one after the other. */
  function TrackViews(s: Store, mediaHash: string, n: nat, now: int): Store
  {
    if n == 0 then s else TrackView(TrackViews(s, mediaHash, n - 1, now), mediaHash, now)
  }

  /** No lost updates in a sequence of views: `n` views add exactly `n`, and
      the counters of other media are untouched. */
  lemma {:induction false} TrackViewsCount(s: Store, mediaHash: string, n: nat, now: int)
    ensures ViewsOf(TrackViews(s, mediaHash, n, now), mediaHash) == ViewsOf(s, mediaHash) + n
    ensures TrackViews(s, mediaHash, n, now).stats - {mediaHash} == s.stats - {mediaHash}
  {
    if n > 0 {
      TrackViewsCount(s, mediaHash, n - 1, now);
    }
  }
}
