/** The persisted state of the entitlement engine, one map per database path.
    Keys that the source writes as `userId.toString()` are user ids here: the
    decimal rendering is injective, so nothing is lost. */
module EntitlementStore {
  import opened JsSemantics

  /** A chat user id (`msg.from.id`). */
  type UserId = nat

  const MINUTE_MS: int := 60 * 1000
  const HOUR_MS: int := 60 * MINUTE_MS
  /** Access granted by activating an ad token. */
  const TOKEN_GRANT_MS: int := 18 * HOUR_MS
  /** Access granted to both sides of a referral. */
  const REFERRAL_GRANT_MS: int := 8 * HOUR_MS

  /** Where a window came from; token grants write no source at all. */
  datatype GrantSource = Referral | ReferralBonus

  /** `userAccess/{userId}`. */
  datatype AccessWindow = AccessWindow(granted: bool, expires: int, grantedAt: int, source: Option<GrantSource>)

  /** `tokens/{token}`. */
  datatype TokenRecord = TokenRecord(
    owner: UserId, mediaHash: string, expires: int, createdAt: int, used: bool, activatedAt: Option<int>)

  /** `referrals/codes/{code}`. The owner is stored as the number `msg.from.id`. */
  datatype CodeRecord = CodeRecord(owner: UserId, createdAt: int, uses: nat, lastUsed: Option<int>)

  /** `referrals/userCodes/{userId}`. */
  datatype UserCodeRecord = UserCodeRecord(code: string, createdAt: int)

  /** `referrals/users/{newUserId}`: keyed by the referee. */
  datatype Redemption = Redemption(referredBy: UserId, code: string, referredAt: int)

  /** `referrals/referrers/{userId}`. */
  datatype ReferrerStats = ReferrerStats(totalReferrals: nat, lastReferral: int)

  /** `stats/{mediaHash}`. */
  datatype MediaStats = MediaStats(views: nat, shares: nat, createdAt: int)

  /** A user profile under `users/{userId}`: a plain record of named values. */
  type Profile = map<string, JsValue>

  datatype Store = Store(
    tokens: map<string, TokenRecord>,
    access: map<UserId, AccessWindow>,
    codes: map<string, CodeRecord>,
    userCodes: map<UserId, UserCodeRecord>,
    redemptions: map<UserId, Redemption>,
    referrers: map<UserId, ReferrerStats>,
    stats: map<string, MediaStats>,
    users: map<UserId, Profile>)

  const EmptyStore: Store := Store(map[], map[], map[], map[], map[], map[], map[], map[])

  /** The referral part of two stores is the same. */
  predicate SameLedger(s: Store, t: Store)
  {
    s.codes == t.codes && s.userCodes == t.userCodes
    && s.redemptions == t.redemptions && s.referrers == t.referrers
  }
}
