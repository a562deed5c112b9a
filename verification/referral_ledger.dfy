/** The referral ledger: per-user codes created on first need, validation of a
    redemption, and its commit, which records the referee, counts the use on
    the code and on the referrer, and grants both sides eight hours. */
module ReferralLedger {
  import opened JsSemantics
  import opened EntitlementStore

  datatype ReferralError =
    | CodeNotFound      // "Invalid referral code"
    | SelfReferral      // "Cannot use your own referral code"
    | AlreadyReferred   // "You have already used a referral code"

  datatype Validation = Accepted(referrer: UserId) | Rejected(error: ReferralError)

  // ---------------------------------------------------------------------------
  // Codes

  /** `generateReferralCode(userId)`: `code` is the random draw
      (`Math.random().toString(36).substr(2, 8).toUpperCase()`). The record is
      written with `set`, so a draw that collides with an existing code
      replaces that code's record. */
  function GenerateReferralCode(s: Store, user: UserId, code: string, now: int): (r: Store)
    ensures r.codes == s.codes[code := CodeRecord(user, now, 0, None)]
    ensures r == s.(codes := r.codes)
  {
    s.(codes := s.codes[code := CodeRecord(user, now, 0, None)])
  }

  /** `getReferralCode(userId)`. */
  function GetReferralCode(s: Store, user: UserId): (r: Option<UserCodeRecord>)
    ensures r.Some? <==> user in s.userCodes
    ensures r.Some? ==> r.value == s.userCodes[user]
  {
    if user in s.userCodes then Some(s.userCodes[user]) else None
  }

  /** `storeUserReferralCode(userId, code)`. */
  function StoreUserReferralCode(s: Store, user: UserId, code: string, now: int): (r: Store)
    ensures r.userCodes == s.userCodes[user := UserCodeRecord(code, now)]
    ensures r == s.(userCodes := r.userCodes)
  {
    s.(userCodes := s.userCodes[user := UserCodeRecord(code, now)])
  }

  /** The get-or-create step of the start command and the referral menus:
      reuse the user's code, or draw `drawn`, store it as theirs and link it. */
  function GetOrCreateCode(s: Store, user: UserId, drawn: string, now: int): (r: (string, Store))
    ensures user in r.1.userCodes && r.1.userCodes[user].code == r.0
    ensures user in s.userCodes ==> r == (s.userCodes[user].code, s)
    ensures user !in s.userCodes ==>
              && r.0 == drawn && drawn in r.1.codes && r.1.codes[drawn] == CodeRecord(user, now, 0, None)
              && r.1.codes - {drawn} == s.codes - {drawn}
              && r.1.userCodes == s.userCodes[user := UserCodeRecord(drawn, now)]
              && r.1 == s.(codes := r.1.codes, userCodes := r.1.userCodes)
  {
    match GetReferralCode(s, user)
    case Some(rec) => (rec.code, s)
    case None =>
      var s1 := GenerateReferralCode(s, user, drawn, now);
      (drawn, StoreUserReferralCode(s1, user, drawn, now))
  }

  // ---------------------------------------------------------------------------
  // Validation

  /** `validateReferral(code, newUserId)` with the self-referral test comparing
      the owner and the new user as the same kind of id: unknown code, then
      self-referral, then an existing redemption by the new user. */
  function ValidateReferral(s: Store, code: string, newUser: UserId): (r: Validation)
    ensures r.Accepted? <==>
              code in s.codes && s.codes[code].owner != newUser && newUser !in s.redemptions
    ensures r.Accepted? ==> r.referrer == s.codes[code].owner && r.referrer != newUser
    ensures r == Rejected(CodeNotFound) <==> code !in s.codes
    ensures r == Rejected(SelfReferral) <==> code in s.codes && s.codes[code].owner == newUser
  {
    if code !in s.codes then Rejected(CodeNotFound)
    else if s.codes[code].owner == newUser then Rejected(SelfReferral)
    else if newUser in s.redemptions then Rejected(AlreadyReferred)
    else Accepted(s.codes[code].owner)
  }

  /** `validateReferral` as the source writes it: the stored owner is the
      number `msg.from.id`, and it is compared with `===` against
      `newUserId.toString()`, a string. */
  function ValidateReferralAsWritten(s: Store, code: string, newUser: UserId): (r: Validation)
    ensures r.Accepted? <==> code in s.codes && newUser !in s.redemptions
    ensures r.Accepted? ==> r.referrer == s.codes[code].owner
    ensures r == Rejected(CodeNotFound) <==> code !in s.codes
    ensures r == Rejected(AlreadyReferred) <==> code in s.codes && newUser in s.redemptions
    ensures r != Rejected(SelfReferral)
  {
    if code !in s.codes then Rejected(CodeNotFound)
    else if StrictEquals(Num(s.codes[code].owner), Str(NatToString(newUser))) then Rejected(SelfReferral)
    else if newUser in s.redemptions then Rejected(AlreadyReferred)
    else Accepted(s.codes[code].owner)
  }

  // ---------------------------------------------------------------------------
  // Commit

  /** Time left on a user's window at `now`, never negative; zero without one. */
  function Remaining(s: Store, user: UserId, now: int): (d: int)
    ensures d >= 0
    ensures user in s.access && s.access[user].expires > now ==> d == s.access[user].expires - now
    ensures user !in s.access || s.access[user].expires <= now ==> d == 0
  {
    if user in s.access && s.access[user].expires > now then s.access[user].expires - now else 0
  }

  /** `processSuccessfulReferral(referrerId, newUserId, code)`. The referee's
      window is overwritten with eight hours; the referrer's bonus is read
      after that write, and stacks eight hours on a window still running
      (`expires > now`) or starts eight hours from now. */
  function ProcessSuccessfulReferral(s: Store, referrer: UserId, newUser: UserId, code: string, now: int): (r: Store)
    ensures r.redemptions == s.redemptions[newUser := Redemption(referrer, code, now)]
    ensures code in s.codes ==>
              r.codes == s.codes[code := s.codes[code].(uses := s.codes[code].uses + 1, lastUsed := Some(now))]
    ensures code !in s.codes ==> r.codes == s.codes
    ensures referrer in r.referrers && r.referrers - {referrer} == s.referrers - {referrer}
    ensures r.referrers[referrer].totalReferrals ==
              (if referrer in s.referrers then s.referrers[referrer].totalReferrals else 0) + 1
    ensures newUser in r.access && referrer in r.access
    ensures newUser != referrer ==>
              && r.access[newUser] == AccessWindow(true, now + REFERRAL_GRANT_MS, now, Some(Referral))
              && r.access[referrer].expires == now + Remaining(s, referrer, now) + REFERRAL_GRANT_MS
    ensures newUser == referrer ==> r.access[referrer].expires == now + 2 * REFERRAL_GRANT_MS
    ensures r.access[referrer].granted && r.access[referrer].source == Some(ReferralBonus)
    ensures r.access - {newUser, referrer} == s.access - {newUser, referrer}
    ensures r == s.(redemptions := r.redemptions, codes := r.codes, referrers := r.referrers, access := r.access)
  {
    var s1 := s.(redemptions := s.redemptions[newUser := Redemption(referrer, code, now)]);
    var s2 := CountCodeUse(s1, code, now);
    var s3 := CountReferral(s2, referrer, now);
    var s4 := s3.(access := s3.access[newUser := AccessWindow(true, now + REFERRAL_GRANT_MS, now, Some(Referral))]);
    GrantReferrerBonus(s4, referrer, now)
  }

  /** The `uses` transaction on `referrals/codes/{code}`: a missing code stays
      missing. */
  function CountCodeUse(s: Store, code: string, now: int): (r: Store)
    ensures code in s.codes ==>
              r.codes == s.codes[code := s.codes[code].(uses := s.codes[code].uses + 1, lastUsed := Some(now))]
    ensures code !in s.codes ==> r.codes == s.codes
    ensures r == s.(codes := r.codes)
  {
    if code !in s.codes then s
    else
      var c := s.codes[code];
      s.(codes := s.codes[code := c.(uses := c.uses + 1, lastUsed := Some(now))])
  }

  /** The referrer stats after one more referral, created at one on the
      first. */
  function BumpReferrals(m: map<UserId, ReferrerStats>, referrer: UserId, now: int): (r: map<UserId, ReferrerStats>)
    ensures referrer in r && r - {referrer} == m - {referrer}
    ensures r[referrer].totalReferrals == (if referrer in m then m[referrer].totalReferrals else 0) + 1
  {
    if referrer !in m then m[referrer := ReferrerStats(1, now)]
    else
      var st := m[referrer];
      m[referrer := st.(totalReferrals := st.totalReferrals + 1, lastReferral := now)]
  }

  /** The `totalReferrals` transaction on `referrals/referrers/{referrerId}`:
      created at one on the first referral. */
  function CountReferral(s: Store, referrer: UserId, now: int): (r: Store)
    ensures referrer in r.referrers && r.referrers - {referrer} == s.referrers - {referrer}
    ensures r.referrers[referrer].totalReferrals ==
              (if referrer in s.referrers then s.referrers[referrer].totalReferrals else 0) + 1
    ensures r == s.(referrers := r.referrers)
  {
    s.(referrers := BumpReferrals(s.referrers, referrer, now))
  }

  /** The referrer's bonus: eight hours on top of whatever is still running. */
  function GrantReferrerBonus(s: Store, referrer: UserId, now: int): (r: Store)
    ensures referrer in r.access
    ensures r.access[referrer].expires == now + Remaining(s, referrer, now) + REFERRAL_GRANT_MS
    ensures r.access[referrer].granted && r.access[referrer].source == Some(ReferralBonus)
    ensures r.access - {referrer} == s.access - {referrer}
    ensures r == s.(access := r.access)
  {
    var newExpiry := if referrer in s.access && s.access[referrer].expires > now
                     then s.access[referrer].expires + REFERRAL_GRANT_MS
                     else now + REFERRAL_GRANT_MS;
    s.(access := s.access[referrer := AccessWindow(true, newExpiry, now, Some(ReferralBonus))])
  }

  /** `handleReferralStart(userId, code)`: validate, and commit when accepted. */
  function HandleReferralStart(s: Store, newUser: UserId, code: string, now: int): (r: (Validation, Store))
    ensures r.0 == ValidateReferral(s, code, newUser)
    ensures r.0.Rejected? ==> r.1 == s
    ensures r.0.Accepted? ==> r.1 == ProcessSuccessfulReferral(s, r.0.referrer, newUser, code, now)
  {
    var v := ValidateReferral(s, code, newUser);
    match v
    case Rejected(_) => (v, s)
    case Accepted(referrer) => (v, ProcessSuccessfulReferral(s, referrer, newUser, code, now))
  }

  /** `handleReferralStart` as the source runs it, with the validation as
      written: a user redeeming their own code is accepted. */
  function HandleReferralStartAsWritten(s: Store, newUser: UserId, code: string, now: int): (r: (Validation, Store))
    ensures r.0.Accepted? <==> code in s.codes && newUser !in s.redemptions
    ensures r.0.Rejected? ==> r.1 == s
    ensures r.0.Accepted? ==>
              && r.0.referrer == s.codes[code].owner
              && r.1 == ProcessSuccessfulReferral(s, s.codes[code].owner, newUser, code, now)
  {
    var v := ValidateReferralAsWritten(s, code, newUser);
    match v
    case Rejected(_) => (v, s)
    case Accepted(referrer) => (v, ProcessSuccessfulReferral(s, referrer, newUser, code, now))
  }

  /** The correction changes only self-redemptions: for someone else's code,
      or a missing one, both handlers agree; for one's own code, never used
      before, the source commits what the corrected handler refuses. */
  lemma CorrectionOnlyRefusesSelf(s: Store, newUser: UserId, code: string, now: int)
    ensures !(code in s.codes && s.codes[code].owner == newUser) ==>
              HandleReferralStartAsWritten(s, newUser, code, now) == HandleReferralStart(s, newUser, code, now)
    ensures code in s.codes && s.codes[code].owner == newUser && newUser !in s.redemptions ==>
              && HandleReferralStartAsWritten(s, newUser, code, now).0 == Accepted(newUser)
              && HandleReferralStart(s, newUser, code, now) == (Rejected(SelfReferral), s)
  {
  }

  // ---------------------------------------------------------------------------
  // Ledger invariant

  /** The referees in a redemption map who used `code`. */
  function Redeemers(m: map<UserId, Redemption>, code: string): set<UserId>
  {
    set u | u in m && m[u].code == code
  }

  /** The referees in a redemption map credited to `referrer`. */
  function Referees(m: map<UserId, Redemption>, referrer: UserId): set<UserId>
  {
    set u | u in m && m[u].referredBy == referrer
  }

  /** Recording a new referee adds one redeemer to its code and none to any
      other. */
  lemma RedeemersInsert(m: map<UserId, Redemption>, u: UserId, red: Redemption, c: string)
    requires u !in m
    ensures |Redeemers(m[u := red], c)| == |Redeemers(m, c)| + (if c == red.code then 1 else 0)
  {
    if c == red.code {
      assert Redeemers(m[u := red], c) == Redeemers(m, c) + {u};
      AddRedeemer(Redeemers(m, c), Redeemers(m[u := red], c), u);
    } else {
      assert Redeemers(m[u := red], c) == Redeemers(m, c);
    }
  }

  /** Recording a new referee adds one referee to its referrer and none to
      anyone else. */
  lemma RefereesInsert(m: map<UserId, Redemption>, u: UserId, red: Redemption, p: UserId)
    requires u !in m
    ensures |Referees(m[u := red], p)| == |Referees(m, p)| + (if p == red.referredBy then 1 else 0)
  {
    if p == red.referredBy {
      assert Referees(m[u := red], p) == Referees(m, p) + {u};
      AddRedeemer(Referees(m, p), Referees(m[u := red], p), u);
    } else {
      assert Referees(m[u := red], p) == Referees(m, p);
    }
  }

  /** Every redemption names an existing code owned by the referrer it
      credits, who has a stats record. */
  predicate RedemptionsLinked(red: map<UserId, Redemption>, codes: map<string, CodeRecord>,
                              referrers: map<UserId, ReferrerStats>)
  {
    forall u :: u in red ==>
      && red[u].code in codes
      && codes[red[u].code].owner == red[u].referredBy
      && red[u].referredBy in referrers
  }

  /** Every user's code link points at a code they own. */
  predicate UserCodesLinked(userCodes: map<UserId, UserCodeRecord>, codes: map<string, CodeRecord>)
  {
    forall u :: u in userCodes ==> userCodes[u].code in codes && codes[userCodes[u].code].owner == u
  }

  /** The ledger agrees with itself: the links above hold, every code's
      `uses` counts its redemptions, and every referrer's `totalReferrals`
      counts their referees. */
  predicate LedgerConsistent(s: Store)
  {
    && RedemptionsLinked(s.redemptions, s.codes, s.referrers)
    && (forall c :: c in s.codes ==> s.codes[c].uses == |Redeemers(s.redemptions, c)|)
    && (forall p :: p in s.referrers ==> s.referrers[p].totalReferrals == |Referees(s.redemptions, p)|)
    && UserCodesLinked(s.userCodes, s.codes)
  }

  /** Codes that keep their keys and owners. */
  predicate OwnersKept(codes: map<string, CodeRecord>, codes2: map<string, CodeRecord>)
  {
    forall c :: c in codes ==> c in codes2 && codes2[c].owner == codes[c].owner
  }

  /** Links survive growing the code and referrer tables without changing
      owners, and adding one redemption that is itself linked. */
  lemma RedemptionsLinkedInsert(red: map<UserId, Redemption>, codes: map<string, CodeRecord>,
                                codes2: map<string, CodeRecord>, refs: map<UserId, ReferrerStats>,
                                refs2: map<UserId, ReferrerStats>, u: UserId, rd: Redemption)
    requires RedemptionsLinked(red, codes, refs) && OwnersKept(codes, codes2) && refs.Keys <= refs2.Keys
    requires rd.code in codes2 && codes2[rd.code].owner == rd.referredBy && rd.referredBy in refs2
    ensures RedemptionsLinked(red[u := rd], codes2, refs2)
  {
  }

  /** Code links survive a code table that keeps every owner. */
  lemma UserCodesLinkedKept(userCodes: map<UserId, UserCodeRecord>, codes: map<string, CodeRecord>,
                            codes2: map<string, CodeRecord>)
    requires UserCodesLinked(userCodes, codes) && OwnersKept(codes, codes2)
    ensures UserCodesLinked(userCodes, codes2)
  {
  }

  lemma EmptyLedgerConsistent()
    ensures LedgerConsistent(EmptyStore)
  {
  }

  /** Adding one new redeemer grows the counted set by exactly one. */
  lemma AddRedeemer(a: set<UserId>, b: set<UserId>, u: UserId)
    requires u !in a && b == a + {u}
    ensures |b| == |a| + 1
  {
  }

  /** The commit of a redemption that validation accepted. */
  predicate AcceptedCommit(s: Store, owner: UserId, newUser: UserId, code: string)
  {
    code in s.codes && s.codes[code].owner == owner && newUser !in s.redemptions
  }

  /** An accepted commit keeps every redemption and code link intact. */
  lemma {:induction false} CommitKeepsLinks(s: Store, owner: UserId, newUser: UserId, code: string, now: int)
    requires LedgerConsistent(s) && AcceptedCommit(s, owner, newUser, code)
    ensures var r := ProcessSuccessfulReferral(s, owner, newUser, code, now);
            RedemptionsLinked(r.redemptions, r.codes, r.referrers) && UserCodesLinked(r.userCodes, r.codes)
  {
    var r := ProcessSuccessfulReferral(s, owner, newUser, code, now);
    assert OwnersKept(s.codes, r.codes);
    RedemptionsLinkedInsert(s.redemptions, s.codes, r.codes, s.referrers, r.referrers,
                            newUser, Redemption(owner, code, now));
    UserCodesLinkedKept(s.userCodes, s.codes, r.codes);
  }

  lemma {:induction false} CommitCountsCodeUse(s: Store, owner: UserId, newUser: UserId, code: string, now: int)
    requires LedgerConsistent(s) && AcceptedCommit(s, owner, newUser, code)
    ensures var r := ProcessSuccessfulReferral(s, owner, newUser, code, now);
            forall c :: c in r.codes ==> r.codes[c].uses == |Redeemers(r.redemptions, c)|
  {
    var r := ProcessSuccessfulReferral(s, owner, newUser, code, now);
    var red := Redemption(owner, code, now);
    assert r.redemptions == s.redemptions[newUser := red];
    forall c | c in r.codes
      ensures r.codes[c].uses == |Redeemers(r.redemptions, c)|
    {
      RedeemersInsert(s.redemptions, newUser, red, c);
    }
  }

  lemma {:induction false} CommitCountsReferral(s: Store, owner: UserId, newUser: UserId, code: string, now: int)
    requires LedgerConsistent(s) && AcceptedCommit(s, owner, newUser, code)
    ensures var r := ProcessSuccessfulReferral(s, owner, newUser, code, now);
            forall p :: p in r.referrers ==> r.referrers[p].totalReferrals == |Referees(r.redemptions, p)|
  {
    var r := ProcessSuccessfulReferral(s, owner, newUser, code, now);
    var red := Redemption(owner, code, now);
    assert r.redemptions == s.redemptions[newUser := red];
    assert owner !in s.referrers ==> Referees(s.redemptions, owner) == {};
    forall p | p in r.referrers
      ensures r.referrers[p].totalReferrals == |Referees(r.redemptions, p)|
    {
      RefereesInsert(s.redemptions, newUser, red, p);
    }
  }

  /** An accepted redemption keeps the ledger consistent. */
  lemma {:induction false} HandleReferralStartPreservesLedger(s: Store, newUser: UserId, code: string, now: int)
    requires LedgerConsistent(s)
    ensures LedgerConsistent(HandleReferralStart(s, newUser, code, now).1)
  {
    var v := ValidateReferral(s, code, newUser);
    if v.Accepted? {
      CommitKeepsLinks(s, v.referrer, newUser, code, now);
      CommitCountsCodeUse(s, v.referrer, newUser, code, now);
      CommitCountsReferral(s, v.referrer, newUser, code, now);
    }
  }

  /** The source's own handler keeps the ledger consistent too: a
      self-redemption is recorded, counted on the code and credited to its
      owner like any other. */
  lemma {:induction false} HandleReferralStartAsWrittenPreservesLedger(s: Store, newUser: UserId, code: string, now: int)
    requires LedgerConsistent(s)
    ensures LedgerConsistent(HandleReferralStartAsWritten(s, newUser, code, now).1)
  {
    var v := ValidateReferralAsWritten(s, code, newUser);
    if v.Accepted? {
      CommitKeepsLinks(s, v.referrer, newUser, code, now);
      CommitCountsCodeUse(s, v.referrer, newUser, code, now);
      CommitCountsReferral(s, v.referrer, newUser, code, now);
    }
  }

  /** Creating a code keeps the ledger consistent, provided the draw is not
      already a code (the source does not check this; see the lemma below). */
  lemma {:induction false} GetOrCreateCodePreservesLedger(s: Store, user: UserId, drawn: string, now: int)
    requires LedgerConsistent(s)
    requires drawn !in s.codes
    ensures LedgerConsistent(GetOrCreateCode(s, user, drawn, now).1)
  {
    var r := GetOrCreateCode(s, user, drawn, now).1;
    if user !in s.userCodes {
      assert Redeemers(r.redemptions, drawn) == {};
      forall c | c in r.codes && c != drawn
        ensures r.codes[c].uses == |Redeemers(r.redemptions, c)|
      {
        assert Redeemers(r.redemptions, c) == Redeemers(s.redemptions, c);
      }
      forall p | p in r.referrers
        ensures r.referrers[p].totalReferrals == |Referees(r.redemptions, p)|
      {
        assert Referees(r.redemptions, p) == Referees(s.redemptions, p);
      }
    }
  }

  /** A drawn code that collides with another user's code takes it over:
      the other user's link now points at a code recorded as someone else's. */
  lemma CodeCollisionBreaksLedger()
    ensures var s := EmptyStore.(codes := map["ABCD1234" := CodeRecord(1, 0, 0, None)],
                                 userCodes := map[1 := UserCodeRecord("ABCD1234", 0)]);
            && LedgerConsistent(s)
            && !LedgerConsistent(GetOrCreateCode(s, 2, "ABCD1234", 5).1)
  {
    var s := EmptyStore.(codes := map["ABCD1234" := CodeRecord(1, 0, 0, None)],
                         userCodes := map[1 := UserCodeRecord("ABCD1234", 0)]);
    assert Redeemers(s.redemptions, "ABCD1234") == {};
    var r := GetOrCreateCode(s, 2, "ABCD1234", 5).1;
    assert r.codes["ABCD1234"].owner == 2;
    assert 1 in r.userCodes;
  }

  // ---------------------------------------------------------------------------
  // Properties of redemption

  /** A user is credited as a referee at most once: after an accepted
      redemption, every later attempt by the same user is refused, and with
      any other user's valid code it is refused as already referred. */
  lemma {:induction false} RedeemOnlyOnce(s: Store, newUser: UserId, code: string, now: int,
                                          code2: string, later: int)
    requires HandleReferralStart(s, newUser, code, now).0.Accepted?
    ensures var s1 := HandleReferralStart(s, newUser, code, now).1;
            var v2 := HandleReferralStart(s1, newUser, code2, later).0;
            && v2.Rejected?
            && (code2 in s1.codes && s1.codes[code2].owner != newUser ==> v2 == Rejected(AlreadyReferred))
  {
    var s1 := HandleReferralStart(s, newUser, code, now).1;
    assert newUser in s1.redemptions;
  }

  /** Nobody can redeem their own code. */
  lemma SelfReferralRefused(s: Store, user: UserId, code: string, now: int)
    requires code in s.codes && s.codes[code].owner == user
    ensures HandleReferralStart(s, user, code, now) == (Rejected(SelfReferral), s)
  {
  }

  /** As written, the self-referral test never fires: a user who redeems
      their own code is accepted, recorded as their own referee, counted as a
      referral, and ends with sixteen hours (the referee grant, then the bonus
      stacked on it). */
  lemma SelfReferralCreditedAsWritten(s: Store, user: UserId, code: string, now: int)
    requires code in s.codes && s.codes[code].owner == user && user !in s.redemptions
    ensures ValidateReferralAsWritten(s, code, user) == Accepted(user)
    ensures var r := ProcessSuccessfulReferral(s, user, user, code, now);
            && r.redemptions[user].referredBy == user
            && r.referrers[user].totalReferrals ==
                 (if user in s.referrers then s.referrers[user].totalReferrals else 0) + 1
            && r.access[user].expires == now + 2 * REFERRAL_GRANT_MS
  {
    NumberNeverStrictEqualsString(s.codes[code].owner, NatToString(user));
  }

  /** Referrer bonus on a running window: eight hours are added to its
      expiry, so a window with two hours left ends with ten. */
  lemma BonusStacksOnLiveWindow(s: Store, newUser: UserId, code: string, now: int)
    requires code in s.codes && newUser !in s.redemptions
    requires var owner := s.codes[code].owner;
             owner != newUser && owner in s.access && s.access[owner].expires > now
    ensures var owner := s.codes[code].owner;
            var r := HandleReferralStart(s, newUser, code, now).1;
            r.access[owner].expires == s.access[owner].expires + REFERRAL_GRANT_MS
  {
  }

  /** Referrer bonus without a running window: exactly eight hours from now,
      and the same for the referee. */
  lemma BonusStartsFreshOtherwise(s: Store, newUser: UserId, code: string, now: int)
    requires code in s.codes && newUser !in s.redemptions
    requires var owner := s.codes[code].owner;
             owner != newUser && (owner !in s.access || s.access[owner].expires <= now)
    ensures var owner := s.codes[code].owner;
            var r := HandleReferralStart(s, newUser, code, now).1;
            && r.access[owner].expires == now + REFERRAL_GRANT_MS
            && r.access[newUser].expires == now + REFERRAL_GRANT_MS
  {
  }

  /** Redemptions by `n` distinct new users of one code, one after another. */
  function RedeemAll(s: Store, users: seq<UserId>, code: string, now: int): Store
  {
    if |users| == 0 then s
    else HandleReferralStart(RedeemAll(s, users[..|users| - 1], code, now), users[|users| - 1], code, now).1
  }

  /** The users listed in a sequence. */
  function Members(users: seq<UserId>): set<UserId>
  {
    set i | 0 <= i < |users| :: users[i]
  }

  lemma MembersSnoc(users: seq<UserId>)
    requires |users| > 0
    ensures Members(users) == Members(users[..|users| - 1]) + {users[|users| - 1]}
  {
    var init := users[..|users| - 1];
    forall x | x in Members(users) ensures x in Members(init) + {users[|users| - 1]} {
      var i :| 0 <= i < |users| && users[i] == x;
      if i < |users| - 1 {
        assert init[i] == x;
      }
    }
    forall x | x in Members(init) ensures x in Members(users) {
      var i :| 0 <= i < |init| && init[i] == x;
      assert users[i] == x;
    }
  }

  /** One accepted redemption of a code by a new user. */
  lemma RedeemStep(s: Store, u: UserId, code: string, now: int)
    requires code in s.codes && s.codes[code].owner != u && u !in s.redemptions
    ensures var r := HandleReferralStart(s, u, code, now).1;
            && code in r.codes && r.codes[code].owner == s.codes[code].owner
            && r.codes[code].uses == s.codes[code].uses + 1
            && r.redemptions.Keys == s.redemptions.Keys + {u}
  {
  }

  /** `n` distinct new users redeeming one code, none of them its owner and
      none referred before, raise its `uses` by exactly `n`. */
  lemma {:induction false} RedeemAllCountsUses(s: Store, users: seq<UserId>, code: string, now: int)
    requires code in s.codes
    requires forall i, j :: 0 <= i < j < |users| ==> users[i] != users[j]
    requires forall i :: 0 <= i < |users| ==> users[i] !in s.redemptions && users[i] != s.codes[code].owner
    ensures var r := RedeemAll(s, users, code, now);
            && code in r.codes && r.codes[code].owner == s.codes[code].owner
            && r.codes[code].uses == s.codes[code].uses + |users|
            && r.redemptions.Keys == s.redemptions.Keys + Members(users)
  {
    if |users| > 0 {
      var init := users[..|users| - 1];
      var last := users[|users| - 1];
      assert forall i :: 0 <= i < |init| ==> init[i] == users[i];
      RedeemAllCountsUses(s, init, code, now);
      var mid := RedeemAll(s, init, code, now);
      MembersSnoc(users);
      assert last !in Members(init);
      RedeemStep(mid, last, code, now);
    }
  }
}
