/** The `/start` command: the user is tracked, then the start parameter is
    dispatched (`ref_<code>` before a `t...` token, then `view_<hash>`), and a
    user without a live window is sent to the channels, to a referral link or
    to an ad link, depending on membership and whether ads are on. */
module StartCommand {
  import opened JsSemantics
  import opened EntitlementStore
  import opened TokenCodec
  import opened AccessWindows
  import opened ReferralLedger
  import opened TokenGate
  import opened UserProfiles

  // ---------------------------------------------------------------------------
  // Parameter dispatch

  /** What the start parameter asks for. An absent or empty parameter is
      falsy in the source and asks for nothing. */
  datatype StartParam =
    | NoParam
    | RefCode(code: string)       // `ref_<code>`
    | TokenParam(token: string)   // anything else starting with `t`
    | ViewParam(media: string)    // `view_<hash>`
    | Other(raw: string)          // any other non-empty parameter

  /** The dispatch order of the start handler: `ref_` first, then a leading
      `t`, then `view_`. The code and the media hash are what remains after
      the source's `replace` of the first occurrence of the prefix. */
  function ClassifyStart(param: Option<string>): (r: StartParam)
    ensures r.NoParam? <==> param.None? || param.value == ""
    ensures r.RefCode? ==> param == Some("ref_" + r.code)
    ensures r.TokenParam? ==> param == Some(r.token) && StartsWith(r.token, "t")
    ensures r.ViewParam? ==> param == Some("view_" + r.media)
    ensures r.Other? ==> param == Some(r.raw)
  {
    if param.None? || param.value == "" then NoParam
    else
      var p := param.value;
      if StartsWith(p, "ref_") then
        ReplacePrefix(p, "ref_");
        RefCode(ReplaceFirstWithEmpty(p, "ref_"))
      else if StartsWith(p, "t") then TokenParam(p)
      else if StartsWith(p, "view_") then
        ReplacePrefix(p, "view_");
        ViewParam(ReplaceFirstWithEmpty(p, "view_"))
      else Other(p)
  }

  /** The parameter a start link carries for each request. */
  function Render(p: StartParam): Option<string>
  {
    match p
    case NoParam => None
    case RefCode(code) => Some("ref_" + code)
    case TokenParam(token) => Some(token)
    case ViewParam(media) => Some("view_" + media)
    case Other(raw) => Some(raw)
  }

  /** The requests a link can carry unambiguously: a token starts with `t`,
      and any other parameter is non-empty and has none of the three
      prefixes. */
  predicate Reachable(p: StartParam)
  {
    match p
    case TokenParam(token) => StartsWith(token, "t")
    case Other(raw) =>
      raw != "" && !StartsWith(raw, "ref_") && !StartsWith(raw, "t") && !StartsWith(raw, "view_")
    case _ => true
  }

  /** Every classification is reachable and rendering it gives the parameter
      back (an empty parameter aside, which means the same as none). */
  lemma ClassifyThenRender(param: Option<string>)
    ensures Reachable(ClassifyStart(param))
    ensures param != Some("") ==> Render(ClassifyStart(param)) == param
  {
  }

  /** A link built for a reachable request is dispatched to that request:
      in particular `ref_` codes and `view_` hashes come back whole. */
  lemma {:induction false} RenderThenClassify(p: StartParam)
    requires Reachable(p)
    ensures ClassifyStart(Render(p)) == p
  {
    match p
    case NoParam =>
    case RefCode(code) =>
      var s := "ref_" + code;
      assert StartsWith(s, "ref_");
      ReplacePrefix(s, "ref_");
      assert s[4..] == code;
    case TokenParam(token) =>
      assert !StartsWith(token, "ref_") by {
        assert token[0] == 't';
      }
    case ViewParam(media) =>
      var s := "view_" + media;
      assert s[0] == 'v';
      assert !StartsWith(s, "ref_") && !StartsWith(s, "t");
      assert StartsWith(s, "view_");
      ReplacePrefix(s, "view_");
      assert s[5..] == media;
    case Other(raw) =>
  }

  // ---------------------------------------------------------------------------
  // The handler

  /** Everything the handler learns from outside the store: channel
      membership, the `AD_ENABLED` setting, whether the link shortener
      answered, and the draw for a new referral code. */
  datatype Outside = Outside(isMember: bool, adEnabled: bool, shortened: bool, drawn: string)

  /** What the handler shows the user. */
  datatype StartReply =
    | ReferralJoined                         // referral accepted: eight hours
    | ReferralRefused(error: ReferralError)
    | PassInvalid                            // the token failed validation
    | PassUsed                               // no record, or already used
    | PassActivated(shown: Option<string>)   // eighteen hours; this media if any
    | ShowMedia(hash: string)                // live window and a `view_` link
    | WelcomeBack(left: TimeLeft)            // live window, no `view_` link
    | JoinChannels                           // not a member of both channels
    | ReferralLink(code: string)             // ads off: the user's own code
    | AdLink(token: string, forMedia: string) // ads on: a fresh pass for this media
    | AdLinkFailed                           // ads on, but the shortener failed

  /** Whether a reply lets the user at the content. */
  predicate GrantsContent(r: StartReply)
  {
    r.PassActivated? || r.ShowMedia? || r.WelcomeBack?
  }

  /** The branch taken when the parameter is neither a referral nor a token. */
  function ServeOrInvite(s: Store, mac: Mac, secret: string, user: UserId, p: StartParam, now: nat,
                         w: Outside): (r: (StartReply, Store))
    requires !p.RefCode? && !p.TokenParam?
    ensures r.1.users == s.users
    ensures r.1.redemptions == s.redemptions && r.1.referrers == s.referrers
    ensures r.1.access == (if user in s.access && s.access[user].granted && now > s.access[user].expires
                           then s.access - {user} else s.access)
    ensures r.0.AdLink? ==> r.1.tokens - {r.0.token} == s.tokens - {r.0.token}
    ensures !r.0.AdLink? ==> r.1.tokens == s.tokens
    ensures r.0.ShowMedia? ==> r.1.stats == TrackView(s, r.0.hash, now).stats
    ensures !r.0.ShowMedia? ==> r.1.stats == s.stats
    ensures r.0.ReferralLink? && user !in s.userCodes ==>
              && r.1.codes - {w.drawn} == s.codes - {w.drawn}
              && r.1.userCodes == s.userCodes[user := UserCodeRecord(w.drawn, now)]
    ensures GrantsContent(r.0) <==> LiveAt(s, user, now)
    ensures LiveAt(s, user, now) ==>
              if p.ViewParam? then r.0 == ShowMedia(p.media) else r.0.WelcomeBack?
    ensures !LiveAt(s, user, now) ==> (r.0 == JoinChannels <==> !w.isMember)
    ensures !LiveAt(s, user, now) && w.isMember && !w.adEnabled ==> r.0.ReferralLink?
    ensures !LiveAt(s, user, now) && w.isMember && w.adEnabled ==>
              (r.0.AdLink? <==> w.shortened) && (!w.shortened ==> r.0 == AdLinkFailed)
    ensures !r.0.ReferralJoined? && !r.0.ReferralRefused? && !r.0.PassActivated?
    ensures SameLedger(r.1, s) || (r.0.ReferralLink? && !w.adEnabled && w.isMember)
    ensures r.0.ShowMedia? ==> p == ViewParam(r.0.hash)
    ensures r.0.WelcomeBack? ==> r.0.left.Left? && r.0.left.hours >= 0 && r.0.left.minutes >= 0
    ensures r.0.ReferralLink? ==>
              && w.isMember && !w.adEnabled && !LiveAt(s, user, now)
              && user in r.1.userCodes && r.1.userCodes[user].code == r.0.code
              && (user in s.userCodes ==> r.0.code == s.userCodes[user].code && SameLedger(r.1, s))
              && (user !in s.userCodes ==>
                    r.0.code == w.drawn && w.drawn in r.1.codes && r.1.codes[w.drawn] == CodeRecord(user, now, 0, None))
    ensures r.0.AdLink? ==>
              && w.isMember && w.adEnabled && !LiveAt(s, user, now)
              && r.0.forMedia == (if p.ViewParam? then p.media else "")
              && r.0.token == Generate(mac, secret, NatToString(user), now)
              && r.0.token in r.1.tokens
              && r.1.tokens[r.0.token] == TokenRecord(user, r.0.forMedia, now + TOKEN_TTL_MS, now, false, None)
  {
    var (ok, s1) := HasValidAccess(s, user, now);
    if ok then
      LiveWindowTimeLeftNonNegative(s, user, now);
      Serve(s1, user, p, now)
    else Invite(s1, mac, secret, user, p, now, w)
  }

  /** The live half of `ServeOrInvite`: the requested media, counted, or the
      time left. */
  function Serve(s: Store, user: UserId, p: StartParam, now: int): (r: (StartReply, Store))
    requires LiveAt(s, user, now)
    ensures p.ViewParam? ==> r == (ShowMedia(p.media), TrackView(s, p.media, now))
    ensures !p.ViewParam? ==> r.0.WelcomeBack? && r.1 == s
    ensures r.0.WelcomeBack? ==> r.0.left.Left? && r.0.left.hours >= 0 && r.0.left.minutes >= 0
  {
    LiveWindowTimeLeftNonNegative(s, user, now);
    if p.ViewParam? then (ShowMedia(p.media), TrackView(s, p.media, now))
    else (WelcomeBack(GetTimeRemaining(s, user, now)), s)
  }

  /** The refused half of `ServeOrInvite`: the channel gate, then a referral
      link when ads are off or an ad link when they are on. */
  function Invite(s: Store, mac: Mac, secret: string, user: UserId, p: StartParam, now: nat,
                  w: Outside): (r: (StartReply, Store))
    ensures r.0 == JoinChannels <==> !w.isMember
    ensures r.0 == JoinChannels || r.0.ReferralLink? || r.0.AdLink? || r.0 == AdLinkFailed
    ensures w.isMember && !w.adEnabled ==> r.0.ReferralLink?
    ensures w.isMember && w.adEnabled ==> (r.0.AdLink? <==> w.shortened) && (!w.shortened ==> r.0 == AdLinkFailed)
    ensures !r.0.ReferralLink? && !r.0.AdLink? ==> r.1 == s
    ensures r.0.ReferralLink? ==>
              && w.isMember && !w.adEnabled
              && user in r.1.userCodes && r.1.userCodes[user].code == r.0.code
              && r.1 == s.(codes := r.1.codes, userCodes := r.1.userCodes)
              && (user in s.userCodes ==> r.0.code == s.userCodes[user].code && r.1 == s)
              && (user !in s.userCodes ==>
                    && r.0.code == w.drawn && w.drawn in r.1.codes && r.1.codes[w.drawn] == CodeRecord(user, now, 0, None)
                    && r.1.codes - {w.drawn} == s.codes - {w.drawn}
                    && r.1.userCodes == s.userCodes[user := UserCodeRecord(w.drawn, now)])
    ensures r.0.AdLink? ==>
              && w.isMember && w.adEnabled
              && r.0.forMedia == (if p.ViewParam? then p.media else "")
              && r.0.token == Generate(mac, secret, NatToString(user), now)
              && r.1 == s.(tokens := r.1.tokens)
              && r.1.tokens == s.tokens[r.0.token := TokenRecord(user, r.0.forMedia, now + TOKEN_TTL_MS, now, false, None)]
  {
    if !w.isMember then (JoinChannels, s)
    else if !w.adEnabled then
      var (code, s2) := GetOrCreateCode(s, user, w.drawn, now);
      (ReferralLink(code), s2)
    else
      var media := if p.ViewParam? then p.media else "";
      var (tok, s2) := IssueAdToken(s, mac, secret, user, media, now, true, w.shortened);
      if tok.Some? then (AdLink(tok.value, media), s2) else (AdLinkFailed, s2)
  }

  /** The referral branch: `handleReferralStart` and its two replies. */
  function ReferralStart(s: Store, user: UserId, code: string, now: int): (r: (StartReply, Store))
    ensures r.0.ReferralJoined? || r.0.ReferralRefused?
    ensures r.0.ReferralJoined? <==> ValidateReferral(s, code, user).Accepted?
    ensures r.0.ReferralRefused? ==> r.0.error == ValidateReferral(s, code, user).error && r.1 == s
    ensures r.1.users == s.users
    ensures r.0.ReferralJoined? ==>
              && LiveAt(r.1, user, now) && LiveAt(r.1, s.codes[code].owner, now)
              && user in r.1.redemptions && r.1.redemptions[user] == Redemption(s.codes[code].owner, code, now)
              && r.1 == ProcessSuccessfulReferral(s, s.codes[code].owner, user, code, now)
  {
    var (v, s1) := HandleReferralStart(s, user, code, now);
    if v.Accepted? then (ReferralJoined, s1) else (ReferralRefused(v.error), s1)
  }

  /** The token branch: the gate's three outcomes as replies. */
  function TokenStart(s: Store, mac: Mac, secret: string, user: UserId, token: string, now: int): (r: (StartReply, Store))
    ensures r.0.PassActivated? || r.0.PassInvalid? || r.0.PassUsed?
    ensures r.0.PassActivated? <==>
              Validate(mac, secret, token, NatToString(user), now) == Valid && token in s.tokens && !s.tokens[token].used
    ensures r.0.PassInvalid? <==> Validate(mac, secret, token, NatToString(user), now) != Valid
    ensures r.1.users == s.users && SameLedger(r.1, s)
    ensures !r.0.PassActivated? ==> r.1 == s
    ensures r.0.PassActivated? ==>
              && r.1.tokens == s.tokens[token := s.tokens[token].(used := true, activatedAt := Some(now))]
              && r.1.access == s.access[user := AccessWindow(true, now + TOKEN_GRANT_MS, now, None)]
              && r.1.stats == (if NamesMedia(s.tokens[token]) then TrackView(s, s.tokens[token].mediaHash, now).stats
                               else s.stats)
              && r.1 == s.(tokens := r.1.tokens, access := r.1.access, stats := r.1.stats)
    ensures r.0.PassActivated? ==>
              && LiveAt(r.1, user, now) && r.1.access[user].expires == now + TOKEN_GRANT_MS
              && (r.0.shown.Some? <==> NamesMedia(s.tokens[token]))
              && (r.0.shown.Some? ==> r.0.shown.value == s.tokens[token].mediaHash)
  {
    var (out, s1) := RedeemToken(s, mac, secret, user, token, now);
    (match out
     case Activated(media) => PassActivated(media)
     case Invalid => PassInvalid
     case AlreadyUsed => PassUsed, s1)
  }

  /** The `/start` handler. `profile` is the record built from the Telegram
      sender; it is tracked before anything else. */
  function HandleStart(s: Store, mac: Mac, secret: string, user: UserId, profile: Profile,
                       param: Option<string>, now: nat, w: Outside): (r: (StartReply, Store))
    ensures r.1.users == TrackUser(s, user, profile, now).users
    ensures GrantsContent(r.0) ==> LiveAt(r.1, user, now)
  {
    var s0 := TrackUser(s, user, profile, now);
    var p := ClassifyStart(param);
    match p
    case RefCode(code) => ReferralStart(s0, user, code, now)
    case TokenParam(token) => TokenStart(s0, mac, secret, user, token, now)
    case _ => ServeOrInvite(s0, mac, secret, user, p, now, w)
  }

  /** Only unfolds `HandleStart`: the branch `/start` takes for each kind of
      parameter, after tracking the user. It states nothing beyond the body
      and lets the lemmas below reason about one branch at a time. */
  lemma StartBranch(s: Store, mac: Mac, secret: string, user: UserId, profile: Profile,
                    param: Option<string>, now: nat, w: Outside)
    ensures var p := ClassifyStart(param);
            var s0 := TrackUser(s, user, profile, now);
            var r := HandleStart(s, mac, secret, user, profile, param, now, w);
            && (p.RefCode? ==> r == ReferralStart(s0, user, p.code, now))
            && (p.TokenParam? ==> r == TokenStart(s0, mac, secret, user, p.token, now))
            && (!p.RefCode? && !p.TokenParam? ==> r == ServeOrInvite(s0, mac, secret, user, p, now, w))
  {
  }

  /** Only unfolds `HandleStart` on a token parameter, as `StartBranch` does
      for every branch, so that a proof about passes does not carry the
      other branches. */
  lemma StartTokenBranch(s: Store, mac: Mac, secret: string, user: UserId, profile: Profile,
                         token: string, now: nat, w: Outside)
    requires ClassifyStart(Some(token)) == TokenParam(token)
    ensures HandleStart(s, mac, secret, user, profile, Some(token), now, w)
            == TokenStart(TrackUser(s, user, profile, now), mac, secret, user, token, now)
  {
  }

  /** Which reply `/start` gives: a joined referral exactly for a `ref_` code
      that validation accepts, an activated pass exactly for a valid token
      with an unused record, and the welcome-back or the media exactly for an
      ordinary request from a user with a live window. */
  lemma StartDispatch(s: Store, mac: Mac, secret: string, user: UserId, profile: Profile,
                      param: Option<string>, now: nat, w: Outside)
    ensures var p := ClassifyStart(param);
            var r := HandleStart(s, mac, secret, user, profile, param, now, w);
            && (r.0.ReferralJoined? <==> p.RefCode? && ValidateReferral(s, p.code, user).Accepted?)
            && (r.0.PassActivated? <==>
                  && p.TokenParam? && Validate(mac, secret, p.token, NatToString(user), now) == Valid
                  && p.token in s.tokens && !s.tokens[p.token].used)
            && ((r.0.ShowMedia? || r.0.WelcomeBack?) <==> !p.RefCode? && !p.TokenParam? && LiveAt(s, user, now))
  {
    var s0 := TrackUser(s, user, profile, now);
    assert SameLedger(s0, s) && s0.tokens == s.tokens && s0.access == s.access;
    StartBranch(s, mac, secret, user, profile, param, now, w);
  }

  /** Whoever starts the bot is recorded as seen now. */
  lemma StartTracksUser(s: Store, mac: Mac, secret: string, user: UserId, profile: Profile,
                        param: Option<string>, now: nat, w: Outside, later: int)
    requires later < now + ACTIVE_SPAN_MS
    ensures var r := HandleStart(s, mac, secret, user, profile, param, now, w).1;
            && user in r.users && r.users[user]["lastSeen"] == Num(now)
            && user in ActiveUsers(r.users, later)
  {
    TrackedUserIsActive(s, user, profile, now, later);
  }

  // ---------------------------------------------------------------------------
  // End-to-end properties

  /** An accepted referral through `/start` leaves both sides with a live
      window. */
  lemma ReferralJoinGrantsBoth(s: Store, mac: Mac, secret: string, user: UserId, profile: Profile,
                               param: Option<string>, now: nat, w: Outside)
    requires HandleStart(s, mac, secret, user, profile, param, now, w).0.ReferralJoined?
    ensures var p := ClassifyStart(param);
            var r := HandleStart(s, mac, secret, user, profile, param, now, w).1;
            && p.RefCode? && p.code in s.codes && s.codes[p.code].owner != user
            && LiveAt(r, user, now)
            && LiveAt(r, s.codes[p.code].owner, now)
            && r.redemptions[user].referredBy == s.codes[p.code].owner
  {
  }

  /** The start command keeps the referral ledger consistent, provided a code
      it creates is not a code already (the source does not check this). */
  lemma {:induction false} HandleStartPreservesLedger(s: Store, mac: Mac, secret: string, user: UserId,
                                                      profile: Profile, param: Option<string>, now: nat,
                                                      w: Outside)
    requires LedgerConsistent(s)
    requires w.drawn !in s.codes
    ensures LedgerConsistent(HandleStart(s, mac, secret, user, profile, param, now, w).1)
  {
    var s0 := TrackUser(s, user, profile, now);
    StartBranch(s, mac, secret, user, profile, param, now, w);
    SameLedgerConsistent(s, s0);
    var p := ClassifyStart(param);
    match p
    case RefCode(code) =>
      HandleReferralStartPreservesLedger(s0, user, code, now);
    case TokenParam(token) =>
      SameLedgerConsistent(s0, TokenStart(s0, mac, secret, user, token, now).1);
    case _ =>
      ServeOrInvitePreservesLedger(s0, mac, secret, user, p, now, w);
  }

  lemma {:induction false} ServeOrInvitePreservesLedger(s: Store, mac: Mac, secret: string, user: UserId,
                                                        p: StartParam, now: nat, w: Outside)
    requires !p.RefCode? && !p.TokenParam?
    requires LedgerConsistent(s) && w.drawn !in s.codes
    ensures LedgerConsistent(ServeOrInvite(s, mac, secret, user, p, now, w).1)
  {
    var s1 := ServeOrInvite(s, mac, secret, user, p, now, w).1;
    var s2 := HasValidAccess(s, user, now).1;
    SameLedgerConsistent(s, s2);
    if SameLedger(s1, s) {
      SameLedgerConsistent(s, s1);
    } else {
      GetOrCreateCodePreservesLedger(s2, user, w.drawn, now);
    }
  }

  /** The ledger invariant reads only the ledger. */
  lemma SameLedgerConsistent(s: Store, t: Store)
    requires LedgerConsistent(s) && SameLedger(t, s)
    ensures LedgerConsistent(t)
  {
    forall c | c in t.codes ensures Redeemers(t.redemptions, c) == Redeemers(s.redemptions, c) {
    }
    forall p | p in t.referrers ensures Referees(t.redemptions, p) == Referees(s.redemptions, p) {
    }
  }

  /** A pass link handed out by `/start` is the token generated for the user
      at that instant, stored unused for the media the link was for. */
  lemma AdLinkIssued(s: Store, mac: Mac, secret: string, user: UserId, profile: Profile,
                     param: Option<string>, issued: nat, w: Outside)
    requires HandleStart(s, mac, secret, user, profile, param, issued, w).0.AdLink?
    ensures var (link, s1) := HandleStart(s, mac, secret, user, profile, param, issued, w);
            && link.token == Generate(mac, secret, NatToString(user), issued)
            && link.token in s1.tokens
            && s1.tokens[link.token] == TokenRecord(user, link.forMedia, issued + TOKEN_TTL_MS, issued, false, None)
  {
    StartBranch(s, mac, secret, user, profile, param, issued, w);
  }

  /** The token branch on a stored, unused pass generated for the user and
      opened within 18 hours: it activates, shows the media the record names,
      and leaves the pass marked used. */
  lemma {:induction false} TokenPassOpens(s: Store, mac: Mac, secret: string, user: UserId,
                                          issued: nat, media: string, now: nat)
    requires HexDigestFor(mac, secret, MacInput(NatToString(user), NatToString(issued), secret))
    requires now - issued <= TOKEN_TTL_MS
    requires var token := Generate(mac, secret, NatToString(user), issued);
             token in s.tokens && !s.tokens[token].used && s.tokens[token].mediaHash == media
    ensures var token := Generate(mac, secret, NatToString(user), issued);
            var (rep, s2) := TokenStart(s, mac, secret, user, token, now);
            && Validate(mac, secret, token, NatToString(user), now) == Valid
            && rep == PassActivated(if |media| > 0 && media != "undefined" then Some(media) else None)
            && LiveAt(s2, user, now) && s2.access[user].expires == now + TOKEN_GRANT_MS
            && token in s2.tokens && s2.tokens[token].used
  {
    var uid := NatToString(user);
    assert forall k :: 0 <= k < |uid| ==> IsDigit(uid[k]);
    GenerateThenValidate(mac, secret, uid, issued, now);
  }

  /** A generated pass is dispatched as a token. */
  lemma GeneratedIsTokenParam(mac: Mac, secret: string, uid: string, issued: nat)
    ensures var token := Generate(mac, secret, uid, issued);
            ClassifyStart(Some(token)) == TokenParam(token)
  {
    var token := Generate(mac, secret, uid, issued);
    assert token[0] == 't';
  }

  /** A stored, unused pass generated for the user, opened by that user
      within 18 hours, activates and shows the media its record names; opened
      again it is refused as used. */
  lemma {:induction false} PassOpened(s: Store, mac: Mac, secret: string, user: UserId, profile: Profile,
                                      issued: nat, media: string, now: nat, w: Outside)
    requires HexDigestFor(mac, secret, MacInput(NatToString(user), NatToString(issued), secret))
    requires now - issued <= TOKEN_TTL_MS
    requires var token := Generate(mac, secret, NatToString(user), issued);
             token in s.tokens && !s.tokens[token].used && s.tokens[token].mediaHash == media
    ensures var token := Generate(mac, secret, NatToString(user), issued);
            var (rep, s2) := HandleStart(s, mac, secret, user, profile, Some(token), now, w);
            && rep == PassActivated(if |media| > 0 && media != "undefined" then Some(media) else None)
            && LiveAt(s2, user, now) && s2.access[user].expires == now + TOKEN_GRANT_MS
            && HandleStart(s2, mac, secret, user, profile, Some(token), now, w).0 == PassUsed
  {
    var tok := Generate(mac, secret, NatToString(user), issued);
    GeneratedIsTokenParam(mac, secret, NatToString(user), issued);
    var s0 := TrackUser(s, user, profile, now);
    TokenPassOpens(s0, mac, secret, user, issued, media, now);
    StartTokenBranch(s, mac, secret, user, profile, tok, now, w);
    var s2 := TokenStart(s0, mac, secret, user, tok, now).1;
    StartTokenBranch(s2, mac, secret, user, profile, tok, now, w);
  }

  /** The ad flow end to end: a pass link handed out by `/start` (for a
      `view_` link or a plain start), opened by the same user within 18 hours,
      activates a live 18-hour window and shows the media the link was for;
      opened again, it is refused as used. */
  lemma {:induction false} AdLinkThenActivate(s: Store, mac: Mac, secret: string, user: UserId,
                                              profile: Profile, param: Option<string>, issued: nat,
                                              w: Outside, profile2: Profile, now: nat, w2: Outside)
    requires HandleStart(s, mac, secret, user, profile, param, issued, w).0.AdLink?
    requires HexDigestFor(mac, secret, MacInput(NatToString(user), NatToString(issued), secret))
    requires now - issued <= TOKEN_TTL_MS
    ensures var (link, s1) := HandleStart(s, mac, secret, user, profile, param, issued, w);
            var (rep, s2) := HandleStart(s1, mac, secret, user, profile2, Some(link.token), now, w2);
            && rep == PassActivated(if |link.forMedia| > 0 && link.forMedia != "undefined" then Some(link.forMedia) else None)
            && LiveAt(s2, user, now) && s2.access[user].expires == now + TOKEN_GRANT_MS
            && HandleStart(s2, mac, secret, user, profile2, Some(link.token), now, w2).0 == PassUsed
  {
    var (link, s1) := HandleStart(s, mac, secret, user, profile, param, issued, w);
    AdLinkIssued(s, mac, secret, user, profile, param, issued, w);
    PassOpened(s1, mac, secret, user, profile2, issued, link.forMedia, now, w2);
  }

  /** On a consistent ledger a referral link names a code its holder owns,
      and handing it out records no redemption. */
  lemma ReferralLinkOwned(s: Store, mac: Mac, secret: string, user: UserId, profile: Profile,
                          param: Option<string>, now: nat, w: Outside)
    requires LedgerConsistent(s)
    requires HandleStart(s, mac, secret, user, profile, param, now, w).0.ReferralLink?
    ensures var (link, s1) := HandleStart(s, mac, secret, user, profile, param, now, w);
            && link.code in s1.codes && s1.codes[link.code].owner == user
            && s1.redemptions == s.redemptions
  {
    StartBranch(s, mac, secret, user, profile, param, now, w);
  }

  /** Opening a `ref_` link for someone else's code, never referred before,
      joins and credits the code's owner; both have a live window. */
  lemma JoinByLink(s: Store, mac: Mac, secret: string, friend: UserId, profile: Profile,
                   code: string, now: nat, w: Outside)
    requires code in s.codes && s.codes[code].owner != friend && friend !in s.redemptions
    ensures var (rep, r) := HandleStart(s, mac, secret, friend, profile, Some("ref_" + code), now, w);
            && rep == ReferralJoined
            && friend in r.redemptions && r.redemptions[friend].referredBy == s.codes[code].owner
            && LiveAt(r, friend, now) && LiveAt(r, s.codes[code].owner, now)
  {
    RenderThenClassify(RefCode(code));
  }

  /** The referral flow end to end: on a consistent ledger, the referral link
      `/start` hands a member when ads are off names a code the member owns,
      so any other user not referred before who opens it joins, is credited
      to that member, and both have a live window. */
  lemma {:induction false} ReferralLinkThenJoin(s: Store, mac: Mac, secret: string, user: UserId,
                                                profile: Profile, param: Option<string>, now: nat,
                                                w: Outside, friend: UserId, profile2: Profile,
                                                later: nat, w2: Outside)
    requires LedgerConsistent(s)
    requires HandleStart(s, mac, secret, user, profile, param, now, w).0.ReferralLink?
    requires friend != user && friend !in s.redemptions
    ensures var (link, s1) := HandleStart(s, mac, secret, user, profile, param, now, w);
            var (rep, s2) := HandleStart(s1, mac, secret, friend, profile2, Some("ref_" + link.code), later, w2);
            && rep == ReferralJoined
            && friend in s2.redemptions && s2.redemptions[friend].referredBy == user
            && LiveAt(s2, friend, later) && LiveAt(s2, user, later)
  {
    var (link, s1) := HandleStart(s, mac, secret, user, profile, param, now, w);
    ReferralLinkOwned(s, mac, secret, user, profile, param, now, w);
    JoinByLink(s1, mac, secret, friend, profile2, link.code, later, w2);
  }
}
