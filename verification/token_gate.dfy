/** One-time ad tokens: the record written when a token is issued
    (`generateAdToken`), its activation (`verifyAndActivateToken`), and the
    gate of the start command that validates a presented token, refuses a
    missing or used record, and otherwise activates it. */
module TokenGate {
  import opened JsSemantics
  import opened EntitlementStore
  import opened TokenCodec
  import AccessWindows

  /** The store half of `generateAdToken(userId, mediaHash)`. The shortening
      call is outside the model: `shortened` says whether it succeeded. The
      source returns the shortened link; here the token behind it. */
  function IssueAdToken(s: Store, mac: Mac, secret: string, user: UserId, mediaHash: string,
                        now: nat, adEnabled: bool, shortened: bool): (r: (Option<string>, Store))
    ensures r.0.Some? <==> adEnabled && shortened
    ensures r.0.None? ==> r.1 == s
    ensures r.0.Some? ==>
              var token := r.0.value;
              && token == Generate(mac, secret, NatToString(user), now)
              && StartsWith(token, "t" + NatToString(now) + "-" + NatToString(user) + "-")
              && token in r.1.tokens
              && r.1.tokens[token] == TokenRecord(user, mediaHash, now + TOKEN_TTL_MS, now, false, None)
              && r.1.tokens - {token} == s.tokens - {token}
              && r.1 == s.(tokens := r.1.tokens)
  {
    if !adEnabled then (None, s)
    else
      var token := Generate(mac, secret, NatToString(user), now);
      if !shortened then (None, s)
      else
        (Some(token), s.(tokens := s.tokens[token := TokenRecord(user, mediaHash, now + TOKEN_TTL_MS, now, false, None)]))
  }

  /** `verifyAndActivateToken(userId, token)`: marks the record used and
      overwrites the user's window with 18 hours from now. Its one caller has
      just found the record. */
  function ActivateToken(s: Store, user: UserId, token: string, now: int): (r: Store)
    requires token in s.tokens
    ensures token in r.tokens && r.tokens[token].used && r.tokens[token].activatedAt == Some(now)
    ensures r.tokens[token] == s.tokens[token].(used := true, activatedAt := Some(now))
    ensures r.tokens - {token} == s.tokens - {token}
    ensures r.access == s.access[user := AccessWindow(true, now + TOKEN_GRANT_MS, now, None)]
    ensures r == s.(tokens := r.tokens, access := r.access)
  {
    var rec := s.tokens[token];
    s.(tokens := s.tokens[token := rec.(used := true, activatedAt := Some(now))],
       access := s.access[user := AccessWindow(true, now + TOKEN_GRANT_MS, now, None)])
  }

  datatype TokenOutcome =
    | Activated(media: Option<string>)   // the pass is active; show this media if any
    | Invalid                            // the token failed its own checks
    | AlreadyUsed                        // no record, or the record is used

  /** Whether a token record names media to show: a non-empty hash other
      than the text `undefined`. */
  predicate NamesMedia(rec: TokenRecord)
  {
    |rec.mediaHash| > 0 && rec.mediaHash != "undefined"
  }

  /** The token branch of the start command: validate the presented token for
      this user, refuse a missing or used record, otherwise activate it and
      count a view of its media. */
  function RedeemToken(s: Store, mac: Mac, secret: string, user: UserId, token: string, now: int): (r: (TokenOutcome, Store))
    ensures r.0.Invalid? <==> Validate(mac, secret, token, NatToString(user), now) != Valid
    ensures r.0.Activated? <==>
              && Validate(mac, secret, token, NatToString(user), now) == Valid
              && token in s.tokens && !s.tokens[token].used
    ensures !r.0.Activated? ==> r.1 == s
    ensures r.0.Activated? ==>
              r.1.tokens == s.tokens[token := s.tokens[token].(used := true, activatedAt := Some(now))]
    ensures r.0.Activated? ==>
              && token in r.1.tokens && r.1.tokens[token].used
              && AccessWindows.LiveAt(r.1, user, now)
              && r.1.access[user].expires == now + TOKEN_GRANT_MS
              && SameLedger(r.1, s)
              && (r.0.media.Some? <==> NamesMedia(s.tokens[token]))
    ensures r.0.Activated? ==>
              && r.1.access == s.access[user := AccessWindow(true, now + TOKEN_GRANT_MS, now, None)]
              && r.1.stats == (if NamesMedia(s.tokens[token])
                               then AccessWindows.TrackView(s, s.tokens[token].mediaHash, now).stats
                               else s.stats)
              && r.1 == s.(tokens := r.1.tokens, access := r.1.access, stats := r.1.stats)
  {
    if Validate(mac, secret, token, NatToString(user), now) != Valid then (Invalid, s)
    else if token !in s.tokens || s.tokens[token].used then (AlreadyUsed, s)
    else
      var rec := s.tokens[token];
      var s1 := ActivateToken(s, user, token, now);
      if NamesMedia(rec) then (Activated(Some(rec.mediaHash)), AccessWindows.TrackView(s1, rec.mediaHash, now))
      else (Activated(None), s1)
  }

  /** Consumption is one way: a used record stays used, and every other
      record is left exactly as it was. */
  lemma RedeemNeverUnusesTokens(s: Store, mac: Mac, secret: string, user: UserId, token: string, now: int)
    ensures var s1 := RedeemToken(s, mac, secret, user, token, now).1;
            && s1.tokens.Keys == s.tokens.Keys
            && (forall t :: t in s.tokens && s.tokens[t].used ==> s1.tokens[t].used)
            && s1.tokens - {token} == s.tokens - {token}
  {
  }

  /** A token that has been activated once is refused on every later
      presentation, by anyone, at any time. */
  lemma SecondRedeemRefused(s: Store, mac: Mac, secret: string, user: UserId, token: string, now: int,
                            user2: UserId, later: int)
    requires RedeemToken(s, mac, secret, user, token, now).0.Activated?
    ensures !RedeemToken(RedeemToken(s, mac, secret, user, token, now).1, mac, secret, user2, token, later).0.Activated?
  {
  }

  /** Issue then redeem: a token issued to a user and stored, presented by
      that user within 18 hours, activates and leaves the user a live window
      of 18 hours from the moment of activation; presented again, it is
      refused as used. */
  lemma IssueThenRedeem(s: Store, mac: Mac, secret: string, user: UserId, mediaHash: string,
                        issued: nat, now: int)
    requires HexDigestFor(mac, secret, MacInput(NatToString(user), NatToString(issued), secret))
    requires now - issued <= TOKEN_TTL_MS
    ensures var (tok, s1) := IssueAdToken(s, mac, secret, user, mediaHash, issued, true, true);
            var (out, s2) := RedeemToken(s1, mac, secret, user, tok.value, now);
            && out.Activated?
            && AccessWindows.LiveAt(s2, user, now)
            && s2.access[user].expires == now + TOKEN_GRANT_MS
            && RedeemToken(s2, mac, secret, user, tok.value, now).0 == AlreadyUsed
  {
    var uid := NatToString(user);
    assert forall k :: 0 <= k < |uid| ==> IsDigit(uid[k]);
    GenerateThenValidate(mac, secret, uid, issued, now);
  }
}
