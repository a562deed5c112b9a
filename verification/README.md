# Entitlement engine of the zbox media bot, in Dafny

The bot (`lastone.js`) hands out time-limited access to a media library. It
has two routes to that access:

- **Ad tokens.** A signed, one-time pass `t<timestamp>-<userId>-<hash16>`.
  `hash16` is the first 16 hex digits of HMAC-SHA256 over
  `userId:timestamp:secret`. Activating the pass gives 18 hours.
- **Referral codes.** Redeeming another user's code gives the new user 8
  hours. It adds 8 hours to the code owner's window, on top of any time still
  running.

All state lives in a Firebase tree. The model keeps each Firebase path as a
Dafny map inside one immutable `Store`:

| path | map |
|---|---|
| `tokens/{token}` | `tokens` |
| `userAccess/{id}` | `access` |
| `referrals/codes/{code}` | `codes` |
| `referrals/userCodes/{id}` | `userCodes` |
| `referrals/users/{id}` | `redemptions` |
| `referrals/referrers/{id}` | `referrers` |
| `stats/{hash}` | `stats` |
| `users/{id}` | `users` |

Each handler is a pure function from a store to a reply and a new store. The
clock (`now`), the MAC, the random code draw, channel membership, the
`AD_ENABLED` switch and whether the link shortener answered are all
parameters.

The modules follow the source's parts:

- `JsSemantics` gives the JavaScript behaviour the engine relies on:
  - `===` on mixed types;
  - `split` and `join` on one character;
  - `startsWith`;
  - `replace` of the first occurrence;
  - `parseInt` without a radix, including leading whitespace, sign, `0x` and the longest digit prefix;
  - number printing;
  - `Math.floor` and the truncating `%`.
- `TokenCodec`: `generateSecureToken` and `validateSecureToken`.
- `EntitlementStore`: the records and the store.
- `AccessWindows`: `hasValidAccess`, `getTimeRemaining` and `trackView`.
- `TokenGate`: `generateAdToken` (its store write), `verifyAndActivateToken`, and the token gate of `/start`.
- `ReferralLedger`: `generateReferralCode`, `getReferralCode`, `storeUserReferralCode`, `validateReferral`, `processSuccessfulReferral` and `handleReferralStart`.
- `UserProfiles`: `cleanUserData`, `trackUser` and `getActiveUserCount`.
- `AdminCommands`: the `/admin` argument split and the `referral_stats` report.
- `StartCommand`: the `/start` handler. It tracks the user, then dispatches the parameter (`ref_` first, then a leading `t`, then `view_`). A user without a live window is sent to the channels, to a referral link or to an ad link.

The main proved properties:

- **Token codec.** A generated token decodes and validates, and it round-trips through `Decode`/`Encode`. Tokens are bound to their user, expire after exactly 18 hours, and are refused when the hash or the user id is altered. Spellings of the timestamp that parse to the same number, such as a leading `0`, still validate.
- **One-time passes.** A used pass stays used and is refused again.
- **Access check.** `hasValidAccess` answers exactly "granted and `now <= expires`" and reaps only an expired window.
- **Referral ledger.** One invariant is preserved by every redemption, with the source's check and with the corrected one, and by every `/start` whose drawn code is new: redemptions, code `uses` and referrer `totalReferrals` agree.
- **Report.** `referral_stats` reports a descending permutation prefix. Its total is the sum of the entries' totals. On a ledger whose links are consistent, that sum equals the number of redemptions.
- **End to end.** Both flows through `/start` are proved, from the ad link to the activated pass and from the referral link to the join.

## Model

| member | source | states |
|---|---|---|
| JsSemantics.NumberNeverStrictEqualsString | lastone.js:121 | `===` between a number and a string is false for every number and string |
| JsSemantics.Split | lastone.js:291 | `split` on one character yields at least one field and no field contains the separator |
| JsSemantics.SplitJoin | lastone.js:289-291 | splitting the join of fields that contain no separator gives the fields back |
| JsSemantics.JoinSplit | lastone.js:1325-1327 | joining the fields of a split with the same separator gives the original string back |
| JsSemantics.NatToString | lastone.js:268-281 | the decimal printing of a non-negative number is all digits and denotes that number |
| JsSemantics.ParseInt | lastone.js:296 | blank text reads as `NaN`; a plain decimal numeral reads as its value; a negative result needs a leading `-` after the white space |
| JsSemantics.ParseIntNatToString | lastone.js:296 | `parseInt` of a printed non-negative number gives that number back |
| JsSemantics.TruncRem | lastone.js:478-480 | JavaScript `%`: the remainder has the dividend's sign, is smaller than the divisor in magnitude, and completes the quotient truncated toward zero |
| JsSemantics.ReplacePrefix | lastone.js:510 | `replace('ref_', '')` on a string starting with `ref_` strips exactly that prefix, and the prefix plus the rest is the string |
| TokenCodec.Prefix16 | lastone.js:274-277 | `substring(0, 16)` is a prefix of the digest, 16 characters long whenever the digest has that many |
| TokenCodec.Decode | lastone.js:289-300 | a token is malformed exactly when it is empty, lacks the leading `t` or splits into other than three `-` fields; otherwise its three fields contain no `-` and encode back to the token |
| TokenCodec.DecodeEncode | lastone.js:268-300 | parsing the token layout of `generateSecureToken` returns the fields it was built from |
| TokenCodec.Generate | lastone.js:268-281 | a token starts with `t`, the issue time in decimal, `-`, the user id and `-` |
| TokenCodec.GenerateDecodes | lastone.js:268-281 | a generated token reads back as the issue time printed in decimal, the user id, and a 16-digit hash of the user id, time and secret |
| TokenCodec.Validate | lastone.js:284-336 | the checks run in the source's order: malformed exactly when the shape check fails; then a user mismatch exactly when the ids differ; then expired exactly for the right user with a numeric age over 18 hours; then a bad signature exactly when the hash differs from the recomputed prefix; valid exactly when all four pass |
| TokenCodec.GenerateThenValidate | lastone.js:268-336 | a token generated for a user at `issued` is valid for that user at any time up to 18 hours later |
| TokenCodec.GeneratedTokenExpires | lastone.js:309-315 | the same token is refused as expired once its age exceeds 18 hours, so exactly 18 hours still passes |
| TokenCodec.GeneratedTokenBoundToUser | lastone.js:303-306 | a generated token presented by any other user is refused for a user mismatch |
| TokenCodec.TamperedHashRejected | lastone.js:318-331 | a well-shaped, unexpired token for the right user whose hash differs from the recomputed prefix is refused |
| TokenCodec.ShapeRejected | lastone.js:289-292 | no leading `t`, or other than three `-` fields, is refused as malformed |
| TokenCodec.LenientTimestampAliases | lastone.js:296-322 | the timestamp field `0x10` validates with the hash computed for timestamp `16` |
| TokenCodec.NaNTimestampNeverExpires | lastone.js:296-315 | a timestamp field that `parseInt` reads as `NaN` is never refused as expired; its hash is checked over the text `NaN` |
| TokenGate.IssueAdToken | lastone.js:339-374 | a pass exists only when ads are on and the shortener answered; the stored record is unused, owned by the user, names the media and expires 18 hours after issue; the token starts with `t<now>-<userId>-`; nothing else changes |
| TokenGate.ActivateToken | lastone.js:377-398 | the record becomes used with its activation time and keeps its other fields; the user's window is overwritten with a granted 18-hour window; nothing else changes |
| TokenGate.RedeemToken | lastone.js:531-597 | refused as invalid exactly when validation fails; activated exactly when valid and the record exists unused; a refusal changes nothing; on activation the window is live until 18 hours from now and media is shown exactly when the record names some, and the only writes are the token marked used, the user's window set to a fresh 18-hour grant, and one view counted for the named media |
| TokenGate.RedeemNeverUnusesTokens | lastone.js:542-552 | the token gate never removes a record, never clears `used`, and touches no other token |
| TokenGate.SecondRedeemRefused | lastone.js:542-552 | after one activation the same token is never activated again, for any user at any time |
| TokenGate.IssueThenRedeem | lastone.js:339-398 | an issued pass redeemed by its user within 18 hours activates and leaves a live 18-hour window; presented again it is refused as used |
| AccessWindows.HasValidAccess | lastone.js:401-419 | true exactly when a granted window has `now <= expires`; a granted, expired window is removed; every other window and path is unchanged |
| AccessWindows.HasValidAccessIdempotent | lastone.js:401-414 | asking twice at the same instant gives the same answer and the second call changes nothing |
| AccessWindows.RefusedStaysRefused | lastone.js:401-414 | after a refusal, every later check refuses too until a new grant |
| AccessWindows.GetTimeRemaining | lastone.js:471-486 | no window gives `0 hours`; otherwise whole hours and leftover minutes bracket the remaining milliseconds; a window past its expiry gives negative hours |
| AccessWindows.LiveWindowTimeLeftNonNegative | lastone.js:600-627 | whenever the access check says yes, the time shown has non-negative hours and minutes |
| AccessWindows.TrackView | lastone.js:422-434 | the media's view count goes up by one, created as one view and no shares; other counters are unchanged |
| AccessWindows.TrackViewsCount | lastone.js:422-434 | `n` views in a row add exactly `n` and leave other media alone |
| ReferralLedger.GenerateReferralCode | lastone.js:89-97 | the drawn code is recorded as the user's with zero uses, overwriting any record under that code |
| ReferralLedger.GetReferralCode | lastone.js:99-102 | returns the user's code link exactly when one is stored |
| ReferralLedger.StoreUserReferralCode | lastone.js:104-109 | the user's code link is set to the code and nothing else changes |
| ReferralLedger.GetOrCreateCode | lastone.js:663-671 | an existing link is reused with the store unchanged; otherwise the draw becomes a code owned by the user and linked to them |
| ReferralLedger.ValidateReferral | lastone.js:111-135 | corrected: accepted exactly when the code exists, its owner is not the new user, and the new user was never referred; the referrer is the owner; each rejection has its reason |
| ReferralLedger.ValidateReferralAsWritten | lastone.js:111-135 | as written: accepted exactly when the code exists and the new user was never referred, crediting the code's owner; an unknown code exactly when the code is absent; already referred exactly when the code exists and the user was referred; self-referral is never reported |
| ReferralLedger.ProcessSuccessfulReferral | lastone.js:137-202 | records the redemption, bumps the code's uses when the code exists, bumps or creates the referrer's total, grants the referee 8 hours, and grants the referrer 8 hours beyond whatever still runs; nothing else changes |
| ReferralLedger.CountCodeUse | lastone.js:149-155 | the code's `uses` goes up by one; a missing code stays missing |
| ReferralLedger.CountReferral | lastone.js:158-165 | the referrer's `totalReferrals` goes up by one, created at one |
| ReferralLedger.GrantReferrerBonus | lastone.js:178-195 | the new expiry is now plus the time still running (strictly after now) plus 8 hours |
| ReferralLedger.HandleReferralStart | lastone.js:219-238 | a rejection changes nothing; an acceptance commits the redemption for the validated referrer |
| ReferralLedger.HandleReferralStartAsWritten | lastone.js:219-238 | the source's handler: accepted exactly when the code exists and the user was never referred, including one's own code; a rejection changes nothing; an acceptance commits the redemption for the code's owner |
| ReferralLedger.CorrectionOnlyRefusesSelf | lastone.js:111-135 | the corrected and the source's handler agree except on one's own code, which the source commits and the corrected one refuses |
| ReferralLedger.HandleReferralStartAsWrittenPreservesLedger | lastone.js:219-238 | the source's handler keeps the ledger invariant as well, a self-redemption included |
| ReferralLedger.HandleReferralStartPreservesLedger | lastone.js:219-238 | a redemption attempt keeps every redemption pointing at an existing code of its referrer, every code's `uses` equal to its redemptions, and every referrer's total equal to its referees |
| ReferralLedger.GetOrCreateCodePreservesLedger | lastone.js:663-671 | creating a code keeps that invariant when the draw is not already a code |
| ReferralLedger.CodeCollisionBreaksLedger | lastone.js:89-97 | a draw equal to another user's code takes it over and breaks the invariant |
| ReferralLedger.RedeemOnlyOnce | lastone.js:126-130 | after an accepted redemption, every later attempt by the same user is refused, as already referred for any valid code of another user |
| ReferralLedger.SelfReferralRefused | lastone.js:120-123 | with the corrected check, redeeming one's own code is refused and changes nothing |
| ReferralLedger.SelfReferralCreditedAsWritten | lastone.js:89-135 | as written, a user redeeming their own code is accepted, credited as their own referral, and ends with 16 hours |
| ReferralLedger.BonusStacksOnLiveWindow | lastone.js:180-186 | a referrer with time still running gets exactly 8 hours added to their expiry |
| ReferralLedger.BonusStartsFreshOtherwise | lastone.js:168-190 | a referrer without running time, and the referee, both expire 8 hours from now |
| ReferralLedger.RedeemAllCountsUses | lastone.js:149-155 | `n` distinct new users redeeming one code raise its `uses` by exactly `n`, keep its owner, and add exactly those users to the redemptions |
| UserProfiles.CleanUserData | lastone.js:241-249 | keeps exactly the fields that are neither `undefined` nor `null`, with their values |
| UserProfiles.CleanUserDataIdempotent | lastone.js:241-249 | cleaning twice is cleaning once, and a record without missing values is kept as it is |
| UserProfiles.SeenRecord | lastone.js:252-265 | the stored record has `lastSeen` now, `firstSeen` kept when truthy and otherwise now, every other present field of the data, and no missing value or foreign field |
| UserProfiles.TrackUser | lastone.js:252-265 | the user's profile becomes that record; other users and every other path are unchanged |
| UserProfiles.ActiveUserCount | lastone.js:1554-1566 | the count is the number of users whose numeric `lastSeen` is within the last 30 days |
| UserProfiles.TrackedUserIsActive | lastone.js:1554-1566 | a user tracked now counts as active for the next 30 days |
| AdminCommands.ParseAdmin | lastone.js:1289-1327 | no command means help; otherwise the action has no space, and action, space and value rebuild the command when it has a space |
| AdminCommands.SortDescCorrect | lastone.js:1420-1422 | the comparator sort yields a descending permutation of the entries |
| AdminCommands.SumTotalsSort | lastone.js:1419-1422 | sorting does not change the total |
| AdminCommands.ReferralStats | lastone.js:1418-1424 | the total is the sum of every entry's total; the top list holds five entries, or all when fewer, in descending order, drawn from the input, outranking everything left out, with totals summing to no more than the overall total |
| AdminCommands.ReferralTotalCountsRedemptions | lastone.js:1419 | on a consistent ledger, the reported total is the number of redemption records |
| StartCommand.ClassifyStart | lastone.js:509-605 | empty or absent means no request; `ref_` comes first, then a leading `t`, then `view_`; each request carries the rest of the parameter |
| StartCommand.ClassifyThenRender | lastone.js:509-605 | the dispatch loses nothing: rendering the request gives the parameter back |
| StartCommand.RenderThenClassify | lastone.js:509-605 | a link built for a request, such as `ref_<code>` or `view_<hash>`, dispatches to that request with the code or hash whole |
| StartCommand.ReferralStart | lastone.js:509-528 | joined exactly when validation accepts; a refusal reports the reason and changes nothing; on joining, both sides are live, the redemption names the owner, and the store is exactly the one the referral commit writes |
| StartCommand.TokenStart | lastone.js:531-597 | the three outcomes of the gate: invalid exactly when validation fails, activated exactly when valid with an unused record, otherwise used; only activation writes, and then only the token's used mark, the user's fresh 18-hour window and one view of the named media |
| StartCommand.ServeOrInvite | lastone.js:599-775 | with a live window a `view_` request shows that media and any other gets the welcome-back; without one, a non-member is sent to the channels, a member gets their referral code when ads are off, and when ads are on a stored pass for the requested media exactly when the shortener answered, otherwise the failure; only the referral link touches the ledger; the only other writes are the reaping of the user's expired window, one view counted for shown media, the new code, with no uses yet, and its link when the user had none, and the one new pass |
| StartCommand.HandleStart | lastone.js:489-775 | the user is tracked first and no other profile changes; content is shown only with a live window afterwards |
| StartCommand.StartDispatch | lastone.js:489-775 | joined exactly for a `ref_` code that validation accepts; activated exactly for a valid token with an unused record; welcome-back or media exactly for an ordinary request from a user with a live window |
| StartCommand.StartTracksUser | lastone.js:495-502 | whoever sends `/start` is recorded as seen now and counts as active for 30 days |
| StartCommand.ReferralJoinGrantsBoth | lastone.js:509-528 | a joined referral came from someone else's code; both sides have a live window and the referee is credited to the owner |
| StartCommand.HandleStartPreservesLedger | lastone.js:489-775 | `/start` keeps the ledger invariant whenever a code it draws is new |
| StartCommand.AdLinkIssued | lastone.js:703-760 | an ad link handed out by `/start` carries the token generated for the user at that instant, stored unused for the media the link was for, expiring 18 hours later |
| StartCommand.PassOpened | lastone.js:531-597 | a stored unused pass generated for the user, opened within 18 hours, activates an 18-hour window and shows the media its record names; opened again it is refused as used |
| StartCommand.AdLinkThenActivate | lastone.js:531-760 | a pass handed out by `/start`, opened by its user within 18 hours, activates an 18-hour window and shows the media the link was for; opened again it is refused as used |
| StartCommand.ReferralLinkOwned | lastone.js:660-675 | on a consistent ledger, a referral link names a code its holder owns, and handing it out records no redemption |
| StartCommand.JoinByLink | lastone.js:509-528 | opening a `ref_` link for someone else's code, never referred before, joins, credits the owner and leaves both live |
| StartCommand.ReferralLinkThenJoin | lastone.js:509-675 | on a consistent ledger, the referral link handed to a member, opened by another never-referred user, joins, credits that member, and leaves both live |

## Left out

- Telegram I/O is left out as presentation: messages, edits, deletions, loading messages, keyboards, callback queries and the media send. Replies are a datatype.
- Firebase setup, transactions and concurrency are left out. Each transaction is one atomic function application, and the source's separate read-then-write steps run in sequence. Exactly-once under concurrent requests is not claimed.
- HMAC-SHA256 is left out: the MAC is an uninterpreted parameter, so unforgeability is not stated.
- `Math.random` and `Date.now` are parameters. A function that reads the clock several times uses one instant.
- The network calls are represented by flags. The EarnLinks shortener is the `shortened` flag, and the channel-membership lookup is the `isMember` flag.
- The returned short URL of `generateAdToken` is replaced by the token behind it.
- Timers, broadcast, config loading and the admin setters are left out (mutable globals and I/O).
- The web front end and `lol.js` are left out.
- Numbers are unbounded integers. The source's doubles are exact only below 2^53, and ids and the clock stay far below that. A timestamp parsed from a received token need not: `t99999999999999999-…` parses to 10^17, which JavaScript prints as `100000000000000000`, and 22 or more digits print in exponent form. There `Validate` signs the digits as parsed, while the source signs the printed double. No such token comes from `Generate`.
- Strings are sequences of characters, not UTF-16 code units.
- Error paths that only log and return `false`, `null` or "System error" are left out: a failing store, and a key Firebase refuses (see the lines below). So is the return value (`referralId`) of `processSuccessfulReferral`.
- AccessWindows.TrackView: store keys are unrestricted. Firebase's `child()` throws on an empty key or one holding `.`, `#`, `$`, `[` or `]`; `trackView` catches that and counts nothing (lastone.js:423-433). So `/start view_` from a live user counts a view under the empty key here, and none in the source.
- ReferralLedger.ValidateReferral: store keys are unrestricted and are not normalised. Two cases differ from the source:
  - For a code Firebase refuses as a key, such as the empty code of `/start ref_`, the source answers "System error" (lastone.js:132-133) where the model answers an unknown code. Both refuse and change nothing.
  - Firebase's `child()` splits its argument on `/` and drops empty segments, so `ABCD1234/` and `/ABCD1234` name the node of the code `ABCD1234`. The source finds that code (lastone.js:113) and commits the referral: the redemption records the code as sent (lastone.js:142-146), and the use, the referrer's credit and the 8-hour grants go to `ABCD1234` and its owner (lastone.js:149-195). The model looks the code up as sent, answers an unknown code and changes nothing.

  ReferralLedger.ValidateReferralAsWritten, ReferralLedger.HandleReferralStart, ReferralLedger.HandleReferralStartAsWritten, StartCommand.ReferralStart, StartCommand.HandleStart and StartCommand.StartDispatch inherit both cases.
- ReferralLedger.ValidateReferralAsWritten: does not normalise `/` in a code; see the line above.
- ReferralLedger.HandleReferralStartAsWritten: refuses `/start ref_ABCD1234/`, which the source commits to `ABCD1234`; see the ReferralLedger.ValidateReferral line.
- TokenGate.RedeemToken: store keys are unrestricted here too. A token can validate and still hold `.`, because `parseInt` stops at a fraction such as `.5` after a recent timestamp. On such a token the source's `tokensRef.child(token)` throws and the handler's catch sends its error message (lastone.js:542, 797-804). The model looks the token up, finds no record and answers that the pass was used. StartCommand.TokenStart inherits this. Neither the source nor the model changes anything.
- TokenGate.ActivateToken: requires the record to exist. Its only caller has just read it. With no record, the source's `update` would create a partial one.
- AdminCommands.ReferralStats: does not state the order among entries with equal totals. When more than five referrers tie at the fifth-place total, that order decides who is shown; the model's insertion sort fixes one order, and the contract promises none.
- UserProfiles.ActiveUserCount: counts only numeric `lastSeen` values. JavaScript's `>` would also coerce a numeric string, which `trackUser` never stores.
- The `/admin` owner check, its subcommands and the callback menus are left out as entry points. The bot answers only `/start` (lastone.js:489) and `/admin` (lastone.js:1282); the counts are shown by `/admin stats` (lastone.js:1406), which reads the store without changing it.
- The `message` handler (lastone.js:886-900) is left out as an entry point. It runs `trackUser` on every message, as UserProfiles.TrackUser models it, before the group media handling, which writes only `mediaStorage` and is outside the model. Two menus do write it, with operations the model has: `verify_membership` creates a referral code as ReferralLedger.GetOrCreateCode does (lastone.js:1004-1012) and issues an ad pass as TokenGate.IssueAdToken does for the empty media (lastone.js:1047); `get_share_link` creates a code the same way (lastone.js:1174-1182).
- ReferralLedger.HandleReferralStart: uses the corrected check, so a user redeeming their own code is refused, where the source credits them (ReferralLedger.HandleReferralStartAsWritten models that).
- ReferralLedger.HandleReferralStartPreservesLedger: stated for the corrected handler; ReferralLedger.HandleReferralStartAsWrittenPreservesLedger states it for the source's.
- StartCommand.ReferralStart: its "joined exactly when validation accepts" uses the corrected check; with the source's check a self-redemption also joins.
- StartCommand.HandleStart: its `ref_` branch is the corrected handler, so a self-redemption through `/start` is refused rather than credited.
- StartCommand.StartDispatch: "joined exactly" holds for the corrected check; the source also joins a user redeeming their own code.
- StartCommand.ReferralJoinGrantsBoth: its "someone else's code" conclusion comes from the corrected check; the source also joins on one's own code.
- StartCommand.HandleStartPreservesLedger: stated with the corrected referral branch; the source's branch keeps the invariant too (ReferralLedger.HandleReferralStartAsWrittenPreservesLedger).
- The record's own `expires` and `userId` fields are not checked on activation, as in the source. The token's signature and age already carry the same facts.

## Design notes

Places where the code behaves differently from what its comments, messages or names suggest. The model follows the code, except for the self-referral check, where the handlers built on it use the corrected check.

- **Self-referral.** The comment and the error message at lastone.js:120-122 say a user cannot redeem their own code. The check there never fires (see Findings). The source's handler is `ReferralLedger.HandleReferralStartAsWritten`; the referral branch of `/start` uses the corrected check, and `ReferralLedger.CorrectionOnlyRefusesSelf` shows the two differ only on one's own code.
- **Code uniqueness.** Each user's link and every redemption look a code up as if it named one owner for good. `generateReferralCode` (lastone.js:89-97) writes with `set` and does not check: a colliding draw takes over another user's code (`ReferralLedger.CodeCollisionBreaksLedger`).
- **Loose timestamps.** The timestamp is read with `parseInt` (lastone.js:296).
  - A field such as `0x10` or `16abc` validates with the hash of `16`.
  - A field that reads as `NaN` never expires.
  - Aliased tokens have no stored record, because records are looked up by the exact token string. So they are refused as used at the gate.
- **Validator result.** `validateSecureToken` returns a boolean. `Validate` also says which check refused.
- **Negative time left.** `getTimeRemaining` ignores `granted` and does not reap. On a window past its expiry it reports negative hours. The start handler only calls it after a successful access check, where it is never negative.
- **Expiry boundaries differ.** Access is still valid at exactly `expires` (`now > expires` reaps, lastone.js:409). The referrer bonus counts a window as running only while `expires > now` (lastone.js:182).

## Findings

| source | as written | input that shows it | evidently intended | confidence | as-written member | corrected member |
|---|---|---|---|---|---|---|
| lastone.js:121 | `codeData.userId === newUserId.toString()` compares the stored owner, the number `msg.from.id` (lastone.js:92), with a string, so it is always false | user 7 owns code `C` and was never referred; `/start ref_C` from user 7 is accepted, credits user 7 as their own referral and grants 16 hours | refuse a user redeeming their own code with "Cannot use your own referral code" | high, not executed | ReferralLedger.ValidateReferralAsWritten | ReferralLedger.ValidateReferral |
