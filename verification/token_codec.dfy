/** The self-describing access ticket `t<timestamp>-<userId>-<hash16>`, where
    `hash16` is the first 16 characters of the hexadecimal HMAC-SHA256 digest,
    keyed by the server secret, over `userId:timestamp:secret`. The MAC itself
    is a parameter: nothing here depends on how it is computed. */
module TokenCodec {
  import opened JsSemantics

  /** Tokens are accepted until they are this old (18 hours, in milliseconds). */
  const TOKEN_TTL_MS: int := 18 * 60 * 60 * 1000

  /** Length of the digest prefix carried in a token. */
  const HASH_CHARS: nat := 16

  /** A keyed MAC returning a hexadecimal digest: `(key, message) -> digest`. */
  type Mac = (string, string) -> string

  /** The fields of a well-shaped token, still as text. */
  datatype TokenFields = TokenFields(timestamp: string, userId: string, hash: string)

  /** Why a token is refused. The source only reports valid or invalid; the
      reason records which of its checks refused. */
  datatype Verdict = Valid | InvalidFormat | UserMismatch | Expired | BadSignature

  /** `substring(0, 16)` of a digest. */
  function Prefix16(digest: string): (p: string)
    ensures |p| <= HASH_CHARS && p <= digest
    ensures |digest| >= HASH_CHARS ==> |p| == HASH_CHARS
  {
    if |digest| <= HASH_CHARS then digest else digest[..HASH_CHARS]
  }

  /** The string the MAC is computed over. */
  function MacInput(userId: string, timestamp: string, secret: string): string
  {
    userId + ":" + timestamp + ":" + secret
  }

  function TokenHash(mac: Mac, secret: string, userId: string, timestamp: string): string
  {
    Prefix16(mac(secret, MacInput(userId, timestamp, secret)))
  }

  /** Lays the three fields out as `t<timestamp>-<userId>-<hash>`. */
  function Encode(f: TokenFields): string
  {
    "t" + f.timestamp + "-" + f.userId + "-" + f.hash
  }

  predicate SeparatorFree(f: TokenFields)
  {
    '-' !in f.timestamp && '-' !in f.userId && '-' !in f.hash
  }

  /** The shape check and field extraction of `validateSecureToken`: a
      non-empty token starting with `t` that splits on `-` into exactly three
      fields; the fields are those of the token without its leading `t`. */
  function Decode(token: string): (r: Option<TokenFields>)
    ensures r.Some? ==> SeparatorFree(r.value) && Encode(r.value) == token
    ensures r.None? <==> (|token| == 0 || token[0] != 't' || |Split(token, '-')| != 3)
  {
    if |token| == 0 || token[0] != 't' || |Split(token, '-')| != 3 then None
    else
      TailFields(token);
      var parts := Split(token[1..], '-');
      Some(TokenFields(parts[0], parts[1], parts[2]))
  }

  lemma Join3(a: string, b: string, c: string, d: char)
    ensures Join([a, b, c], d) == a + [d] + b + [d] + c
  {
    assert [a, b, c][1..] == [b, c];
    assert [b, c][1..] == [c];
    assert Join([c], d) == c;
    assert Join([b, c], d) == b + [d] + c;
    assert Join([a, b, c], d) == a + [d] + (b + [d] + c);
  }

  /** A string of three fields is laid out again by its fields. */
  lemma ThreeFields(s: string)
    requires |Split(s, '-')| == 3
    ensures var parts := Split(s, '-'); s == parts[0] + "-" + parts[1] + "-" + parts[2]
  {
    var parts := Split(s, '-');
    JoinSplit(s, '-');
    assert parts == [parts[0], parts[1], parts[2]];
    Join3(parts[0], parts[1], parts[2], '-');
  }

  /** A token of three fields splits, without its leading `t`, into three
      fields that lay the token out again. */
  lemma TailFields(token: string)
    requires |token| > 0 && token[0] == 't' && |Split(token, '-')| == 3
    ensures var parts := Split(token[1..], '-');
            |parts| == 3 && token == "t" + parts[0] + "-" + parts[1] + "-" + parts[2]
  {
    var tail := token[1..];
    SplitDropFirst(token, '-');
    ThreeFields(tail);
    var parts := Split(tail, '-');
    Retag(token, parts[0], parts[1], parts[2]);
  }

  lemma Retag(token: string, a: string, b: string, c: string)
    requires |token| > 0 && token[0] == 't' && token[1..] == a + "-" + b + "-" + c
    ensures token == "t" + a + "-" + b + "-" + c
  {
    assert token == "t" + token[1..];
  }

  /** Decoding an encoded token gives back its fields. */
  lemma DecodeEncode(f: TokenFields)
    requires SeparatorFree(f)
    ensures Decode(Encode(f)) == Some(f)
  {
    EncodeShape(f);
    EncodeTail(f);
  }

  /** An encoded token passes the shape check. */
  lemma EncodeShape(f: TokenFields)
    requires SeparatorFree(f)
    ensures var token := Encode(f); |token| > 0 && token[0] == 't' && |Split(token, '-')| == 3
  {
    var first := ["t" + f.timestamp, f.userId, f.hash];
    Join3("t" + f.timestamp, f.userId, f.hash, '-');
    assert Join(first, '-') == Encode(f);
    SplitJoin(first, '-');
  }

  /** Without its leading `t`, an encoded token splits into its fields. */
  lemma EncodeTail(f: TokenFields)
    requires SeparatorFree(f)
    ensures Split(Encode(f)[1..], '-') == [f.timestamp, f.userId, f.hash]
  {
    var token := Encode(f);
    var parts := [f.timestamp, f.userId, f.hash];
    Join3(f.timestamp, f.userId, f.hash, '-');
    assert token[1..] == Join(parts, '-');
    SplitJoin(parts, '-');
  }

  /** `generateSecureToken(userId)` at time `now`. */
  function Generate(mac: Mac, secret: string, userId: string, now: nat): (token: string)
    ensures StartsWith(token, "t" + NatToString(now) + "-" + userId + "-")
  {
    var ts := NatToString(now);
    Encode(TokenFields(ts, userId, TokenHash(mac, secret, userId, ts)))
  }

  /** `validateSecureToken(token, userId)` at time `now`: shape, then user,
      then age (an age of exactly 18 hours still passes, and a `NaN`
      timestamp never counts as expired), then the recomputed hash over the
      user id and the parsed timestamp printed back as a number. */
  function Validate(mac: Mac, secret: string, token: string, userId: string, now: int): (v: Verdict)
    ensures v == InvalidFormat <==> Decode(token).None?
    ensures Decode(token).Some? ==>
      var f := Decode(token).value;
      var ts := ParseInt(f.timestamp);
      var expired := ts.Int? && now - ts.n > TOKEN_TTL_MS;
      var signed := f.hash == TokenHash(mac, secret, userId, NumberToString(ts));
      && (v == UserMismatch <==> f.userId != userId)
      && (v == Expired <==> f.userId == userId && expired)
      && (v == BadSignature <==> f.userId == userId && !expired && !signed)
      && (v == Valid <==> f.userId == userId && !expired && signed)
    ensures v == Valid ==>
      var f := Decode(token).value;
      var ts := ParseInt(f.timestamp);
      && token == Encode(TokenFields(f.timestamp, userId, f.hash))
      && f.hash == TokenHash(mac, secret, userId, NumberToString(ts))
      && (ts.Int? ==> now - ts.n <= TOKEN_TTL_MS)
  {
    match Decode(token)
    case None => InvalidFormat
    case Some(f) =>
      var ts := ParseInt(f.timestamp);
      if f.userId != userId then UserMismatch
      else if ts.Int? && now - ts.n > TOKEN_TTL_MS then Expired
      else if f.hash != TokenHash(mac, secret, f.userId, NumberToString(ts)) then BadSignature
      else Valid
  }

  /** A generated token reads back as the fields it was built from: the
      issue time printed in decimal, the user id, and the 16-digit hash. */
  lemma GenerateDecodes(mac: Mac, secret: string, userId: string, now: nat)
    requires '-' !in userId
    requires HexDigestFor(mac, secret, MacInput(userId, NatToString(now), secret))
    ensures var ts := NatToString(now);
            var h := TokenHash(mac, secret, userId, ts);
            && |h| == HASH_CHARS
            && Decode(Generate(mac, secret, userId, now)) == Some(TokenFields(ts, userId, h))
  {
    var ts := NatToString(now);
    GeneratedFieldsSeparatorFree(mac, secret, userId, now);
    DecodeEncode(TokenFields(ts, userId, TokenHash(mac, secret, userId, ts)));
  }

  /** A MAC whose digest for these inputs is at least 16 hexadecimal digits,
      as HMAC-SHA256's 64 is. */
  predicate HexDigestFor(mac: Mac, secret: string, message: string)
  {
    var d := mac(secret, message);
    |d| >= HASH_CHARS && forall k :: 0 <= k < |d| ==> IsHexDigit(d[k])
  }

  lemma GeneratedFieldsSeparatorFree(mac: Mac, secret: string, userId: string, now: nat)
    requires '-' !in userId
    requires HexDigestFor(mac, secret, MacInput(userId, NatToString(now), secret))
    ensures SeparatorFree(TokenFields(NatToString(now), userId,
                                      TokenHash(mac, secret, userId, NatToString(now))))
  {
    var ts := NatToString(now);
    var d := mac(secret, MacInput(userId, ts, secret));
    var h := TokenHash(mac, secret, userId, ts);
    assert forall k :: 0 <= k < |h| ==> h[k] == d[k];
    assert forall k :: 0 <= k < |ts| ==> IsDigit(ts[k]);
  }

  /** Round trip: a token issued to `userId` at `issued` validates for that
      user at any `now` no more than 18 hours later (or earlier than issue). */
  lemma {:induction false} GenerateThenValidate(mac: Mac, secret: string, userId: string, issued: nat, now: int)
    requires '-' !in userId
    requires HexDigestFor(mac, secret, MacInput(userId, NatToString(issued), secret))
    requires now - issued <= TOKEN_TTL_MS
    ensures Validate(mac, secret, Generate(mac, secret, userId, issued), userId, now) == Valid
  {
    var ts := NatToString(issued);
    GeneratedFieldsSeparatorFree(mac, secret, userId, issued);
    DecodeEncode(TokenFields(ts, userId, TokenHash(mac, secret, userId, ts)));
    ParseIntNatToString(issued);
  }

  /** The same token is refused as expired once it is more than 18 hours old. */
  lemma {:induction false} GeneratedTokenExpires(mac: Mac, secret: string, userId: string, issued: nat, now: int)
    requires '-' !in userId
    requires HexDigestFor(mac, secret, MacInput(userId, NatToString(issued), secret))
    requires now - issued > TOKEN_TTL_MS
    ensures Validate(mac, secret, Generate(mac, secret, userId, issued), userId, now) == Expired
  {
    var ts := NatToString(issued);
    GeneratedFieldsSeparatorFree(mac, secret, userId, issued);
    DecodeEncode(TokenFields(ts, userId, TokenHash(mac, secret, userId, ts)));
    ParseIntNatToString(issued);
  }

  /** Tokens are not transferable: presented by any other user, a generated
      token is refused with a user mismatch, whatever the time. */
  lemma {:induction false} GeneratedTokenBoundToUser(mac: Mac, secret: string, userId: string, other: string, issued: nat, now: int)
    requires '-' !in userId
    requires HexDigestFor(mac, secret, MacInput(userId, NatToString(issued), secret))
    requires other != userId
    ensures Validate(mac, secret, Generate(mac, secret, userId, issued), other, now) == UserMismatch
  {
    var ts := NatToString(issued);
    GeneratedFieldsSeparatorFree(mac, secret, userId, issued);
    DecodeEncode(TokenFields(ts, userId, TokenHash(mac, secret, userId, ts)));
  }

  /** A well-shaped, unexpired token for the right user whose hash field is
      not the recomputed digest prefix is refused with a bad signature. */
  lemma {:induction false} TamperedHashRejected(mac: Mac, secret: string, f: TokenFields, userId: string, now: int)
    requires SeparatorFree(f) && f.userId == userId
    requires ParseInt(f.timestamp).Int? ==> now - ParseInt(f.timestamp).n <= TOKEN_TTL_MS
    requires f.hash != TokenHash(mac, secret, userId, NumberToString(ParseInt(f.timestamp)))
    ensures Validate(mac, secret, Encode(f), userId, now) == BadSignature
  {
    DecodeEncode(f);
  }

  /** The shape checks: no leading `t`, or a split on `-` into other than
      three fields, is refused as malformed. */
  lemma ShapeRejected(mac: Mac, secret: string, token: string, userId: string, now: int)
    requires |token| == 0 || token[0] != 't' || |Split(token, '-')| != 3
    ensures Validate(mac, secret, token, userId, now) == InvalidFormat
  {
  }

  /** `parseInt` is lenient: a timestamp field with trailing text, or `0x`
      followed by hex digits, reads as a number, and the hash is recomputed
      from that number. So a token that spells its timestamp differently from
      the issued one still passes this check; only the exact-string lookup of
      the token record stops it (see the start handler). */
  lemma {:induction false} LenientTimestampAliases(mac: Mac, secret: string, userId: string, now: int)
    requires '-' !in userId
    requires HexDigestFor(mac, secret, MacInput(userId, "16", secret))
    requires now <= 16 + TOKEN_TTL_MS
    ensures var h := TokenHash(mac, secret, userId, "16");
            Validate(mac, secret, Encode(TokenFields("0x10", userId, h)), userId, now) == Valid
  {
    var d := mac(secret, MacInput(userId, "16", secret));
    var h := TokenHash(mac, secret, userId, "16");
    assert forall k :: 0 <= k < |h| ==> h[k] == d[k];
    var f := TokenFields("0x10", userId, h);
    DecodeEncode(f);
    HexTimestamp();
  }

  /** `parseInt("0x10")` is sixteen, printed back as `16`. */
  lemma HexTimestamp()
    ensures ParseInt("0x10") == Int(16)
    ensures NumberToString(Int(16)) == "16"
  {
    HexTen();
    assert NatToString(16) == "16" by {
      assert NatToString(1) == "1";
    }
  }

  /** The hex digits `10` denote sixteen. */
  lemma HexTen()
    ensures ParseInt("0x10") == Int(16)
  {
    var u := "0x10"[2..];
    assert u == "10";
    assert HexRun(u) == 2;
    assert u[..2] == "10";
    assert HexValue("10") == 16 by {
      assert "10"[..1] == "1";
      assert "1"[..0] == "";
    }
  }

  /** A timestamp field that `parseInt` reads as `NaN` makes the age `NaN`,
      which is never greater than the limit: such a token is never refused as
      expired, at any time, and its hash is checked over the text `NaN`. */
  lemma NaNTimestampNeverExpires(mac: Mac, secret: string, f: TokenFields, userId: string, now: int)
    requires SeparatorFree(f) && f.userId == userId
    requires ParseInt(f.timestamp).NaN?
    ensures Validate(mac, secret, Encode(f), userId, now) != Expired
    ensures f.hash == TokenHash(mac, secret, userId, "NaN") ==> Validate(mac, secret, Encode(f), userId, now) == Valid
  {
    DecodeEncode(f);
  }
}
