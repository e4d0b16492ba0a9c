/** The token manager: issuing and parsing HS256-signed JWTs (RFC 7519) that
    carry a user id and a token type.

    A token is modelled by what it says, not by its bytes: the header's
    algorithm, the claim set, and the key its signature was computed with.
    HMAC is not modelled: a signature verifies under a key exactly when it
    was made with that key. The compact serialisation (RFC 7515 section 7.1)
    is the `Codec` parameter. */
module Jwt {
  import opened Wrappers
  import opened Domain

  /** Token lifetimes in seconds, the resolution of `jwt.NumericDate`. */
  const AccessTtl: nat := 30 * 60
  const RefreshTtl: nat := 7 * 24 * 60 * 60

  /** Values of the custom `type` claim. */
  const AccessTokenType: string := "access"
  const RefreshTokenType: string := "refresh"

  /** The `iss` claim of every token this service issues. */
  const TokenIssuer: string := "auth-service"

  /** An HMAC secret, `[]byte(key)`. */
  type Key = string

  /** The `alg` header: the HMAC family, anything else the library knows. */
  datatype Alg = HS256 | HS384 | HS512 | Asymmetric(name: string) | Unsecured

  /** The `*jwt.SigningMethodHMAC` type assertion of the key function. */
  predicate IsHmac(a: Alg) {
    a.HS256? || a.HS384? || a.HS512?
  }

  /** The claim set: registered claims `iss`, `sub`, `exp`, `nbf` and `iat`
      (RFC 7519 section 4.1), then the custom `user_id` and `type`. A token
      that was not issued here may lack the dates; this service never sets
      `nbf`. */
  datatype Claims = Claims(
    issuer: string,
    subject: string,
    expiresAt: Option<int>,
    notBefore: Option<int>,
    issuedAt: Option<int>,
    userId: string,
    tokenType: string)

  /** A decoded JWS: header algorithm, claims, and the signing key. */
  datatype Token = Token(alg: Alg, claims: Claims, signedWith: Key)

  /** The library's compact serialisation: `encode` is `SignedString`,
      `decode` is the segment and JSON decoding of `ParseWithClaims`
      (`None` for a string it cannot read). */
  datatype Codec = Codec(encode: Token -> string, decode: string -> Option<Token>)

  /** What the model assumes of the serialisation: decoding undoes encoding,
      and a decodable string is three base64url segments joined by dots (the
      JWS compact serialisation of section 7.1 of RFC 7515), so it holds a
      dot and no space. */
  ghost predicate LawfulCodec(c: Codec) {
    && (forall t: Token :: c.decode(c.encode(t)) == Some(t))
    && (forall s: string :: c.decode(s).Some? ==> '.' in s && ' ' !in s)
  }

  /** `TokenManager`: one key per token kind, plus the serialisation. */
  datatype TokenManager = TokenManager(accessKey: Key, refreshKey: Key, codec: Codec)

  /** The claims `newToken` builds at time `now`. */
  function Minted(userId: string, tokenType: string, ttl: nat, key: Key, now: nat): Token {
    Token(HS256, Claims(TokenIssuer, userId, Some(now + ttl), None, Some(now), userId, tokenType), key)
  }

  /** `newToken`: the serialised HS256 token for the user, the type, the
      lifetime and the key. With a lawful codec it reads back as exactly
      those claims, and holds no space. */
  function NewToken(m: TokenManager, userId: string, tokenType: string, ttl: nat, key: Key, now: nat): (s: string)
    ensures LawfulCodec(m.codec) ==>
      m.codec.decode(s) == Some(Token(HS256, Claims("auth-service", userId, Some(now + ttl), None, Some(now), userId, tokenType), key))
    ensures LawfulCodec(m.codec) ==> ' ' !in s
  {
    m.codec.encode(Minted(userId, tokenType, ttl, key, now))
  }

  /** `NewAccessToken`: an "access" token, 30 minutes, the access key. */
  function NewAccessToken(m: TokenManager, userId: string, now: nat): (s: string)
    ensures LawfulCodec(m.codec) ==>
      m.codec.decode(s) == Some(Token(HS256, Claims("auth-service", userId, Some(now + 1800), None, Some(now), userId, "access"), m.accessKey))
  {
    NewToken(m, userId, AccessTokenType, AccessTtl, m.accessKey, now)
  }

  /** `NewRefreshToken`: a "refresh" token, 7 days, the refresh key. */
  function NewRefreshToken(m: TokenManager, userId: string, now: nat): (s: string)
    ensures LawfulCodec(m.codec) ==>
      m.codec.decode(s) == Some(Token(HS256, Claims("auth-service", userId, Some(now + 604800), None, Some(now), userId, "refresh"), m.refreshKey))
  {
    NewToken(m, userId, RefreshTokenType, RefreshTtl, m.refreshKey, now)
  }

  /** An issued access token reads back as: HS256, issuer "auth-service",
      subject and user id both `userId`, issued now, expiring 30 minutes
      later, type "access", signed with the access key. */
  lemma IssuedAccessToken(m: TokenManager, userId: string, now: nat)
    requires LawfulCodec(m.codec)
    ensures m.codec.decode(NewAccessToken(m, userId, now))
         == Some(Token(HS256, Claims("auth-service", userId, Some(now + 1800), None, Some(now), userId, "access"), m.accessKey))
  {
  }

  /** An issued refresh token reads back the same way, with type "refresh",
      a lifetime of seven days and the refresh key. */
  lemma IssuedRefreshToken(m: TokenManager, userId: string, now: nat)
    requires LawfulCodec(m.codec)
    ensures m.codec.decode(NewRefreshToken(m, userId, now))
         == Some(Token(HS256, Claims("auth-service", userId, Some(now + 604800), None, Some(now), userId, "refresh"), m.refreshKey))
  {
  }

  /** Issuing is deterministic and the claims pin the string down: two
      refresh tokens are equal exactly when they were issued for the same
      user id in the same second. There is no `jti` claim to tell them apart. */
  lemma RefreshTokensCollide(m: TokenManager, u1: string, t1: nat, u2: string, t2: nat)
    requires LawfulCodec(m.codec)
    ensures NewRefreshToken(m, u1, t1) == NewRefreshToken(m, u2, t2) <==> u1 == u2 && t1 == t2
  {
    if NewRefreshToken(m, u1, t1) == NewRefreshToken(m, u2, t2) {
      IssuedRefreshToken(m, u1, t1);
      IssuedRefreshToken(m, u2, t2);
    }
  }

  /** The library's `exp` check with no leeway: a token is valid strictly
      before its expiry; a token without `exp` never expires. */
  predicate Expired(c: Claims, now: nat) {
    c.expiresAt.Some? && now >= c.expiresAt.value
  }

  /** The library's `nbf` check with no leeway: a token is not yet valid
      strictly before its not-before time; a token without `nbf` always
      passes. */
  predicate NotYetValid(c: Claims, now: nat) {
    c.notBefore.Some? && now < c.notBefore.value
  }

  /** Everything `parse` demands of a decoded token, in no particular order. */
  predicate Acceptable(t: Token, expectedType: string, key: Key, now: nat) {
    && IsHmac(t.alg)
    && t.signedWith == key
    && !Expired(t.claims, now)
    && !NotYetValid(t.claims, now)
    && t.claims.tokenType == expectedType
    && t.claims.issuer == TokenIssuer
  }

  /** `parse`: the library's checks (decoding, the key function's algorithm
      check, signature, expiry, not-before), then the type, then the issuer.
      The result is the `user_id` claim, not `sub`. */
  function Parse(m: TokenManager, tokenStr: string, expectedType: string, key: Key, now: nat): (r: Result<string, Error>)
    ensures r.Ok? <==> m.codec.decode(tokenStr).Some? && Acceptable(m.codec.decode(tokenStr).value, expectedType, key, now)
    ensures r.Ok? ==> r.value == m.codec.decode(tokenStr).value.claims.userId
    ensures m.codec.decode(tokenStr).None? ==> r == Err(TokenMalformed)
  {
    match m.codec.decode(tokenStr)
    case None => Err(TokenMalformed)
    case Some(t) =>
      if !IsHmac(t.alg) then Err(UnexpectedSigningMethod)
      else if t.signedWith != key then Err(SignatureInvalid)
      else if Expired(t.claims, now) then Err(TokenExpired)
      else if NotYetValid(t.claims, now) then Err(TokenNotValidYet)
      else if t.claims.tokenType != expectedType then Err(InvalidTokenType)
      else if t.claims.issuer != TokenIssuer then Err(InvalidTokenIssuer)
      else Ok(t.claims.userId)
  }

  /** `ParseAccessToken`: accepts only tokens of type "access" signed with
      the access key. */
  function ParseAccessToken(m: TokenManager, tokenStr: string, now: nat): (r: Result<string, Error>)
    ensures r.Ok? <==>
      && m.codec.decode(tokenStr).Some?
      && Acceptable(m.codec.decode(tokenStr).value, "access", m.accessKey, now)
    ensures r.Ok? ==> r.value == m.codec.decode(tokenStr).value.claims.userId
  {
    Parse(m, tokenStr, AccessTokenType, m.accessKey, now)
  }

  /** `ParseRefreshToken`: accepts only tokens of type "refresh" signed with
      the refresh key. */
  function ParseRefreshToken(m: TokenManager, tokenStr: string, now: nat): (r: Result<string, Error>)
    ensures r.Ok? <==>
      && m.codec.decode(tokenStr).Some?
      && Acceptable(m.codec.decode(tokenStr).value, "refresh", m.refreshKey, now)
    ensures r.Ok? ==> r.value == m.codec.decode(tokenStr).value.claims.userId
  {
    Parse(m, tokenStr, RefreshTokenType, m.refreshKey, now)
  }

  /** An algorithm outside the HMAC family is refused before the signature
      or any claim is looked at. */
  lemma NonHmacRefusedFirst(m: TokenManager, s: string, expectedType: string, key: Key, now: nat)
    requires m.codec.decode(s).Some? && !IsHmac(m.codec.decode(s).value.alg)
    ensures Parse(m, s, expectedType, key, now) == Err(UnexpectedSigningMethod)
  {
  }

  /** The key is the one the caller expects, whatever the token claims to
      be: an HMAC token signed with another key is refused for its signature,
      expired or not, of either type. */
  lemma WrongKeyRefused(m: TokenManager, s: string, expectedType: string, key: Key, now: nat)
    requires m.codec.decode(s).Some?
    requires IsHmac(m.codec.decode(s).value.alg) && m.codec.decode(s).value.signedWith != key
    ensures Parse(m, s, expectedType, key, now) == Err(SignatureInvalid)
  {
  }

  /** The library also honours `nbf`, which this service never sets: a
      correctly signed, unexpired token whose not-before time is still ahead
      is refused, before its type or issuer is looked at. */
  lemma NotYetValidRefused(m: TokenManager, s: string, expectedType: string, key: Key, now: nat)
    requires m.codec.decode(s).Some?
    requires var t := m.codec.decode(s).value;
      IsHmac(t.alg) && t.signedWith == key && !Expired(t.claims, now) && NotYetValid(t.claims, now)
    ensures Parse(m, s, expectedType, key, now) == Err(TokenNotValidYet)
  {
  }

  /** The type claim is checked on its own: a token whose signature verifies
      and that has not expired is still refused when its type is not the
      expected one, before its issuer is looked at. */
  lemma WrongTypeRefused(m: TokenManager, s: string, expectedType: string, key: Key, now: nat)
    requires m.codec.decode(s).Some?
    requires var t := m.codec.decode(s).value;
      && IsHmac(t.alg) && t.signedWith == key && !Expired(t.claims, now) && !NotYetValid(t.claims, now)
      && t.claims.tokenType != expectedType
    ensures Parse(m, s, expectedType, key, now) == Err(InvalidTokenType)
  {
  }

  /** A token passing every other check is refused when its issuer is not
      "auth-service". */
  lemma WrongIssuerRefused(m: TokenManager, s: string, expectedType: string, key: Key, now: nat)
    requires m.codec.decode(s).Some?
    requires var t := m.codec.decode(s).value;
      && IsHmac(t.alg) && t.signedWith == key && !Expired(t.claims, now) && !NotYetValid(t.claims, now)
      && t.claims.tokenType == expectedType && t.claims.issuer != "auth-service"
    ensures Parse(m, s, expectedType, key, now) == Err(InvalidTokenIssuer)
  {
  }

  /** Round trip: an access token parsed as an access token before it
      expires yields the user id it was issued for; from its expiry on it is
      refused as expired. */
  lemma AccessRoundTrip(m: TokenManager, userId: string, issuedAt: nat, now: nat)
    requires LawfulCodec(m.codec)
    ensures now < issuedAt + AccessTtl ==> ParseAccessToken(m, NewAccessToken(m, userId, issuedAt), now) == Ok(userId)
    ensures now >= issuedAt + AccessTtl ==> ParseAccessToken(m, NewAccessToken(m, userId, issuedAt), now) == Err(TokenExpired)
  {
    IssuedAccessToken(m, userId, issuedAt);
  }

  /** The same round trip for refresh tokens, valid for seven days. */
  lemma RefreshRoundTrip(m: TokenManager, userId: string, issuedAt: nat, now: nat)
    requires LawfulCodec(m.codec)
    ensures now < issuedAt + RefreshTtl ==> ParseRefreshToken(m, NewRefreshToken(m, userId, issuedAt), now) == Ok(userId)
    ensures now >= issuedAt + RefreshTtl ==> ParseRefreshToken(m, NewRefreshToken(m, userId, issuedAt), now) == Err(TokenExpired)
  {
    IssuedRefreshToken(m, userId, issuedAt);
  }

  /** An access token is never accepted where a refresh token is expected.
      With distinct keys the signature already fails; with equal keys the
      type claim (or the shorter expiry) refuses it. */
  lemma AccessTokenNotARefreshToken(m: TokenManager, userId: string, issuedAt: nat, now: nat)
    requires LawfulCodec(m.codec)
    ensures ParseRefreshToken(m, NewAccessToken(m, userId, issuedAt), now).Err?
    ensures m.accessKey != m.refreshKey ==>
      ParseRefreshToken(m, NewAccessToken(m, userId, issuedAt), now) == Err(SignatureInvalid)
    ensures m.accessKey == m.refreshKey && now < issuedAt + AccessTtl ==>
      ParseRefreshToken(m, NewAccessToken(m, userId, issuedAt), now) == Err(InvalidTokenType)
  {
    IssuedAccessToken(m, userId, issuedAt);
  }

  /** Nor is a refresh token accepted where an access token is expected. */
  lemma RefreshTokenNotAnAccessToken(m: TokenManager, userId: string, issuedAt: nat, now: nat)
    requires LawfulCodec(m.codec)
    ensures ParseAccessToken(m, NewRefreshToken(m, userId, issuedAt), now).Err?
    ensures m.accessKey != m.refreshKey ==>
      ParseAccessToken(m, NewRefreshToken(m, userId, issuedAt), now) == Err(SignatureInvalid)
    ensures m.accessKey == m.refreshKey && now < issuedAt + RefreshTtl ==>
      ParseAccessToken(m, NewRefreshToken(m, userId, issuedAt), now) == Err(InvalidTokenType)
  {
    IssuedRefreshToken(m, userId, issuedAt);
  }

  /** A string holding a space is never a token, so parsing refuses it. */
  lemma SpacedStringMalformed(m: TokenManager, s: string, expectedType: string, key: Key, now: nat)
    requires LawfulCodec(m.codec) && ' ' in s
    ensures Parse(m, s, expectedType, key, now) == Err(TokenMalformed)
  {
  }

  /** Issued tokens hold no space, so they survive the middleware's split. */
  lemma IssuedTokensHaveNoSpace(m: TokenManager, userId: string, now: nat)
    requires LawfulCodec(m.codec)
    ensures ' ' !in NewAccessToken(m, userId, now)
    ensures ' ' !in NewRefreshToken(m, userId, now)
  {
    IssuedAccessToken(m, userId, now);
    IssuedRefreshToken(m, userId, now);
  }
}
