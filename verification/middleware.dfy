/** `userIdentity`, the middleware guarding `/logout` and `/me`, and
    `getUserId`, which reads back what it stored. */
module Middleware {
  import opened Wrappers
  import opened Domain
  import opened Http
  import opened GoStrings
  import opened AuthService

  /** The gin context key the user id is stored under. */
  const UserCtx: string := "UserId"

  /** A value in the gin context: a `uuid.UUID`, or a value of another type. */
  datatype CtxValue = UuidValue(id: Uuid) | OtherValue

  /** The keys of a gin context. */
  type Keys = map<string, CtxValue>

  /** What the middleware does with the request: abort with a response (the
      chain stops), or continue with the context keys it leaves behind. */
  datatype Verdict = Abort(response: Response) | Next(keys: Keys)

  /** `userIdentity`: an empty header is 400; a header that does not split on
      " " into exactly two parts is 400; otherwise the SECOND part alone is
      parsed as an access token (the first part, the scheme, is never
      looked at), 401 when that fails, and on success the user id is stored
      under "UserId" and the chain continues. */
  function UserIdentity(svc: Service, header: string, keys: Keys, now: nat): (v: Verdict)
    ensures header == "" ==> v == Abort(ErrorResponse(400, Text("empty auth header")))
    ensures header != "" && Count(header, ' ') != 1 ==> v == Abort(ErrorResponse(400, Text("invalid auth header")))
    ensures v.Next? <==>
      (header != "" && Count(header, ' ') == 1 && ParseAccessToken(svc, Split(header, ' ')[1], now).Ok?)
    ensures v.Next? ==> v.keys == keys[UserCtx := UuidValue(ParseAccessToken(svc, Split(header, ' ')[1], now).value)]
    ensures v.Abort? && header != "" && Count(header, ' ') == 1 ==>
      v.response == ErrorResponse(401, Because(ParseAccessToken(svc, Split(header, ' ')[1], now).error))
  {
    if header == "" then Abort(ErrorResponse(StatusBadRequest, Text("empty auth header")))
    else
      var headerParts := Split(header, ' ');
      if |headerParts| != 2 then Abort(ErrorResponse(StatusBadRequest, Text("invalid auth header")))
      else match ParseAccessToken(svc, headerParts[1], now)
        case Err(e) => Abort(ErrorResponse(StatusUnauthorized, Because(e)))
        case Ok(userId) => Next(keys[UserCtx := UuidValue(userId)])
  }

  /** `getUserId`: `ErrUserNotAuthorized` when the key is missing or holds
      something other than a uuid; otherwise the stored id. */
  function GetUserId(keys: Keys): (r: Result<Uuid, Error>)
    ensures r.Ok? <==> UserCtx in keys && keys[UserCtx].UuidValue?
    ensures r.Ok? ==> keys[UserCtx] == UuidValue(r.value)
    ensures r.Err? ==> r.error == UserNotAuthorized
  {
    if UserCtx !in keys then Err(UserNotAuthorized)
    else match keys[UserCtx]
      case UuidValue(id) => Ok(id)
      case OtherValue => Err(UserNotAuthorized)
  }

  /** A header of two space-free words: whatever the first word is, the
      verdict is that of parsing the second word as an access token. */
  lemma TwoWordHeader(svc: Service, scheme: string, token: string, keys: Keys, now: nat)
    requires ' ' !in scheme && ' ' !in token
    ensures var v := UserIdentity(svc, scheme + " " + token, keys, now);
      match ParseAccessToken(svc, token, now)
      case Ok(id) => v == Next(keys[UserCtx := UuidValue(id)])
      case Err(e) => v == Abort(ErrorResponse(401, Because(e)))
  {
    SplitTwoWords(scheme, token, ' ');
  }

  /** A header without any space, e.g. a bare token, is refused with 400. */
  lemma BareTokenRefused(svc: Service, header: string, keys: Keys, now: nat)
    requires header != "" && ' ' !in header
    ensures UserIdentity(svc, header, keys, now) == Abort(ErrorResponse(400, Text("invalid auth header")))
  {
    CountZero(header, ' ');
  }

  /** A double space between scheme and token, or a third word, makes more
      than two parts: 400. */
  lemma ExtraSpaceRefused(svc: Service, scheme: string, token: string, keys: Keys, now: nat)
    ensures UserIdentity(svc, scheme + "  " + token, keys, now) == Abort(ErrorResponse(400, Text("invalid auth header")))
  {
    SpacesCounted(scheme, token);
  }

  /** Two adjacent spaces count as two. */
  lemma {:induction false} SpacesCounted(a: string, b: string)
    ensures Count(a + "  " + b, ' ') >= 2
    decreases |a|
  {
    if |a| == 0 {
      assert (a + "  " + b)[1..] == " " + b;
      assert (" " + b)[1..] == b;
    } else {
      assert (a + "  " + b)[1..] == a[1..] + "  " + b;
      SpacesCounted(a[1..], b);
    }
  }

  /** What the middleware stores, `getUserId` reads back. */
  lemma IdentityThenGetUserId(svc: Service, header: string, keys: Keys, now: nat)
    requires UserIdentity(svc, header, keys, now).Next?
    ensures GetUserId(UserIdentity(svc, header, keys, now).keys) == Ok(ParseAccessToken(svc, Split(header, ' ')[1], now).value)
  {
  }
}
