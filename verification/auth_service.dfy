/** The auth use case: register, login, refresh-token rotation, logout and
    identity lookup, over the user store. Each operation takes the store and
    returns the store after it; the clock (`now`, in seconds), the bcrypt
    salt and the id the database generates are inputs. Logging is left out. */
module AuthService {
  import opened Wrappers
  import opened Domain
  import opened Passwords
  import opened UserStore
  import Jwt

  /** `ServiceAuth`: the token manager, bcrypt and the uuid library. */
  datatype Service = Service(tokens: Jwt.TokenManager, hasher: Bcrypt, uuids: UuidFormat)

  /** The laws of the three libraries, assumed by the lemmas only. */
  ghost predicate Lawful(svc: Service) {
    Jwt.LawfulCodec(svc.tokens.codec) && SoundBcrypt(svc.hasher) && LawfulUuidFormat(svc.uuids)
  }

  /** An access token and a refresh token, as Login and Refresh return them. */
  datatype TokenPair = TokenPair(access: string, refresh: string)

  /** The pair of tokens issued for a user at time `now`, each for the id's
      text. With lawful libraries both parse back, at issue time, to that
      id, each as its own kind, and the two tokens differ. */
  function Issue(svc: Service, id: Uuid, now: nat): (pair: TokenPair)
    ensures Jwt.LawfulCodec(svc.tokens.codec) && LawfulUuidFormat(svc.uuids) ==>
      && Subject(svc, Jwt.ParseAccessToken(svc.tokens, pair.access, now)) == Ok(id)
      && Subject(svc, Jwt.ParseRefreshToken(svc.tokens, pair.refresh, now)) == Ok(id)
      && pair.access != pair.refresh
  {
    var subject := svc.uuids.format(id);
    TokenPair(Jwt.NewAccessToken(svc.tokens, subject, now), Jwt.NewRefreshToken(svc.tokens, subject, now))
  }

  /** `Register`: hash the password, then create the user with the hash in
      place of the password. A hashing failure returns before the store is
      touched. */
  function Register(svc: Service, store: Store, user: User, salt: Salt, newId: Uuid): (o: Outcome<Uuid>)
    ensures svc.hasher.generate(user.password, salt).None? ==> o == Outcome(Err(HashingFailed), store)
    ensures o.result.Err? ==> o.store == store
    ensures o.result.Ok? ==> o.result.value == newId && newId !in store
    ensures o.result.Ok? ==>
      && o.store.Keys == store.Keys + {newId}
      && o.store[newId] == UserRow(user.username, user.email, user.firstName, user.lastName,
                                   svc.hasher.generate(user.password, salt).value, None)
      && (forall id :: id in store ==> o.store[id] == store[id])
    ensures svc.hasher.generate(user.password, salt).Some? && newId !in store ==> o.result == Ok(newId)
    ensures svc.hasher.generate(user.password, salt).Some? && newId in store ==> o == Outcome(Err(DuplicateKey), store)
    ensures Lawful(svc) && o.result.Ok? ==> svc.hasher.compare(o.store[newId].passwordHash, user.password)
  {
    match HashPassword(svc.hasher, user.password, salt)
    case Err(e) => Outcome(Err(e), store)
    case Ok(hash) => CreateUser(store, user.(password := hash), newId)
  }

  /** `Login`: look the user up by username, check the password against the
      stored hash, issue both tokens, and save the refresh token in place of
      any previous one. An unknown username and a wrong password are
      different errors, and neither saves anything. */
  ghost function Login(svc: Service, store: Store, username: string, password: string, now: nat): (o: Outcome<TokenPair>)
    ensures o.result.Err? ==> o.store == store
    ensures o.result.Err? ==> o.result.error == NoRows || o.result.error == PasswordMismatch
    ensures (forall id :: id in store ==> store[id].username != username) <==> o.result == Err(NoRows)
    ensures GetUserByUsername(store, username).Ok? ==>
      (o.result.Ok? <==> svc.hasher.compare(GetUserByUsername(store, username).value.password, password))
    ensures o.result.Ok? ==>
      exists id :: id in store
        && store[id].username == username
        && svc.hasher.compare(store[id].passwordHash, password)
        && o.result.value == Issue(svc, id, now)
        && o.store == SaveRefreshToken(store, id, o.result.value.refresh)
  {
    match GetUserByUsername(store, username)
    case Err(e) => Outcome(Err(e), store)
    case Ok(user) =>
      match CheckPassword(svc.hasher, password, user.password)
      case Err(e) => Outcome(Err(e), store)
      case Ok(_) =>
        var pair := Issue(svc, user.id, now);
        Outcome(Ok(pair), SaveRefreshToken(store, user.id, pair.refresh))
  }

  /** The user id a token of the given kind names: the token manager's parse,
      then `uuid.Parse` of the `user_id` claim. */
  function Subject(svc: Service, parsed: Result<string, Error>): (r: Result<Uuid, Error>)
    ensures r.Ok? <==> parsed.Ok? && svc.uuids.parse(parsed.value).Some?
    ensures r.Ok? ==> svc.uuids.parse(parsed.value) == Some(r.value)
    ensures parsed.Err? ==> r == Err(parsed.error)
    ensures parsed.Ok? && svc.uuids.parse(parsed.value).None? ==> r == Err(InvalidUuid)
  {
    match parsed
    case Err(e) => Err(e)
    case Ok(s) =>
      match svc.uuids.parse(s)
      case None => Err(InvalidUuid)
      case Some(id) => Ok(id)
  }

  /** `ParseAccessToken`: the id an access token names, or why not. */
  function ParseAccessToken(svc: Service, token: string, now: nat): (r: Result<Uuid, Error>)
    ensures r.Ok? <==>
      (Jwt.ParseAccessToken(svc.tokens, token, now).Ok?
       && svc.uuids.IsUuid(Jwt.ParseAccessToken(svc.tokens, token, now).value))
    ensures r.Ok? ==> svc.uuids.parse(Jwt.ParseAccessToken(svc.tokens, token, now).value) == Some(r.value)
  {
    Subject(svc, Jwt.ParseAccessToken(svc.tokens, token, now))
  }

  /** `Logout`: clear the refresh token of the user the access token names.
      An invalid token or a subject that is not a uuid changes nothing. */
  function Logout(svc: Service, store: Store, accessToken: string, now: nat): (o: Outcome<()>)
    ensures o.result.Err? <==> ParseAccessToken(svc, accessToken, now).Err?
    ensures o.result.Err? ==> o.store == store && o.result.error == ParseAccessToken(svc, accessToken, now).error
    ensures o.result.Ok? ==> o.store == DeleteRefreshToken(store, ParseAccessToken(svc, accessToken, now).value)
  {
    match ParseAccessToken(svc, accessToken, now)
    case Err(e) => Outcome(Err(e), store)
    case Ok(id) => Outcome(Ok(()), DeleteRefreshToken(store, id))
  }

  /** `Me`: the profile of the user the access token names, exactly as the
      store's by-id read returns it. */
  function Me(svc: Service, store: Store, accessToken: string, now: nat): (r: Result<User, Error>)
    ensures ParseAccessToken(svc, accessToken, now).Err? ==> r == Err(ParseAccessToken(svc, accessToken, now).error)
    ensures ParseAccessToken(svc, accessToken, now).Ok? ==>
      r == GetUserByID(store, ParseAccessToken(svc, accessToken, now).value)
    ensures r.Ok? ==> r.value.password == "" && r.value.refreshToken.None?
  {
    match ParseAccessToken(svc, accessToken, now)
    case Err(e) => Err(e)
    case Ok(id) => GetUserByID(store, id)
  }

  /** `Refresh`: the presented token must parse as a refresh token, name a
      uuid, and equal the token stored for that user; then a new pair is
      issued and the new refresh token replaces the stored one. Every
      failure leaves the store as it was. */
  function Refresh(svc: Service, store: Store, refreshToken: string, now: nat): (o: Outcome<TokenPair>)
    ensures o.result.Err? ==> o.store == store
    ensures var sub := Subject(svc, Jwt.ParseRefreshToken(svc.tokens, refreshToken, now));
      && (sub.Err? ==> o.result == Err(sub.error))
      && (sub.Ok? && GetRefreshToken(store, sub.value).Err? ==> o.result == Err(GetRefreshToken(store, sub.value).error))
      && (sub.Ok? && GetRefreshToken(store, sub.value).Ok? && GetRefreshToken(store, sub.value).value != refreshToken ==>
            o.result == Err(InvalidRefreshToken))
    ensures o.result.Ok? <==>
      exists id :: id in store
        && Subject(svc, Jwt.ParseRefreshToken(svc.tokens, refreshToken, now)) == Ok(id)
        && store[id].refreshToken == Some(refreshToken)
    ensures o.result.Ok? ==>
      exists id :: id in store
        && Subject(svc, Jwt.ParseRefreshToken(svc.tokens, refreshToken, now)) == Ok(id)
        && store[id].refreshToken == Some(refreshToken)
        && o.result.value == Issue(svc, id, now)
        && o.store == SaveRefreshToken(store, id, o.result.value.refresh)
  {
    match Subject(svc, Jwt.ParseRefreshToken(svc.tokens, refreshToken, now))
    case Err(e) => Outcome(Err(e), store)
    case Ok(id) =>
      match GetRefreshToken(store, id)
      case Err(e) => Outcome(Err(e), store)
      case Ok(dbToken) =>
        if dbToken != refreshToken then Outcome(Err(InvalidRefreshToken), store)
        else
          var pair := Issue(svc, id, now);
          Outcome(Ok(pair), SaveRefreshToken(store, id, pair.refresh))
  }
}
