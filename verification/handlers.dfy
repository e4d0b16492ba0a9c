/** The auth endpoints: request binding, the call into the use case, and the
    mapping of its outcome to a status code and body. */
module Handlers {
  import opened Wrappers
  import opened Domain
  import opened Passwords
  import opened UserStore
  import opened AuthService
  import opened Http
  import opened GoStrings
  import opened Middleware
  import opened Sessions
  import Jwt

  /** The handler's dependencies: the use case, and the validator's `email`
      rule (a pattern match the model takes as given). */
  datatype Handler = Handler(service: Service, isEmail: string -> bool)

  /** Request bodies. JSON absent fields decode as "". */
  datatype RegisterInput = RegisterInput(username: string, email: string, password: string, firstName: string, lastName: string)
  datatype LoginInput = LoginInput(username: string, password: string)
  datatype RefreshInput = RefreshInput(refreshToken: string)

  /** A response together with the store after the request. */
  datatype Exchange = Exchange(response: Response, store: Store)

  /** `ShouldBindJSON` for a register body: `None` is a body that is not JSON
      of that shape. All five fields are required (non-empty), the email must
      look like one, and the password must have at least 6 characters. */
  function BindRegister(h: Handler, body: Option<RegisterInput>): (r: Result<RegisterInput, Error>)
    ensures r.Ok? <==>
      && body.Some?
      && body.value.username != "" && body.value.email != "" && body.value.password != ""
      && body.value.firstName != "" && body.value.lastName != ""
      && h.isEmail(body.value.email) && |body.value.password| >= 6
    ensures r.Ok? ==> r.value == body.value
    ensures r.Err? ==> r.error == BindingFailed
  {
    match body
    case None => Err(BindingFailed)
    case Some(input) =>
      if input.username == "" || input.email == "" || input.password == ""
         || input.firstName == "" || input.lastName == "" then Err(BindingFailed)
      else if !h.isEmail(input.email) || |input.password| < 6 then Err(BindingFailed)
      else Ok(input)
  }

  /** `ShouldBindJSON` for a login body: both fields required. */
  function BindLogin(body: Option<LoginInput>): (r: Result<LoginInput, Error>)
    ensures r.Ok? <==> body.Some? && body.value.username != "" && body.value.password != ""
    ensures r.Ok? ==> r.value == body.value
    ensures r.Err? ==> r.error == BindingFailed
  {
    match body
    case None => Err(BindingFailed)
    case Some(input) =>
      if input.username == "" || input.password == "" then Err(BindingFailed) else Ok(input)
  }

  /** `ShouldBindJSON` for a refresh body: the token is required. */
  function BindRefresh(body: Option<RefreshInput>): (r: Result<RefreshInput, Error>)
    ensures r.Ok? <==> body.Some? && body.value.refreshToken != ""
    ensures r.Ok? ==> r.value == body.value
    ensures r.Err? ==> r.error == BindingFailed
  {
    match body
    case None => Err(BindingFailed)
    case Some(input) => if input.refreshToken == "" then Err(BindingFailed) else Ok(input)
  }

  /** `signUp`: 400 without calling the service when binding fails; 500 on
      any service error; otherwise 201 with the new id as text. */
  function SignUp(h: Handler, store: Store, body: Option<RegisterInput>, salt: Salt, newId: Uuid): (x: Exchange)
    ensures BindRegister(h, body).Err? ==> x == Exchange(ErrorResponse(400, Because(BindingFailed)), store)
    ensures BindRegister(h, body).Ok? ==>
      var input := body.value;
      var user := User(newId, input.username, input.email, input.firstName, input.lastName, input.password, None);
      var o := Register(h.service, store, user, salt, newId);
      && x.store == o.store
      && (o.result.Err? ==> x.response == ErrorResponse(500, Because(o.result.error)))
      && (o.result.Ok? ==> x.response == Response(201, RegisterBody(h.service.uuids.format(newId))))
  {
    match BindRegister(h, body)
    case Err(e) => Exchange(ErrorResponse(StatusBadRequest, Because(e)), store)
    case Ok(input) =>
      var user := User(newId, input.username, input.email, input.firstName, input.lastName, input.password, None);
      var o := Register(h.service, store, user, salt, newId);
      match o.result
      case Err(e) => Exchange(ErrorResponse(StatusInternalServerError, Because(e)), o.store)
      case Ok(id) => Exchange(Response(StatusCreated, RegisterBody(h.service.uuids.format(id))), o.store)
  }

  /** `signIn`: 400 when binding fails; every login error, an unknown user
      and a wrong password alike, is 500; otherwise 200 with both tokens. */
  ghost function SignIn(h: Handler, store: Store, body: Option<LoginInput>, now: nat): (x: Exchange)
    ensures BindLogin(body).Err? ==> x == Exchange(ErrorResponse(400, Because(BindingFailed)), store)
    ensures BindLogin(body).Ok? ==>
      var o := Login(h.service, store, body.value.username, body.value.password, now);
      && x.store == o.store
      && (o.result.Err? ==> x.response == ErrorResponse(500, Because(o.result.error)))
      && (o.result.Ok? ==> x.response == Response(200, TokensBody(o.result.value.access, o.result.value.refresh)))
  {
    match BindLogin(body)
    case Err(e) => Exchange(ErrorResponse(StatusBadRequest, Because(e)), store)
    case Ok(input) =>
      var o := Login(h.service, store, input.username, input.password, now);
      match o.result
      case Err(e) => Exchange(ErrorResponse(StatusInternalServerError, Because(e)), o.store)
      case Ok(pair) => Exchange(Response(StatusOK, TokensBody(pair.access, pair.refresh)), o.store)
  }

  /** `refresh`: 400 when binding fails; every refresh error is 401;
      otherwise 200 with both new tokens. */
  function RefreshTokens(h: Handler, store: Store, body: Option<RefreshInput>, now: nat): (x: Exchange)
    ensures BindRefresh(body).Err? ==> x == Exchange(ErrorResponse(400, Because(BindingFailed)), store)
    ensures BindRefresh(body).Ok? ==>
      var o := Refresh(h.service, store, body.value.refreshToken, now);
      && x.store == o.store
      && (o.result.Err? ==> x.response == ErrorResponse(401, Because(o.result.error)))
      && (o.result.Ok? ==> x.response == Response(200, TokensBody(o.result.value.access, o.result.value.refresh)))
  {
    match BindRefresh(body)
    case Err(e) => Exchange(ErrorResponse(StatusBadRequest, Because(e)), store)
    case Ok(input) =>
      var o := Refresh(h.service, store, input.refreshToken, now);
      match o.result
      case Err(e) => Exchange(ErrorResponse(StatusUnauthorized, Because(e)), o.store)
      case Ok(pair) => Exchange(Response(StatusOK, TokensBody(pair.access, pair.refresh)), o.store)
  }

  /** The token `logout` and `me` read: the Authorization header with one
      leading "Bearer " removed if there is one, otherwise the header as is. */
  function BearerToken(header: string): (token: string)
    ensures "Bearer " <= header ==> header == "Bearer " + token
    ensures !("Bearer " <= header) ==> token == header
  {
    TrimPrefix(header, "Bearer ")
  }

  /** `logout`: 401 on any service error, otherwise 200 "logged out". */
  function LogoutHandler(h: Handler, store: Store, header: string, now: nat): (x: Exchange)
    ensures var o := Logout(h.service, store, BearerToken(header), now);
      && x.store == o.store
      && (o.result.Err? ==> x.response == ErrorResponse(401, Because(o.result.error)))
      && (o.result.Ok? ==> x.response == Response(200, MessageBody("logged out")))
  {
    var o := Logout(h.service, store, BearerToken(header), now);
    match o.result
    case Err(e) => Exchange(ErrorResponse(StatusUnauthorized, Because(e)), o.store)
    case Ok(_) => Exchange(Response(StatusOK, MessageBody("logged out")), o.store)
  }

  /** The Me response: only id, username, email and names are projected;
      the id's text reads back as the id. */
  function MeView(h: Handler, user: User): (v: MeResponse)
    ensures LawfulUuidFormat(h.service.uuids) ==> h.service.uuids.parse(v.id) == Some(user.id)
    ensures v.username == user.username && v.email == user.email
    ensures v.firstName == user.firstName && v.lastName == user.lastName
  {
    MeResponse(h.service.uuids.format(user.id), user.username, user.email, user.firstName, user.lastName)
  }

  /** `me`: 401 on any service error, otherwise 200 with the profile. */
  function MeHandler(h: Handler, store: Store, header: string, now: nat): (x: Exchange)
    ensures x.store == store
    ensures var r := Me(h.service, store, BearerToken(header), now);
      && (r.Err? ==> x.response == ErrorResponse(401, Because(r.error)))
      && (r.Ok? ==> x.response == Response(200, MeBody(MeView(h, r.value))))
  {
    match Me(h.service, store, BearerToken(header), now)
    case Err(e) => Exchange(ErrorResponse(StatusUnauthorized, Because(e)), store)
    case Ok(user) => Exchange(Response(StatusOK, MeBody(MeView(h, user))), store)
  }

  /** A protected route: the middleware at `checkedAt`, then (if it lets the
      request through) the handler at `handledAt`, which reads the same
      header again and parses it again with its own clock reading. */
  function LogoutRoute(h: Handler, store: Store, header: string, checkedAt: nat, handledAt: nat): (x: Exchange)
    ensures UserIdentity(h.service, header, map[], checkedAt).Abort? ==>
      x == Exchange(UserIdentity(h.service, header, map[], checkedAt).response, store)
    ensures UserIdentity(h.service, header, map[], checkedAt).Next? ==> x == LogoutHandler(h, store, header, handledAt)
  {
    match UserIdentity(h.service, header, map[], checkedAt)
    case Abort(response) => Exchange(response, store)
    case Next(_) => LogoutHandler(h, store, header, handledAt)
  }

  function MeRoute(h: Handler, store: Store, header: string, checkedAt: nat, handledAt: nat): (x: Exchange)
    ensures UserIdentity(h.service, header, map[], checkedAt).Abort? ==>
      x == Exchange(UserIdentity(h.service, header, map[], checkedAt).response, store)
    ensures UserIdentity(h.service, header, map[], checkedAt).Next? ==> x == MeHandler(h, store, header, handledAt)
  {
    match UserIdentity(h.service, header, map[], checkedAt)
    case Abort(response) => Exchange(response, store)
    case Next(_) => MeHandler(h, store, header, handledAt)
  }

  /** A header of space-free words starts with "Bearer " exactly when its
      first word is "Bearer". */
  lemma BearerPrefixIffBearerScheme(scheme: string, token: string)
    requires ' ' !in scheme
    ensures "Bearer " <= scheme + " " + token <==> scheme == "Bearer"
  {
    var header := scheme + " " + token;
    if "Bearer " <= header {
      assert forall i :: 0 <= i < |scheme| ==> header[i] == scheme[i];
      assert header[6] == ' ';
      assert header[|scheme|] == ' ';
      assert |scheme| == 6;
      assert scheme == header[..6];
    }
  }

  /** "Bearer <token>" reaches both the middleware and the handler as the
      bare token. */
  lemma BearerHeaderToken(token: string)
    ensures BearerToken("Bearer " + token) == token
  {
    TrimPrefixOfConcat("Bearer ", token);
  }

  /** Any other scheme is not stripped: the middleware judges the second
      word alone, but the handler hands the whole header, scheme and space
      included, to the token parser, which refuses it. So such a request is
      always 401 and the store is unchanged. */
  lemma OtherSchemeRefused(h: Handler, store: Store, scheme: string, token: string, checkedAt: nat, handledAt: nat)
    requires Jwt.LawfulCodec(h.service.tokens.codec)
    requires ' ' !in scheme && ' ' !in token && scheme != "Bearer"
    ensures var header := scheme + " " + token;
      && BearerToken(header) == header
      && MeRoute(h, store, header, checkedAt, handledAt).response.status == 401
      && MeRoute(h, store, header, checkedAt, handledAt).store == store
      && LogoutRoute(h, store, header, checkedAt, handledAt).response.status == 401
      && LogoutRoute(h, store, header, checkedAt, handledAt).store == store
  {
    var header := scheme + " " + token;
    BearerPrefixIffBearerScheme(scheme, token);
    assert ' ' in header by { assert header[|scheme|] == ' '; }
    Jwt.SpacedStringMalformed(h.service.tokens, header, Jwt.AccessTokenType, h.service.tokens.accessKey, handledAt);
    TwoWordHeader(h.service, scheme, token, map[], checkedAt);
  }

  /** End to end: "Bearer " and a live access token issued for a stored user
      passes the middleware. If the token is still live when the handler
      parses it again, `/me` is 200 with the user's public profile and
      `/logout` is 200 with the user's refresh token cleared. If it expired
      in between, both are 401 `TokenExpired` and the store is unchanged. */
  lemma BearerRequestsSucceed(h: Handler, store: Store, id: Uuid, issuedAt: nat, checkedAt: nat, handledAt: nat)
    requires Lawful(h.service)
    requires id in store
    requires checkedAt < issuedAt + Jwt.AccessTtl
    ensures var header := "Bearer " + Issue(h.service, id, issuedAt).access;
      var row := store[id];
      && (handledAt < issuedAt + Jwt.AccessTtl ==>
            && MeRoute(h, store, header, checkedAt, handledAt)
               == Exchange(Response(200, MeBody(MeResponse(h.service.uuids.format(id), row.username, row.email, row.firstName, row.lastName))), store)
            && LogoutRoute(h, store, header, checkedAt, handledAt)
               == Exchange(Response(200, MessageBody("logged out")), DeleteRefreshToken(store, id)))
      && (handledAt >= issuedAt + Jwt.AccessTtl ==>
            && MeRoute(h, store, header, checkedAt, handledAt) == Exchange(ErrorResponse(401, Because(TokenExpired)), store)
            && LogoutRoute(h, store, header, checkedAt, handledAt) == Exchange(ErrorResponse(401, Because(TokenExpired)), store))
  {
    var token := Issue(h.service, id, issuedAt).access;
    Jwt.IssuedTokensHaveNoSpace(h.service.tokens, h.service.uuids.format(id), issuedAt);
    Jwt.AccessRoundTrip(h.service.tokens, h.service.uuids.format(id), issuedAt, checkedAt);
    Jwt.AccessRoundTrip(h.service.tokens, h.service.uuids.format(id), issuedAt, handledAt);
    assert ParseAccessToken(h.service, token, checkedAt) == Ok(id);
    assert "Bearer " + token == "Bearer" + " " + token;
    TwoWordHeader(h.service, "Bearer", token, map[], checkedAt);
    BearerHeaderToken(token);
    assert UserIdentity(h.service, "Bearer " + token, map[], checkedAt).Next?;
    if handledAt < issuedAt + Jwt.AccessTtl {
      assert Me(h.service, store, token, handledAt) == GetUserByID(store, id);
    }
  }

  /** Sign-up then sign-in over HTTP: a valid registration under an unused
      username and a fresh id is 201 with the new id, and signing in with
      the same username and password is then 200 with the pair issued for
      that id. */
  lemma SignUpThenSignIn(h: Handler, store: Store, input: RegisterInput, salt: Salt, newId: Uuid, now: nat)
    requires Lawful(h.service)
    requires BindRegister(h, Some(input)).Ok?
    requires Unclaimed(store, input.username) && newId !in store
    requires h.service.hasher.generate(input.password, salt).Some?
    ensures var up := SignUp(h, store, Some(input), salt, newId);
      var pair := Issue(h.service, newId, now);
      && up.response == Response(201, RegisterBody(h.service.uuids.format(newId)))
      && SignIn(h, up.store, Some(LoginInput(input.username, input.password)), now).response
         == Response(200, TokensBody(pair.access, pair.refresh))
  {
    var user := User(newId, input.username, input.email, input.firstName, input.lastName, input.password, None);
    RegisterLoginMe(h.service, store, user, salt, newId, now, now);
  }

  /** Sign-in then refresh over HTTP: the refresh token of a sign-in is
      exchanged once for 200 with a new pair; when that exchange happens in
      another second than the sign-in, presenting the same token again is
      401 and changes nothing. */
  lemma SignInThenRefreshTwice(h: Handler, store: Store, input: LoginInput, loginAt: nat, now1: nat, now2: nat)
    requires Lawful(h.service)
    requires SignIn(h, store, Some(input), loginAt).response.status == 200
    requires loginAt != now1 && now1 < loginAt + Jwt.RefreshTtl
    ensures var signIn := SignIn(h, store, Some(input), loginAt);
      var r := signIn.response.body.refreshToken;
      var first := RefreshTokens(h, signIn.store, Some(RefreshInput(r)), now1);
      var second := RefreshTokens(h, first.store, Some(RefreshInput(r)), now2);
      && first.response.status == 200
      && second.response.status == 401
      && second.store == first.store
  {
    var login := Login(h.service, store, input.username, input.password, loginAt);
    assert BindLogin(Some(input)).Ok?;
    assert login.result.Ok?;
    LoginThenRefresh(h.service, store, input.username, input.password, loginAt, now1);
    var id :| login.result.value == Issue(h.service, id, loginAt)
      && Refresh(h.service, login.store, login.result.value.refresh, now1)
         == Outcome(Ok(Issue(h.service, id, now1)), SaveRefreshToken(login.store, id, Issue(h.service, id, now1).refresh));
    var r := login.result.value.refresh;
    assert '.' in r by { Jwt.IssuedRefreshToken(h.service.tokens, h.service.uuids.format(id), loginAt); }
    RotatedTokenIsDead(h.service, login.store, id, loginAt, now1, now2);
  }

  /** The Me response does not depend on the password hash or the refresh
      token: two users differing only in those look the same. */
  lemma MeViewIgnoresSecrets(h: Handler, user: User, password: string, refreshToken: Option<string>)
    ensures MeView(h, user) == MeView(h, user.(password := password, refreshToken := refreshToken))
  {
  }

  /** A register body that binds carries credentials a login body binds
      with: the username and password the user registered can be sent to
      `/login` as they are. */
  lemma RegisteredCredentialsBind(h: Handler, input: RegisterInput)
    requires BindRegister(h, Some(input)).Ok?
    ensures BindLogin(Some(LoginInput(input.username, input.password))) == Ok(LoginInput(input.username, input.password))
    ensures |input.password| >= 6
  {
  }
}
