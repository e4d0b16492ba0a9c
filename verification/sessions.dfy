/** Properties of sequences of workflow calls: rotation, replay, logout, and
    the register-login-me scenario. */
module Sessions {
  import opened Wrappers
  import opened Domain
  import opened Passwords
  import opened UserStore
  import opened AuthService
  import Jwt

  /** After a successful refresh the user's slot holds the refresh token
      just returned. */
  lemma RefreshStoresNewToken(svc: Service, store: Store, r: string, now: nat)
    requires Refresh(svc, store, r, now).result.Ok?
    ensures var o := Refresh(svc, store, r, now);
      exists id ::
        && Subject(svc, Jwt.ParseRefreshToken(svc.tokens, r, now)) == Ok(id)
        && GetRefreshToken(o.store, id) == Ok(o.result.value.refresh)
  {
    var o := Refresh(svc, store, r, now);
    var id :| id in store && Subject(svc, Jwt.ParseRefreshToken(svc.tokens, r, now)) == Ok(id)
      && store[id].refreshToken == Some(r)
      && o.result.value == Issue(svc, id, now) && o.store == SaveRefreshToken(store, id, o.result.value.refresh);
    SaveThenGet(store, id, o.result.value.refresh);
  }

  /** Single use: once a refresh has rotated the slot to a DIFFERENT token,
      presenting the old token again fails and changes nothing. If the old
      token still parses, the failure is `ErrInvalidRefreshToken`. */
  lemma RefreshSingleUse(svc: Service, store: Store, r: string, now1: nat, now2: nat)
    requires Refresh(svc, store, r, now1).result.Ok?
    requires Refresh(svc, store, r, now1).result.value.refresh != r
    ensures var after := Refresh(svc, store, r, now1).store;
      var replay := Refresh(svc, after, r, now2);
      && replay.result.Err?
      && replay.store == after
      && (Jwt.ParseRefreshToken(svc.tokens, r, now2).Ok? ==> replay.result == Err(InvalidRefreshToken))
  {
    var o1 := Refresh(svc, store, r, now1);
    RefreshStoresNewToken(svc, store, r, now1);
    var id :| Subject(svc, Jwt.ParseRefreshToken(svc.tokens, r, now1)) == Ok(id)
      && GetRefreshToken(o1.store, id) == Ok(o1.result.value.refresh);
    var p2 := Jwt.ParseRefreshToken(svc.tokens, r, now2);
    if p2.Ok? {
      assert p2.value == Jwt.ParseRefreshToken(svc.tokens, r, now1).value;
      assert Subject(svc, p2) == Ok(id);
    }
  }

  /** The fresh-token hypothesis holds whenever the refresh happens in a
      later (or any other) second than the one the presented token was
      issued in: the new token's `iat` differs. */
  lemma RotationInLaterSecondIsFresh(svc: Service, store: Store, id: Uuid, issuedAt: nat, now: nat)
    requires Lawful(svc)
    requires issuedAt != now
    requires Refresh(svc, store, Issue(svc, id, issuedAt).refresh, now).result.Ok?
    ensures Refresh(svc, store, Issue(svc, id, issuedAt).refresh, now).result.value.refresh
         != Issue(svc, id, issuedAt).refresh
  {
    var r := Issue(svc, id, issuedAt).refresh;
    var o := Refresh(svc, store, r, now);
    var id' :| id' in store && Subject(svc, Jwt.ParseRefreshToken(svc.tokens, r, now)) == Ok(id')
      && store[id'].refreshToken == Some(r)
      && o.result.value == Issue(svc, id', now) && o.store == SaveRefreshToken(store, id', o.result.value.refresh);
    Jwt.RefreshTokensCollide(svc.tokens, svc.uuids.format(id'), now, svc.uuids.format(id), issuedAt);
  }

  /** Hence a token issued in one second and rotated in another is dead:
      replaying it fails, whatever the time of the replay. */
  lemma RotatedTokenIsDead(svc: Service, store: Store, id: Uuid, issuedAt: nat, now1: nat, now2: nat)
    requires Lawful(svc)
    requires issuedAt != now1
    requires Refresh(svc, store, Issue(svc, id, issuedAt).refresh, now1).result.Ok?
    ensures var r := Issue(svc, id, issuedAt).refresh;
      Refresh(svc, Refresh(svc, store, r, now1).store, r, now2).result.Err?
  {
    RotationInLaterSecondIsFresh(svc, store, id, issuedAt, now1);
    RefreshSingleUse(svc, store, Issue(svc, id, issuedAt).refresh, now1, now2);
  }

  /** The counterexample to unconditional single use: a refresh in the same
      second as the login re-issues the very same token (no `jti`, one-second
      `iat`, deterministic HS256), so the login's refresh token survives its
      own rotation and can be replayed as often as wanted within that second. */
  lemma SameSecondRefreshReplays(svc: Service, store: Store, username: string, password: string, now: nat)
    requires Lawful(svc)
    requires Login(svc, store, username, password, now).result.Ok?
    ensures var login := Login(svc, store, username, password, now);
      var pair := login.result.value;
      Refresh(svc, login.store, pair.refresh, now) == Outcome(Ok(pair), login.store)
  {
    var login := Login(svc, store, username, password, now);
    var pair := login.result.value;
    var id :| id in store && store[id].username == username
      && svc.hasher.compare(store[id].passwordHash, password)
      && pair == Issue(svc, id, now) && login.store == SaveRefreshToken(store, id, pair.refresh);
    var subject := svc.uuids.format(id);
    Jwt.RefreshRoundTrip(svc.tokens, subject, now, now);
    assert Subject(svc, Jwt.ParseRefreshToken(svc.tokens, pair.refresh, now)) == Ok(id);
    SaveThenGet(store, id, pair.refresh);
    SaveOverwrites(store, id, pair.refresh, pair.refresh);
  }

  /** A login's refresh token can be exchanged any time before it expires,
      and the exchange issues a new pair for the same user and stores it. */
  lemma LoginThenRefresh(svc: Service, store: Store, username: string, password: string, loginAt: nat, now: nat)
    requires Lawful(svc)
    requires Login(svc, store, username, password, loginAt).result.Ok?
    requires now < loginAt + Jwt.RefreshTtl
    ensures var login := Login(svc, store, username, password, loginAt);
      exists id ::
        && login.result.value == Issue(svc, id, loginAt)
        && Refresh(svc, login.store, login.result.value.refresh, now)
           == Outcome(Ok(Issue(svc, id, now)), SaveRefreshToken(login.store, id, Issue(svc, id, now).refresh))
  {
    var login := Login(svc, store, username, password, loginAt);
    var pair := login.result.value;
    var id :| id in store && store[id].username == username
      && svc.hasher.compare(store[id].passwordHash, password)
      && pair == Issue(svc, id, loginAt) && login.store == SaveRefreshToken(store, id, pair.refresh);
    Jwt.RefreshRoundTrip(svc.tokens, svc.uuids.format(id), loginAt, now);
    assert Subject(svc, Jwt.ParseRefreshToken(svc.tokens, pair.refresh, now)) == Ok(id);
    SaveThenGet(store, id, pair.refresh);
  }

  /** Logout ends the session: afterwards no refresh token naming the same
      user is accepted, and the failure is the NULL-token read. */
  lemma LogoutInvalidatesRefresh(svc: Service, store: Store, access: string, now: nat, r: string, later: nat)
    requires Logout(svc, store, access, now).result.Ok?
    requires Subject(svc, Jwt.ParseRefreshToken(svc.tokens, r, later)) == ParseAccessToken(svc, access, now)
    ensures var out := Logout(svc, store, access, now).store;
      && Refresh(svc, out, r, later).result.Err?
      && Refresh(svc, out, r, later).store == out
    ensures ParseAccessToken(svc, access, now).value in store ==>
      Refresh(svc, Logout(svc, store, access, now).store, r, later).result == Err(NullRefreshToken)
  {
    var id := ParseAccessToken(svc, access, now).value;
    if id in store {
      DeleteThenGet(store, id);
    }
  }

  /** The scenario of a whole session: login, logout with the access token
      while it is valid, then the refresh token is refused. */
  lemma LoginLogoutRefresh(svc: Service, store: Store, username: string, password: string,
                           loginAt: nat, logoutAt: nat, refreshAt: nat)
    requires Lawful(svc)
    requires Login(svc, store, username, password, loginAt).result.Ok?
    requires logoutAt < loginAt + Jwt.AccessTtl
    ensures var login := Login(svc, store, username, password, loginAt);
      var logout := Logout(svc, login.store, login.result.value.access, logoutAt);
      && logout.result.Ok?
      && Refresh(svc, logout.store, login.result.value.refresh, refreshAt).result.Err?
      && Refresh(svc, logout.store, login.result.value.refresh, refreshAt).store == logout.store
  {
    var login := Login(svc, store, username, password, loginAt);
    var pair := login.result.value;
    var id :| id in store && store[id].username == username
      && svc.hasher.compare(store[id].passwordHash, password)
      && pair == Issue(svc, id, loginAt) && login.store == SaveRefreshToken(store, id, pair.refresh);
    Jwt.AccessRoundTrip(svc.tokens, svc.uuids.format(id), loginAt, logoutAt);
    assert ParseAccessToken(svc, pair.access, logoutAt) == Ok(id);
    var logout := Logout(svc, login.store, pair.access, logoutAt);
    Jwt.RefreshRoundTrip(svc.tokens, svc.uuids.format(id), loginAt, refreshAt);
    if refreshAt < loginAt + Jwt.RefreshTtl {
      assert Subject(svc, Jwt.ParseRefreshToken(svc.tokens, pair.refresh, refreshAt)) == Ok(id);
      LogoutInvalidatesRefresh(svc, login.store, pair.access, logoutAt, pair.refresh, refreshAt);
    }
  }

  /** A username no row of the store carries. */
  predicate Unclaimed(store: Store, username: string) {
    forall id :: id in store ==> store[id].username != username
  }

  /** Registration, login and profile lookup: a newly registered user can log
      in with the password given, the access token names the new id, and
      the profile read with it is the registered fields without the password
      hash or the refresh token. */
  lemma RegisterLoginMe(svc: Service, store: Store, user: User, salt: Salt, newId: Uuid, loginAt: nat, meAt: nat)
    requires Lawful(svc)
    requires Unclaimed(store, user.username)
    requires Register(svc, store, user, salt, newId).result.Ok?
    requires meAt < loginAt + Jwt.AccessTtl
    ensures var registered := Register(svc, store, user, salt, newId).store;
      var login := Login(svc, registered, user.username, user.password, loginAt);
      && login.result == Ok(Issue(svc, newId, loginAt))
      && Jwt.ParseAccessToken(svc.tokens, login.result.value.access, meAt) == Ok(svc.uuids.format(newId))
      && Me(svc, login.store, login.result.value.access, meAt)
         == Ok(User(newId, user.username, user.email, user.firstName, user.lastName, "", None))
  {
    var registered := Register(svc, store, user, salt, newId).store;
    assert forall id :: id in registered && registered[id].username == user.username ==> id == newId;
    var found := GetUserByUsername(registered, user.username);
    assert found.Ok? && found.value.id == newId;
    HashThenCheck(svc.hasher, user.password, salt);
    var login := Login(svc, registered, user.username, user.password, loginAt);
    assert login.result == Ok(Issue(svc, newId, loginAt));
    Jwt.AccessRoundTrip(svc.tokens, svc.uuids.format(newId), loginAt, meAt);
    assert ParseAccessToken(svc, login.result.value.access, meAt) == Ok(newId);
  }
}
