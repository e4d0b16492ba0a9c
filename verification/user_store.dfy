/** The Postgres user repository, as operations on a map from id to row.
    Each operation mirrors its SQL statement; connection failures are not
    modelled, so the `UPDATE`s always succeed. */
module UserStore {
  import opened Wrappers
  import opened Domain

  /** One row of the users table, less its id (the map key) and its
      creation timestamp (read by no operation here). */
  datatype UserRow = UserRow(
    username: string,
    email: string,
    firstName: string,
    lastName: string,
    passwordHash: string,
    refreshToken: Option<string>)

  /** The users table, keyed by its primary key `id`. */
  type Store = map<Uuid, UserRow>

  /** A result together with the store after the call. */
  datatype Outcome<+T> = Outcome(result: Result<T, Error>, store: Store)

  /** `CreateUser`: inserts username, email, names and the `password` field
      as `password_hash`, leaving `refresh_token` NULL, and returns the id
      the database generated (`newId`). An id already present violates the
      primary key. */
  function CreateUser(store: Store, user: User, newId: Uuid): (o: Outcome<Uuid>)
    ensures newId in store ==> o == Outcome(Err(DuplicateKey), store)
    ensures newId !in store ==> o.result == Ok(newId)
    ensures o.result.Ok? ==> o.store.Keys == store.Keys + {newId}
    ensures o.result.Ok? ==>
      o.store[newId] == UserRow(user.username, user.email, user.firstName, user.lastName, user.password, None)
    ensures forall id :: id in store ==> id in o.store && o.store[id] == store[id]
  {
    if newId in store then Outcome(Err(DuplicateKey), store)
    else
      var row := UserRow(user.username, user.email, user.firstName, user.lastName, user.password, None);
      Outcome(Ok(newId), store[newId := row])
  }

  /** Some row with the given username, if there is one. Whether usernames
      are unique is decided by the schema, which is not part of this model;
      when several rows match, `QueryRow` returns whichever the database
      yields first, so the model picks one without saying which. */
  ghost function RowNamed(store: Store, username: string): (r: Option<Uuid>)
    ensures r.Some? ==> r.value in store && store[r.value].username == username
    ensures r.None? ==> forall id :: id in store ==> store[id].username != username
  {
    if exists id :: id in store && store[id].username == username then
      var id :| id in store && store[id].username == username; Some(id)
    else None
  }

  /** `GetUserByUsername`: reads `id, username, password_hash` only; the
      other fields keep their zero values. */
  ghost function GetUserByUsername(store: Store, username: string): (r: Result<User, Error>)
    ensures r.Err? <==> forall id :: id in store ==> store[id].username != username
    ensures r.Err? ==> r.error == NoRows
    ensures r.Ok? ==> r.value.id in store && store[r.value.id].username == username
    ensures r.Ok? ==> r.value == User(r.value.id, username, "", "", "", store[r.value.id].passwordHash, None)
  {
    match RowNamed(store, username)
    case None => Err(NoRows)
    case Some(id) => Ok(User(id, store[id].username, "", "", "", store[id].passwordHash, None))
  }

  /** `SaveRefreshToken`: `UPDATE ... SET refresh_token WHERE id`. It
      overwrites whatever was there, touches no other column or row, and on
      an unknown id matches no row and still succeeds. */
  function SaveRefreshToken(store: Store, id: Uuid, token: string): (s: Store)
    ensures s.Keys == store.Keys
    ensures id in store ==> s[id] == store[id].(refreshToken := Some(token))
    ensures forall k :: k in store && k != id ==> s[k] == store[k]
    ensures id !in store ==> s == store
  {
    if id in store then store[id := store[id].(refreshToken := Some(token))] else store
  }

  /** `GetRefreshToken`: the stored token; no row is `sql.ErrNoRows`, and a
      NULL column cannot be scanned into a Go string, which is an error too. */
  function GetRefreshToken(store: Store, id: Uuid): (r: Result<string, Error>)
    ensures r.Ok? <==> id in store && store[id].refreshToken.Some?
    ensures r.Ok? ==> store[id].refreshToken == Some(r.value)
    ensures id !in store ==> r == Err(NoRows)
    ensures id in store && store[id].refreshToken.None? ==> r == Err(NullRefreshToken)
  {
    if id !in store then Err(NoRows)
    else match store[id].refreshToken
      case None => Err(NullRefreshToken)
      case Some(t) => Ok(t)
  }

  /** `DeleteRefreshToken`: sets the column to NULL; an unknown id matches
      no row and still succeeds. */
  function DeleteRefreshToken(store: Store, id: Uuid): (s: Store)
    ensures s.Keys == store.Keys
    ensures id in store ==> s[id] == store[id].(refreshToken := None)
    ensures forall k :: k in store && k != id ==> s[k] == store[k]
    ensures id !in store ==> s == store
  {
    if id in store then store[id := store[id].(refreshToken := None)] else store
  }

  /** `GetUserByID`: reads id, username, email and the two names; never the
      password hash nor the refresh token. */
  function GetUserByID(store: Store, id: Uuid): (r: Result<User, Error>)
    ensures r.Err? <==> id !in store
    ensures r.Err? ==> r.error == NoRows
    ensures r.Ok? ==> r.value.id == id && r.value.password == "" && r.value.refreshToken.None?
    ensures r.Ok? ==> var row := store[id];
      r.value.username == row.username && r.value.email == row.email
      && r.value.firstName == row.firstName && r.value.lastName == row.lastName
  {
    if id !in store then Err(NoRows)
    else
      var row := store[id];
      Ok(User(id, row.username, row.email, row.firstName, row.lastName, "", None))
  }

  /** Saving then reading gives back the saved token. */
  lemma SaveThenGet(store: Store, id: Uuid, token: string)
    requires id in store
    ensures GetRefreshToken(SaveRefreshToken(store, id, token), id) == Ok(token)
  {
  }

  /** After a delete the token cannot be read. */
  lemma DeleteThenGet(store: Store, id: Uuid)
    requires id in store
    ensures GetRefreshToken(DeleteRefreshToken(store, id), id) == Err(NullRefreshToken)
  {
  }

  /** Saving is an overwrite: only the last save counts. */
  lemma SaveOverwrites(store: Store, id: Uuid, t1: string, t2: string)
    ensures SaveRefreshToken(SaveRefreshToken(store, id, t1), id, t2) == SaveRefreshToken(store, id, t2)
  {
  }

  /** Deleting twice is deleting once. */
  lemma DeleteIdempotent(store: Store, id: Uuid)
    ensures DeleteRefreshToken(DeleteRefreshToken(store, id), id) == DeleteRefreshToken(store, id)
  {
  }

  /** Token writes never change what the other reads see: another user's
      token, and any user's profile. */
  lemma TokenWritesAreInvisibleElsewhere(store: Store, id: Uuid, token: string, other: Uuid)
    ensures other != id ==> GetRefreshToken(SaveRefreshToken(store, id, token), other) == GetRefreshToken(store, other)
    ensures other != id ==> GetRefreshToken(DeleteRefreshToken(store, id), other) == GetRefreshToken(store, other)
    ensures GetUserByID(SaveRefreshToken(store, id, token), other) == GetUserByID(store, other)
    ensures GetUserByID(DeleteRefreshToken(store, id), other) == GetUserByID(store, other)
  {
  }
}
