/** The entities shared by every layer of the auth service: user ids, the
    user record, and the errors the layers return to one another. */
module Domain {
  import opened Wrappers

  /** A `uuid.UUID`: sixteen bytes, read here as one number. */
  type Uuid = n: nat | n < 0x1_0000_0000_0000_0000_0000_0000_0000_0000

  /** The text form of ids, `uuid.UUID.String` and `uuid.Parse`. The library
      itself is not modelled; `LawfulUuidFormat` is all the model relies on. */
  datatype UuidFormat = UuidFormat(format: Uuid -> string, parse: string -> Option<Uuid>)
  {
    /** `uuid.Parse` succeeds on the string. */
    predicate IsUuid(s: string) {
      parse(s).Some?
    }
  }

  /** Parsing the canonical form of an id gives the id back. `uuid.Parse`
      accepts several spellings, so the converse is not assumed. */
  ghost predicate LawfulUuidFormat(f: UuidFormat) {
    forall u: Uuid :: f.parse(f.format(u)) == Some(u)
  }

  /** `domain.User`. `password` holds whatever the layer put there: the
      plaintext on the way into `Register`, the bcrypt hash from then on.
      `refreshToken` is the nullable `refresh_token` column. The creation
      timestamp is not modelled: no operation of the core reads it. */
  datatype User = User(
    id: Uuid,
    username: string,
    email: string,
    firstName: string,
    lastName: string,
    password: string,
    refreshToken: Option<string>)

  /** The errors the core produces, one constructor per distinct Go error. */
  datatype Error =
      // the jwt library
    | TokenMalformed           // not three decodable segments, or an unknown `alg`
    | UnexpectedSigningMethod  // the key function refused a non-HMAC `alg`
    | SignatureInvalid         // the signature does not verify under the key
    | TokenExpired             // the `exp` claim is not after the current time
    | TokenNotValidYet         // the `nbf` claim is after the current time
      // the token manager's own checks
    | InvalidTokenType         // "invalid token type"
    | InvalidTokenIssuer       // "invalid token issuer"
      // uuid.Parse
    | InvalidUuid
      // bcrypt
    | HashingFailed            // GenerateFromPassword failed
    | PasswordMismatch         // CompareHashAndPassword failed
      // the database
    | NoRows                   // sql.ErrNoRows
    | NullRefreshToken         // scanning a NULL refresh_token into a string
    | DuplicateKey             // inserting an id that is already present
      // the workflow and the HTTP layer
    | InvalidRefreshToken      // ErrInvalidRefreshToken
    | UserNotAuthorized        // ErrUserNotAuthorized
    | BindingFailed            // the request body did not bind or validate
}
