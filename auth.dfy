/**
 * The token manager: mints HS256-signed JWTs for a principal, verifies them,
 * and extracts them from the "authorization" metadata of an incoming gRPC call.
 * The manager holds one immutable secret; every operation is a function of its
 * inputs, the library and one reading of the clock.
 */
module Auth {
  import opened Wrappers
  import opened GoStrings
  import opened Jwt

  const ErrSigingMethod: string := "unexpected signing method: %v"
  const ErrEmptySigningKey: string := "empty siging key"
  const NoMetadataText: string := "no metadata in context"
  const NoAuthorizationText: string := "no authorization header"
  const MissingPrefixText: string := "missing \"Bearer \" prefix in \"Authorization\" header"

  /** The literal, case-sensitive scheme prefix of the header value. */
  const BearerPrefix: string := "Bearer "

  /** The principal a token speaks for: what callers pass in and get back. */
  datatype JwtClaims = JwtClaims(userId: int, userName: string, userRole: string)

  /** The registered claims the manager uses: "exp" and "iat" of RFC 7519, and "nbf", which the validity check also reads. */
  datatype StandardClaims = StandardClaims(expiresAt: int, issuedAt: int, notBefore: int)

  /** The payload inside a token: the principal plus the registered claims. */
  datatype TokenClaims = TokenClaims(userId: int, userName: string, userRole: string, standard: StandardClaims)

  /** The principal fields of a payload; the timestamps are dropped. */
  function Principal(c: TokenClaims): JwtClaims {
    JwtClaims(c.userId, c.userName, c.userRole)
  }

  datatype AuthError =
    | EmptySigningKey
    | UnexpectedSigningMethod(alg: string)            // the "alg" header value as %v prints it
    | NoMetadata
    | NoAuthorizationHeader
    | MissingBearerPrefix                                // a gRPC status error with code Unauthenticated
    | TokenRejected(libraryError: ValidationError<AuthError>)  // the library's error, unchanged
    | ClaimsInvalid(claimsError: ClaimsError)           // the claims' own validity error, unchanged

  /**
   * How fmt's %v prints the "alg" header value the key function saw: the
   * string itself, or "<nil>" when it is absent. A non-string "alg" (which %v
   * would print as its JSON value) never reaches the key function:
   * ParseUnverified fails with AlgUnspecified first.
   */
  function FormatAlg(alg: Option<string>): string {
    match alg
    case Some(a) => a
    case None => "<nil>"
  }

  /** The text of the errors the manager builds itself (the others carry the library's text). */
  function Message(e: AuthError): string
    requires !e.TokenRejected? && !e.ClaimsInvalid?
  {
    match e
    case EmptySigningKey => ErrEmptySigningKey
    case UnexpectedSigningMethod(alg) => ErrSigingMethod[..|ErrSigingMethod| - 2] + alg
    case NoMetadata => NoMetadataText
    case NoAuthorizationHeader => NoAuthorizationText
    case MissingBearerPrefix => "rpc error: code = Unauthenticated desc = " + MissingPrefixText
  }

  /** The manager: one signing secret, fixed at construction and only read afterwards. */
  datatype Manager = Manager(signingKey: string)

  /** NewManager: refuses exactly the empty secret, and otherwise keeps the given one. */
  function NewManager(signingKey: string): (r: Result<Manager, AuthError>)
    ensures r.Failure? <==> signingKey == ""
    ensures r.Failure? ==> r.error == EmptySigningKey
    ensures r.Success? ==> r.value.signingKey == signingKey
  {
    if signingKey == "" then Failure(EmptySigningKey)
    else Success(Manager(signingKey))
  }

  /** The payload NewJWT signs: the principal, issued now and expiring `ttl` later, both in Unix seconds. */
  function IssueClaims(input: JwtClaims, ttl: Duration, now: Time): TokenClaims {
    TokenClaims(input.userId, input.userName, input.userRole,
                StandardClaims(expiresAt := Unix(now + ttl), issuedAt := Unix(now), notBefore := 0))
  }

  /** NewJWT: the HS256 token for `input`, signed with the manager's secret. */
  function NewJWT(lib: Library<TokenClaims>, m: Manager, input: JwtClaims, ttl: Duration, now: Time)
    : (r: Result<string, SignatureError>)
    ensures r.Success?
  {
    SignedString(lib, HMAC(SHA256), IssueClaims(input, ttl, now), m.signingKey)
  }

  /** The key function Parse hands to the library: the secret for HMAC methods, an error naming "alg" for every other. */
  function KeyFunc(m: Manager, token: Token<TokenClaims>): (r: Result<string, AuthError>)
    ensures r.Success? <==> token.signingMethod.HMAC?
    ensures r.Success? ==> r.value == m.signingKey
    ensures r.Failure? ==> r.error == UnexpectedSigningMethod(FormatAlg(token.header.alg))
  {
    if token.signingMethod.HMAC? then Success(m.signingKey)
    else Failure(UnexpectedSigningMethod(FormatAlg(token.header.alg)))
  }

  /** Parse: verify `accessToken` with the manager's secret at clock `now` and return its principal. */
  function Parse(lib: Library<TokenClaims>, m: Manager, accessToken: string, now: Time): (r: Result<JwtClaims, AuthError>)
    ensures r.Failure? ==> r.error.TokenRejected? || r.error.ClaimsInvalid?
    ensures var lr := ParseWithClaims(lib, accessToken, t => KeyFunc(m, t), now);
      lr.Failure? ==> r == Failure(TokenRejected(lr.error))
    ensures var lr := ParseWithClaims(lib, accessToken, t => KeyFunc(m, t), now);
      lr.Success? ==> r == Success(Principal(lr.value.claims))
  {
    match ParseWithClaims(lib, accessToken, t => KeyFunc(m, t), now)
    case Failure(e) => Failure(TokenRejected(e))
    case Success(token) =>
      match lib.validate(token.claims, Unix(now))
      case Some(e) => Failure(ClaimsInvalid(e))
      case None => Success(Principal(token.claims))
  }

  /** gRPC metadata: each key with its list of values; the transport delivers the keys lower-cased. */
  type Metadata = map<string, seq<string>>

  /** The part of a call's context the manager reads: the incoming metadata, when there is any. */
  datatype Context = Context(incoming: Option<Metadata>)

  /** metadata.MD.Get: the values under the lower-cased key, empty when the key is absent. */
  function Get(md: Metadata, key: string): seq<string> {
    var k := ToLower(key);
    if k in md then md[k] else []
  }

  /** ParseFromGrpcContext: the first "authorization" value must be "Bearer " + token; the token goes to Parse. */
  function ParseFromGrpcContext(lib: Library<TokenClaims>, m: Manager, ctx: Context, now: Time)
    : (r: Result<JwtClaims, AuthError>)
    ensures r == Failure(NoMetadata) <==> ctx.incoming.None?
    ensures r == Failure(NoAuthorizationHeader) <==>
      ctx.incoming.Some? && |Get(ctx.incoming.value, "authorization")| == 0
    ensures r == Failure(MissingBearerPrefix) <==>
      && ctx.incoming.Some?
      && |Get(ctx.incoming.value, "authorization")| > 0
      && !HasPrefix(Get(ctx.incoming.value, "authorization")[0], BearerPrefix)
    ensures ctx.incoming.Some? && |Get(ctx.incoming.value, "authorization")| > 0
            && HasPrefix(Get(ctx.incoming.value, "authorization")[0], BearerPrefix)
            ==> r == Parse(lib, m, Get(ctx.incoming.value, "authorization")[0][|BearerPrefix|..], now)
  {
    match ctx.incoming
    case None => Failure(NoMetadata)
    case Some(md) =>
      var values := Get(md, "authorization");
      if |values| == 0 then Failure(NoAuthorizationHeader)
      else
        var token := values[0];
        if !HasPrefix(token, BearerPrefix) then Failure(MissingBearerPrefix)
        else
          ReplaceFirstStripsPrefix(token, BearerPrefix);
          Parse(lib, m, ReplaceFirst(token, BearerPrefix, ""), now)
  }
}
