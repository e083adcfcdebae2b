# gtools token manager — a Dafny model

This project models the JWT token manager of the `auth` package (`auth/auth.go`).
The manager holds one signing secret. It mints HS256-signed JSON Web Tokens for a
principal (user id, user name, role), verifies such tokens, and pulls them out of
the `authorization` metadata of an incoming gRPC call.

The model is pure, like the source: datatypes, functions and lemmas.

- `wrappers.dfy` — `Option` and `Result`, standing in for Go's `(value, ok)` and
  `(value, err)` returns.
- `gostrings.dfy` — the parts of Go's `strings` package involved: `HasPrefix`,
  `Index`, `Replace` with a count of one, `Split`, `Join`, and `ToLower` restricted to ASCII.
  It also proves that `Split` and `Join` are inverse.
- `jwt.dfy` — the boundary of the JWT library `github.com/dgrijalva/jwt-go`.
  - Concrete: the JWS compact serialization (section 7.1 of RFC 7515), the
    lookup from "alg" value to signing method, and the order of the parser's steps.
    The parser splits the token, decodes the header and claims, and looks up the method.
    Then the key function runs. Then come the validity check and the signature check.
  - Abstract: unpadded base64url (section 2 of RFC 7515), JSON, HMAC-SHA256
    (section 3.2 of RFC 7518) and the claims' validity rule. These are the
    function-valued fields of `Library`. `Lawful` lists the only facts the proofs
    assume about them: each decoder inverts its encoder, and base64url output
    contains no dot.
- `auth.dfy` — the manager: `NewManager`, `NewJWT`, the key function, `Parse`,
  `ParseFromGrpcContext` and the error texts.
- `auth_properties.dfy` — the lemmas about the manager.

The clock is a parameter `now`, in Unix nanoseconds. Each operation reads it once.
The source calls `time.Now()` twice in `NewJWT`: once for `exp`, once for `iat`. The
model uses a single reading for both. The source also re-checks the claims in
`Parse` (auth/auth.go:93) with a fresh clock reading. The model uses the library's
reading there too. Under that choice, `OwnValidityCheckRedundant` proves the second
check can never fail. In the source it fails only if the claims become invalid
between the two readings (the wall clock may also step backwards, so that is not
only expiry).

The validity rule (`StandardClaims.Valid` in the library) is the injected
`Library.validate`, applied to Unix seconds. The model does not fix where the expiry
boundary lies. The round trip holds whenever that rule accepts the payload at the
verifying clock.

Parse's key function accepts the whole HMAC family (HS256, HS384, HS512), not only
HS256. `Genuine` therefore allows any HMAC method named in the header.

## Model

| member | source | states |
|---|---|---|
| `Auth.NewManager` | auth/auth.go:33-39 | fails, with the empty-key error, exactly when the secret is empty; otherwise the manager holds exactly that secret (a datatype value, so nothing changes it later) |
| `Auth.NewJWT` | auth/auth.go:41-53 | minting never returns an error: HS256 accepts the byte-string key and the abstract JSON encoding is total |
| `AuthProperties.IssueClaimsTimes` | auth/auth.go:42-50 | the signed payload copies the principal unchanged; `iat` is the clock in Unix seconds; `exp` is the whole Unix second containing clock plus ttl (`exp * 10^9 <= now + ttl < (exp + 1) * 10^9`), which is `iat + ttl / 10^9` when ttl is a whole number of seconds; `nbf` is left at zero, that is unset; a negative ttl is accepted and expires no later than it was issued |
| `Auth.IssueClaims` | auth/auth.go:42-50 | definition of the payload NewJWT signs; specified by `AuthProperties.IssueClaimsTimes` |
| `Auth.Principal` | auth/auth.go:97-99 | definition of the projection onto user id, name and role; specified by `Auth.Parse` and `AuthProperties.RoundTrip` |
| `Jwt.Unix` | auth/auth.go:47-48 | definition of `time.Time.Unix` as floor division by 10^9; specified by `AuthProperties.IssueClaimsTimes` |
| `Jwt.NewHeader` | auth/auth.go:42 | definition of the header NewWithClaims writes; specified by `AuthProperties.NewJWTSegments` |
| `Jwt.SigningString` | auth/auth.go:52 | definition of the first two segments joined by a dot; specified by `AuthProperties.NewJWTSegments` |
| `Jwt.SignedString` | auth/auth.go:52 | definition of the three-segment token; specified by `Auth.NewJWT` and `AuthProperties.NewJWTSegments` |
| `AuthProperties.NewJWTSegments` | auth/auth.go:41-53 | a minted token is three dot-separated segments: the `{"alg":"HS256","typ":"JWT"}` header, the issued payload, and the HMAC-SHA256 under the manager's secret of the first two segments joined by a dot |
| `Auth.KeyFunc` | auth/auth.go:79-84 | the secret is handed out exactly when the token's method is in the HMAC family; every other method gets the "unexpected signing method" error naming the header's alg |
| `Auth.Parse` | auth/auth.go:78-102 | a library failure is returned as exactly that error; a library success returns exactly the principal fields of the token's claims; every failure is the library's error or the claims' validity error, unchanged |
| `AuthProperties.ParseAcceptsGenuine` | auth/auth.go:78-101 | a token whose header names an HMAC method, whose signature is that MAC under the secret, and whose payload is valid now, is accepted; the result is its user id, name and role and nothing else |
| `AuthProperties.ParseSuccessIsGenuine` | auth/auth.go:78-101 | conversely, success means the token split into exactly three dot-free segments that are genuine for the manager's secret and valid at the clock, and the result is their principal |
| `AuthProperties.ParseSucceedsIff` | auth/auth.go:78-101 | Parse returns a principal if and only if the token is accepted for the secret (the independent definition `Accepted`) |
| `AuthProperties.RoundTrip` | auth/auth.go:41-101 | with the same manager, at a clock where the issued payload is valid, parsing a minted token returns the principal it was minted for |
| `AuthProperties.InvalidClaimsRejected` | auth/auth.go:79-95 | a minted token presented when its payload is not valid fails with exactly the validity error and no signature error |
| `AuthProperties.ForeignKeyRejected` | auth/auth.go:79-87 | a token minted under one secret and parsed under another whose MAC differs fails with a signature mismatch |
| `AuthProperties.NonHmacRejected` | auth/auth.go:79-87 | a well-formed token naming a non-HMAC method fails with the signing-method error, whatever the secret, the MAC, the validity rule and the clock: the algorithm check comes before any signature check |
| `AuthProperties.OwnValidityCheckRedundant` | auth/auth.go:93-95 | with one clock reading, Parse's own validity check never fails; every Parse failure is the library's |
| `Auth.ParseFromGrpcContext` | auth/auth.go:55-76 | missing metadata, an empty `authorization` list, and a first value without the `Bearer ` prefix each give their own error, exactly in those cases; otherwise the result is Parse of the value with the prefix dropped |
| `Auth.Get` | auth/auth.go:62-63 | definition of `md.Get`: the values under the lower-cased key, empty when absent; specified by `Auth.ParseFromGrpcContext` and `AuthProperties.AuthorizationKeyIsLowerCase` |
| `GoStrings.HasPrefix` | auth/auth.go:69 | definition of the case-sensitive prefix test; specified by `AuthProperties.BearerPrefixRequired` |
| `GoStrings.ReplaceFirst` | auth/auth.go:73 | definition of `strings.Replace` with a count of one; specified by `GoStrings.ReplaceFirstStripsPrefix` |
| `GoStrings.Index` | auth/auth.go:73 | definition of `strings.Index`, which `strings.Replace` uses; specified by `GoStrings.IndexFrom` |
| `GoStrings.ToLower` | auth/auth.go:62-63 | `strings.ToLower` on ASCII letters, as `md.Get` applies it to the key: the result has the same length, contains no ASCII capital, and keeps every character that was not a capital |
| `GoStrings.ToLowerFixedIff` | auth/auth.go:62-63 | lower-casing leaves a string unchanged exactly when it contains no ASCII capital, so a lower-case key such as `authorization` is looked up as written |
| `GoStrings.ToLowerIdempotent` | auth/auth.go:62-63 | lower-casing twice gives the same as lower-casing once |
| `GoStrings.Join` | auth/auth.go:52 | definition of `strings.Join`, which the library's signing string and signed string use; specified by `GoStrings.JoinSplit` and `GoStrings.SplitJoin` |
| `Jwt.Alg` | auth/auth.go:42 | definition of `SigningMethod.Alg()`, the "alg" value NewWithClaims writes and the registry key looked up at line 80; specified by `Jwt.GetSigningMethod` and `Jwt.GetSigningMethodAlg` |
| `AuthProperties.BearerValueDelegates` | auth/auth.go:68-75 | a first value `"Bearer " + t` yields exactly Parse(t) |
| `AuthProperties.OnlyFirstValueExamined` | auth/auth.go:61-66 | two metadata sets with the same first `authorization` value give the same result |
| `AuthProperties.BearerPrefixRequired` | auth/auth.go:68-71 | an empty value and a lower-case `bearer ` scheme are both refused with the Unauthenticated status error |
| `AuthProperties.MessagesDistinct` | auth/auth.go:16-21 | the errors the manager builds itself have pairwise different texts |
| `Auth.Message` | auth/auth.go:16-21 | definition of the texts of the errors the manager builds (lines 35, 58, 65, 70, 81); specified by `AuthProperties.MessagesDistinct` |
| `Auth.FormatAlg` | auth/auth.go:81 | definition of how `%v` prints the header's alg (`<nil>` when absent); specified by `Auth.KeyFunc` |
| `GoStrings.ReplaceFirstStripsPrefix` | auth/auth.go:73 | replacing the first occurrence of a prefix the string starts with removes exactly that prefix and nothing later |
| `GoStrings.IndexFrom` | auth/auth.go:73 | the position found is an occurrence, and no earlier position is; none is found only when there is no occurrence |
| `GoStrings.Split` | auth/auth.go:79 | the library's segment split always yields at least one piece |
| `GoStrings.JoinSplit` | auth/auth.go:79 | joining the pieces of a split with the separator gives back the original string |
| `GoStrings.SplitJoin` | auth/auth.go:52 | splitting a join of dot-free pieces gives back the pieces |
| `GoStrings.SplitPiecesFree` | auth/auth.go:79 | no piece of a split contains the separator |
| `Jwt.GetSigningMethod` | auth/auth.go:80 | a method is found only under its own "alg" name |
| `Jwt.GetSigningMethodAlg` | auth/auth.go:80 | every registered method is found again under its "alg" name |
| `Jwt.Sign` | auth/auth.go:52 | signing with a byte-string key succeeds exactly for HMAC methods |
| `Jwt.Verify` | auth/auth.go:79 | a signature is accepted exactly when the method is HMAC and the segment decodes to the MAC under the key of the signing string |
| `Jwt.ParseUnverified` | auth/auth.go:79 | a structurally successful parse had exactly three segments |
| `Jwt.ParseWithClaims` | auth/auth.go:79-87 | structural errors come first and unchanged; success means the key function handed out a key, the claims are valid now, and the method is HMAC with a matching signature |

## Left out

- Real base64url, JSON, SHA-256 and HMAC are abstract fields of `Library`. The
  proofs assume only `Lawful`. Tamper resistance therefore appears only as
  `ParseSuccessIsGenuine`: the signature must equal the MAC of the segments actually
  presented. Collision resistance of the MAC cannot be stated about an abstract function.
- Go strings are byte strings; the model's `string` is a sequence of Unicode
  characters, so a user name or role that is not valid UTF-8 is not represented.
  For such values `json.Marshal` in `SignedString` (auth/auth.go:52) replaces the
  invalid bytes with U+FFFD, and the round trip `AuthProperties.RoundTrip` states
  does not hold for them: the parsed name or role differs from the one minted.
  `Lawful`'s claims round trip is assumed only over the model's representation.
- The constant-time comparison (`hmac.Equal`) is modelled as plain equality. Timing
  is not expressible here.
- The clock is read once per operation (see above), not twice as in `NewJWT` and
  `Parse`.
- The 64-bit range of `time.Duration` and Unix seconds is not modelled. Integers are
  unbounded, and saturation of `time.Time.Add` is not modelled.
- `ErrClaims` (auth/auth.go:19, 89-92) is not modelled. The library stores the very
  `*tokenClaims` that `Parse` passes in, so the type assertion at line 89 cannot fail.
  In the typed model that branch does not exist.
- `ErrExpired` (auth/auth.go:18) is declared but never used. Expiry errors come from
  the library.
- `JwtClaims` and `tokenClaims` are not defined in `auth/auth.go`. They are modelled as
  records with the three principal fields, and `UserID` is an `int`.
  `StandardClaims` keeps only `exp`, `iat` and `nbf`. Audience, id, issuer and
  subject are left out: the manager never sets or reads them.
- The error texts of the library (`ValidationError.Error()`) are not modelled. Its
  errors are a datatype of reasons, and `Message` covers only the errors the manager
  builds.
- A key function returning a library `ValidationError` is not modelled. The library
  passes such an error through unwrapped, but this manager's key function never
  returns one.
- `Auth.Get` lower-cases only the key it is asked for, as `metadata.MD.Get` does.
  The metadata's own keys are assumed already lower-cased, as gRPC's transport
  delivers them; nothing in the model enforces that.
- `strings.ToLower` and `metadata.MD.Get` lower-case ASCII letters only.
  Non-ASCII case mappings are not modelled.
- `Jwt.Sign` and `Jwt.Verify` use one error for every non-HMAC method. The library
  returns a "none"-specific error for the unsigned method. Only HS256 is ever signed
  here, and `Verify` never sees a non-HMAC method from `Parse`, because `KeyFunc`
  refuses those methods first.
- The gRPC context beyond its incoming metadata, and the encoding of status
  errors beyond their text, are not part of this model.
