/**
 * The boundary of the JWT library (github.com/dgrijalva/jwt-go) that the token
 * manager calls. The parts the library delegates to cryptography, JSON and
 * base64url are abstract: they are function-valued fields of `Library`, and
 * `Lawful` states the only facts the model relies on (each decoder inverts its
 * encoder, base64url output never contains a dot). The JWS compact
 * serialization around them (section 7.1 of RFC 7515), the algorithm lookup and
 * the order of the parsing steps are modelled concretely.
 */
module Jwt {
  import opened Wrappers
  import opened GoStrings

  newtype byte = b: int | 0 <= b < 256
  type Bytes = seq<byte>

  /** A reading of the wall clock: nanoseconds since the Unix epoch. */
  type Time = int
  /** A time.Duration: a signed count of nanoseconds. */
  type Duration = int

  const NanosPerSecond: int := 1_000_000_000

  /** time.Time.Unix: whole seconds since the epoch, rounded down (Euclidean division by a positive divisor floors). */
  function Unix(t: Time): int {
    t / NanosPerSecond
  }

  datatype Hash = SHA256 | SHA384 | SHA512

  /** The signing methods the library registers, by family. */
  datatype SigningMethod =
    | HMAC(hash: Hash)
    | RSA(hash: Hash)
    | RSAPSS(hash: Hash)
    | ECDSA(hash: Hash)
    | Unsigned

  function HashBits(h: Hash): string {
    match h
    case SHA256 => "256"
    case SHA384 => "384"
    case SHA512 => "512"
  }

  /** The "alg" header value that names a method (section 3.1 of RFC 7518). */
  function Alg(m: SigningMethod): string {
    match m
    case HMAC(h) => "HS" + HashBits(h)
    case RSA(h) => "RS" + HashBits(h)
    case RSAPSS(h) => "PS" + HashBits(h)
    case ECDSA(h) => "ES" + HashBits(h)
    case Unsigned => "none"
  }

  /** The hash an "alg" suffix names. */
  function HashNamed(bits: string): (r: Option<Hash>)
    ensures r.Some? ==> HashBits(r.value) == bits
  {
    if bits == "256" then Some(SHA256)
    else if bits == "384" then Some(SHA384)
    else if bits == "512" then Some(SHA512)
    else None
  }

  /** GetSigningMethod: the registered method an "alg" value names, if any. */
  function GetSigningMethod(alg: string): (r: Option<SigningMethod>)
    ensures r.Some? ==> Alg(r.value) == alg
  {
    if alg == "none" then Some(Unsigned)
    else if |alg| != 5 then None
    else match HashNamed(alg[2..])
      case None => None
      case Some(h) =>
        var family := alg[..2];
        assert alg == family + HashBits(h);
        if family == "HS" then Some(HMAC(h))
        else if family == "RS" then Some(RSA(h))
        else if family == "PS" then Some(RSAPSS(h))
        else if family == "ES" then Some(ECDSA(h))
        else None
  }

  /** Every method is found again under its own "alg" name. */
  lemma GetSigningMethodAlg(m: SigningMethod)
    ensures GetSigningMethod(Alg(m)) == Some(m)
  {
  }

  /**
   * The JOSE header as the library reads it: `alg` is Some only when the
   * "alg" member is present and is a JSON string; `typ` likewise.
   */
  datatype Header = Header(alg: Option<string>, typ: Option<string>)

  /** The header NewWithClaims writes for a method. */
  function NewHeader(m: SigningMethod): Header {
    Header(Some(Alg(m)), Some("JWT"))
  }

  /** A token as the library hands it to the key function: the decoded header and claims, and the method "alg" names. */
  datatype Token<C> = Token(raw: string, header: Header, claims: C, signingMethod: SigningMethod)

  /** Why the validity check of the claims failed (StandardClaims.Valid); its text is the library's. */
  datatype ClaimsError = ClaimsError(reason: string)

  datatype MalformedReason =
    | SegmentCount       // not exactly three dot-separated segments
    | BearerInToken      // header not base64url and the token starts with "bearer " in any case
    | HeaderEncoding
    | HeaderJson
    | ClaimsEncoding
    | ClaimsJson

  datatype UnverifiableReason<+E> =
    | AlgUnspecified         // no "alg" string in the header
    | AlgUnavailable         // "alg" names no registered method
    | KeyFuncFailed(cause: E)

  datatype SignatureError =
    | KeyTypeRejected        // the method cannot use a byte-string key
    | SignatureEncoding      // the third segment is not base64url
    | SignatureMismatch      // ErrSignatureInvalid

  /**
   * The library's ValidationError. An `Invalid` error keeps both the claims
   * error and the signature error, as the library's accumulated error bits do.
   */
  datatype ValidationError<+E> =
    | Malformed(malformed: MalformedReason)
    | Unverifiable(unverifiable: UnverifiableReason<E>)
    | Invalid(claimsError: Option<ClaimsError>, signatureError: Option<SignatureError>)

  /**
   * What the library delegates and this model does not look into: unpadded
   * base64url (section 2 of RFC 7515), JSON for header and claims, the HMAC of
   * section 3.2 of RFC 7518 over a key and a message, and the claims' own
   * validity check, which reads the clock in Unix seconds.
   */
  datatype Library<!C> = Library(
    encodeSegment: Bytes -> string,
    decodeSegment: string -> Option<Bytes>,
    marshalHeader: Header -> Bytes,
    unmarshalHeader: Bytes -> Option<Header>,
    marshalClaims: C -> Bytes,
    unmarshalClaims: Bytes -> Option<C>,
    mac: (Hash, string, string) -> Bytes,
    validate: (C, int) -> Option<ClaimsError>)

  /** The facts about the abstract parts that the round trip needs. */
  ghost predicate Lawful<C(!new)>(lib: Library<C>) {
    && (forall b :: lib.decodeSegment(lib.encodeSegment(b)) == Some(b))
    && (forall b :: '.' !in lib.encodeSegment(b))
    && (forall h :: lib.unmarshalHeader(lib.marshalHeader(h)) == Some(h))
    && (forall c :: lib.unmarshalClaims(lib.marshalClaims(c)) == Some(c))
  }

  /** Token.SigningString: the encoded header and the encoded claims, joined by a dot. */
  function SigningString<C>(lib: Library<C>, header: Header, claims: C): string {
    Join([lib.encodeSegment(lib.marshalHeader(header)), lib.encodeSegment(lib.marshalClaims(claims))], '.')
  }

  /** SigningMethod.Sign with a byte-string key: only the HMAC methods accept one. */
  function Sign<C>(lib: Library<C>, m: SigningMethod, signingString: string, key: string): (r: Result<string, SignatureError>)
    ensures r.Success? <==> m.HMAC?
  {
    if m.HMAC? then Success(lib.encodeSegment(lib.mac(m.hash, key, signingString)))
    else Failure(KeyTypeRejected)
  }

  /** NewWithClaims(m, claims).SignedString(key): header, claims and signature segments joined by dots. */
  function SignedString<C>(lib: Library<C>, m: SigningMethod, claims: C, key: string): Result<string, SignatureError> {
    var signingString := SigningString(lib, NewHeader(m), claims);
    match Sign(lib, m, signingString, key)
    case Failure(e) => Failure(e)
    case Success(signature) => Success(Join([signingString, signature], '.'))
  }

  /** SigningMethod.Verify with a byte-string key; None means the signature is genuine. */
  function Verify<C>(lib: Library<C>, m: SigningMethod, signingString: string, signature: string, key: string): (r: Option<SignatureError>)
    ensures r.None? <==> m.HMAC? && lib.decodeSegment(signature) == Some(lib.mac(m.hash, key, signingString))
  {
    if !m.HMAC? then Some(KeyTypeRejected)
    else match lib.decodeSegment(signature)
      case None => Some(SignatureEncoding)
      case Some(sig) => if sig == lib.mac(m.hash, key, signingString) then None else Some(SignatureMismatch)
  }

  /** The decoded token together with the segments it came from. */
  datatype Parsed<C> = Parsed(token: Token<C>, parts: seq<string>)

  /**
   * Parser.ParseUnverified: split into segments, decode header and claims,
   * look up the method "alg" names. Nothing is verified yet.
   */
  function ParseUnverified<C, E>(lib: Library<C>, tokenString: string): (r: Result<Parsed<C>, ValidationError<E>>)
    ensures r.Success? ==> r.value.parts == Split(tokenString, '.') && |r.value.parts| == 3
  {
    var parts := Split(tokenString, '.');
    if |parts| != 3 then Failure(Malformed(SegmentCount))
    else match lib.decodeSegment(parts[0])
      case None =>
        if HasPrefix(ToLower(tokenString), "bearer ") then Failure(Malformed(BearerInToken))
        else Failure(Malformed(HeaderEncoding))
      case Some(headerBytes) =>
        match lib.unmarshalHeader(headerBytes)
        case None => Failure(Malformed(HeaderJson))
        case Some(header) =>
          match lib.decodeSegment(parts[1])
          case None => Failure(Malformed(ClaimsEncoding))
          case Some(claimBytes) =>
            match lib.unmarshalClaims(claimBytes)
            case None => Failure(Malformed(ClaimsJson))
            case Some(claims) =>
              match header.alg
              case None => Failure(Unverifiable(AlgUnspecified))
              case Some(alg) =>
                match GetSigningMethod(alg)
                case None => Failure(Unverifiable(AlgUnavailable))
                case Some(m) => Success(Parsed(Token(tokenString, header, claims, m), parts))
  }

  /**
   * Parser.ParseWithClaims: after ParseUnverified, the key function sees the
   * token and either refuses it (ending the parse) or hands out the key; then
   * the claims' validity and the signature are both checked at clock `now`.
   */
  function ParseWithClaims<C, E>(lib: Library<C>, tokenString: string, keyFunc: Token<C> -> Result<string, E>, now: Time)
    : (r: Result<Token<C>, ValidationError<E>>)
    ensures ParseUnverified<C, E>(lib, tokenString).Failure? ==> r == ParseUnverified<C, E>(lib, tokenString).PropagateFailure()
    ensures r.Success? ==>
      && ParseUnverified<C, E>(lib, tokenString).Success?
      && var Parsed(token, parts) := ParseUnverified<C, E>(lib, tokenString).value;
      && r.value == token
      && keyFunc(token).Success?
      && lib.validate(token.claims, Unix(now)).None?
      && token.signingMethod.HMAC?
      && lib.decodeSegment(parts[2]) == Some(lib.mac(token.signingMethod.hash, keyFunc(token).value, Join(parts[..2], '.')))
  {
    match ParseUnverified(lib, tokenString)
    case Failure(e) => Failure(e)
    case Success(Parsed(token, parts)) =>
      match keyFunc(token)
      case Failure(e) => Failure(Unverifiable(KeyFuncFailed(e)))
      case Success(key) =>
        var claimsError := lib.validate(token.claims, Unix(now));
        var signatureError := Verify(lib, token.signingMethod, Join(parts[..2], '.'), parts[2], key);
        if claimsError.None? && signatureError.None? then Success(token)
        else Failure(Invalid(claimsError, signatureError))
  }
}
