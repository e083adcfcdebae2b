/**
 * What the token manager promises, stated over the functions of module Auth:
 * the shape of a minted token, exactly which tokens Parse accepts, the round
 * trip, the failures of forged, foreign, expired and wrongly-signed tokens,
 * and the header convention of ParseFromGrpcContext.
 */
module AuthProperties {
  import opened Wrappers
  import opened GoStrings
  import opened Jwt
  import opened Auth

  /** A string the compact serialization can carry as one segment. */
  predicate DotFree(s: string) {
    '.' !in s
  }

  /** Joining three segments puts a dot between each. */
  lemma Join3(h: string, p: string, s: string)
    ensures Join([h, p, s], '.') == h + "." + p + "." + s
  {
    assert [h, p, s][1..] == [p, s];
    assert [p, s][1..] == [s];
    assert Join([p, s], '.') == p + "." + s;
    assert h + "." + (p + "." + s) == h + "." + p + "." + s;
  }

  /** The three segments joined the way SignedString joins them, and split back by ParseUnverified. */
  lemma Compact(h: string, p: string, s: string)
    requires DotFree(h) && DotFree(p) && DotFree(s)
    ensures Join([Join([h, p], '.'), s], '.') == h + "." + p + "." + s
    ensures Split(h + "." + p + "." + s, '.') == [h, p, s]
  {
    assert [h, p][1..] == [p];
    assert [Join([h, p], '.'), s][1..] == [s];
    Join3(h, p, s);
    SplitJoin([h, p, s], '.');
  }

  /**
   * The payload NewJWT signs carries the principal unchanged, "iat" = the
   * clock in Unix seconds and "exp" = the clock plus `ttl`, rounded down to
   * seconds (the whole second that contains clock plus `ttl`), with no "nbf":
   * a whole-second `ttl` adds exactly its seconds, and a negative
   * `ttl` is accepted and yields a token that expires no later than it was
   * issued.
   */
  lemma IssueClaimsTimes(input: JwtClaims, ttl: Duration, now: Time)
    ensures Principal(IssueClaims(input, ttl, now)) == input
    ensures IssueClaims(input, ttl, now).standard.issuedAt == Unix(now)
    ensures var st := IssueClaims(input, ttl, now).standard;
      st.issuedAt + ttl / NanosPerSecond <= st.expiresAt <= st.issuedAt + ttl / NanosPerSecond + 1
    ensures var st := IssueClaims(input, ttl, now).standard;
      ttl % NanosPerSecond == 0 ==> st.expiresAt == st.issuedAt + ttl / NanosPerSecond
    ensures var st := IssueClaims(input, ttl, now).standard;
      ttl < 0 ==> st.expiresAt <= st.issuedAt
    ensures var st := IssueClaims(input, ttl, now).standard;
      st.expiresAt * NanosPerSecond <= now + ttl < (st.expiresAt + 1) * NanosPerSecond
    ensures IssueClaims(input, ttl, now).standard.notBefore == 0
  {
  }

  /**
   * A minted token is three segments: an HS256 header, the issued payload,
   * and the HMAC-SHA256 under the manager's secret of the first two segments
   * joined by a dot.
   */
  lemma NewJWTSegments(lib: Library<TokenClaims>, m: Manager, input: JwtClaims, ttl: Duration, now: Time)
    requires Lawful(lib)
    ensures var parts := Split(NewJWT(lib, m, input, ttl, now).value, '.');
      && |parts| == 3
      && lib.decodeSegment(parts[0]).Some?
      && lib.unmarshalHeader(lib.decodeSegment(parts[0]).value) == Some(Header(Some("HS256"), Some("JWT")))
      && lib.decodeSegment(parts[1]).Some?
      && lib.unmarshalClaims(lib.decodeSegment(parts[1]).value) == Some(IssueClaims(input, ttl, now))
      && lib.decodeSegment(parts[2]) == Some(lib.mac(SHA256, m.signingKey, parts[0] + "." + parts[1]))
  {
    var c := IssueClaims(input, ttl, now);
    var h := lib.encodeSegment(lib.marshalHeader(NewHeader(HMAC(SHA256))));
    var p := lib.encodeSegment(lib.marshalClaims(c));
    var s := lib.encodeSegment(lib.mac(SHA256, m.signingKey, h + "." + p));
    assert SigningString(lib, NewHeader(HMAC(SHA256)), c) == h + "." + p by {
      assert Join([p], '.') == p;
    }
    Compact(h, p, s);
    assert NewJWT(lib, m, input, ttl, now).value == h + "." + p + "." + s;
    assert Alg(HMAC(SHA256)) == "HS" + "256" == "HS256";
  }

  /**
   * A token that a holder of `key` vouches for at clock `now`: its header
   * names an HMAC method, its signature segment is that method's MAC under
   * `key` of the first two segments, and its payload is valid at `now` and
   * carries `principal`.
   */
  ghost predicate Genuine(lib: Library<TokenClaims>, key: string, h: string, p: string, s: string, now: Time, principal: JwtClaims) {
    && lib.decodeSegment(h).Some?
    && lib.unmarshalHeader(lib.decodeSegment(h).value).Some?
    && var header := lib.unmarshalHeader(lib.decodeSegment(h).value).value;
    && header.alg.Some?
    && GetSigningMethod(header.alg.value).Some?
    && GetSigningMethod(header.alg.value).value.HMAC?
    && lib.decodeSegment(s) == Some(lib.mac(GetSigningMethod(header.alg.value).value.hash, key, h + "." + p))
    && lib.decodeSegment(p).Some?
    && lib.unmarshalClaims(lib.decodeSegment(p).value).Some?
    && var claims := lib.unmarshalClaims(lib.decodeSegment(p).value).value;
    && lib.validate(claims, Unix(now)).None?
    && Principal(claims) == principal
  }

  /** Some split of `token` into three dot-free segments is genuine for `key` and carries `principal`. */
  ghost predicate Accepted(lib: Library<TokenClaims>, key: string, token: string, now: Time, principal: JwtClaims) {
    exists h, p, s ::
      && DotFree(h) && DotFree(p) && DotFree(s)
      && token == h + "." + p + "." + s
      && Genuine(lib, key, h, p, s, now, principal)
  }

  /** Parse accepts every genuine token and returns its principal. */
  lemma ParseAcceptsGenuine(lib: Library<TokenClaims>, m: Manager, h: string, p: string, s: string, now: Time, principal: JwtClaims)
    requires DotFree(h) && DotFree(p) && DotFree(s)
    requires Genuine(lib, m.signingKey, h, p, s, now, principal)
    ensures Parse(lib, m, h + "." + p + "." + s, now) == Success(principal)
  {
    var token := h + "." + p + "." + s;
    Compact(h, p, s);
    var parts := Split(token, '.');
    assert Join(parts[..2], '.') == h + "." + p by {
      assert parts[..2] == [h, p];
      assert Join([p], '.') == p;
    }
  }

  /** Parse accepts nothing else: success means a genuine token, split where Split splits it. */
  lemma ParseSuccessIsGenuine(lib: Library<TokenClaims>, m: Manager, token: string, now: Time)
    requires Parse(lib, m, token, now).Success?
    ensures var parts := Split(token, '.');
      && |parts| == 3
      && DotFree(parts[0]) && DotFree(parts[1]) && DotFree(parts[2])
      && token == parts[0] + "." + parts[1] + "." + parts[2]
      && Genuine(lib, m.signingKey, parts[0], parts[1], parts[2], now, Parse(lib, m, token, now).value)
  {
    var parts := Split(token, '.');
    var pu := ParseUnverified<TokenClaims, AuthError>(lib, token);
    assert pu.Success?;
    SplitPiecesFree(token, '.');
    JoinSplit(token, '.');
    assert parts == [parts[0], parts[1], parts[2]];
    Join3(parts[0], parts[1], parts[2]);
    assert Join(parts[..2], '.') == parts[0] + "." + parts[1] by {
      assert parts[..2][1..] == [parts[1]];
    }
  }

  /** Parse succeeds with `principal` exactly on the tokens accepted for the manager's secret. */
  lemma ParseSucceedsIff(lib: Library<TokenClaims>, m: Manager, token: string, now: Time, principal: JwtClaims)
    ensures Parse(lib, m, token, now) == Success(principal) <==> Accepted(lib, m.signingKey, token, now, principal)
  {
    if Parse(lib, m, token, now) == Success(principal) {
      ParseSuccessIsGenuine(lib, m, token, now);
      var parts := Split(token, '.');
      assert Genuine(lib, m.signingKey, parts[0], parts[1], parts[2], now, principal);
    }
    if Accepted(lib, m.signingKey, token, now, principal) {
      var h, p, s :| && DotFree(h) && DotFree(p) && DotFree(s)
                     && token == h + "." + p + "." + s
                     && Genuine(lib, m.signingKey, h, p, s, now, principal);
      ParseAcceptsGenuine(lib, m, h, p, s, now, principal);
    }
  }

  /** Round trip: at a clock where the issued payload is still valid, Parse gives back the principal NewJWT was given. */
  lemma RoundTrip(lib: Library<TokenClaims>, m: Manager, input: JwtClaims, ttl: Duration, issued: Time, now: Time)
    requires Lawful(lib)
    requires lib.validate(IssueClaims(input, ttl, issued), Unix(now)).None?
    ensures Parse(lib, m, NewJWT(lib, m, input, ttl, issued).value, now) == Success(input)
  {
    var token := NewJWT(lib, m, input, ttl, issued).value;
    NewJWTSegments(lib, m, input, ttl, issued);
    var parts := Split(token, '.');
    SplitToken(token);
    GetSigningMethodAlg(HMAC(SHA256));
    IssueClaimsTimes(input, ttl, issued);
    ParseAcceptsGenuine(lib, m, parts[0], parts[1], parts[2], now, input);
  }

  /** A token that splits into three parts is those parts joined by dots, each free of dots. */
  lemma SplitToken(token: string)
    requires |Split(token, '.')| == 3
    ensures var parts := Split(token, '.');
      && DotFree(parts[0]) && DotFree(parts[1]) && DotFree(parts[2])
      && token == parts[0] + "." + parts[1] + "." + parts[2]
  {
    var parts := Split(token, '.');
    SplitPiecesFree(token, '.');
    JoinSplit(token, '.');
    assert parts == [parts[0], parts[1], parts[2]];
    Join3(parts[0], parts[1], parts[2]);
  }

  /**
   * A minted token presented when its payload is no longer valid fails with
   * exactly the library's validity error; its signature is still found
   * genuine, and Parse's own second validity check is never reached.
   */
  lemma InvalidClaimsRejected(lib: Library<TokenClaims>, m: Manager, input: JwtClaims, ttl: Duration, issued: Time, now: Time, e: ClaimsError)
    requires Lawful(lib)
    requires lib.validate(IssueClaims(input, ttl, issued), Unix(now)) == Some(e)
    ensures Parse(lib, m, NewJWT(lib, m, input, ttl, issued).value, now) == Failure(TokenRejected(Invalid(Some(e), None)))
  {
    var token := NewJWT(lib, m, input, ttl, issued).value;
    NewJWTSegments(lib, m, input, ttl, issued);
    GetSigningMethodAlg(HMAC(SHA256));
    var parts := Split(token, '.');
    assert Join(parts[..2], '.') == parts[0] + "." + parts[1] by {
      assert parts[..2][1..] == [parts[1]];
    }
  }

  /**
   * A token minted under one secret and presented to a manager with another
   * fails the signature check (when the two MACs differ), together with
   * whatever the validity check says.
   */
  lemma ForeignKeyRejected(lib: Library<TokenClaims>, minter: Manager, verifier: Manager, input: JwtClaims, ttl: Duration, issued: Time, now: Time)
    requires Lawful(lib)
    requires var signingString := SigningString(lib, NewHeader(HMAC(SHA256)), IssueClaims(input, ttl, issued));
      lib.mac(SHA256, minter.signingKey, signingString) != lib.mac(SHA256, verifier.signingKey, signingString)
    ensures Parse(lib, verifier, NewJWT(lib, minter, input, ttl, issued).value, now)
         == Failure(TokenRejected(Invalid(lib.validate(IssueClaims(input, ttl, issued), Unix(now)), Some(SignatureMismatch))))
  {
    var c := IssueClaims(input, ttl, issued);
    var token := NewJWT(lib, minter, input, ttl, issued).value;
    NewJWTSegments(lib, minter, input, ttl, issued);
    GetSigningMethodAlg(HMAC(SHA256));
    var parts := Split(token, '.');
    assert Join(parts[..2], '.') == parts[0] + "." + parts[1] by {
      assert parts[..2][1..] == [parts[1]];
    }
    assert SigningString(lib, NewHeader(HMAC(SHA256)), c) == parts[0] + "." + parts[1] by {
      assert Join([lib.encodeSegment(lib.marshalClaims(c))], '.') == lib.encodeSegment(lib.marshalClaims(c));
      SplitToken(token);
      Compact(lib.encodeSegment(lib.marshalHeader(NewHeader(HMAC(SHA256)))), lib.encodeSegment(lib.marshalClaims(c)),
              lib.encodeSegment(lib.mac(SHA256, minter.signingKey, SigningString(lib, NewHeader(HMAC(SHA256)), c))));
    }
  }

  /**
   * Algorithm confusion: a well-formed token whose "alg" names a method
   * outside the HMAC family is refused by the key function, whatever the
   * secret, the MAC, the validity rule or the clock: the result below
   * mentions none of them, so no signature is computed and no key is handed
   * out.
   */
  lemma NonHmacRejected(lib: Library<TokenClaims>, m: Manager, token: string, now: Time)
    requires ParseUnverified<TokenClaims, AuthError>(lib, token).Success?
    requires !ParseUnverified<TokenClaims, AuthError>(lib, token).value.token.signingMethod.HMAC?
    ensures Parse(lib, m, token, now)
         == Failure(TokenRejected(Unverifiable(KeyFuncFailed(UnexpectedSigningMethod(
              FormatAlg(ParseUnverified<TokenClaims, AuthError>(lib, token).value.token.header.alg))))))
  {
  }

  /** With one clock reading, the library's validity check has already passed whenever Parse reaches its own. */
  lemma OwnValidityCheckRedundant(lib: Library<TokenClaims>, m: Manager, token: string, now: Time)
    ensures !Parse(lib, m, token, now).Failure? || Parse(lib, m, token, now).error.TokenRejected?
  {
  }

  /** "authorization" is its own lower-case form, so Get reads exactly that key. */
  lemma AuthorizationKeyIsLowerCase()
    ensures ToLower("authorization") == "authorization"
  {
  }

  /** A first "authorization" value of "Bearer " followed by `t` is handled exactly as Parse(t). */
  lemma BearerValueDelegates(lib: Library<TokenClaims>, m: Manager, md: Metadata, t: string, rest: seq<string>, now: Time)
    requires "authorization" in md && md["authorization"] == [BearerPrefix + t] + rest
    ensures ParseFromGrpcContext(lib, m, Context(Some(md)), now) == Parse(lib, m, t, now)
  {
    AuthorizationKeyIsLowerCase();
    var v := BearerPrefix + t;
    assert v[..|BearerPrefix|] == BearerPrefix;
    assert v[|BearerPrefix|..] == t;
  }

  /** Only the first "authorization" value is looked at: later values, valid or not, change nothing. */
  lemma OnlyFirstValueExamined(lib: Library<TokenClaims>, m: Manager, md1: Metadata, md2: Metadata, now: Time)
    requires |Get(md1, "authorization")| > 0 && |Get(md2, "authorization")| > 0
    requires Get(md1, "authorization")[0] == Get(md2, "authorization")[0]
    ensures ParseFromGrpcContext(lib, m, Context(Some(md1)), now) == ParseFromGrpcContext(lib, m, Context(Some(md2)), now)
  {
  }

  /** The prefix is case-sensitive and required: an empty value or a lower-case scheme is refused before any parsing. */
  lemma BearerPrefixRequired(lib: Library<TokenClaims>, m: Manager, md: Metadata, t: string, now: Time)
    requires "authorization" in md && |md["authorization"]| > 0
    requires md["authorization"][0] == "" || md["authorization"][0] == "bearer " + t
    ensures ParseFromGrpcContext(lib, m, Context(Some(md)), now) == Failure(MissingBearerPrefix)
  {
    AuthorizationKeyIsLowerCase();
    var v := md["authorization"][0];
    if v != "" {
      assert v[0] == 'b';
    }
  }

  /** Each failure the manager builds itself has its own text. */
  lemma MessagesDistinct(e1: AuthError, e2: AuthError)
    requires !e1.TokenRejected? && !e1.ClaimsInvalid?
    requires !e2.TokenRejected? && !e2.ClaimsInvalid?
    requires e1 != e2
    ensures Message(e1) != Message(e2)
  {
    var prefix := ErrSigingMethod[..|ErrSigingMethod| - 2];
    if e1.UnexpectedSigningMethod? && e2.UnexpectedSigningMethod? {
      assert (prefix + e1.alg)[|prefix|..] == e1.alg;
      assert (prefix + e2.alg)[|prefix|..] == e2.alg;
    } else {
      assert Message(e1)[0] != Message(e2)[0] || Message(e1)[3] != Message(e2)[3];
    }
  }
}
