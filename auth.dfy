/**
 * The auth package: password hashing, access tokens (JWTs, section 4.1 of
 * RFC 7519, signed with HS256 from section 3.2 of RFC 7518), extraction of
 * a bearer token from the `Authorization` header (a simplified form of
 * section 2.1 of RFC 6750), and refresh-token generation.
 *
 * The cryptographic library calls are not modelled: bcrypt and the HS256
 * signer/verifier are function values handed in by the caller, and ghost
 * predicates state the properties the model assumes of them.
 */
module Auth {

  import opened Wrappers
  import opened Hex
  import Text
  import Uuid

  /** Time is an integer count of nanoseconds, as in Go's `time` package. */
  const Second: int := 1_000_000_000
  const Minute: int := 60 * Second
  const Hour: int := 60 * Minute

  /** The errors the package's functions return. */
  datatype Error =
    | HeaderNotFound     // no or empty Authorization header
    | InvalidHeader      // not "<bearer> <token>"
    | HashFailed         // bcrypt.GenerateFromPassword failed
    | PasswordMismatch   // bcrypt.CompareHashAndPassword failed
    | SigningFailed      // SignedString failed
    | TokenUnverifiable  // malformed token, or signature not valid for the secret
    | TokenExpired       // the exp claim is not after the current time
    | TokenNotValidYet   // the nbf claim is after the current time
    | SubjectNotUuid     // uuid.Parse rejected the subject
    | RandomFailed       // crypto/rand could not fill the buffer

  // ---------------------------------------------------------------------
  // Password hashing

  /**
   * bcrypt as the package calls it: `generate(password, salt)` is
   * `GenerateFromPassword` at the default cost with the salt it draws from
   * the random source, `compare(hash, password)` is whether
   * `CompareHashAndPassword` succeeds.
   */
  datatype Bcrypt = Bcrypt(generate: (string, seq<byte>) -> Option<string>, compare: (string, string) -> bool)

  /** A hash that bcrypt produced for a password verifies against that password. */
  ghost predicate Verifies(b: Bcrypt) {
    forall p, salt :: b.generate(p, salt).Some? ==> b.compare(b.generate(p, salt).value, p)
  }

  /** A hash that bcrypt produced for a password verifies against no other password (an idealisation). */
  ghost predicate Binding(b: Bcrypt) {
    forall p, q, salt :: b.generate(p, salt).Some? && q != p ==> !b.compare(b.generate(p, salt).value, q)
  }

  /** `HashPassword`: the bcrypt hash of the password, or `""` and an error. */
  function HashPassword(b: Bcrypt, password: string, salt: seq<byte>): (r: (string, Option<Error>))
    ensures r.1.Some? ==> r == ("", Some(HashFailed))
    ensures r.1.None? ==> b.generate(password, salt) == Some(r.0)
  {
    match b.generate(password, salt)
    case Some(h) => (h, None)
    case None => ("", Some(HashFailed))
  }

  /** `CheckPasswordHash`: no error exactly when bcrypt accepts the password for the hash. */
  function CheckPasswordHash(b: Bcrypt, password: string, hash: string): (err: Option<Error>)
    ensures err.None? <==> b.compare(hash, password)
    ensures err.Some? ==> err == Some(PasswordMismatch)
  {
    if b.compare(hash, password) then None else Some(PasswordMismatch)
  }

  /** A password checks against the hash `HashPassword` made of it. */
  lemma PasswordRoundTrip(b: Bcrypt, password: string, salt: seq<byte>)
    requires Verifies(b)
    requires HashPassword(b, password, salt).1.None?
    ensures CheckPasswordHash(b, password, HashPassword(b, password, salt).0).None?
  {
  }

  /** Any other password is refused by that hash. */
  lemma WrongPasswordRefused(b: Bcrypt, password: string, other: string, salt: seq<byte>)
    requires Binding(b)
    requires HashPassword(b, password, salt).1.None? && other != password
    ensures CheckPasswordHash(b, other, HashPassword(b, password, salt).0) == Some(PasswordMismatch)
  {
  }

  // ---------------------------------------------------------------------
  // Access tokens

  /** The `jwt.RegisteredClaims` fields the package sets or the parser checks (times in nanoseconds). */
  datatype Claims = Claims(
    issuer: string,
    subject: string,
    issuedAt: Option<int>,
    expiresAt: Option<int>,
    notBefore: Option<int>)

  /**
   * The HS256 signer and verifier of the jwt library: `sign(claims, secret)`
   * is `SignedString` on a token holding the claims, `verify(token, secret)`
   * is the parse of a compact token whose signature is valid for the secret,
   * giving back its claims.
   */
  datatype Jws = Jws(sign: (Claims, string) -> Option<string>, verify: (string, string) -> Option<Claims>)

  /**
   * A `NumericDate` is written as whole seconds and read back through a
   * float64, which is exact up to 2^53 seconds either side of the epoch.
   */
  const MaxDateSeconds: int := 0x20_0000_0000_0000

  /** An instant within the range a `NumericDate` carries exactly (every reading of Go's clock is). */
  predicate InDateRange(t: int) {
    -MaxDateSeconds * Second <= t <= MaxDateSeconds * Second
  }

  /** An instant a token carries unchanged: a whole second within that range. */
  predicate Encodable(t: int) {
    t % Second == 0 && InDateRange(t)
  }

  /** Claims whose every time survives signing and parsing unchanged. */
  predicate EncodableClaims(c: Claims) {
    && (c.issuedAt.Some? ==> Encodable(c.issuedAt.value))
    && (c.expiresAt.Some? ==> Encodable(c.expiresAt.value))
    && (c.notBefore.Some? ==> Encodable(c.notBefore.value))
  }

  /**
   * What the model assumes of the signer: a token signed with a secret
   * verifies under that secret with the claims it was signed over, when
   * their times are whole seconds the encoding carries exactly; and, being
   * the compact serialisation (base64url segments joined by dots), it holds
   * no space.
   */
  ghost predicate Sound(j: Jws) {
    && (forall c, secret :: j.sign(c, secret).Some? && EncodableClaims(c) ==>
          j.verify(j.sign(c, secret).value, secret) == Some(c))
    && (forall c, secret :: j.sign(c, secret).Some? ==> Text.Free(j.sign(c, secret).value, ' '))
  }

  /** The secret without its trailing NUL characters. */
  function StripNul(s: string): (r: string)
    ensures |r| <= |s| && r == s[..|r|]
    ensures |r| > 0 ==> r[|r| - 1] != '\0'
    ensures forall k :: |r| <= k < |s| ==> s[k] == '\0'
  {
    if |s| > 0 && s[|s| - 1] == '\0' then StripNul(s[..|s| - 1]) else s
  }

  /**
   * HMAC (section 2 of RFC 2104) pads a key of at most 64 bytes, the block
   * size of SHA-256, with zero bytes. U+0000 is the only character whose
   * UTF-8 form holds a zero byte, so two such secrets give the same padded
   * key exactly when they agree once trailing NULs are dropped. (Longer keys
   * are hashed first; the model says nothing about them.)
   */
  predicate SameHmacKey(a: string, b: string) {
    Text.ByteLen(a) <= 64 && Text.ByteLen(b) <= 64 && StripNul(a) == StripNul(b)
  }

  /** Two short secrets that HMAC turns into different keys. */
  predicate DistinctHmacKeys(a: string, b: string) {
    Text.ByteLen(a) <= 64 && Text.ByteLen(b) <= 64 && StripNul(a) != StripNul(b)
  }

  /** The verifier sees only the padded key: secrets with the same key verify every token alike. */
  ghost predicate KeyPadded(j: Jws) {
    forall t, a, b :: SameHmacKey(a, b) ==> j.verify(t, a) == j.verify(t, b)
  }

  /**
   * A token signed under one key verifies under no different key (an
   * idealisation of HMAC's unforgeability).
   */
  ghost predicate SecretBinding(j: Jws) {
    forall c, secret, other :: j.sign(c, secret).Some? && DistinctHmacKeys(secret, other) ==>
      j.verify(j.sign(c, secret).value, other) == None
  }

  /** "k" and "k" followed by a NUL are one HMAC key. */
  lemma NulPaddedSecretsAlike()
    ensures SameHmacKey("k", "k\0")
  {
    assert "k\0"[..1] == "k";
  }

  /** `jwt.NewNumericDate`: the instant truncated to whole seconds. */
  function NumericDate(t: int): (d: int)
    ensures d <= t < d + Second && d % Second == 0
    ensures InDateRange(t) ==> Encodable(d)
  {
    assert t - t % Second == (t / Second) * Second;
    assert InDateRange(t) ==> -MaxDateSeconds <= t / Second <= MaxDateSeconds;
    t - t % Second
  }

  /** Truncation commutes with adding a whole number of seconds. */
  lemma NumericDateShift(t: int, d: int)
    requires d % Second == 0
    ensures NumericDate(t + d) == NumericDate(t) + d
  {
    var q := d / Second;
    assert d == q * Second;
    assert (t + q * Second) % Second == t % Second;
  }

  /** The claims `MakeJWT` signs: issuer "chirpy", the user as subject, issued now, expiring after `expiresIn`. */
  function IssuedClaims(userID: Uuid.UUID, expiresIn: int, now: int): (c: Claims)
    ensures InDateRange(now) && InDateRange(now + expiresIn) ==> EncodableClaims(c)
  {
    Claims("chirpy", Uuid.ToString(userID), Some(NumericDate(now)), Some(NumericDate(now + expiresIn)), None)
  }

  /** `MakeJWT`: the signed token, or `""` and an error when signing fails. */
  function MakeJWT(j: Jws, userID: Uuid.UUID, tokenSecret: string, expiresIn: int, now: int): (r: (string, Option<Error>))
    ensures r.1.Some? ==> r == ("", Some(SigningFailed))
    ensures r.1.None? <==> j.sign(IssuedClaims(userID, expiresIn, now), tokenSecret).Some?
  {
    match j.sign(IssuedClaims(userID, expiresIn, now), tokenSecret)
    case Some(t) => (t, None)
    case None => ("", Some(SigningFailed))
  }

  /** The registered-claim checks of `jwt.ParseWithClaims` (no leeway): `exp` strictly after now, `nbf` not after now. */
  predicate TimeValid(c: Claims, now: int)
    ensures TimeValid(c, now) && c.notBefore.Some? && c.expiresAt.Some? ==> c.notBefore.value < c.expiresAt.value
  {
    && (c.expiresAt.Some? ==> now < c.expiresAt.value)
    && (c.notBefore.Some? ==> c.notBefore.value <= now)
  }

  /** `jwt.ParseWithClaims` with the secret as key: the verified claims if they are valid at `now`. */
  function ParseWithClaims(j: Jws, tokenString: string, tokenSecret: string, now: int): (r: Result<Claims, Error>)
    ensures r.Ok? <==> j.verify(tokenString, tokenSecret).Some? && TimeValid(j.verify(tokenString, tokenSecret).value, now)
    ensures r.Ok? ==> j.verify(tokenString, tokenSecret) == Some(r.value)
  {
    match j.verify(tokenString, tokenSecret)
    case None => Err(TokenUnverifiable)
    case Some(c) =>
      if c.expiresAt.Some? && !(now < c.expiresAt.value) then Err(TokenExpired)
      else if c.notBefore.Some? && now < c.notBefore.value then Err(TokenNotValidYet)
      else Ok(c)
  }

  /**
   * `ValidateJWT`: the user named by the subject of a token whose signature
   * verifies under the secret and whose time claims hold, or `uuid.Nil` and
   * an error. `GetSubject` on registered claims cannot fail, so the model has
   * no branch for it.
   */
  function ValidateJWT(j: Jws, tokenString: string, tokenSecret: string, now: int): (r: (Uuid.UUID, Option<Error>))
    ensures r.1.Some? ==> r.0 == Uuid.Nil
    ensures r.1.None? <==>
      && j.verify(tokenString, tokenSecret).Some?
      && TimeValid(j.verify(tokenString, tokenSecret).value, now)
      && Uuid.Parse(j.verify(tokenString, tokenSecret).value.subject).Some?
    ensures r.1.None? ==> Uuid.Parse(j.verify(tokenString, tokenSecret).value.subject) == Some(r.0)
  {
    match ParseWithClaims(j, tokenString, tokenSecret, now)
    case Err(e) => (Uuid.Nil, Some(e))
    case Ok(c) =>
      match Uuid.Parse(c.subject)
      case None => (Uuid.Nil, Some(SubjectNotUuid))
      case Some(id) => (id, None)
  }

  /**
   * A token from `MakeJWT` carries issuer "chirpy", the user's UUID string as
   * subject, and issued-at and expiry taken from the same instant, the expiry
   * `expiresIn` later when that is a whole number of seconds.
   */
  lemma MakeJWTClaims(j: Jws, userID: Uuid.UUID, tokenSecret: string, expiresIn: int, now: int)
    requires Sound(j)
    requires InDateRange(now) && InDateRange(now + expiresIn)
    requires MakeJWT(j, userID, tokenSecret, expiresIn, now).1.None?
    ensures var c := j.verify(MakeJWT(j, userID, tokenSecret, expiresIn, now).0, tokenSecret);
      && c.Some?
      && c.value.issuer == "chirpy"
      && c.value.subject == Uuid.ToString(userID)
      && c.value.issuedAt == Some(NumericDate(now))
      && c.value.expiresAt == Some(NumericDate(now + expiresIn))
      && (expiresIn % Second == 0 ==> c.value.expiresAt.value == c.value.issuedAt.value + expiresIn)
  {
    if expiresIn % Second == 0 {
      NumericDateShift(now, expiresIn);
    }
  }

  /** A token from `MakeJWT` holds no space, so it can travel in a bearer header. */
  lemma MakeJWTCompact(j: Jws, userID: Uuid.UUID, tokenSecret: string, expiresIn: int, now: int)
    requires forall c, secret :: j.sign(c, secret).Some? ==> Text.Free(j.sign(c, secret).value, ' ')
    requires MakeJWT(j, userID, tokenSecret, expiresIn, now).1.None?
    ensures Text.Free(MakeJWT(j, userID, tokenSecret, expiresIn, now).0, ' ')
  {
  }

  /** `ValidateJWT(MakeJWT(u, s, d), s)` gives back `u` at any time before the expiry. */
  lemma JWTRoundTrip(j: Jws, userID: Uuid.UUID, tokenSecret: string, expiresIn: int, now: int, later: int)
    requires Sound(j)
    requires InDateRange(now) && InDateRange(now + expiresIn)
    requires MakeJWT(j, userID, tokenSecret, expiresIn, now).1.None?
    requires later < NumericDate(now + expiresIn)
    ensures ValidateJWT(j, MakeJWT(j, userID, tokenSecret, expiresIn, now).0, tokenSecret, later) == (userID, None)
  {
    Uuid.ParseToString(userID);
  }

  /** From the expiry on, the same token is refused. */
  lemma JWTExpires(j: Jws, userID: Uuid.UUID, tokenSecret: string, expiresIn: int, now: int, later: int)
    requires Sound(j)
    requires InDateRange(now) && InDateRange(now + expiresIn)
    requires MakeJWT(j, userID, tokenSecret, expiresIn, now).1.None?
    requires NumericDate(now + expiresIn) <= later
    ensures ValidateJWT(j, MakeJWT(j, userID, tokenSecret, expiresIn, now).0, tokenSecret, later) == (Uuid.Nil, Some(TokenExpired))
  {
  }

  /**
   * A secret with the same HMAC key (the same secret with NULs added or
   * dropped at the end) accepts the token like the secret it was signed with.
   */
  lemma JWTPaddedSecret(j: Jws, userID: Uuid.UUID, tokenSecret: string, other: string, expiresIn: int, now: int, later: int)
    requires Sound(j) && KeyPadded(j)
    requires InDateRange(now) && InDateRange(now + expiresIn)
    requires MakeJWT(j, userID, tokenSecret, expiresIn, now).1.None? && SameHmacKey(tokenSecret, other)
    requires later < NumericDate(now + expiresIn)
    ensures ValidateJWT(j, MakeJWT(j, userID, tokenSecret, expiresIn, now).0, other, later) == (userID, None)
  {
    var token := MakeJWT(j, userID, tokenSecret, expiresIn, now).0;
    assert j.verify(token, other) == j.verify(token, tokenSecret);
    JWTRoundTrip(j, userID, tokenSecret, expiresIn, now, later);
  }

  /** A token signed with one secret is refused under any secret with a different HMAC key. */
  lemma JWTWrongSecret(j: Jws, userID: Uuid.UUID, tokenSecret: string, other: string, expiresIn: int, now: int, later: int)
    requires SecretBinding(j)
    requires MakeJWT(j, userID, tokenSecret, expiresIn, now).1.None? && DistinctHmacKeys(tokenSecret, other)
    ensures ValidateJWT(j, MakeJWT(j, userID, tokenSecret, expiresIn, now).0, other, later) == (Uuid.Nil, Some(TokenUnverifiable))
  {
  }

  // ---------------------------------------------------------------------
  // Bearer extraction

  /**
   * `GetBearerToken` on the value of the `Authorization` header (`""` when
   * the header is missing): the part after the single space of a
   * "<scheme> <token>" value whose scheme lower-cases to "bearer".
   */
  function GetBearerToken(header: string): (r: (string, Option<Error>))
    ensures header == "" ==> r == ("", Some(HeaderNotFound))
    ensures r.1.Some? ==> r.0 == "" && (r.1 == Some(HeaderNotFound) || r.1 == Some(InvalidHeader))
    ensures r.1.None? ==> Text.Free(r.0, ' ')
    ensures r.1.None? ==> exists scheme :: header == scheme + " " + r.0 && Text.ToLower(scheme) == "bearer"
  {
    if header == "" then ("", Some(HeaderNotFound))
    else
      var tokenParts := Text.Split(header, ' ');
      if |tokenParts| != 2 || Text.ToLower(tokenParts[0]) != "bearer" then ("", Some(InvalidHeader))
      else
        Text.JoinSplit(header, ' ');
        Text.SplitPiecesFree(header, ' ');
        assert header == tokenParts[0] + " " + tokenParts[1];
        (tokenParts[1], None)
  }

  /** A scheme that lower-cases to "bearer" contains no space. */
  lemma BearerSchemeFree(scheme: string)
    requires Text.ToLower(scheme) == "bearer"
    ensures Text.Free(scheme, ' ')
  {
    forall k | 0 <= k < |scheme| ensures scheme[k] != ' ' {
      assert Text.ToLower(scheme)[k] == Text.LowerChar(scheme[k]);
    }
  }

  /**
   * Round trip: for any token without a space, including the empty one, a
   * header "<scheme> <token>" with a scheme that lower-cases to "bearer"
   * gives back the token verbatim.
   */
  lemma BearerRoundTrip(scheme: string, token: string)
    requires Text.ToLower(scheme) == "bearer"
    requires Text.Free(token, ' ')
    ensures GetBearerToken(scheme + " " + token) == (token, None)
  {
    BearerSchemeFree(scheme);
    Text.SplitWordSep(scheme, token, ' ');
    Text.SplitWord(token, ' ');
  }

  /** A non-empty header of any other shape is refused as invalid. */
  lemma BearerRejected(header: string)
    requires header != ""
    requires !exists scheme, token :: header == scheme + " " + token && Text.ToLower(scheme) == "bearer" && Text.Free(token, ' ')
    ensures GetBearerToken(header) == ("", Some(InvalidHeader))
  {
  }

  /** The header value of the package's own test. */
  lemma BearerExample()
    ensures GetBearerToken("bearer TOKEN_STRING") == ("TOKEN_STRING", None)
  {
    BearerRoundTrip("bearer", "TOKEN_STRING");
    assert "bearer TOKEN_STRING" == "bearer" + " " + "TOKEN_STRING";
  }

  /** Two spaces give three parts. */
  lemma BearerDoubleSpace()
    ensures GetBearerToken("Bearer  x") == ("", Some(InvalidHeader))
  {
    Text.SplitWordSep("", "x", ' ');
    Text.SplitWord("x", ' ');
    Text.SplitWordSep("Bearer", " x", ' ');
    assert "Bearer  x" == "Bearer" + " " + " x";
    assert " x" == "" + " " + "x";
  }

  /** A scheme without a token is one part. */
  lemma BearerSchemeOnly()
    ensures GetBearerToken("Bearer") == ("", Some(InvalidHeader))
  {
    Text.SplitWord("Bearer", ' ');
  }

  /** Another scheme is refused before any token lookup. */
  lemma BasicSchemeRefused()
    ensures GetBearerToken("Basic xyz") == ("", Some(InvalidHeader))
  {
    Text.SplitWordSep("Basic", "xyz", ' ');
    Text.SplitWord("xyz", ' ');
    assert "Basic xyz" == "Basic" + " " + "xyz";
    assert Text.ToLower("Basic")[0] == 'b';
    assert Text.ToLower("Basic")[1] == 'a';
  }

  // ---------------------------------------------------------------------
  // Refresh tokens

  /**
   * `rand.Read(b)`: fills the buffer from the random source, modelled as the
   * bytes `entropy` it delivers, or fails when it delivers none.
   */
  method ReadRandom(b: array<byte>, entropy: Option<seq<byte>>) returns (n: nat, err: Option<Error>)
    requires entropy.Some? ==> |entropy.value| == b.Length
    modifies b
    ensures entropy.None? ==> n == 0 && err == Some(RandomFailed) && b[..] == old(b[..])
    ensures entropy.Some? ==> n == b.Length && err.None? && b[..] == entropy.value
  {
    if entropy.None? {
      return 0, Some(RandomFailed);
    }
    var i := 0;
    while i < b.Length
      invariant 0 <= i <= b.Length
      invariant b[..i] == entropy.value[..i]
    {
      b[i] := entropy.value[i];
      i := i + 1;
    }
    assert b[..] == b[..b.Length];
    return b.Length, None;
  }

  /** `hex.EncodeToString`: two lower-case digits per byte, high nibble first. */
  method EncodeToString(src: array<byte>) returns (s: string)
    ensures s == HexEncode(src[..])
  {
    s := "";
    var i := 0;
    while i < src.Length
      invariant 0 <= i <= src.Length
      invariant s == HexEncode(src[..i])
    {
      HexEncodeSnoc(src[..i], src[i]);
      assert src[..i + 1] == src[..i] + [src[i]];
      s := s + [Digits[src[i] as int / 16], Digits[src[i] as int % 16]];
      i := i + 1;
    }
    assert src[..] == src[..i];
  }

  /**
   * `MakeRefreshToken`: 32 random bytes as 64 lower-case hex digits, which
   * decode back to those bytes; `""` and an error when the random source fails.
   */
  method MakeRefreshToken(entropy: Option<seq<byte>>) returns (token: string, err: Option<Error>)
    requires entropy.Some? ==> |entropy.value| == 32
    ensures entropy.None? ==> token == "" && err == Some(RandomFailed)
    ensures entropy.Some? ==> err.None? && token == HexEncode(entropy.value)
    ensures err.None? ==> |token| == 64 && forall k :: 0 <= k < |token| ==> IsLowerHexDigit(token[k])
    ensures err.None? ==> HexDecode(token) == Some(entropy.value)
  {
    var b := new byte[32];
    var _, readErr := ReadRandom(b, entropy);
    if readErr.Some? {
      return "", readErr;
    }
    token := EncodeToString(b);
    HexEncodeAt(b[..]);
    HexEncodeLowerCase(b[..]);
    HexRoundTrip(b[..]);
    err := None;
  }
}
