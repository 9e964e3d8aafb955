/**
 * End-to-end runs of the handlers against a fresh store, in the order a
 * client makes the calls. Each is proved from the handlers' contracts alone.
 */
module Scenarios {

  import opened Wrappers
  import opened Hex
  import Text
  import Uuid
  import Auth
  import Database
  import opened Server
  import Session
  import Users
  import Chirps
  import Webhooks

  const TestEmail: string := "user@test.io"
  const TestPassword: string := "hunter2"

  /** The test address is its own trim and long enough. */
  lemma TestEmailAccepted()
    ensures Text.TrimSpace(TestEmail) == TestEmail
    ensures EmailLongEnough(TestEmail)
  {
    Text.TrimSpaceNoSpace(TestEmail);
  }

  /** "Bearer " followed by a token without a space is read back as that token. */
  lemma BearerOf(token: string)
    requires Text.Free(token, ' ')
    ensures Auth.GetBearerToken("Bearer " + token) == (token, None)
  {
    assert Text.ToLower("Bearer") == "bearer";
    Auth.BearerRoundTrip("Bearer", token);
    assert "Bearer" + " " + token == "Bearer " + token;
  }

  /** A refresh token is lower-case hex, so it holds no space. */
  lemma RefreshTokenFree(entropy: seq<byte>)
    ensures Text.Free(HexEncode(entropy), ' ')
  {
    var token := HexEncode(entropy);
    HexEncodeLowerCase(entropy);
    forall k | 0 <= k < |token| ensures token[k] != ' ' {
      assert IsLowerHexDigit(token[k]);
    }
  }

  /**
   * A new store and configuration with one user, signed up as
   * "user@test.io" / "hunter2" under the store-generated id `id`.
   */
  method SignUp(lookupSkipsRevoked: bool, jws: Auth.Jws, bcrypt: Auth.Bcrypt, secret: string, polkaKey: string,
                id: Uuid.UUID, salt: seq<byte>, now: int)
    returns (cfg: ApiConfig, resp: Response)
    requires bcrypt.generate(TestPassword, salt).Some?
    ensures fresh(cfg) && fresh(cfg.sql) && cfg.Valid()
    ensures cfg.jws == jws && cfg.bcrypt == bcrypt && cfg.secret == secret && cfg.polkaKey == polkaKey
    ensures cfg.sql.lookupSkipsRevoked == lookupSkipsRevoked && !cfg.sql.upgradeMissingFails
    ensures resp == Response(StatusCreated, UserBody(id, now, now, TestEmail))
    ensures cfg.sql.users == map[id := Database.User(id, now, now, TestEmail, bcrypt.generate(TestPassword, salt).value, false)]
    ensures cfg.sql.refreshTokens == map[] && cfg.sql.chirps == map[]
  {
    var sql := new Database.Queries(lookupSkipsRevoked, false);
    cfg := new ApiConfig(sql, secret, polkaKey, jws, bcrypt);
    TestEmailAccepted();
    resp := Users.CreateUser(cfg, Some(Users.UserParams(TestPassword, TestEmail)), now, salt, id);
  }

  /** Logging in as the user `SignUp` created, whose membership flag is `red`. */
  method LogIn(cfg: ApiConfig, id: Uuid.UUID, red: bool, salt: seq<byte>, now: int, entropy: seq<byte>)
    returns (resp: Response)
    requires cfg.Valid() && Auth.Verifies(cfg.bcrypt)
    requires |entropy| == 32
    requires cfg.bcrypt.generate(TestPassword, salt).Some?
    requires cfg.jws.sign(Auth.IssuedClaims(id, Session.AccessTokenTtl, now), cfg.secret).Some?
    requires cfg.sql.users == map[id := Database.User(id, now, now, TestEmail, cfg.bcrypt.generate(TestPassword, salt).value, red)]
    requires cfg.sql.refreshTokens == map[]
    modifies cfg.sql
    ensures cfg.Valid() && cfg.sql.users == old(cfg.sql.users) && cfg.sql.chirps == old(cfg.sql.chirps)
    ensures resp.status == StatusOK && resp.body.SessionBody?
    ensures resp.body.id == id && resp.body.email == TestEmail && resp.body.isChirpyRed == red
    ensures resp.body.refreshToken == HexEncode(entropy)
    ensures resp.body.token == Auth.MakeJWT(cfg.jws, id, cfg.secret, Session.AccessTokenTtl, now).0
    ensures cfg.sql.refreshTokens
      == map[HexEncode(entropy) := Database.RefreshToken(HexEncode(entropy), now, now, id, now + Session.RefreshTokenTtl, None)]
    ensures Auth.Sound(cfg.jws) && Auth.InDateRange(now) && Auth.InDateRange(now + Session.AccessTokenTtl) ==>
      forall later :: later < Auth.NumericDate(now + Session.AccessTokenTtl) ==>
        Auth.ValidateJWT(cfg.jws, resp.body.token, cfg.secret, later) == (id, None)
  {
    var user := cfg.sql.users[id];
    TestEmailAccepted();
    assert cfg.sql.UserWithEmail(TestEmail) == Some(user) by {
      assert cfg.sql.users[id].email == TestEmail;
    }
    resp := Session.CreateSession(cfg, Some(Session.LoginParams(TestPassword, TestEmail)), now, Some(entropy));
  }

  /**
   * Signup, then login with the same password: 200, an access token whose
   * subject is the new user, and a 64-digit refresh token stored with a
   * sixty-day expiry.
   */
  method SignUpThenLogIn(jws: Auth.Jws, bcrypt: Auth.Bcrypt, secret: string, id: Uuid.UUID, salt: seq<byte>,
                         now: int, entropy: seq<byte>)
    returns (signup: Response, login: Response)
    requires Auth.Sound(jws) && Auth.Verifies(bcrypt)
    requires Auth.InDateRange(now) && Auth.InDateRange(now + Session.AccessTokenTtl)
    requires bcrypt.generate(TestPassword, salt).Some?
    requires jws.sign(Auth.IssuedClaims(id, Session.AccessTokenTtl, now), secret).Some?
    requires |entropy| == 32
    ensures signup.status == StatusCreated && signup.body.UserBody? && signup.body.id == id
    ensures login.status == StatusOK && login.body.SessionBody? && login.body.id == id
    ensures Auth.ValidateJWT(jws, login.body.token, secret, now) == (id, None)
    ensures |login.body.refreshToken| == 64 && HexDecode(login.body.refreshToken) == Some(entropy)
  {
    var cfg;
    cfg, signup := SignUp(true, jws, bcrypt, secret, "", id, salt, now);
    login := LogIn(cfg, id, false, salt, now, entropy);
    HexEncodeAt(entropy);
    HexRoundTrip(entropy);
  }

  /**
   * Login, refresh twice, revoke, refresh again. Both refreshes succeed and
   * name the user: the refresh token is not rotated. The revoke is a 204.
   * The last refresh is refused exactly when the store's lookup leaves out
   * revoked rows; the handlers alone would accept it.
   */
  method RefreshThenRevoke(lookupSkipsRevoked: bool, jws: Auth.Jws, bcrypt: Auth.Bcrypt, secret: string,
                           id: Uuid.UUID, salt: seq<byte>, now: int, entropy: seq<byte>, later: int)
    returns (first: Response, second: Response, revoke: Response, last: Response)
    requires Auth.Sound(jws) && Auth.Verifies(bcrypt)
    requires Auth.InDateRange(now) && Auth.InDateRange(now + Session.AccessTokenTtl)
    requires bcrypt.generate(TestPassword, salt).Some?
    requires forall c :: jws.sign(c, secret).Some?
    requires |entropy| == 32
    requires now <= later <= now + Session.RefreshTokenTtl
    requires Auth.InDateRange(later + Session.AccessTokenTtl)
    ensures first.status == StatusOK && first.body.TokenBody?
    ensures Auth.ValidateJWT(jws, first.body.token, secret, later) == (id, None)
    ensures second == first
    ensures revoke == Response(StatusNoContent, NoBody)
    ensures lookupSkipsRevoked ==> last == Response(StatusUnauthorized, ErrorBody("Something went wrong"))
    ensures !lookupSkipsRevoked ==> last.status == StatusOK
  {
    var cfg, _ := SignUp(lookupSkipsRevoked, jws, bcrypt, secret, "", id, salt, now);
    var login := LogIn(cfg, id, false, salt, now, entropy);
    var header := "Bearer " + login.body.refreshToken;
    RefreshTokenFree(entropy);
    BearerOf(login.body.refreshToken);
    first := Session.RefreshSession(cfg, header, later);
    Auth.JWTRoundTrip(jws, id, secret, Session.AccessTokenTtl, later, later);
    second := Session.RefreshSession(cfg, header, later);
    revoke := Session.RevokeSession(cfg, header, later);
    last := Session.RefreshSession(cfg, header, later);
  }

  /** Revoking twice: the second call is refused exactly when the lookup leaves out revoked rows. */
  method RevokeTwice(lookupSkipsRevoked: bool, jws: Auth.Jws, bcrypt: Auth.Bcrypt, secret: string,
                     id: Uuid.UUID, salt: seq<byte>, now: int, entropy: seq<byte>)
    returns (first: Response, second: Response)
    requires Auth.Verifies(bcrypt)
    requires bcrypt.generate(TestPassword, salt).Some?
    requires jws.sign(Auth.IssuedClaims(id, Session.AccessTokenTtl, now), secret).Some?
    requires |entropy| == 32
    ensures first == Response(StatusNoContent, NoBody)
    ensures lookupSkipsRevoked ==> second == Response(StatusUnauthorized, ErrorBody("Something went wrong"))
    ensures !lookupSkipsRevoked ==> second == Response(StatusNoContent, NoBody)
  {
    var cfg, _ := SignUp(lookupSkipsRevoked, jws, bcrypt, secret, "", id, salt, now);
    var login := LogIn(cfg, id, false, salt, now, entropy);
    var header := "Bearer " + login.body.refreshToken;
    RefreshTokenFree(entropy);
    BearerOf(login.body.refreshToken);
    var token := login.body.refreshToken;
    first := Session.RevokeSession(cfg, header, now);
    assert cfg.sql.refreshTokens[token].revokedAt == Some(now);
    assert cfg.sql.refreshTokens[token].expiresAt == now + Session.RefreshTokenTtl;
    if lookupSkipsRevoked {
      Session.RevokedRefused(cfg.sql, header, now);
    } else {
      Session.RevokedStillActive(cfg.sql, header, now);
    }
    second := Session.RevokeSession(cfg, header, now);
  }

  /** A "Basic" header is refused before any lookup, whatever the store holds. */
  method BasicHeaderRefused(cfg: ApiConfig, now: int) returns (refresh: Response)
    requires cfg.Valid()
    ensures refresh == Response(StatusUnauthorized, ErrorBody("Something went wrong"))
  {
    Auth.BasicSchemeRefused();
    refresh := Session.RefreshSession(cfg, "Basic xyz", now);
  }

  /** A chirp posted with the login's access token is stored, cleaned, under the user who logged in. */
  method PostChirp(jws: Auth.Jws, bcrypt: Auth.Bcrypt, secret: string, id: Uuid.UUID, salt: seq<byte>,
                   now: int, entropy: seq<byte>, chirpId: Uuid.UUID)
    returns (resp: Response)
    requires Auth.Sound(jws) && Auth.Verifies(bcrypt)
    requires Auth.InDateRange(now) && Auth.InDateRange(now + Session.AccessTokenTtl)
    requires bcrypt.generate(TestPassword, salt).Some?
    requires jws.sign(Auth.IssuedClaims(id, Session.AccessTokenTtl, now), secret).Some?
    requires |entropy| == 32
    ensures resp == Response(StatusCreated, ChirpBody(chirpId, now, now, "****", id))
  {
    var cfg, _ := SignUp(true, jws, bcrypt, secret, "", id, salt, now);
    var login := LogIn(cfg, id, false, salt, now, entropy);
    var header := "Bearer " + login.body.token;
    Auth.MakeJWTCompact(jws, id, secret, Session.AccessTokenTtl, now);
    BearerOf(login.body.token);
    Chirps.CapitalisedWordCensored();
    resp := Chirps.CreateChirp(cfg, Some(Chirps.ChirpParams("Sharbert")), header, now, chirpId);
  }

  /** After the provider's upgrade event, the next login reports the user as a member. */
  method UpgradeThenLogIn(jws: Auth.Jws, bcrypt: Auth.Bcrypt, secret: string, polkaKey: string,
                          id: Uuid.UUID, salt: seq<byte>, now: int, entropy: seq<byte>)
    returns (hook: Response, login: Response)
    requires Auth.Verifies(bcrypt)
    requires bcrypt.generate(TestPassword, salt).Some?
    requires jws.sign(Auth.IssuedClaims(id, Session.AccessTokenTtl, now), secret).Some?
    requires |entropy| == 32
    ensures hook == Response(StatusNoContent, NoBody)
    ensures login.status == StatusOK && login.body.SessionBody? && login.body.isChirpyRed
  {
    var cfg, _ := SignUp(true, jws, bcrypt, secret, polkaKey, id, salt, now);
    hook := Webhooks.PolkaWebhook(cfg, Some(polkaKey), Some(Webhooks.WebhookParams(Webhooks.UpgradedEvent, id)));
    login := LogIn(cfg, id, true, salt, now, entropy);
  }

  /**
   * The upgrade event for an id with no row, on a store whose upgrade query
   * reports no error when no row matches: a bare 204 and no change.
   */
  method UpgradeUnknownUser(jws: Auth.Jws, bcrypt: Auth.Bcrypt, secret: string, polkaKey: string,
                            id: Uuid.UUID, other: Uuid.UUID, salt: seq<byte>, now: int)
    returns (hook: Response)
    requires bcrypt.generate(TestPassword, salt).Some?
    requires other != id
    ensures hook == Response(StatusNoContent, NoBody)
  {
    var cfg, _ := SignUp(true, jws, bcrypt, secret, polkaKey, id, salt, now);
    hook := Webhooks.PolkaWebhook(cfg, Some(polkaKey), Some(Webhooks.WebhookParams(Webhooks.UpgradedEvent, other)));
  }
}
