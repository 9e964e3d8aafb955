/**
 * The session endpoints: login (`createSession`), which mints an access
 * token and stores a refresh token; refresh, which trades a stored refresh
 * token for a new access token; and revoke, which stamps the stored record
 * as revoked.
 */
module Session {

  import opened Wrappers
  import opened Hex
  import Text
  import Auth
  import Database
  import opened Server

  /** Access tokens live one hour; refresh tokens sixty days. */
  const AccessTokenTtl: int := 1 * Auth.Hour
  const RefreshTokenTtl: int := 60 * 24 * Auth.Hour

  /** The login request body. */
  datatype LoginParams = LoginParams(password: string, email: string)

  /**
   * The refresh-token record a refresh or revoke request presents: the
   * bearer token of its `Authorization` header, found by the lookup, and not
   * expired at `now` (an expiry equal to `now` still counts).
   */
  function ActiveToken(sql: Database.Queries, authorization: string, now: int): (r: Option<Database.RefreshToken>)
    reads sql
    ensures r.Some? <==>
      && Auth.GetBearerToken(authorization).1.None?
      && sql.Lookup(Auth.GetBearerToken(authorization).0).Some?
      && now <= sql.Lookup(Auth.GetBearerToken(authorization).0).value.expiresAt
    ensures r.Some? ==> r == sql.Lookup(Auth.GetBearerToken(authorization).0)
  {
    var bearer := Auth.GetBearerToken(authorization);
    if bearer.1.Some? then None
    else
      match sql.Lookup(bearer.0)
      case None => None
      case Some(rt) => if rt.expiresAt < now then None else Some(rt)
  }

  /** When the lookup leaves out revoked rows, a revoked token is never active again. */
  lemma RevokedRefused(sql: Database.Queries, authorization: string, now: int)
    requires sql.lookupSkipsRevoked
    requires var token := Auth.GetBearerToken(authorization).0;
      token in sql.refreshTokens && sql.refreshTokens[token].revokedAt.Some?
    ensures ActiveToken(sql, authorization, now) == None
  {
  }

  /**
   * Without that filter the handlers themselves never look at the revocation
   * time, so a revoked token that has not expired is still active.
   */
  lemma RevokedStillActive(sql: Database.Queries, authorization: string, now: int)
    requires !sql.lookupSkipsRevoked
    requires Auth.GetBearerToken(authorization).1.None?
    requires var token := Auth.GetBearerToken(authorization).0;
      token in sql.refreshTokens && now <= sql.refreshTokens[token].expiresAt
    ensures ActiveToken(sql, authorization, now) == Some(sql.refreshTokens[Auth.GetBearerToken(authorization).0])
  {
  }

  /**
   * The second half of `createSession`, once the user is known and the
   * password matched: sign a one-hour access token, draw a refresh token and
   * store it with a sixty-day expiry. Any failure is a 400 and leaves the
   * store as it was.
   */
  method StartSession(cfg: ApiConfig, user: Database.User, now: int, entropy: Option<seq<byte>>)
    returns (resp: Response)
    requires cfg.Valid()
    requires entropy.Some? ==> |entropy.value| == 32
    modifies cfg.sql
    ensures cfg.Valid()
    ensures cfg.sql.users == old(cfg.sql.users) && cfg.sql.chirps == old(cfg.sql.chirps)
    ensures resp.status == StatusOK <==>
      && Auth.MakeJWT(cfg.jws, user.id, cfg.secret, AccessTokenTtl, now).1.None?
      && entropy.Some? && HexEncode(entropy.value) !in old(cfg.sql.refreshTokens)
    ensures resp.status != StatusOK ==>
      && resp == Response(StatusBadRequest, ErrorBody("Something went wrong"))
      && cfg.sql.refreshTokens == old(cfg.sql.refreshTokens)
    ensures resp.status == StatusOK ==>
      var token := HexEncode(entropy.value);
      && resp == Response(StatusOK, SessionBody(user.id, user.createdAt, user.updatedAt, user.email,
                                                Auth.MakeJWT(cfg.jws, user.id, cfg.secret, AccessTokenTtl, now).0,
                                                token, user.isChirpyRed))
      && cfg.sql.refreshTokens
         == old(cfg.sql.refreshTokens)[token := Database.RefreshToken(token, now, now, user.id, now + RefreshTokenTtl, None)]
  {
    var jwt := Auth.MakeJWT(cfg.jws, user.id, cfg.secret, AccessTokenTtl, now);
    if jwt.1.Some? {
      return WriteErrorJson(None, "Something went wrong");
    }
    var token, tokenErr := Auth.MakeRefreshToken(entropy);
    if tokenErr.Some? {
      return WriteErrorJson(None, "Something went wrong");
    }
    var created := cfg.sql.CreateRefreshToken(token, user.id, now + RefreshTokenTtl, now);
    if created.None? {
      return WriteErrorJson(None, "Something went wrong");
    }
    var body := SessionBody(user.id, user.createdAt, user.updatedAt, user.email, jwt.0, token, user.isChirpyRed);
    resp := WriteSuccessJson(body, None);
  }

  /** The access token of a successful login names its user until the token's expiry. */
  lemma SessionTokenValid(cfg: ApiConfig, user: Database.User, now: int, resp: Response)
    requires Auth.Sound(cfg.jws) && Auth.InDateRange(now) && Auth.InDateRange(now + AccessTokenTtl)
    requires Auth.MakeJWT(cfg.jws, user.id, cfg.secret, AccessTokenTtl, now).1.None?
    requires resp.body.SessionBody? && resp.body.id == user.id
    requires resp.body.token == Auth.MakeJWT(cfg.jws, user.id, cfg.secret, AccessTokenTtl, now).0
    ensures forall later :: later < Auth.NumericDate(now + AccessTokenTtl) ==>
      Auth.ValidateJWT(cfg.jws, resp.body.token, cfg.secret, later) == (user.id, None)
  {
    forall later | later < Auth.NumericDate(now + AccessTokenTtl)
      ensures Auth.ValidateJWT(cfg.jws, resp.body.token, cfg.secret, later) == (user.id, None)
    {
      Auth.JWTRoundTrip(cfg.jws, user.id, cfg.secret, AccessTokenTtl, now, later);
    }
  }

  /**
   * `createSession`. The checks run in order: the body decodes, the trimmed
   * email is long enough, a user has that email, the password matches its
   * hash; then `StartSession`. Only a login that passes every check changes
   * the store, by exactly one new refresh-token record.
   */
  method CreateSession(cfg: ApiConfig, params: Option<LoginParams>, now: int, entropy: Option<seq<byte>>)
    returns (resp: Response)
    requires cfg.Valid()
    requires entropy.Some? ==> |entropy.value| == 32
    modifies cfg.sql
    ensures cfg.Valid()
    ensures cfg.sql.users == old(cfg.sql.users) && cfg.sql.chirps == old(cfg.sql.chirps)
    ensures params.None? ==> resp == Response(StatusBadRequest, ErrorBody("Something went wrong"))
    ensures params.Some? && !EmailLongEnough(params.value.email) ==>
      resp == Response(StatusBadRequest, ErrorBody("Email is too short"))
    ensures params.Some? && EmailLongEnough(params.value.email) ==>
      var user := old(cfg.sql.UserWithEmail(Text.TrimSpace(params.value.email)));
      && (user.None? ==> resp == Response(StatusBadRequest, ErrorBody("Couldn't get user")))
      && (user.Some? && Auth.CheckPasswordHash(cfg.bcrypt, params.value.password, user.value.hashedPassword).Some? ==>
            resp == Response(StatusUnauthorized, ErrorBody("Incorrect email or password")))
      && (user.Some? && Auth.CheckPasswordHash(cfg.bcrypt, params.value.password, user.value.hashedPassword).None? &&
          !(&& Auth.MakeJWT(cfg.jws, user.value.id, cfg.secret, AccessTokenTtl, now).1.None?
            && entropy.Some? && HexEncode(entropy.value) !in old(cfg.sql.refreshTokens)) ==>
            resp == Response(StatusBadRequest, ErrorBody("Something went wrong")))
    ensures resp.status != StatusOK ==> resp.body.ErrorBody? && cfg.sql.refreshTokens == old(cfg.sql.refreshTokens)
    ensures resp.status == StatusOK <==>
      && params.Some? && EmailLongEnough(params.value.email)
      && old(cfg.sql.UserWithEmail(Text.TrimSpace(params.value.email))).Some?
      && var user := old(cfg.sql.UserWithEmail(Text.TrimSpace(params.value.email))).value;
      && Auth.CheckPasswordHash(cfg.bcrypt, params.value.password, user.hashedPassword).None?
      && Auth.MakeJWT(cfg.jws, user.id, cfg.secret, AccessTokenTtl, now).1.None?
      && entropy.Some? && HexEncode(entropy.value) !in old(cfg.sql.refreshTokens)
    ensures resp.status == StatusOK ==>
      var user := old(cfg.sql.UserWithEmail(Text.TrimSpace(params.value.email))).value;
      var token := HexEncode(entropy.value);
      && resp == Response(StatusOK, SessionBody(user.id, user.createdAt, user.updatedAt, user.email,
                                                Auth.MakeJWT(cfg.jws, user.id, cfg.secret, AccessTokenTtl, now).0,
                                                token, user.isChirpyRed))
      && cfg.sql.refreshTokens
         == old(cfg.sql.refreshTokens)[token := Database.RefreshToken(token, now, now, user.id, now + RefreshTokenTtl, None)]
    ensures resp.status == StatusOK && Auth.Sound(cfg.jws) && Auth.InDateRange(now) && Auth.InDateRange(now + AccessTokenTtl) ==>
      forall later :: later < Auth.NumericDate(now + AccessTokenTtl) ==>
        Auth.ValidateJWT(cfg.jws, resp.body.token, cfg.secret, later) == (resp.body.id, None)
  {
    if params.None? {
      return WriteErrorJson(None, "Something went wrong");
    }
    var email := Text.TrimSpace(params.value.email);
    if Text.ByteLen(email) < 5 {
      return WriteErrorJson(None, "Email is too short");
    }
    var user := cfg.sql.GetUserByEmail(email);
    if user.None? {
      return WriteErrorJson(None, "Couldn't get user");
    }
    var err := Auth.CheckPasswordHash(cfg.bcrypt, params.value.password, user.value.hashedPassword);
    if err.Some? {
      return WriteErrorJson(Some(StatusUnauthorized), "Incorrect email or password");
    }
    resp := StartSession(cfg, user.value, now, entropy);
    if resp.status == StatusOK && Auth.Sound(cfg.jws) && Auth.InDateRange(now) && Auth.InDateRange(now + AccessTokenTtl) {
      SessionTokenValid(cfg, user.value, now, resp);
    }
  }

  /**
   * `refreshSession`: a new one-hour access token for the owner of the
   * presented refresh token. The method has no `modifies` clause: refreshing
   * changes no record and does not rotate the refresh token.
   */
  method RefreshSession(cfg: ApiConfig, authorization: string, now: int) returns (resp: Response)
    requires cfg.Valid()
    ensures Auth.GetBearerToken(authorization).1.Some? ==>
      resp == Response(StatusUnauthorized, ErrorBody("Something went wrong"))
    ensures ActiveToken(cfg.sql, authorization, now).None? ==>
      resp == Response(StatusUnauthorized, ErrorBody("Something went wrong"))
    ensures ActiveToken(cfg.sql, authorization, now).Some? ==>
      var jwt := Auth.MakeJWT(cfg.jws, ActiveToken(cfg.sql, authorization, now).value.userId, cfg.secret, AccessTokenTtl, now);
      resp == if jwt.1.Some? then Response(StatusBadRequest, ErrorBody("Something went wrong"))
              else Response(StatusOK, TokenBody(jwt.0))
    ensures resp.status == StatusOK && Auth.Sound(cfg.jws) && Auth.InDateRange(now) && Auth.InDateRange(now + AccessTokenTtl) ==>
      forall later :: later < Auth.NumericDate(now + AccessTokenTtl) ==>
        Auth.ValidateJWT(cfg.jws, resp.body.token, cfg.secret, later)
        == (ActiveToken(cfg.sql, authorization, now).value.userId, None)
  {
    var bearer := Auth.GetBearerToken(authorization);
    var token := bearer.0;
    if bearer.1.Some? {
      return WriteErrorJson(Some(StatusUnauthorized), "Something went wrong");
    }
    var refreshToken := cfg.sql.GetRefreshTokenByToken(token);
    if refreshToken.None? || refreshToken.value.expiresAt < now {
      return WriteErrorJson(Some(StatusUnauthorized), "Something went wrong");
    }
    var jwt := Auth.MakeJWT(cfg.jws, refreshToken.value.userId, cfg.secret, AccessTokenTtl, now);
    if jwt.1.Some? {
      return WriteErrorJson(None, "Something went wrong");
    }
    forall later | later < Auth.NumericDate(now + AccessTokenTtl) && Auth.Sound(cfg.jws)
                   && Auth.InDateRange(now) && Auth.InDateRange(now + AccessTokenTtl)
      ensures Auth.ValidateJWT(cfg.jws, jwt.0, cfg.secret, later) == (refreshToken.value.userId, None)
    {
      Auth.JWTRoundTrip(cfg.jws, refreshToken.value.userId, cfg.secret, AccessTokenTtl, now, later);
    }
    resp := WriteSuccessJson(TokenBody(jwt.0), None);
  }

  /**
   * `revokeSession`: the same checks as refresh, then the presented record,
   * and no other, gets its revocation time; 204 with no body.
   */
  method RevokeSession(cfg: ApiConfig, authorization: string, now: int) returns (resp: Response)
    requires cfg.Valid()
    modifies cfg.sql
    ensures cfg.Valid()
    ensures cfg.sql.users == old(cfg.sql.users) && cfg.sql.chirps == old(cfg.sql.chirps)
    ensures old(ActiveToken(cfg.sql, authorization, now)).None? ==>
      && resp == Response(StatusUnauthorized, ErrorBody("Something went wrong"))
      && cfg.sql.refreshTokens == old(cfg.sql.refreshTokens)
    ensures old(ActiveToken(cfg.sql, authorization, now)).Some? ==>
      var rt := old(ActiveToken(cfg.sql, authorization, now)).value;
      && resp == Response(StatusNoContent, NoBody)
      && cfg.sql.refreshTokens == old(cfg.sql.refreshTokens)[rt.token := rt.(revokedAt := Some(now), updatedAt := now)]
  {
    var bearer := Auth.GetBearerToken(authorization);
    var token := bearer.0;
    if bearer.1.Some? {
      return WriteErrorJson(Some(StatusUnauthorized), "Something went wrong");
    }
    var refreshToken := cfg.sql.GetRefreshTokenByToken(token);
    if refreshToken.None? || refreshToken.value.expiresAt < now {
      return WriteErrorJson(Some(StatusUnauthorized), "Something went wrong");
    }
    // The record was just found, so the store's revoke cannot fail here.
    var revoked := cfg.sql.RevokeRefreshTokenByToken(token, now);
    assert revoked.Some?;
    resp := WriteSuccessJson(NoBody, Some(StatusNoContent));
  }
}
