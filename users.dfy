/**
 * Signup and account update: the email rule, password hashing before
 * storage, and, on update, the user taken from the access token alone.
 */
module Users {

  import opened Wrappers
  import Text
  import Hex
  import Uuid
  import Auth
  import Database
  import opened Server

  /** The signup and update request body. */
  datatype UserParams = UserParams(password: string, email: string)

  /**
   * `createUser`. The checks run in order: the body decodes, the trimmed
   * email is long enough, bcrypt hashes the password (with `salt` standing in
   * for its random source); then the store inserts the user, under the id it
   * generates (`newId`), with the trimmed email and the hash, never the
   * password. The response shows id, timestamps and email only.
   */
  method CreateUser(cfg: ApiConfig, params: Option<UserParams>, now: int, salt: seq<Hex.byte>, newId: Uuid.UUID)
    returns (resp: Response)
    requires cfg.Valid()
    modifies cfg.sql
    ensures cfg.Valid()
    ensures cfg.sql.refreshTokens == old(cfg.sql.refreshTokens) && cfg.sql.chirps == old(cfg.sql.chirps)
    ensures resp.status != StatusCreated ==> resp.body.ErrorBody? && cfg.sql.users == old(cfg.sql.users)
    ensures params.None? ==> resp == Response(StatusBadRequest, ErrorBody("Something went wrong"))
    ensures params.Some? && !EmailLongEnough(params.value.email) ==>
      resp == Response(StatusBadRequest, ErrorBody("Email is too short"))
    ensures params.Some? && EmailLongEnough(params.value.email) ==>
      var email := Text.TrimSpace(params.value.email);
      var hash := Auth.HashPassword(cfg.bcrypt, params.value.password, salt);
      && (hash.1.Some? ==> resp == Response(StatusBadRequest, ErrorBody("Something went wrong")))
      && (hash.1.None? && (newId in old(cfg.sql.users) || old(cfg.sql.EmailTaken(email))) ==>
            resp == Response(StatusBadRequest, ErrorBody("Couldn't create user")))
      && (hash.1.None? && newId !in old(cfg.sql.users) && !old(cfg.sql.EmailTaken(email)) ==>
            var user := Database.User(newId, now, now, email, hash.0, false);
            && resp == Response(StatusCreated, UserView(user))
            && cfg.sql.users == old(cfg.sql.users)[newId := user])
  {
    if params.None? {
      return WriteErrorJson(None, "Something went wrong");
    }
    var email := Text.TrimSpace(params.value.email);
    if Text.ByteLen(email) < 5 {
      return WriteErrorJson(None, "Email is too short");
    }
    var hash := Auth.HashPassword(cfg.bcrypt, params.value.password, salt);
    var hashedPassword := hash.0;
    if hash.1.Some? {
      return WriteErrorJson(None, "Something went wrong");
    }
    var user := cfg.sql.CreateUser(newId, email, hashedPassword, now);
    if user.None? {
      return WriteErrorJson(None, "Couldn't create user");
    }
    resp := WriteSuccessJson(UserView(user.value), Some(StatusCreated));
  }

  /**
   * `updateUser`. The bearer token and the access token are checked before
   * the body is read, and either failure is a 401 whatever the body holds.
   * The user updated is the one the token names, never one from the body;
   * it gets the trimmed email and the new hash, and no other user changes.
   */
  method UpdateUser(cfg: ApiConfig, authorization: string, params: Option<UserParams>, now: int, salt: seq<Hex.byte>)
    returns (resp: Response)
    requires cfg.Valid()
    modifies cfg.sql
    ensures cfg.Valid()
    ensures cfg.sql.refreshTokens == old(cfg.sql.refreshTokens) && cfg.sql.chirps == old(cfg.sql.chirps)
    ensures resp.status != StatusOK ==> resp.body.ErrorBody? && cfg.sql.users == old(cfg.sql.users)
    ensures
      var bearer := Auth.GetBearerToken(authorization);
      bearer.1.Some? || Auth.ValidateJWT(cfg.jws, bearer.0, cfg.secret, now).1.Some? ==>
        resp == Response(StatusUnauthorized, ErrorBody("Something went wrong"))
    ensures
      var bearer := Auth.GetBearerToken(authorization);
      var userID := Auth.ValidateJWT(cfg.jws, bearer.0, cfg.secret, now);
      bearer.1.None? && userID.1.None? ==>
        && (params.None? ==> resp == Response(StatusBadRequest, ErrorBody("Something went wrong")))
        && (params.Some? && !EmailLongEnough(params.value.email) ==>
              resp == Response(StatusBadRequest, ErrorBody("Email is too short")))
        && (params.Some? && EmailLongEnough(params.value.email) ==>
              var email := Text.TrimSpace(params.value.email);
              var hash := Auth.HashPassword(cfg.bcrypt, params.value.password, salt);
              var id := userID.0;
              && (hash.1.Some? ==> resp == Response(StatusBadRequest, ErrorBody("Something went wrong")))
              && (hash.1.None? && (id !in old(cfg.sql.users) ||
                                   exists other :: other in old(cfg.sql.users) && other != id && old(cfg.sql.users)[other].email == email) ==>
                    resp == Response(StatusBadRequest, ErrorBody("Couldn't update user")))
              && (hash.1.None? && id in old(cfg.sql.users) &&
                  !(exists other :: other in old(cfg.sql.users) && other != id && old(cfg.sql.users)[other].email == email) ==>
                    var user := old(cfg.sql.users)[id].(email := email, hashedPassword := hash.0, updatedAt := now);
                    && resp == Response(StatusOK, UserView(user))
                    && cfg.sql.users == old(cfg.sql.users)[id := user]))
  {
    var bearer := Auth.GetBearerToken(authorization);
    var token := bearer.0;
    if bearer.1.Some? {
      return WriteErrorJson(Some(StatusUnauthorized), "Something went wrong");
    }
    var validated := Auth.ValidateJWT(cfg.jws, token, cfg.secret, now);
    var userID := validated.0;
    if validated.1.Some? {
      return WriteErrorJson(Some(StatusUnauthorized), "Something went wrong");
    }
    if params.None? {
      return WriteErrorJson(None, "Something went wrong");
    }
    var email := Text.TrimSpace(params.value.email);
    if Text.ByteLen(email) < 5 {
      return WriteErrorJson(None, "Email is too short");
    }
    var hash := Auth.HashPassword(cfg.bcrypt, params.value.password, salt);
    var hashedPassword := hash.0;
    if hash.1.Some? {
      return WriteErrorJson(None, "Something went wrong");
    }
    var user := cfg.sql.UpdateUser(userID, email, hashedPassword, now);
    if user.None? {
      return WriteErrorJson(None, "Couldn't update user");
    }
    resp := WriteSuccessJson(UserView(user.value), None);
  }
}
