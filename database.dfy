/**
 * The relational store behind `cfg.sql`. Its queries are generated code that
 * is not part of this model, so each query the handlers call is a method
 * with the plainest contract its name and call site suggest: a
 * lookup by key, an insert that fails on a duplicate key, an update that
 * fails when the row is missing.
 */
module Database {

  import opened Wrappers
  import Uuid

  datatype User = User(
    id: Uuid.UUID,
    createdAt: int,
    updatedAt: int,
    email: string,
    hashedPassword: string,
    isChirpyRed: bool)

  datatype RefreshToken = RefreshToken(
    token: string,
    createdAt: int,
    updatedAt: int,
    userId: Uuid.UUID,
    expiresAt: int,
    revokedAt: Option<int>)

  datatype Chirp = Chirp(
    id: Uuid.UUID,
    createdAt: int,
    updatedAt: int,
    body: string,
    userId: Uuid.UUID)

  /** The user with the entitlement flag set; every other field as before. */
  function Upgraded(u: User): (r: User)
    ensures r.isChirpyRed
    ensures r.(isChirpyRed := u.isChirpyRed) == u
  {
    u.(isChirpyRed := true)
  }

  /** Setting the flag twice is setting it once. */
  lemma UpgradedIdempotent(u: User)
    ensures Upgraded(Upgraded(u)) == Upgraded(u)
  {
  }

  class Queries {
    var users: map<Uuid.UUID, User>
    var refreshTokens: map<string, RefreshToken>
    var chirps: map<Uuid.UUID, Chirp>

    /**
     * Whether `GetRefreshTokenByToken` leaves out revoked rows. The SQL of the
     * generated query is not part of this model and the handlers never look
     * at `revoked_at` themselves, so the model keeps both readings.
     */
    const lookupSkipsRevoked: bool

    /**
     * Whether `UpdateUserIsChirpyRed` fails for an id with no row. The call
     * site takes a single error, the shape of an `:exec` query, which reports
     * no error when no row matches; the model keeps both readings.
     */
    const upgradeMissingFails: bool

    /** Rows are keyed by their own id or token, and emails are unique. */
    ghost predicate Valid()
      reads this
    {
      && (forall id :: id in users ==> users[id].id == id)
      && (forall a, b :: a in users && b in users && users[a].email == users[b].email ==> a == b)
      && (forall t :: t in refreshTokens ==> refreshTokens[t].token == t)
      && (forall id :: id in chirps ==> chirps[id].id == id)
    }

    constructor (lookupSkipsRevoked: bool, upgradeMissingFails: bool)
      ensures Valid()
      ensures users == map[] && refreshTokens == map[] && chirps == map[]
      ensures this.lookupSkipsRevoked == lookupSkipsRevoked && this.upgradeMissingFails == upgradeMissingFails
    {
      users, refreshTokens, chirps := map[], map[], map[];
      this.lookupSkipsRevoked := lookupSkipsRevoked;
      this.upgradeMissingFails := upgradeMissingFails;
    }

    ghost predicate EmailTaken(email: string)
      reads this
    {
      exists id :: id in users && users[id].email == email
    }

    /** The user registered with `email`, if any. */
    ghost function UserWithEmail(email: string): (r: Option<User>)
      reads this
      ensures r.Some? <==> EmailTaken(email)
      ensures r.Some? ==> r.value in users.Values && r.value.email == email
      ensures Valid() && r.Some? ==> r.value.id in users && users[r.value.id] == r.value
    {
      if EmailTaken(email) then
        var id :| id in users && users[id].email == email;
        Some(users[id])
      else None
    }

    /** `GetUserByEmail`. */
    method GetUserByEmail(email: string) returns (r: Option<User>)
      requires Valid()
      ensures r == UserWithEmail(email)
    {
      if exists id :: id in users && users[id].email == email {
        var id :| id in users && users[id].email == email;
        r := Some(users[id]);
      } else {
        r := None;
      }
    }

    /** `CreateUser`: a new row, unless its id or its email is already taken. */
    method CreateUser(id: Uuid.UUID, email: string, hashedPassword: string, now: int) returns (r: Option<User>)
      requires Valid()
      modifies this
      ensures Valid()
      ensures refreshTokens == old(refreshTokens) && chirps == old(chirps)
      ensures r.None? <==> id in old(users) || old(EmailTaken(email))
      ensures r.None? ==> users == old(users)
      ensures r.Some? ==> r.value == User(id, now, now, email, hashedPassword, false) && users == old(users)[id := r.value]
    {
      if id in users || exists other :: other in users && users[other].email == email {
        return None;
      }
      var u := User(id, now, now, email, hashedPassword, false);
      users := users[id := u];
      r := Some(u);
    }

    /** `UpdateUser`: new email and password hash for an existing user, unless another user has that email. */
    method UpdateUser(id: Uuid.UUID, email: string, hashedPassword: string, now: int) returns (r: Option<User>)
      requires Valid()
      modifies this
      ensures Valid()
      ensures refreshTokens == old(refreshTokens) && chirps == old(chirps)
      ensures r.None? <==> id !in old(users) || exists other :: other in old(users) && other != id && old(users)[other].email == email
      ensures r.None? ==> users == old(users)
      ensures r.Some? ==>
        && r.value == old(users)[id].(email := email, hashedPassword := hashedPassword, updatedAt := now)
        && users == old(users)[id := r.value]
    {
      if id !in users || exists other :: other in users && other != id && users[other].email == email {
        return None;
      }
      var u := users[id].(email := email, hashedPassword := hashedPassword, updatedAt := now);
      users := users[id := u];
      r := Some(u);
    }

    /** `UpdateUserIsChirpyRed` with the flag set to true: fails when there is no such user. */
    method UpgradeUser(id: Uuid.UUID) returns (ok: bool)
      requires Valid()
      modifies this
      ensures Valid()
      ensures refreshTokens == old(refreshTokens) && chirps == old(chirps)
      ensures ok <==> id in old(users) || !upgradeMissingFails
      ensures id !in old(users) ==> users == old(users)
      ensures id in old(users) ==> users == old(users)[id := Upgraded(old(users)[id])]
    {
      if id !in users {
        return !upgradeMissingFails;
      }
      users := users[id := Upgraded(users[id])];
      ok := true;
    }

    /** What `GetRefreshTokenByToken` returns for `token`. */
    function Lookup(token: string): (r: Option<RefreshToken>)
      reads this
      ensures r.Some? ==> token in refreshTokens && r.value == refreshTokens[token]
      ensures r.Some? && lookupSkipsRevoked ==> r.value.revokedAt.None?
    {
      if token in refreshTokens && !(lookupSkipsRevoked && refreshTokens[token].revokedAt.Some?) then
        Some(refreshTokens[token])
      else None
    }

    /** `GetRefreshTokenByToken`. */
    method GetRefreshTokenByToken(token: string) returns (r: Option<RefreshToken>)
      ensures r == Lookup(token)
    {
      r := Lookup(token);
    }

    /** `CreateRefreshToken`: a new, unrevoked row, unless the token is already stored. */
    method CreateRefreshToken(token: string, userId: Uuid.UUID, expiresAt: int, now: int) returns (r: Option<RefreshToken>)
      requires Valid()
      modifies this
      ensures Valid()
      ensures users == old(users) && chirps == old(chirps)
      ensures r.None? <==> token in old(refreshTokens)
      ensures r.None? ==> refreshTokens == old(refreshTokens)
      ensures r.Some? ==>
        && r.value == RefreshToken(token, now, now, userId, expiresAt, None)
        && refreshTokens == old(refreshTokens)[token := r.value]
    {
      if token in refreshTokens {
        return None;
      }
      var rt := RefreshToken(token, now, now, userId, expiresAt, None);
      refreshTokens := refreshTokens[token := rt];
      r := Some(rt);
    }

    /** `RevokeRefreshTokenByToken`: stamps the row's revocation time; fails when the token is not stored. */
    method RevokeRefreshTokenByToken(token: string, now: int) returns (r: Option<RefreshToken>)
      requires Valid()
      modifies this
      ensures Valid()
      ensures users == old(users) && chirps == old(chirps)
      ensures r.None? <==> token !in old(refreshTokens)
      ensures r.None? ==> refreshTokens == old(refreshTokens)
      ensures r.Some? ==>
        && r.value == old(refreshTokens)[token].(revokedAt := Some(now), updatedAt := now)
        && refreshTokens == old(refreshTokens)[token := r.value]
    {
      if token !in refreshTokens {
        return None;
      }
      var rt := refreshTokens[token].(revokedAt := Some(now), updatedAt := now);
      refreshTokens := refreshTokens[token := rt];
      r := Some(rt);
    }

    /** `CreateChirp`: a new row, unless the generated id is already taken. */
    method CreateChirp(id: Uuid.UUID, body: string, userId: Uuid.UUID, now: int) returns (r: Option<Chirp>)
      requires Valid()
      modifies this
      ensures Valid()
      ensures users == old(users) && refreshTokens == old(refreshTokens)
      ensures r.None? <==> id in old(chirps)
      ensures r.None? ==> chirps == old(chirps)
      ensures r.Some? ==> r.value == Chirp(id, now, now, body, userId) && chirps == old(chirps)[id := r.value]
    {
      if id in chirps {
        return None;
      }
      var c := Chirp(id, now, now, body, userId);
      chirps := chirps[id := c];
      r := Some(c);
    }
  }
}
