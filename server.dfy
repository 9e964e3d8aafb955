/**
 * What the handlers share: the `apiConfig` they are methods of, and the
 * response they write, reduced to its status code and its JSON body.
 */
module Server {

  import opened Wrappers
  import Text
  import Uuid
  import Auth
  import Database

  const StatusOK: int := 200
  const StatusCreated: int := 201
  const StatusNoContent: int := 204
  const StatusBadRequest: int := 400
  const StatusUnauthorized: int := 401
  const StatusNotFound: int := 404

  /** The JSON bodies the handlers write, one per response struct. */
  datatype Body =
    | NoBody
    | ErrorBody(error: string)
    | UserBody(id: Uuid.UUID, createdAt: int, updatedAt: int, email: string)
    | SessionBody(id: Uuid.UUID, createdAt: int, updatedAt: int, email: string,
                  token: string, refreshToken: string, isChirpyRed: bool)
    | TokenBody(token: string)
    | ChirpBody(id: Uuid.UUID, createdAt: int, updatedAt: int, body: string, userId: Uuid.UUID)

  datatype Response = Response(status: int, body: Body)

  /**
   * `writeErrorJson`, possibly after the handler already called
   * `WriteHeader(written)`: the first status written is the one sent, so the
   * response is 400 only when nothing was written before.
   */
  function WriteErrorJson(written: Option<int>, message: string): (r: Response)
    ensures r.body == ErrorBody(message)
    ensures written.None? ==> r.status == StatusBadRequest
    ensures written.Some? ==> r.status == written.value
  {
    Response(if written.Some? then written.value else StatusBadRequest, ErrorBody(message))
  }

  /** `writeSuccessJson`: the given status, 200 when none is given; a `nil` payload writes no body. */
  function WriteSuccessJson(body: Body, status: Option<int>): (r: Response)
    ensures r.body == body
    ensures status.None? ==> r.status == StatusOK
    ensures status.Some? ==> r.status == status.value
  {
    Response(if status.Some? then status.value else StatusOK, body)
  }

  /** The email rule of signup, update and login: the trimmed address is at least 5 bytes long. */
  predicate EmailLongEnough(email: string)
    ensures Text.IsAscii(Text.TrimSpace(email)) ==> (EmailLongEnough(email) <==> |Text.TrimSpace(email)| >= 5)
  {
    Text.ByteLenAscii(Text.TrimSpace(email));
    Text.ByteLen(Text.TrimSpace(email)) >= 5
  }

  /** The user as signup and update return it: id, timestamps and email, never the hash. */
  function UserView(u: Database.User): (b: Body)
    ensures b.UserBody? && b.id == u.id && b.email == u.email
    ensures b.createdAt == u.createdAt && b.updatedAt == u.updatedAt
  {
    UserBody(u.id, u.createdAt, u.updatedAt, u.email)
  }

  /**
   * `apiConfig`: the store, the HS256 secret and the webhook key. The
   * cryptographic primitives the auth package calls travel with it.
   */
  class ApiConfig {
    const sql: Database.Queries
    const secret: string
    const polkaKey: string
    const jws: Auth.Jws
    const bcrypt: Auth.Bcrypt

    ghost predicate Valid()
      reads sql
    {
      sql.Valid()
    }

    constructor (sql: Database.Queries, secret: string, polkaKey: string, jws: Auth.Jws, bcrypt: Auth.Bcrypt)
      requires sql.Valid()
      ensures Valid()
      ensures this.sql == sql && this.secret == secret && this.polkaKey == polkaKey
      ensures this.jws == jws && this.bcrypt == bcrypt
    {
      this.sql := sql;
      this.secret := secret;
      this.polkaKey := polkaKey;
      this.jws := jws;
      this.bcrypt := bcrypt;
    }
  }
}
