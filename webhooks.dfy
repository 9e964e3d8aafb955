/**
 * The payment provider's webhook: an API-key gate, an event filter, and the
 * one change it may make, setting a user's `IsChirpyRed` flag.
 */
module Webhooks {

  import opened Wrappers
  import Uuid
  import Database
  import opened Server

  /** The only event that changes anything. */
  const UpgradedEvent: string := "user.upgraded"

  /** The webhook request body: the event name and `data.user_id`. */
  datatype WebhookParams = WebhookParams(event: string, userId: Uuid.UUID)

  /**
   * `polkaWebhook`. `apiKey` is what `GetAPIKey` read from the headers
   * (`None` when it failed). A missing or wrong key is a bare 401 before the
   * body is read; an event other than "user.upgraded" is a bare 204; an
   * upgrade sets the flag of `data.user_id` and of no other user. For an
   * unknown user it changes nothing and is a 404 when the store's query
   * fails for it, a bare 204 when it does not.
   */
  method PolkaWebhook(cfg: ApiConfig, apiKey: Option<string>, params: Option<WebhookParams>) returns (resp: Response)
    requires cfg.Valid()
    modifies cfg.sql
    ensures cfg.Valid()
    ensures cfg.sql.refreshTokens == old(cfg.sql.refreshTokens) && cfg.sql.chirps == old(cfg.sql.chirps)
    ensures apiKey != Some(cfg.polkaKey) ==>
      resp == Response(StatusUnauthorized, NoBody) && cfg.sql.users == old(cfg.sql.users)
    ensures apiKey == Some(cfg.polkaKey) && params.None? ==>
      resp == Response(StatusBadRequest, ErrorBody("Something went wrong")) && cfg.sql.users == old(cfg.sql.users)
    ensures apiKey == Some(cfg.polkaKey) && params.Some? && params.value.event != UpgradedEvent ==>
      resp == Response(StatusNoContent, NoBody) && cfg.sql.users == old(cfg.sql.users)
    ensures apiKey == Some(cfg.polkaKey) && params.Some? && params.value.event == UpgradedEvent ==>
      var id := params.value.userId;
      && (id !in old(cfg.sql.users) && cfg.sql.upgradeMissingFails ==>
            resp == Response(StatusNotFound, ErrorBody("Something went wrong")) && cfg.sql.users == old(cfg.sql.users))
      && (id !in old(cfg.sql.users) && !cfg.sql.upgradeMissingFails ==>
            resp == Response(StatusNoContent, NoBody) && cfg.sql.users == old(cfg.sql.users))
      && (id in old(cfg.sql.users) ==>
            resp == Response(StatusNoContent, NoBody)
            && cfg.sql.users == old(cfg.sql.users)[id := Database.Upgraded(old(cfg.sql.users)[id])])
    ensures cfg.sql.users.Keys == old(cfg.sql.users).Keys
    ensures forall id :: id in old(cfg.sql.users) && old(cfg.sql.users)[id].isChirpyRed ==> cfg.sql.users[id].isChirpyRed
  {
    if apiKey.None? || apiKey.value != cfg.polkaKey {
      return Response(StatusUnauthorized, NoBody);
    }
    if params.None? {
      return WriteErrorJson(None, "Something went wrong");
    }
    if params.value.event != UpgradedEvent {
      return Response(StatusNoContent, NoBody);
    }
    var ok := cfg.sql.UpgradeUser(params.value.userId);
    if !ok {
      return WriteErrorJson(Some(StatusNotFound), "Something went wrong");
    }
    resp := WriteSuccessJson(NoBody, Some(StatusNoContent));
  }
}
