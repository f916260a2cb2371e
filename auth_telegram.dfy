/**
  The handler of auth-telegram.js: the Telegram login, by POST only.
 */
module AuthTelegram {

  import opened Domain
  import opened Http
  import opened Identity
  import opened Database

  /** One call: anything but POST is 405 before the payload is read. */
  function AuthReply(t: Tables, cfg: Config, e: Event): (r: Reply)
    ensures !IsPost(e) ==> r == Reply(Plain(405), t)
    ensures r.response.status == 403 <==> IsPost(e) && ReadLogin(cfg, e.body) == BadHash
    ensures r.tables != t ==> IsPost(e) && r.response.status == 200 && ReadLogin(cfg, e.body).Login?
  {
    if !IsPost(e) then Reply(Plain(405), t) else LoginReply(t, cfg, e.body)
  }

  /** `exports.handler` of auth-telegram.js. */
  method Handler(store: Store, cfg: Config, e: Event) returns (resp: Response)
    requires store.Valid()
    modifies store
    ensures store.Valid()
    ensures Reply(resp, store.Snapshot()) == AuthReply(old(store.Snapshot()), cfg, e)
  {
    if !IsPost(e) {
      return Plain(405);
    }
    resp := store.Authenticate(cfg, e.body);
  }
}
