/**
  The handler of admin-approve-user.js: an admin approves a pending user,
  by POST only.
 */
module AdminApproveUser {

  import opened Domain
  import opened Http
  import opened Session
  import opened Approval
  import opened Database

  /** One call: 405 for anything but POST, then 403 unless the session is an
      admin's, both before the store is touched. */
  function AdminApproveReply(t: Tables, cfg: Config, e: Event): (r: Reply)
    ensures !IsPost(e) ==> r == Reply(Plain(405), t)
    ensures IsPost(e) && !VerifyAdmin(e.session, cfg.verifyToken) ==> r == Reply(Plain(403), t)
    ensures r.tables != t ==> IsPost(e) && VerifyAdmin(e.session, cfg.verifyToken) && r.response.status == 200
  {
    if !IsPost(e) then Reply(Plain(405), t)
    else if !VerifyAdmin(e.session, cfg.verifyToken) then Reply(Plain(403), t)
    else ApprovalReply(t, e.body)
  }

  /** `exports.handler` of admin-approve-user.js. */
  method Handler(store: Store, cfg: Config, e: Event) returns (resp: Response)
    requires store.Valid()
    modifies store
    ensures store.Valid()
    ensures Reply(resp, store.Snapshot()) == AdminApproveReply(old(store.Snapshot()), cfg, e)
  {
    if !IsPost(e) {
      return Plain(405);
    }
    if !VerifyAdmin(e.session, cfg.verifyToken) {
      return Plain(403);
    }
    resp := store.Approve(e.body);
  }
}
