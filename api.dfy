/**
  The single-endpoint handler of api.js: `?action=` picks the operation,
  after a session check that only the Telegram login skips. Every exception a
  handler raises becomes 500.
 */
module Api {

  import opened Options
  import opened JsStrings
  import opened Domain
  import opened Http
  import opened Session
  import opened Admission
  import opened Identity
  import opened Approval
  import opened Calendar
  import opened Database

  const ActionAuthTelegram: JsString := Lit("auth-telegram")
  const ActionUserInfo: JsString := Lit("user-info")
  const ActionAdminGetPending: JsString := Lit("admin-get-pending")
  const ActionAdminApproveUser: JsString := Lit("admin-approve-user")
  const ActionGetCalendar: JsString := Lit("get-calendar")
  const ActionRequestDaysOff: JsString := Lit("request-days-off")

  /** Where the dispatch sends a request. */
  datatype Route =
    | Auth                           // handleAuth
    | Unauthorized                   // 401
    | UserInfo(claims: Claims)       // handleGetUserInfo
    | AdminGetPending                // handleAdminGetPending
    | AdminApproveUser               // handleAdminApproveUser
    | PendingForbidden               // 403
    | GetCalendar(claims: Claims)    // handleGetCalendar
    | RequestDaysOff(claims: Claims) // handleRequestDaysOff
    | NoSuchAction                   // 404

  /** The dispatch of `exports.handler`, given the method, the action and the
      session's claims (None when there is no valid session). */
  function ApiRoute(httpMethod: JsString, action: Option<JsString>, claims: Option<Claims>): (r: Route)
    ensures r == Auth <==> httpMethod == Lit("POST") && action == Some(ActionAuthTelegram)
    ensures r == Unauthorized <==> r != Auth && claims.None?
    ensures r.UserInfo? ==> httpMethod == Lit("GET") && action == Some(ActionUserInfo) && claims == Some(r.claims)
    ensures claims.Some? && httpMethod == Lit("GET") && action == Some(ActionUserInfo) ==> r == UserInfo(claims.value)
    ensures r == AdminGetPending || r == AdminApproveUser ==> claims.Some? && claims.value.isAdmin
    ensures r == PendingForbidden ==> claims.Some? && claims.value.shift == Shift.Pending
    ensures r.GetCalendar? || r.RequestDaysOff? ==> claims == Some(r.claims) && r.claims.shift != Shift.Pending
    ensures r.GetCalendar? ==> action == Some(ActionGetCalendar)
    ensures r.RequestDaysOff? ==> action == Some(ActionRequestDaysOff)
  {
    if httpMethod == Lit("POST") && action == Some(ActionAuthTelegram) then Auth
    else match claims
      case None => Unauthorized
      case Some(c) =>
        if httpMethod == Lit("GET") && action == Some(ActionUserInfo) then UserInfo(c)
        else if c.isAdmin && action == Some(ActionAdminGetPending) then AdminGetPending
        else if c.isAdmin && action == Some(ActionAdminApproveUser) then AdminApproveUser
        else if c.shift == Shift.Pending then PendingForbidden
        else if action == Some(ActionGetCalendar) then GetCalendar(c)
        else if action == Some(ActionRequestDaysOff) then RequestDaysOff(c)
        else NoSuchAction
  }

  /** A pending user who is not an admin is refused every action except the
      login and `user-info` by GET. */
  lemma PendingUserForbidden(httpMethod: JsString, action: Option<JsString>, c: Claims)
    requires c.shift == Shift.Pending && !c.isAdmin
    requires !(httpMethod == Lit("POST") && action == Some(ActionAuthTelegram))
    requires !(httpMethod == Lit("GET") && action == Some(ActionUserInfo))
    ensures ApiRoute(httpMethod, action, Some(c)) == PendingForbidden
  {
  }

  /** The calendar and the day-off requests are reached by any method, and
      the admin actions by any method too, for every session that may use them.
      An admin action asked for by a working user who is not an admin falls
      through to the regular actions and is not found. */
  lemma ActionsIgnoreMethod(httpMethod: JsString, c: Claims)
    ensures c.shift != Shift.Pending ==>
      ApiRoute(httpMethod, Some(ActionGetCalendar), Some(c)) == GetCalendar(c) &&
      ApiRoute(httpMethod, Some(ActionRequestDaysOff), Some(c)) == RequestDaysOff(c)
    ensures c.isAdmin ==>
      ApiRoute(httpMethod, Some(ActionAdminGetPending), Some(c)) == AdminGetPending &&
      ApiRoute(httpMethod, Some(ActionAdminApproveUser), Some(c)) == AdminApproveUser
    ensures !c.isAdmin && c.shift != Shift.Pending ==>
      ApiRoute(httpMethod, Some(ActionAdminGetPending), Some(c)) == NoSuchAction &&
      ApiRoute(httpMethod, Some(ActionAdminApproveUser), Some(c)) == NoSuchAction
  {
    assert |ActionGetCalendar| == 12 && |ActionRequestDaysOff| == 16 && |ActionAuthTelegram| == 13;
    assert |ActionAdminGetPending| == 17 && |ActionAdminApproveUser| == 18 && |ActionUserInfo| == 9;
  }

  /** An action the handler does not know is 404 for every session that is not
      refused as pending. */
  lemma UnknownActionNotFound(httpMethod: JsString, action: Option<JsString>, c: Claims)
    requires action !in {Some(ActionAuthTelegram), Some(ActionUserInfo), Some(ActionAdminGetPending),
                         Some(ActionAdminApproveUser), Some(ActionGetCalendar), Some(ActionRequestDaysOff)}
    requires c.shift != Shift.Pending
    ensures ApiRoute(httpMethod, action, Some(c)) == NoSuchAction
  {
  }

  /** `handleGetUserInfo`: the caller's own row, or 404. */
  function UserInfoResponse(users: Users, userId: int): (r: Response)
    ensures r.status == 200 <==> userId in users
    ensures r.status == 200 ==> r.body == UserRecord(userId, users[userId])
  {
    if userId in users then Response(200, UserRecord(userId, users[userId])) else Plain(404)
  }

  /** `handleAdminGetPending`: the users still waiting for a shift. */
  function PendingIds(users: Users): (r: set<int>)
    ensures forall id :: id in r <==> id in users && users[id].shift == Shift.Pending
  {
    set id | id in users && users[id].shift == Shift.Pending
  }

  /** One call of the api.js handler: the response, and the tables it leaves.
      Only the login, an admin's approval and a non-pending user's day-off
      request change the tables; the days-off table changes only through the
      last, and only by a committed batch of the caller's pending rows. */
  function ApiReply(t: Tables, cfg: Config, e: Event): (r: Reply)
    requires DatesValid(t.daysOff)
    ensures var route := ApiRoute(e.httpMethod, Query(e, Lit("action")), VerifyUser(e.session, cfg.verifyToken));
      && (r.tables != t ==> route == Auth || route == AdminApproveUser || route.RequestDaysOff?)
      && (r.tables.daysOff != t.daysOff ==>
            route.RequestDaysOff? && r.response.status == 201 &&
            r.tables.daysOff == t.daysOff + Committed(route.claims.userId, DatesArgumentOf(e.body)))
  {
    match ApiRoute(e.httpMethod, Query(e, Lit("action")), VerifyUser(e.session, cfg.verifyToken))
    case Auth => LoginReply(t, cfg, e.body)
    case Unauthorized => Reply(Plain(401), t)
    case UserInfo(c) => Reply(UserInfoResponse(t.users, c.userId), t)
    case AdminGetPending => Reply(Response(200, PendingUsers(PendingIds(t.users))), t)
    case AdminApproveUser => ApprovalReply(t, e.body)
    case PendingForbidden => Reply(Plain(403), t)
    case GetCalendar(c) => CalendarReply(t, c, Query(e, Lit("month")), Query(e, Lit("year")))
    case RequestDaysOff(c) => AdmissionReply(t, c, DatesArgumentOf(e.body))
    case NoSuchAction => Reply(Plain(404), t)
  }

  /** Without a valid session only the login gets through; everything else is
      401 and changes nothing. */
  lemma NoSessionUnauthorized(t: Tables, cfg: Config, e: Event)
    requires DatesValid(t.daysOff)
    requires VerifyUser(e.session, cfg.verifyToken).None?
    requires !(IsPost(e) && Query(e, Lit("action")) == Some(ActionAuthTelegram))
    ensures ApiReply(t, cfg, e) == Reply(Plain(401), t)
  {
  }

  /** `exports.handler` of api.js. */
  method Handler(store: Store, cfg: Config, e: Event) returns (resp: Response)
    requires store.Valid()
    modifies store
    ensures store.Valid()
    ensures Reply(resp, store.Snapshot()) == ApiReply(old(store.Snapshot()), cfg, e)
  {
    match ApiRoute(e.httpMethod, Query(e, Lit("action")), VerifyUser(e.session, cfg.verifyToken))
    case Auth => resp := store.Authenticate(cfg, e.body);
    case Unauthorized => resp := Plain(401);
    case UserInfo(c) => resp := UserInfoResponse(store.users, c.userId);
    case AdminGetPending => resp := Response(200, PendingUsers(PendingIds(store.users)));
    case AdminApproveUser => resp := store.Approve(e.body);
    case PendingForbidden => resp := Plain(403);
    case GetCalendar(c) => resp := CalendarReply(store.Snapshot(), c, Query(e, Lit("month")), Query(e, Lit("year"))).response;
    case RequestDaysOff(c) => resp := store.SubmitDaysOff(c, e.body);
    case NoSuchAction => resp := Plain(404);
  }
}
