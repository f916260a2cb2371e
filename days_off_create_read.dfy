/**
  The handler of days-off-create-read.js: a session whose user is approved
  reads the calendar with GET and requests days off with POST.
 */
module DaysOffCreateRead {

  import opened Options
  import opened JsStrings
  import opened Domain
  import opened Http
  import opened Session
  import opened Admission
  import opened Calendar
  import opened Database

  datatype Route = Forbidden | Get(claims: Claims) | Post(claims: Claims) | MethodNotAllowed

  /** The checks of `exports.handler`: no session or a pending user is 403
      before the store is touched; then the method decides. */
  function DaysOffRoute(httpMethod: JsString, claims: Option<Claims>): (r: Route)
    ensures r == Forbidden <==> claims.None? || claims.value.shift == Shift.Pending
    ensures r.Get? <==> r != Forbidden && httpMethod == Lit("GET")
    ensures r.Post? <==> r != Forbidden && httpMethod == Lit("POST")
    ensures r.Get? || r.Post? ==> claims == Some(r.claims)
  {
    if claims.None? || claims.value.shift == Shift.Pending then Forbidden
    else if httpMethod == Lit("GET") then Get(claims.value)
    else if httpMethod == Lit("POST") then Post(claims.value)
    else MethodNotAllowed
  }

  /** One call: the response and the tables it leaves. */
  function DaysOffReply(t: Tables, cfg: Config, e: Event): (r: Reply)
    requires DatesValid(t.daysOff)
    ensures r.tables.users == t.users
    ensures r.tables != t ==> IsPost(e) && r.response.status == 201
  {
    match DaysOffRoute(e.httpMethod, VerifyUser(e.session, cfg.verifyToken))
    case Forbidden => Reply(Plain(403), t)
    case Get(c) => CalendarReply(t, c, Query(e, Lit("month")), Query(e, Lit("year")))
    case Post(c) => AdmissionReply(t, c, DatesArgumentOf(e.body))
    case MethodNotAllowed => Reply(Plain(405), t)
  }

  /** `exports.handler` of days-off-create-read.js. */
  method Handler(store: Store, cfg: Config, e: Event) returns (resp: Response)
    requires store.Valid()
    modifies store
    ensures store.Valid()
    ensures Reply(resp, store.Snapshot()) == DaysOffReply(old(store.Snapshot()), cfg, e)
  {
    match DaysOffRoute(e.httpMethod, VerifyUser(e.session, cfg.verifyToken))
    case Forbidden => resp := Plain(403);
    case Get(c) => resp := CalendarReply(store.Snapshot(), c, Query(e, Lit("month")), Query(e, Lit("year"))).response;
    case Post(c) => resp := store.SubmitDaysOff(c, e.body);
    case MethodNotAllowed => resp := Plain(405);
  }
}
