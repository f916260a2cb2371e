/**
  What a server function receives and returns: the parts of a Netlify event
  the handlers read, the process environment they consult, and responses
  reduced to a status code and the data their body carries.
 */
module Http {

  import opened Options
  import opened JsStrings
  import opened Json
  import opened Domain

  /** An incoming request. `query` is `event.queryStringParameters`;
      `session` is the `session` cookie, None when the cookie header or that
      cookie is missing; `body` is `JSON.parse(event.body)`, None when that
      throws. */
  datatype Event = Event(httpMethod: JsString, query: map<JsString, JsString>,
                         session: Option<JsString>, body: Option<Json>)

  /** `event.queryStringParameters[name]`. */
  function Query(e: Event, name: JsString): Option<JsString> {
    if name in e.query then Some(e.query[name]) else None
  }

  /** A query-string value that JavaScript treats as false: absent or empty. */
  predicate FalsyText(v: Option<JsString>) {
    v.None? || v == Some([])
  }

  predicate IsGet(e: Event) { e.httpMethod == Lit("GET") }
  predicate IsPost(e: Event) { e.httpMethod == Lit("POST") }

  type Digest = seq<bv8>

  /** The process environment and the library calls the model does not
      interpret: SHA-256 of a text, the hex HMAC-SHA256 of a text under a
      key, and `jwt.verify` with the server's secret (None when it throws). */
  datatype Config = Config(
    botToken: JsString,
    adminTelegramIds: Option<JsString>,
    sha256: JsString -> Digest,
    hmacHex: (Digest, JsString) -> JsString,
    verifyToken: JsString -> Option<Claims>)

  /** One element of `myDaysOff`: a date as TO_CHAR prints it and its status. */
  datatype MyDayOff = MyDayOff(date: JsString, status: Status)

  /** What a response body carries, beyond its message text. */
  datatype Body =
    | Message
    | CurrentCount(count: nat)
    | Session(claims: Claims)
    | CalendarView(shiftDayCounts: map<JsString, nat>, myDaysOff: seq<MyDayOff>)
    | UserRecord(id: int, user: User)
    | PendingUsers(ids: set<int>)

  datatype Response = Response(status: nat, body: Body)

  /** A response with only a message. */
  function Plain(code: nat): Response {
    Response(code, Message)
  }

  /** A response together with the tables as the call leaves them. */
  datatype Reply = Reply(response: Response, tables: Tables)
}
