/**
  Logging in with Telegram (`handleAuth` in api.js and the auth-telegram.js
  handler): who counts as an admin, the upsert of the user's row, and the
  session claims built from the row as stored afterwards.
 */
module Identity {

  import opened Options
  import opened JsStrings
  import opened Json
  import opened PgInput
  import opened Domain
  import opened Http
  import opened Telegram

  // ---------------------------------------------------------------------
  // ADMIN_TELEGRAM_ID
  // ---------------------------------------------------------------------

  /** `(ADMIN_TELEGRAM_ID || '').split(',').map(id => id.trim())`. */
  function AdminIds(env: Option<JsString>): (r: seq<JsString>)
    ensures |r| >= 1
    ensures forall k :: 0 <= k < |r| ==> Comma !in r[k]
    ensures env.None? ==> r == [[]]
  {
    var parts := Split(env.GetOr([]), Comma);
    var r := seq(|parts|, i requires 0 <= i < |parts| => Trim(parts[i]));
    assert forall k :: 0 <= k < |r| ==> Comma !in r[k] by {
      forall k | 0 <= k < |r| ensures Comma !in r[k] {
        TrimIsSlice(parts[k]);
        var i :| TrimmedAt(parts[k], r[k], i);
        assert Comma !in parts[k];
      }
    }
    r
  }

  /** `adminIds.includes(String(userData.id))`. An id whose text holds a
      comma is never an admin's; with no ADMIN_TELEGRAM_ID set, only an id
      whose text is empty is. */
  predicate IsAdminId(env: Option<JsString>, id: Option<Json>): (r: bool)
    ensures r ==> Comma !in StringOf(id)
    ensures env.None? ==> (r <==> StringOf(id) == [])
  {
    StringOf(id) in AdminIds(env)
  }

  /** A configured list of comma-free entries yields each entry trimmed, so an
      id is an admin's exactly when it equals some entry up to surrounding
      whitespace. */
  lemma AdminIdsOfList(entries: seq<JsString>, id: Option<Json>)
    requires |entries| >= 1
    requires forall k :: 0 <= k < |entries| ==> Comma !in entries[k]
    ensures AdminIds(Some(Join(entries, [Comma]))) == seq(|entries|, i requires 0 <= i < |entries| => Trim(entries[i]))
    ensures IsAdminId(Some(Join(entries, [Comma])), id) <==> exists k :: 0 <= k < |entries| && Trim(entries[k]) == StringOf(id)
  {
    AdminIdsOfEntries(entries);
    InTrimmedEntries(AdminIds(Some(Join(entries, [Comma]))), entries, StringOf(id));
  }

  /** Membership in the trimmed entries, spelled out. */
  lemma InTrimmedEntries(ids: seq<JsString>, entries: seq<JsString>, x: JsString)
    requires ids == seq(|entries|, i requires 0 <= i < |entries| => Trim(entries[i]))
    ensures x in ids <==> exists k :: 0 <= k < |entries| && Trim(entries[k]) == x
  {
    if x in ids {
      var k :| 0 <= k < |ids| && ids[k] == x;
      assert Trim(entries[k]) == x;
    } else {
      forall k | 0 <= k < |entries| ensures Trim(entries[k]) != x {
        assert ids[k] == Trim(entries[k]);
      }
    }
  }

  /** The list part of `AdminIdsOfList`. */
  lemma AdminIdsOfEntries(entries: seq<JsString>)
    requires |entries| >= 1
    requires forall k :: 0 <= k < |entries| ==> Comma !in entries[k]
    ensures AdminIds(Some(Join(entries, [Comma]))) == seq(|entries|, i requires 0 <= i < |entries| => Trim(entries[i]))
  {
    SplitJoin(entries, Comma);
  }

  // ---------------------------------------------------------------------
  // The upsert
  // ---------------------------------------------------------------------

  /** The profile fields a login writes. */
  datatype Profile = Profile(firstName: JsString, lastName: Option<JsString>, username: Option<JsString>)

  /** The row `INSERT ... ON CONFLICT (id) DO UPDATE` leaves for the user:
      the profile and `is_admin` always come from the login; a new row's shift
      is `Morning` for an admin and `pending` otherwise; an existing row keeps
      its shift unless it is `pending` and the user is an admin. */
  function Upserted(existing: Option<User>, p: Profile, isAdmin: bool): (r: User)
    ensures r.firstName == p.firstName && r.lastName == p.lastName && r.username == p.username
    ensures r.isAdmin == isAdmin
    ensures isAdmin ==> r.shift != Shift.Pending
    ensures existing.Some? && r.shift != existing.value.shift ==> existing.value.shift == Shift.Pending && r.shift == Morning
  {
    var shift := match existing
      case None => if isAdmin then Morning else Shift.Pending
      case Some(u) => if u.shift == Shift.Pending && isAdmin then Morning else u.shift;
    User(p.firstName, p.lastName, p.username, shift, isAdmin)
  }

  /** The users table after the upsert of user `id`. */
  function UpsertUsers(users: Users, id: int, p: Profile, isAdmin: bool): (r: Users)
    ensures r.Keys == users.Keys + {id}
    ensures forall other :: other in users && other != id ==> r[other] == users[other]
    ensures r[id].firstName == p.firstName && r[id].lastName == p.lastName && r[id].username == p.username
    ensures r[id].isAdmin == isAdmin
  {
    users[id := Upserted(if id in users then Some(users[id]) else None, p, isAdmin)]
  }

  /** The shift after the upsert: a new user starts as `Morning` if an admin and
      `pending` otherwise; an existing shift changes only from `pending`, only
      for an admin, and only to `Morning`. An admin is never left pending. */
  lemma UpsertShift(users: Users, id: int, p: Profile, isAdmin: bool)
    ensures var shift := UpsertUsers(users, id, p, isAdmin)[id].shift;
      && (id !in users ==> shift == if isAdmin then Morning else Shift.Pending)
      && (id in users ==> (shift != users[id].shift <==> users[id].shift == Shift.Pending && isAdmin))
      && (id in users && shift != users[id].shift ==> shift == Morning)
      && (isAdmin ==> shift != Shift.Pending)
  {
  }

  /** Upserting the same login twice leaves the table as upserting it once. */
  lemma UpsertIdempotent(users: Users, id: int, p: Profile, isAdmin: bool)
    ensures UpsertUsers(UpsertUsers(users, id, p, isAdmin), id, p, isAdmin) == UpsertUsers(users, id, p, isAdmin)
  {
  }

  // ---------------------------------------------------------------------
  // Reading the login payload
  // ---------------------------------------------------------------------

  /** What the payload allows. */
  datatype LoginRequest =
    | Unparsable                                   // 500: no JSON, or `null`
    | BadHash                                      // 403
    | Unstorable                                   // 500: the upsert raises
    | Login(id: int, profile: Profile, isAdmin: bool)

  /** The payload checked and turned into the upsert's parameters. The upsert
      raises when `id` is missing or not a BIGINT, or `first_name` is NULL
      (the column is NOT NULL). */
  function ReadLogin(cfg: Config, body: Option<Json>): (r: LoginRequest)
    ensures r == Unparsable <==> body.None? || body == Some(JNull)
    ensures r == BadHash <==> body.Some? && Readable(body.value) && !VerifyTelegramHash(cfg, body.value)
    ensures r == Unstorable <==>
      body.Some? && Readable(body.value) && VerifyTelegramHash(cfg, body.value) &&
      (Property(body.value, Lit("id")).None? || BigintParam(Property(body.value, Lit("id")).value).None? ||
       TextParam(Property(body.value, Lit("first_name"))).None?)
    ensures r.Login? ==> VerifyTelegramHash(cfg, body.value)
    ensures r.Login? ==>
      TextParam(Property(body.value, Lit("first_name"))).Some? &&
      r.profile == Profile(TextParam(Property(body.value, Lit("first_name"))).value,
                           TextParam(Property(body.value, Lit("last_name"))),
                           TextParam(Property(body.value, Lit("username"))))
    ensures r.Login? ==>
      Property(body.value, Lit("id")).Some? && BigintParam(Property(body.value, Lit("id")).value) == Some(r.id)
    ensures r.Login? ==> (r.isAdmin <==> IsAdminId(cfg.adminTelegramIds, Property(body.value, Lit("id"))))
  {
    match body
    case None => Unparsable
    case Some(data) =>
      if !Readable(data) then Unparsable
      else if !VerifyTelegramHash(cfg, data) then BadHash
      else
        var id := Property(data, Lit("id"));
        var isAdmin := IsAdminId(cfg.adminTelegramIds, id);
        var key := if id.Some? then BigintParam(id.value) else None;
        var firstName := TextParam(Property(data, Lit("first_name")));
        if key.None? || firstName.None? then Unstorable
        else
          var profile := Profile(firstName.value, TextParam(Property(data, Lit("last_name"))),
                                 TextParam(Property(data, Lit("username"))));
          Login(key.value, profile, isAdmin)
  }

  /** The claims issued after the upsert, read back from the stored row. */
  function SessionClaims(users: Users, id: int): Claims
    requires id in users
  {
    Claims(id, users[id].shift, users[id].isAdmin)
  }

  /** One login call: the response and the tables it leaves. */
  function LoginReply(t: Tables, cfg: Config, body: Option<Json>): (r: Reply)
    ensures r.tables.daysOff == t.daysOff
    ensures r.response.status != 200 ==> r.tables == t
    ensures r.response.status == 403 <==> ReadLogin(cfg, body) == BadHash
  {
    match ReadLogin(cfg, body)
    case Unparsable => Reply(Plain(500), t)
    case BadHash => Reply(Plain(403), t)
    case Unstorable => Reply(Plain(500), t)
    case Login(id, profile, isAdmin) =>
      var users := UpsertUsers(t.users, id, profile, isAdmin);
      Reply(Response(200, Session(SessionClaims(users, id))), Tables(users, t.daysOff))
  }

  /** A successful login stores the user and hands out a session whose shift
      and admin flag are those of the stored row, not the initial shift the
      handler computed. */
  lemma LoginSession(t: Tables, cfg: Config, body: Option<Json>)
    requires LoginReply(t, cfg, body).response.status == 200
    ensures var r := LoginReply(t, cfg, body);
      && ReadLogin(cfg, body).Login?
      && r.response.body.Session?
      && var id := ReadLogin(cfg, body).id;
      && id in r.tables.users
      && r.tables.users == UpsertUsers(t.users, id, ReadLogin(cfg, body).profile, ReadLogin(cfg, body).isAdmin)
      && r.response.body.claims == Claims(id, r.tables.users[id].shift, r.tables.users[id].isAdmin)
  {
  }

  /** Replaying a login gives the same response and leaves the tables as the
      first call did. */
  lemma LoginReplay(t: Tables, cfg: Config, body: Option<Json>)
    ensures LoginReply(LoginReply(t, cfg, body).tables, cfg, body) == LoginReply(t, cfg, body)
  {
    match ReadLogin(cfg, body)
    case Login(id, profile, isAdmin) =>
      UpsertIdempotent(t.users, id, profile, isAdmin);
    case _ =>
  }
}
