/**
  The two tables of the scheduling store, `users` and `days_off`, their
  schema constraints, and the counting queries the handlers run on them.
 */
module Domain {

  import opened Options
  import opened JsStrings
  import opened PgInput

  /** The CHECK constraint on users.shift allows these four values. */
  datatype Shift = Night | Morning | Evening | Pending

  /** The text stored in users.shift and carried in the session claims. */
  function ShiftName(s: Shift): JsString {
    match s
    case Night => Lit("Night")
    case Morning => Lit("Morning")
    case Evening => Lit("Evening")
    case Pending => Lit("pending")
  }

  /** The CHECK constraint on days_off.status allows these two values. */
  datatype Status = Pending | Approved

  /** A row of `users`, keyed by its Telegram id (the primary key). */
  datatype User = User(firstName: JsString, lastName: Option<JsString>, username: Option<JsString>,
                       shift: Shift, isAdmin: bool)

  /** A row of `days_off`. */
  datatype DayOff = DayOff(userId: int, date: Date, status: Status)

  /** What a session token carries. */
  datatype Claims = Claims(userId: int, shift: Shift, isAdmin: bool)

  type Users = map<int, User>

  /** The number of rows satisfying `p`, counted from the end of the table. */
  function Count(rows: seq<DayOff>, p: DayOff -> bool): nat
    decreases |rows|
  {
    if rows == [] then 0
    else Count(rows[..|rows| - 1], p) + (if p(rows[|rows| - 1]) then 1 else 0)
  }

  lemma CountSnoc(rows: seq<DayOff>, x: DayOff, p: DayOff -> bool)
    ensures Count(rows + [x], p) == Count(rows, p) + (if p(x) then 1 else 0)
  {
    assert (rows + [x])[..|rows|] == rows;
  }

  lemma {:induction false} CountAppend(a: seq<DayOff>, b: seq<DayOff>, p: DayOff -> bool)
    ensures Count(a + b, p) == Count(a, p) + Count(b, p)
    decreases |b|
  {
    if b != [] {
      var b' := b[..|b| - 1];
      CountAppend(a, b', p);
      assert a + b == (a + b') + [b[|b| - 1]];
      CountSnoc(a + b', b[|b| - 1], p);
      assert b == b' + [b[|b| - 1]];
      CountSnoc(b', b[|b| - 1], p);
    } else {
      assert a + b == a;
    }
  }

  /** The rows `WHERE user_id = $1 AND (status = 'pending' OR status = 'approved')`. */
  function QuotaRow(userId: int): DayOff -> bool {
    (r: DayOff) => r.userId == userId && (r.status == Status.Pending || r.status == Approved)
  }

  /** `SELECT COUNT(id) FROM days_off WHERE user_id = $1 AND (status = 'pending'
      OR status = 'approved')`: the requests held against the personal quota. */
  function QuotaCount(rows: seq<DayOff>, userId: int): (r: nat)
    ensures r > 0 <==> exists i :: 0 <= i < |rows| && rows[i].userId == userId
  {
    CountPositive(rows, QuotaRow(userId));
    Count(rows, QuotaRow(userId))
  }

  /** The rows `WHERE date = $1 AND status = 'approved' AND user_id IN (SELECT id
      FROM users WHERE shift = $2)`. */
  function ApprovedInShift(users: Users, shift: Shift, d: Date): DayOff -> bool {
    (r: DayOff) => r.date == d && r.status == Approved && r.userId in users && users[r.userId].shift == shift
  }

  /** The number of those rows: approved days off on `d` in that shift. */
  function ShiftApprovedCount(users: Users, rows: seq<DayOff>, shift: Shift, d: Date): (r: nat)
    ensures r > 0 <==> exists i :: 0 <= i < |rows| && rows[i].date == d && rows[i].status == Approved &&
                                  rows[i].userId in users && users[rows[i].userId].shift == shift
  {
    CountPositive(rows, ApprovedInShift(users, shift, d));
    Count(rows, ApprovedInShift(users, shift, d))
  }

  /** The user already has a request for that date. */
  predicate Holds(rows: seq<DayOff>, userId: int, d: Date) {
    exists i :: 0 <= i < |rows| && rows[i].userId == userId && rows[i].date == d
  }

  /** UNIQUE(user_id, date). */
  predicate UniqueRequests(rows: seq<DayOff>) {
    forall i, j :: 0 <= i < j < |rows| ==> rows[i].userId != rows[j].userId || rows[i].date != rows[j].date
  }

  /** days_off.user_id REFERENCES users(id). */
  predicate OwnersKnown(users: Users, rows: seq<DayOff>) {
    forall i :: 0 <= i < |rows| ==> rows[i].userId in users
  }

  /** Every stored date is a value of the DATE type. */
  predicate DatesValid(rows: seq<DayOff>) {
    forall i :: 0 <= i < |rows| ==> ValidDate(rows[i].date)
  }

  /** The constraints every state of the store satisfies. */
  predicate StoreInvariant(users: Users, rows: seq<DayOff>) {
    UniqueRequests(rows) && OwnersKnown(users, rows) && DatesValid(rows)
  }

  /** An INSERT of (userId, d) passes both constraints of days_off. */
  predicate Insertable(users: Users, rows: seq<DayOff>, userId: int, d: Date) {
    userId in users && !Holds(rows, userId, d)
  }

  /** The constraints hold of every prefix of a table that satisfies them. */
  lemma PrefixKeepsInvariant(users: Users, rows: seq<DayOff>, added: seq<DayOff>)
    requires StoreInvariant(users, rows + added)
    ensures StoreInvariant(users, rows)
  {
    var all := rows + added;
    assert forall i :: 0 <= i < |rows| ==> all[i] == rows[i];
  }

  /** Inserting a request that passes the constraints keeps them. */
  lemma InsertKeepsInvariant(users: Users, rows: seq<DayOff>, row: DayOff)
    requires StoreInvariant(users, rows)
    requires Insertable(users, rows, row.userId, row.date)
    requires ValidDate(row.date)
    ensures StoreInvariant(users, rows + [row])
  {
    var rows' := rows + [row];
    forall i, j | 0 <= i < j < |rows'|
      ensures rows'[i].userId != rows'[j].userId || rows'[i].date != rows'[j].date
    {
      if j == |rows| {
        assert rows'[i] == rows[i];
      }
    }
  }

  /** The pending requests a batch adds, one per date, in order. */
  function RequestRows(userId: int, dates: seq<Date>): (r: seq<DayOff>)
    ensures |r| == |dates|
  {
    seq(|dates|, i requires 0 <= i < |dates| => DayOff(userId, dates[i], Status.Pending))
  }

  /** The rows of a batch are exactly the caller's pending rows for its dates. */
  lemma RequestRowsMembers(userId: int, dates: seq<Date>, x: DayOff)
    ensures x in RequestRows(userId, dates) <==> x.userId == userId && x.status == Status.Pending && x.date in dates
  {
    var r := RequestRows(userId, dates);
    if x.userId == userId && x.status == Status.Pending && x.date in dates {
      var i :| 0 <= i < |dates| && dates[i] == x.date;
      assert r[i] == x;
    }
  }

  lemma RequestRowsSnoc(userId: int, dates: seq<Date>, d: Date)
    ensures RequestRows(userId, dates + [d]) == RequestRows(userId, dates) + [DayOff(userId, d, Status.Pending)]
  {
  }

  /** A count is positive exactly when some row satisfies the predicate. */
  lemma {:induction false} CountPositive(rows: seq<DayOff>, p: DayOff -> bool)
    ensures Count(rows, p) > 0 <==> exists i :: 0 <= i < |rows| && p(rows[i])
    decreases |rows|
  {
    if rows != [] {
      var init := rows[..|rows| - 1];
      CountPositive(init, p);
      if exists i :: 0 <= i < |init| && p(init[i]) {
        var i :| 0 <= i < |init| && p(init[i]);
        assert rows[i] == init[i];
      }
      if exists i :: 0 <= i < |rows| && p(rows[i]) {
        var i :| 0 <= i < |rows| && p(rows[i]);
        if i < |init| { assert init[i] == rows[i]; }
      }
    }
  }

  /** The two tables, as one value. */
  datatype Tables = Tables(users: Users, daysOff: seq<DayOff>)
}
