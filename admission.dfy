/**
  The admission controller behind `request-days-off` (handleRequestDaysOff
  in api.js and its twin handlePost in days-off-create-read.js): what one
  call decides, as a function of the store before the call. The imperative
  version with its snapshot and rollback is Database.Store.RequestDaysOff.
 */
module Admission {

  import opened Options
  import opened JsStrings
  import opened Json
  import opened PgInput
  import opened Domain
  import opened Http

  /** At most this many pending plus approved requests per user. */
  const QuotaLimit: nat := 4

  /** A date is full for a shift once it has this many approved requests. */
  const ShiftCap: nat := 2

  /** What `const { dates } = JSON.parse(event.body)` yields. */
  datatype DatesArgument =
    | Unreadable          // JSON.parse or the destructuring throws
    | NotAnArray          // `dates` is missing or not an array
    | DateList(items: seq<Json>)

  function DatesArgumentOf(body: Option<Json>): (r: DatesArgument)
    ensures r == Unreadable <==> body.None? || body == Some(JNull)
    ensures r.DateList? ==> body.Some? && Property(body.value, Lit("dates")) == Some(JArray(r.items))
    ensures r == NotAnArray <==>
      body.Some? && Readable(body.value) &&
      !(Property(body.value, Lit("dates")).Some? && Property(body.value, Lit("dates")).value.JArray?)
  {
    match body
    case None => Unreadable
    case Some(v) =>
      if !Readable(v) then Unreadable
      else match Property(v, Lit("dates"))
        case Some(JArray(items)) => DateList(items)
        case _ => NotAnArray
  }

  /** The result of one call; the handlers turn it into a status code. */
  datatype Admission =
    | Created                    // 201, the batch is committed
    | InvalidDates               // 400, no array of dates
    | QuotaExceeded(current: nat) // 400, with the current count
    | DateUnavailable(date: Date) // 400, that date is full for the shift
    | StoreFailure               // 500, a query or insert raised an error

  /** Each requested date as Postgres reads it. */
  function DateParams(items: seq<Json>): (r: seq<Option<Date>>)
    ensures |r| == |items|
    ensures forall i :: 0 <= i < |items| ==> r[i] == DateParam(items[i])
  {
    seq(|items|, i requires 0 <= i < |items| => DateParam(items[i]))
  }

  /** The dates of a list that were read, in order. */
  function Present(dates: seq<Option<Date>>): (r: seq<Date>)
    ensures |r| <= |dates|
    ensures (forall i :: 0 <= i < |dates| ==> dates[i].Some?) ==>
      |r| == |dates| && forall i :: 0 <= i < |dates| ==> r[i] == dates[i].value
    decreases |dates|
  {
    if dates == [] then []
    else
      var init := Present(dates[..|dates| - 1]);
      assert forall i :: 0 <= i < |dates| - 1 ==> dates[..|dates| - 1][i] == dates[i];
      match dates[|dates| - 1]
      case None => init
      case Some(d) => init + [d]
  }

  /** The dates present are exactly the ones read. */
  lemma {:induction false} PresentMembers(dates: seq<Option<Date>>, d: Date)
    ensures d in Present(dates) <==> Some(d) in dates
    decreases |dates|
  {
    if dates != [] {
      var n := |dates| - 1;
      PresentMembers(dates[..n], d);
      assert dates == dates[..n] + [dates[n]];
    }
  }

  /** The loop over the dates, on the table as the loop's own inserts grow it:
      per date, the cap query (which fails for an unreadable date), then the
      INSERT (which fails on either constraint). */
  function AdmitBatch(users: Users, rows: seq<DayOff>, caller: Claims, dates: seq<Option<Date>>): (r: Admission)
    ensures !r.InvalidDates? && !r.QuotaExceeded?
    ensures r.DateUnavailable? ==>
      Some(r.date) in dates && ShiftApprovedCount(users, rows, caller.shift, r.date) >= ShiftCap
    decreases |dates|
  {
    if dates == [] then Created
    else match dates[0]
      case None => StoreFailure
      case Some(d) =>
        if ShiftApprovedCount(users, rows, caller.shift, d) >= ShiftCap then DateUnavailable(d)
        else if !Insertable(users, rows, caller.userId, d) then StoreFailure
        else
          var r := AdmitBatch(users, rows + [DayOff(caller.userId, d, Status.Pending)], caller, dates[1..]);
          if r.DateUnavailable? then
            PendingRowKeepsCount(users, rows, caller.userId, d, caller.shift, r.date);
            assert dates == [dates[0]] + dates[1..];
            r
          else r
  }

  /** Reading one more date extends the dates present by it, if it is one. */
  lemma PresentSnoc(dates: seq<Option<Date>>, i: nat)
    requires i < |dates|
    ensures Present(dates[..i + 1]) == Present(dates[..i]) + (if dates[i].Some? then [dates[i].value] else [])
  {
    assert dates[..i + 1][..i] == dates[..i];
  }

  /** A free date the caller can insert lets the batch go on with the rest of
      the dates over the table holding the new row. */
  lemma AdmitBatchStep(users: Users, rows: seq<DayOff>, caller: Claims, dates: seq<Option<Date>>)
    requires dates != [] && dates[0].Some?
    requires ShiftApprovedCount(users, rows, caller.shift, dates[0].value) < ShiftCap
    requires Insertable(users, rows, caller.userId, dates[0].value)
    ensures AdmitBatch(users, rows, caller, dates)
         == AdmitBatch(users, rows + [DayOff(caller.userId, dates[0].value, Status.Pending)], caller, dates[1..])
  {
  }

  /** One request-days-off call by `caller` on the store (`users`, `rows`). */
  function Admit(users: Users, rows: seq<DayOff>, caller: Claims, arg: DatesArgument): (r: Admission)
    ensures r == InvalidDates <==> arg.NotAnArray? || (arg.DateList? && arg.items == [])
    ensures r.QuotaExceeded? <==>
      arg.DateList? && arg.items != [] && QuotaCount(rows, caller.userId) + |arg.items| > QuotaLimit
    ensures r.QuotaExceeded? ==> r.current == QuotaCount(rows, caller.userId)
    ensures arg.Unreadable? ==> r == StoreFailure
  {
    match arg
    case Unreadable => StoreFailure
    case NotAnArray => InvalidDates
    case DateList(items) =>
      if items == [] then InvalidDates
      else
        var current := QuotaCount(rows, caller.userId);
        if current + |items| > QuotaLimit then QuotaExceeded(current)
        else AdmitBatch(users, rows, caller, DateParams(items))
  }

  /** The rows a committed call adds: one pending row per requested date. */
  function Committed(userId: int, arg: DatesArgument): (r: seq<DayOff>)
    ensures !arg.DateList? ==> r == []
    ensures forall x :: x in r <==>
      arg.DateList? && x.userId == userId && x.status == Status.Pending && Some(x.date) in DateParams(arg.items)
  {
    if arg.DateList? then
      var ds := DateParams(arg.items);
      var rows := RequestRows(userId, Present(ds));
      assert forall x :: x in rows <==> x.userId == userId && x.status == Status.Pending && Some(x.date) in ds by {
        forall x ensures x in rows <==> x.userId == userId && x.status == Status.Pending && Some(x.date) in ds {
          RequestRowsMembers(userId, Present(ds), x);
          PresentMembers(ds, x.date);
        }
      }
      rows
    else []
  }

  /** The status code a handler answers with. */
  function AdmissionResponse(a: Admission): (r: Response)
    ensures r.status == 201 <==> a == Created
    ensures r.status == 500 <==> a == StoreFailure
    ensures r.status == 400 <==> a.InvalidDates? || a.QuotaExceeded? || a.DateUnavailable?
    ensures a.QuotaExceeded? ==> r.body == CurrentCount(a.current)
  {
    match a
    case Created => Plain(201)
    case InvalidDates => Plain(400)
    case QuotaExceeded(current) => Response(400, CurrentCount(current))
    case DateUnavailable(_) => Plain(400)
    case StoreFailure => Plain(500)
  }

  /** One request-days-off call: the response, and the tables with the batch
      committed or, on any other outcome, as they were. */
  function AdmissionReply(t: Tables, caller: Claims, arg: DatesArgument): (r: Reply)
    ensures r.tables.users == t.users
    ensures r.response.status != 201 ==> r.tables == t
  {
    var a := Admit(t.users, t.daysOff, caller, arg);
    Reply(AdmissionResponse(a),
          if a == Created then Tables(t.users, t.daysOff + Committed(caller.userId, arg)) else t)
  }

  // ---------------------------------------------------------------------
  // What the loop decides, in closed form
  // ---------------------------------------------------------------------

  /** A batch the loop commits: every date readable and not yet held by the
      caller, no date twice, the caller's row exists, and no date already has
      the cap of approved requests in the caller's shift in the table as it
      was before the call. */
  predicate BatchAdmissible(users: Users, rows: seq<DayOff>, caller: Claims, dates: seq<Option<Date>>) {
    && (dates != [] ==> caller.userId in users)
    && (forall i :: 0 <= i < |dates| ==> dates[i].Some?)
    && (forall i :: 0 <= i < |dates| && dates[i].Some? ==>
          ShiftApprovedCount(users, rows, caller.shift, dates[i].value) < ShiftCap)
    && (forall i :: 0 <= i < |dates| && dates[i].Some? ==> !Holds(rows, caller.userId, dates[i].value))
    && (forall i, j :: 0 <= i < j < |dates| ==> dates[i] != dates[j])
  }

  /** A pending row never changes an approved count. */
  lemma PendingRowKeepsCount(users: Users, rows: seq<DayOff>, userId: int, d: Date, shift: Shift, e: Date)
    ensures ShiftApprovedCount(users, rows + [DayOff(userId, d, Status.Pending)], shift, e)
         == ShiftApprovedCount(users, rows, shift, e)
  {
    CountSnoc(rows, DayOff(userId, d, Status.Pending), ApprovedInShift(users, shift, e));
  }

  /** After inserting (userId, d), the user holds `e` iff it held it or e is d. */
  lemma HoldsAfterInsert(rows: seq<DayOff>, row: DayOff, userId: int, e: Date)
    requires row.userId == userId
    ensures Holds(rows + [row], userId, e) <==> Holds(rows, userId, e) || row.date == e
  {
    var rows' := rows + [row];
    if Holds(rows, userId, e) {
      var i :| 0 <= i < |rows| && rows[i].userId == userId && rows[i].date == e;
      assert rows'[i] == rows[i];
    }
    if row.date == e {
      assert rows'[|rows|] == row;
    }
    if Holds(rows', userId, e) {
      var i :| 0 <= i < |rows'| && rows'[i].userId == userId && rows'[i].date == e;
      if i < |rows| { assert rows'[i] == rows[i]; }
    }
  }

  /** An admissible rest of the batch, after a first date that passed both
      checks, makes the whole batch admissible. */
  lemma AdmissibleExtend(users: Users, rows: seq<DayOff>, caller: Claims, dates: seq<Option<Date>>)
    requires dates != [] && dates[0].Some?
    requires ShiftApprovedCount(users, rows, caller.shift, dates[0].value) < ShiftCap
    requires Insertable(users, rows, caller.userId, dates[0].value)
    requires BatchAdmissible(users, rows + [DayOff(caller.userId, dates[0].value, Status.Pending)], caller, dates[1..])
    ensures BatchAdmissible(users, rows, caller, dates)
  {
    var d := dates[0].value;
    var uid := caller.userId;
    var row := DayOff(uid, d, Status.Pending);
    var rows' := rows + [row];
    var rest := dates[1..];
    forall i | 0 <= i < |dates| ensures dates[i].Some? && ShiftApprovedCount(users, rows, caller.shift, dates[i].value) < ShiftCap
      && !Holds(rows, uid, dates[i].value)
    {
      if i > 0 {
        assert rest[i - 1] == dates[i];
        PendingRowKeepsCount(users, rows, uid, d, caller.shift, dates[i].value);
        HoldsAfterInsert(rows, row, uid, dates[i].value);
      }
    }
    forall i, j | 0 <= i < j < |dates| ensures dates[i] != dates[j] {
      if i == 0 {
        assert rest[j - 1] == dates[j];
        HoldsAfterInsert(rows, row, uid, dates[j].value);
      } else {
        assert rest[i - 1] == dates[i] && rest[j - 1] == dates[j];
      }
    }
  }

  /** The rest of an admissible batch stays admissible once its first date
      is inserted. */
  lemma AdmissibleRest(users: Users, rows: seq<DayOff>, caller: Claims, dates: seq<Option<Date>>)
    requires dates != [] && BatchAdmissible(users, rows, caller, dates)
    ensures BatchAdmissible(users, rows + [DayOff(caller.userId, dates[0].value, Status.Pending)], caller, dates[1..])
  {
    var d := dates[0].value;
    var uid := caller.userId;
    var row := DayOff(uid, d, Status.Pending);
    var rows' := rows + [row];
    var rest := dates[1..];
    forall i | 0 <= i < |rest| ensures rest[i].Some? && ShiftApprovedCount(users, rows', caller.shift, rest[i].value) < ShiftCap
      && !Holds(rows', uid, rest[i].value)
    {
      assert rest[i] == dates[i + 1];
      assert dates[0] != dates[i + 1];
      PendingRowKeepsCount(users, rows, uid, d, caller.shift, rest[i].value);
      HoldsAfterInsert(rows, row, uid, rest[i].value);
    }
    forall i, j | 0 <= i < j < |rest| ensures rest[i] != rest[j] {
      assert rest[i] == dates[i + 1] && rest[j] == dates[j + 1];
    }
  }

  /** The loop commits exactly the admissible batches. Pending rows inserted
      earlier in the loop never fill a date for a later one; only the
      uniqueness constraint sees them. */
  lemma {:induction false} AdmitBatchCreatedIff(users: Users, rows: seq<DayOff>, caller: Claims, dates: seq<Option<Date>>)
    ensures AdmitBatch(users, rows, caller, dates) == Created <==> BatchAdmissible(users, rows, caller, dates)
    decreases |dates|
  {
    if dates != [] && dates[0].Some? {
      var d := dates[0].value;
      if ShiftApprovedCount(users, rows, caller.shift, d) < ShiftCap && Insertable(users, rows, caller.userId, d) {
        var rows' := rows + [DayOff(caller.userId, d, Status.Pending)];
        AdmitBatchCreatedIff(users, rows', caller, dates[1..]);
        if BatchAdmissible(users, rows', caller, dates[1..]) {
          AdmissibleExtend(users, rows, caller, dates);
        }
        if BatchAdmissible(users, rows, caller, dates) {
          AdmissibleRest(users, rows, caller, dates);
        }
      }
    }
  }

  /** When the first `i` dates of a batch are admissible, the loop inserts the
      first one and goes on with the rest over the table holding it, whose
      first `i - 1` dates are admissible in turn. */
  lemma AdmissiblePrefixStep(users: Users, rows: seq<DayOff>, caller: Claims, dates: seq<Option<Date>>, i: nat)
    requires 0 < i <= |dates|
    requires BatchAdmissible(users, rows, caller, dates[..i])
    ensures dates[0].Some? && caller.userId in users
    ensures var rows' := rows + [DayOff(caller.userId, dates[0].value, Status.Pending)];
      && AdmitBatch(users, rows, caller, dates) == AdmitBatch(users, rows', caller, dates[1..])
      && BatchAdmissible(users, rows', caller, dates[1..][..i - 1])
      && (forall e :: ShiftApprovedCount(users, rows', caller.shift, e) == ShiftApprovedCount(users, rows, caller.shift, e))
      && (forall e :: Holds(rows', caller.userId, e) <==> Holds(rows, caller.userId, e) || dates[0].value == e)
  {
    var prefix := dates[..i];
    assert prefix[0] == dates[0];
    var d := dates[0].value;
    var uid := caller.userId;
    var row := DayOff(uid, d, Status.Pending);
    var rows' := rows + [row];
    var rest := dates[1..];
    assert Insertable(users, rows, uid, d);
    forall e: Date
      ensures ShiftApprovedCount(users, rows', caller.shift, e) == ShiftApprovedCount(users, rows, caller.shift, e)
      ensures Holds(rows', uid, e) <==> Holds(rows, uid, e) || d == e
    {
      PendingRowKeepsCount(users, rows, uid, d, caller.shift, e);
      HoldsAfterInsert(rows, row, uid, e);
    }
    var restPrefix := rest[..i - 1];
    assert forall k :: 0 <= k < i - 1 ==> restPrefix[k] == prefix[k + 1];
    forall k | 0 <= k < i - 1 ensures !Holds(rows', uid, restPrefix[k].value) {
      assert prefix[0] != prefix[k + 1];
    }
    assert BatchAdmissible(users, rows', caller, restPrefix);
  }

  /** The loop reports the first full date it reaches: when the dates before
      it would all have been inserted, a date that already has the cap of
      approved requests in the caller's shift ends the batch as unavailable. */
  lemma {:induction false} AdmitBatchFullDate(users: Users, rows: seq<DayOff>, caller: Claims,
                                              dates: seq<Option<Date>>, i: nat)
    requires i < |dates| && dates[i].Some?
    requires BatchAdmissible(users, rows, caller, dates[..i])
    requires ShiftApprovedCount(users, rows, caller.shift, dates[i].value) >= ShiftCap
    ensures AdmitBatch(users, rows, caller, dates) == DateUnavailable(dates[i].value)
    decreases i
  {
    if i > 0 {
      AdmissiblePrefixStep(users, rows, caller, dates, i);
      var rows' := rows + [DayOff(caller.userId, dates[0].value, Status.Pending)];
      assert dates[1..][i - 1] == dates[i];
      AdmitBatchFullDate(users, rows', caller, dates[1..], i - 1);
    }
  }

  /** An unreadable date, or one whose INSERT the constraints refuse (an
      unknown caller, a date the caller already holds, or a date repeated
      in the batch), ends the batch with a store failure when the dates
      before it would all have been inserted, even if a full date comes
      later. */
  lemma {:induction false} AdmitBatchStoreFailure(users: Users, rows: seq<DayOff>, caller: Claims,
                                                  dates: seq<Option<Date>>, i: nat)
    requires i < |dates| && BatchAdmissible(users, rows, caller, dates[..i])
    requires dates[i].None? ||
      (ShiftApprovedCount(users, rows, caller.shift, dates[i].value) < ShiftCap &&
       (caller.userId !in users || Holds(rows, caller.userId, dates[i].value) || dates[i] in dates[..i]))
    ensures AdmitBatch(users, rows, caller, dates) == StoreFailure
    decreases i
  {
    if i > 0 {
      AdmissiblePrefixStep(users, rows, caller, dates, i);
      var d := dates[0].value;
      var rows' := rows + [DayOff(caller.userId, d, Status.Pending)];
      var rest := dates[1..];
      assert rest[i - 1] == dates[i];
      if dates[i].Some? && dates[i] in dates[..i] {
        var k :| 0 <= k < i && dates[..i][k] == dates[i];
        if k == 0 {
          assert Holds(rows', caller.userId, dates[i].value);
        } else {
          assert rest[..i - 1][k - 1] == dates[i];
        }
      }
      AdmitBatchStoreFailure(users, rows', caller, rest, i - 1);
    }
  }

  // ---------------------------------------------------------------------
  // What a committed batch does to the counts
  // ---------------------------------------------------------------------

  lemma {:induction false} RequestRowsCounts(users: Users, userId: int, dates: seq<Date>, shift: Shift, d: Date)
    ensures Count(RequestRows(userId, dates), QuotaRow(userId)) == |dates|
    ensures Count(RequestRows(userId, dates), ApprovedInShift(users, shift, d)) == 0
    decreases |dates|
  {
    if dates != [] {
      var init := dates[..|dates| - 1];
      RequestRowsCounts(users, userId, init, shift, d);
      var rs := RequestRows(userId, dates);
      assert rs == RequestRows(userId, init) + [rs[|rs| - 1]];
      CountSnoc(RequestRows(userId, init), rs[|rs| - 1], QuotaRow(userId));
      CountSnoc(RequestRows(userId, init), rs[|rs| - 1], ApprovedInShift(users, shift, d));
    }
  }

  /** Admission is optimistic: the pending rows of a batch leave every
      shift's approved count on every date as it was. */
  lemma AdmissionKeepsApprovedCounts(users: Users, rows: seq<DayOff>, userId: int, dates: seq<Date>,
                                     shift: Shift, d: Date)
    ensures ShiftApprovedCount(users, rows + RequestRows(userId, dates), shift, d)
         == ShiftApprovedCount(users, rows, shift, d)
  {
    CountAppend(rows, RequestRows(userId, dates), ApprovedInShift(users, shift, d));
    RequestRowsCounts(users, userId, dates, shift, d);
  }

  /** A committed batch adds one request per listed date (duplicates would have
      failed), and leaves the caller within the quota. */
  lemma AdmitCreatedWithinQuota(users: Users, rows: seq<DayOff>, caller: Claims, arg: DatesArgument)
    requires Admit(users, rows, caller, arg) == Created
    ensures arg.DateList? && arg.items != []
    ensures forall i :: 0 <= i < |arg.items| ==> DateParams(arg.items)[i].Some?
    ensures |Committed(caller.userId, arg)| == |arg.items|
    ensures QuotaCount(rows + Committed(caller.userId, arg), caller.userId)
         == QuotaCount(rows, caller.userId) + |arg.items| <= QuotaLimit
  {
    var ds := DateParams(arg.items);
    AdmitBatchCreatedIff(users, rows, caller, ds);
    var added := Committed(caller.userId, arg);
    CountAppend(rows, added, QuotaRow(caller.userId));
    RequestRowsCounts(users, caller.userId, Present(ds), caller.shift, Date(0, 0, 0));
  }

  /** Over the quota, the call answers 400 with the count the caller already
      holds, and no row is written. */
  lemma QuotaExceededReply(t: Tables, caller: Claims, items: seq<Json>)
    requires items != []
    requires QuotaCount(t.daysOff, caller.userId) + |items| > QuotaLimit
    ensures AdmissionReply(t, caller, DateList(items))
         == Reply(Response(400, CurrentCount(QuotaCount(t.daysOff, caller.userId))), t)
  {
  }

  /** A batch with a date that is full for the caller's shift fails as a
      whole: 400, or 500 if an earlier date fails first, and no row of the
      batch remains. */
  lemma FullDateReply(t: Tables, caller: Claims, items: seq<Json>, i: nat)
    requires i < |items|
    requires DateParams(items)[i].Some?
    requires ShiftApprovedCount(t.users, t.daysOff, caller.shift, DateParams(items)[i].value) >= ShiftCap
    ensures var r := AdmissionReply(t, caller, DateList(items));
      r.tables == t && (r.response.status == 400 || r.response.status == 500)
  {
    FullDateBlocksBatch(t.users, t.daysOff, caller, DateList(items), i);
  }

  /** Within the quota, a batch whose dates up to a full one would all be
      inserted answers 400 as unavailable on that date, and the rows the loop
      inserted before it are rolled back. */
  lemma FullDateUnavailableReply(t: Tables, caller: Claims, items: seq<Json>, i: nat)
    requires QuotaCount(t.daysOff, caller.userId) + |items| <= QuotaLimit
    requires i < |items| && DateParams(items)[i].Some?
    requires BatchAdmissible(t.users, t.daysOff, caller, DateParams(items)[..i])
    requires ShiftApprovedCount(t.users, t.daysOff, caller.shift, DateParams(items)[i].value) >= ShiftCap
    ensures Admit(t.users, t.daysOff, caller, DateList(items)) == DateUnavailable(DateParams(items)[i].value)
    ensures AdmissionReply(t, caller, DateList(items)) == Reply(Plain(400), t)
  {
    AdmitBatchFullDate(t.users, t.daysOff, caller, DateParams(items), i);
  }

  /** The handler answers 500 and keeps the tables when a date is unreadable
      or its INSERT is refused before any full date is reached. */
  lemma StoreFailureReply(t: Tables, caller: Claims, items: seq<Json>, i: nat)
    requires QuotaCount(t.daysOff, caller.userId) + |items| <= QuotaLimit
    requires i < |items| && BatchAdmissible(t.users, t.daysOff, caller, DateParams(items)[..i])
    requires DateParams(items)[i].None? ||
      (ShiftApprovedCount(t.users, t.daysOff, caller.shift, DateParams(items)[i].value) < ShiftCap &&
       (caller.userId !in t.users || Holds(t.daysOff, caller.userId, DateParams(items)[i].value) ||
        DateParams(items)[i] in DateParams(items)[..i]))
    ensures Admit(t.users, t.daysOff, caller, DateList(items)) == StoreFailure
    ensures AdmissionReply(t, caller, DateList(items)) == Reply(Plain(500), t)
  {
    AdmitBatchStoreFailure(t.users, t.daysOff, caller, DateParams(items), i);
  }

  /** Requesting a date that is full for the caller's shift never commits. */
  lemma FullDateBlocksBatch(users: Users, rows: seq<DayOff>, caller: Claims, arg: DatesArgument, i: nat)
    requires arg.DateList? && i < |arg.items|
    requires DateParams(arg.items)[i].Some?
    requires ShiftApprovedCount(users, rows, caller.shift, DateParams(arg.items)[i].value) >= ShiftCap
    ensures Admit(users, rows, caller, arg) != Created
  {
    AdmitBatchCreatedIff(users, rows, caller, DateParams(arg.items));
  }
}
