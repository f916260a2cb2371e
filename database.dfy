/**
  The Postgres store the handlers share, as an object whose two tables the
  operations update in place. Each method is one handler's transaction,
  taken as one atomic step.
 */
module Database {

  import opened Options
  import opened Json
  import opened PgInput
  import opened Domain
  import opened Http
  import opened Admission
  import opened Identity
  import opened Approval

  class Store {
    var users: Users
    var daysOff: seq<DayOff>

    /** The schema's constraints hold. */
    ghost predicate Valid()
      reads this
    {
      StoreInvariant(users, daysOff)
    }

    /** Both tables as one value. */
    function Snapshot(): Tables
      reads this
    {
      Tables(users, daysOff)
    }

    /** Freshly created tables are empty. */
    constructor()
      ensures users == map[] && daysOff == []
      ensures Valid()
    {
      users := map[];
      daysOff := [];
    }

    /** `INSERT INTO days_off (user_id, date, status) VALUES (...)`: fails,
        changing nothing, when the owner is unknown or already holds the date. */
    method Insert(row: DayOff) returns (ok: bool)
      requires Valid()
      requires ValidDate(row.date)
      modifies this
      ensures Valid()
      ensures ok <==> Insertable(old(users), old(daysOff), row.userId, row.date)
      ensures users == old(users)
      ensures daysOff == if ok then old(daysOff) + [row] else old(daysOff)
    {
      ok := Insertable(users, daysOff, row.userId, row.date);
      if ok {
        InsertKeepsInvariant(users, daysOff, row);
        daysOff := daysOff + [row];
      }
    }

    /** `request-days-off`: the quota check, then the batch of inserts. */
    method RequestDaysOff(caller: Claims, arg: DatesArgument) returns (a: Admission)
      requires Valid()
      modifies this
      ensures Valid()
      ensures a == Admit(old(users), old(daysOff), caller, arg)
      ensures users == old(users)
      ensures daysOff == if a == Created then old(daysOff) + Committed(caller.userId, arg) else old(daysOff)
    {
      match arg
      case Unreadable => return StoreFailure;
      case NotAnArray => return InvalidDates;
      case DateList(items) =>
        if items == [] {
          return InvalidDates;
        }
        var current := QuotaCount(daysOff, caller.userId);
        if current + |items| > QuotaLimit {
          return QuotaExceeded(current);
        }
        a := InsertBatch(caller, DateParams(items));
    }

    /** `ROLLBACK`: the rows inserted since `BEGIN` are dropped. */
    method Rollback(snapshot: seq<DayOff>, ghost added: seq<DayOff>)
      requires Valid() && daysOff == snapshot + added
      modifies this
      ensures Valid()
      ensures users == old(users) && daysOff == snapshot
    {
      PrefixKeepsInvariant(users, snapshot, added);
      daysOff := snapshot;
    }

    /** One turn of the loop over the dates: the shift-cap query for
        `dates[i]`, then the insert; a full date or a failing query or insert
        rolls the transaction back to `snapshot`. */
    method AdmitDate(caller: Claims, dates: seq<Option<Date>>, i: nat, snapshot: seq<DayOff>) returns (failure: Option<Admission>)
      requires Valid() && i < |dates|
      requires dates[i].Some? ==> ValidDate(dates[i].value)
      requires daysOff == snapshot + RequestRows(caller.userId, Present(dates[..i]))
      modifies this
      ensures Valid()
      ensures users == old(users)
      ensures failure.Some? ==> failure.value != Created && daysOff == snapshot
      ensures failure.Some? ==> failure.value == AdmitBatch(users, old(daysOff), caller, dates[i..])
      ensures failure.None? ==>
        && daysOff == snapshot + RequestRows(caller.userId, Present(dates[..i + 1]))
        && AdmitBatch(users, old(daysOff), caller, dates[i..]) == AdmitBatch(users, daysOff, caller, dates[i + 1..])
    {
      ghost var rest := dates[i..];
      assert rest[0] == dates[i] && rest[1..] == dates[i + 1..];
      ghost var added := RequestRows(caller.userId, Present(dates[..i]));
      if dates[i].None? {
        Rollback(snapshot, added);
        return Some(StoreFailure);
      }
      var d := dates[i].value;
      if ShiftApprovedCount(users, daysOff, caller.shift, d) >= ShiftCap {
        Rollback(snapshot, added);
        return Some(DateUnavailable(d));
      }
      var ok := Insert(DayOff(caller.userId, d, Status.Pending));
      if !ok {
        Rollback(snapshot, added);
        return Some(StoreFailure);
      }
      AdmitBatchStep(users, old(daysOff), caller, rest);
      PresentSnoc(dates, i);
      RequestRowsSnoc(caller.userId, Present(dates[..i]), d);
      failure := None;
    }

    /** The loop over the dates: per date the shift cap and an insert, in one
        transaction; on a full date or a failing insert the table is restored
        to the snapshot taken before the first insert. */
    method InsertBatch(caller: Claims, dates: seq<Option<Date>>) returns (a: Admission)
      requires Valid()
      requires forall i :: 0 <= i < |dates| && dates[i].Some? ==> ValidDate(dates[i].value)
      modifies this
      ensures Valid()
      ensures a == AdmitBatch(old(users), old(daysOff), caller, dates)
      ensures users == old(users)
      ensures daysOff == if a == Created then old(daysOff) + RequestRows(caller.userId, Present(dates)) else old(daysOff)
    {
      var snapshot := daysOff;
      var i := 0;
      while i < |dates|
        invariant 0 <= i <= |dates|
        invariant users == old(users)
        invariant daysOff == snapshot + RequestRows(caller.userId, Present(dates[..i]))
        invariant Valid()
        invariant AdmitBatch(users, snapshot, caller, dates) == AdmitBatch(users, daysOff, caller, dates[i..])
        decreases |dates| - i
      {
        var failure := AdmitDate(caller, dates, i, snapshot);
        if failure.Some? {
          return failure.value;
        }
        i := i + 1;
      }
      assert dates[..i] == dates;
      return Created;
    }

    /** The login upsert, then `SELECT shift, is_admin FROM users WHERE id = $1`
        for the claims. */
    method Login(id: int, profile: Profile, isAdmin: bool) returns (claims: Claims)
      requires Valid()
      modifies this
      ensures Valid()
      ensures users == UpsertUsers(old(users), id, profile, isAdmin)
      ensures daysOff == old(daysOff)
      ensures id in users && claims == SessionClaims(users, id)
    {
      var existing := if id in users then Some(users[id]) else None;
      users := users[id := Upserted(existing, profile, isAdmin)];
      var row := users[id];
      claims := Claims(id, row.shift, row.isAdmin);
    }

    /** `UPDATE users SET shift = $1 WHERE id = $2 AND shift = 'pending'`;
        `updated` says whether a row matched. */
    method ApproveUser(id: int, shift: Shift) returns (updated: bool)
      requires Valid()
      modifies this
      ensures Valid()
      ensures updated <==> ApproveUsers(old(users), id, shift).Some?
      ensures users == if updated then ApproveUsers(old(users), id, shift).value else old(users)
      ensures daysOff == old(daysOff)
    {
      updated := id in users && users[id].shift == Shift.Pending;
      if updated {
        users := users[id := users[id].(shift := shift)];
      }
    }
  
    // -------------------------------------------------------------------
    // The calls the handlers make, with their responses
    // -------------------------------------------------------------------

    /** `handleAuth` and the auth-telegram.js handler after the method check:
        check the payload, upsert, answer with the session. */
    method Authenticate(cfg: Config, body: Option<Json>) returns (resp: Response)
      requires Valid()
      modifies this
      ensures Valid()
      ensures Reply(resp, Snapshot()) == LoginReply(old(Snapshot()), cfg, body)
    {
      match ReadLogin(cfg, body)
      case Unparsable => resp := Plain(500);
      case BadHash => resp := Plain(403);
      case Unstorable => resp := Plain(500);
      case Login(id, profile, isAdmin) =>
        var claims := Login(id, profile, isAdmin);
        resp := Response(200, Session(claims));
    }

    /** `handleRequestDaysOff` and `handlePost`. */
    method SubmitDaysOff(caller: Claims, body: Option<Json>) returns (resp: Response)
      requires Valid()
      modifies this
      ensures Valid()
      ensures Reply(resp, Snapshot()) == AdmissionReply(old(Snapshot()), caller, DatesArgumentOf(body))
    {
      var a := RequestDaysOff(caller, DatesArgumentOf(body));
      resp := AdmissionResponse(a);
    }

    /** `handleAdminApproveUser` and the admin-approve-user.js handler after
        its checks. */
    method Approve(body: Option<Json>) returns (resp: Response)
      requires Valid()
      modifies this
      ensures Valid()
      ensures Reply(resp, Snapshot()) == ApprovalReply(old(Snapshot()), body)
    {
      match ReadApproval(body)
      case Unparsable => resp := Plain(500);
      case Invalid => resp := Plain(400);
      case BadUserId => resp := Plain(500);
      case Approve(id, shift) =>
        var updated := ApproveUser(id, shift);
        resp := if updated then Plain(200) else Plain(404);
    }
  }
}
