/**
  Approving a pending user (`handleAdminApproveUser` in api.js and the
  admin-approve-user.js handler): the body names a user and a working shift,
  and one conditional UPDATE gives that shift to the user if, and only if, the
  user is still pending.
 */
module Approval {

  import opened Options
  import opened JsStrings
  import opened Json
  import opened PgInput
  import opened Domain
  import opened Http

  /** `['Night', 'Morning', 'Evening'].includes(shift)`: only those three
      strings name a working shift; `pending` and every non-string do not. */
  function WorkingShift(v: Option<Json>): (r: Option<Shift>)
    ensures r.Some? ==> r.value != Shift.Pending && v == Some(JStr(ShiftName(r.value)))
  {
    if v == Some(JStr(Lit("Night"))) then Some(Night)
    else if v == Some(JStr(Lit("Morning"))) then Some(Morning)
    else if v == Some(JStr(Lit("Evening"))) then Some(Evening)
    else None
  }

  /** Every working shift is accepted under its own name. */
  lemma WorkingShiftOfName(s: Shift)
    requires s != Shift.Pending
    ensures WorkingShift(Some(JStr(ShiftName(s)))) == Some(s)
  {
    assert Lit("Night") != Lit("Morning") && Lit("Night") != Lit("Evening") && Lit("Morning") != Lit("Evening") by {
      assert |Lit("Night")| != |Lit("Morning")| && |Lit("Morning")| == |Lit("Evening")|;
      assert Lit("Morning")[0] != Lit("Evening")[0];
    }
  }

  /** What the approval body allows. */
  datatype ApprovalRequest =
    | Unparsable                  // 500: no JSON, or `null`
    | Invalid                     // 400: falsy userId or no working shift
    | BadUserId                   // 500: the UPDATE cannot read userId as a BIGINT
    | Approve(userId: int, shift: Shift)

  function ReadApproval(body: Option<Json>): (r: ApprovalRequest)
    ensures r == Unparsable <==> body.None? || body == Some(JNull)
    ensures r == Invalid <==>
      body.Some? && Readable(body.value) &&
      (Falsy(Property(body.value, Lit("userId"))) || WorkingShift(Property(body.value, Lit("shift"))).None?)
    ensures r == BadUserId <==>
      body.Some? && Readable(body.value) &&
      !Falsy(Property(body.value, Lit("userId"))) && WorkingShift(Property(body.value, Lit("shift"))).Some? &&
      BigintParam(Property(body.value, Lit("userId")).value).None?
    ensures r.Approve? ==> r.shift != Shift.Pending && WorkingShift(Property(body.value, Lit("shift"))) == Some(r.shift)
    ensures r.Approve? ==>
      Property(body.value, Lit("userId")).Some? && BigintParam(Property(body.value, Lit("userId")).value) == Some(r.userId)
  {
    match body
    case None => Unparsable
    case Some(data) =>
      if !Readable(data) then Unparsable
      else
        var userId := Property(data, Lit("userId"));
        var shift := WorkingShift(Property(data, Lit("shift")));
        if Falsy(userId) || shift.None? then Invalid
        else match BigintParam(userId.value)
          case None => BadUserId
          case Some(id) => Approve(id, shift.value)
  }

  /** `UPDATE users SET shift = $1 WHERE id = $2 AND shift = 'pending'
      RETURNING ...`: the new table, or None when no row matched. */
  function ApproveUsers(users: Users, id: int, shift: Shift): (r: Option<Users>)
    ensures r.Some? <==> id in users && users[id].shift == Shift.Pending
  {
    if id in users && users[id].shift == Shift.Pending then Some(users[id := users[id].(shift := shift)])
    else None
  }

  /** An approval changes the target's shift and nothing else: the same users,
      every other row as it was, and the target's profile and admin flag kept. */
  lemma ApprovalOnlyTarget(users: Users, id: int, shift: Shift)
    requires ApproveUsers(users, id, shift).Some?
    ensures var after := ApproveUsers(users, id, shift).value;
      && after.Keys == users.Keys
      && (forall other :: other in users && other != id ==> after[other] == users[other])
      && after[id] == users[id].(shift := shift)
  {
  }

  /** One approval call: the response and the tables it leaves. */
  function ApprovalReply(t: Tables, body: Option<Json>): (r: Reply)
    ensures r.tables.daysOff == t.daysOff
    ensures r.response.status != 200 ==> r.tables == t
    ensures r.response.status == 400 <==> ReadApproval(body) == Invalid
    ensures r.response.status == 404 <==>
      ReadApproval(body).Approve? &&
      ApproveUsers(t.users, ReadApproval(body).userId, ReadApproval(body).shift).None?
  {
    match ReadApproval(body)
    case Unparsable => Reply(Plain(500), t)
    case Invalid => Reply(Plain(400), t)
    case BadUserId => Reply(Plain(500), t)
    case Approve(id, shift) =>
      match ApproveUsers(t.users, id, shift)
      case None => Reply(Plain(404), t)
      case Some(users) => Reply(Plain(200), Tables(users, t.daysOff))
  }

  /** A 200 approval gave the pending user the body's `userId` names the
      working shift the body's `shift` names, and changed no other row. */
  lemma ApprovalSucceeds(t: Tables, body: Option<Json>)
    requires ApprovalReply(t, body).response.status == 200
    ensures var req := ReadApproval(body);
      && req.Approve?
      && body.Some? && body.value.JObject?
      && Property(body.value, Lit("userId")).Some?
      && BigintParam(Property(body.value, Lit("userId")).value) == Some(req.userId)
      && Property(body.value, Lit("shift")) == Some(JStr(ShiftName(req.shift)))
      && req.userId in t.users && t.users[req.userId].shift == Shift.Pending
      && ApprovalReply(t, body).tables.users == t.users[req.userId := t.users[req.userId].(shift := req.shift)]
      && ApprovalReply(t, body).tables.users[req.userId].shift != Shift.Pending
  {
  }
}
