/**
  The calendar a non-pending user sees (`handleGetCalendar` in api.js and
  `handleGet` in days-off-create-read.js): for one month, the number of
  approved days off per date among the users of the caller's shift, and
  every request of the caller's own.
 */
module Calendar {

  import opened Options
  import opened JsStrings
  import opened PgInput
  import opened Domain
  import opened Http

  /** The rows of the shift query: approved, owned by a user of `shift`, and in
      that month of that year. */
  function MonthRow(users: Users, shift: Shift, month: int, year: int): DayOff -> bool {
    (r: DayOff) => r.status == Approved && r.userId in users && users[r.userId].shift == shift
                   && r.date.month == month && r.date.year == year
  }

  /** The dates of the rows satisfying `p`, each once: the groups of
      `GROUP BY date`. */
  function GroupDates(rows: seq<DayOff>, p: DayOff -> bool): (r: seq<Date>)
    ensures forall d :: d in r <==> exists i :: 0 <= i < |rows| && p(rows[i]) && rows[i].date == d
    ensures forall i, j :: 0 <= i < j < |r| ==> r[i] != r[j]
    decreases |rows|
  {
    if rows == [] then []
    else
      var init := rows[..|rows| - 1];
      var last := rows[|rows| - 1];
      var groups := GroupDates(init, p);
      assert forall i :: 0 <= i < |init| ==> init[i] == rows[i];
      if p(last) && last.date !in groups then groups + [last.date] else groups
  }

  /** One row of the shift query's result: a date and its COUNT(id). */
  datatype DayCount = DayCount(date: Date, count: nat)

  /** The result of the shift query. */
  function ShiftGroups(users: Users, rows: seq<DayOff>, shift: Shift, month: int, year: int): (r: seq<DayCount>)
    ensures |r| == |GroupDates(rows, MonthRow(users, shift, month, year))|
  {
    var dates := GroupDates(rows, MonthRow(users, shift, month, year));
    seq(|dates|, i requires 0 <= i < |dates| => DayCount(dates[i], ShiftApprovedCount(users, rows, shift, dates[i])))
  }

  /** `rows.reduce((acc, row) => { acc[row.date] = parseInt(row.count, 10); return acc; }, {})`,
      where `row.date` is `TO_CHAR(date, 'YYYY-MM-DD')` and `row.count` the
      decimal text of the count. */
  function CountsByDate(groups: seq<DayCount>): (r: map<JsString, nat>)
    requires forall i :: 0 <= i < |groups| ==> ValidDate(groups[i].date)
    ensures forall k :: k in r <==> IsGroupKey(groups, k)
    decreases |groups|
  {
    if groups == [] then map[]
    else
      var n := |groups| - 1;
      var init := groups[..n];
      var last := groups[n];
      var m := CountsByDate(init);
      GroupKeysSnoc(groups);
      m[FormatIsoDate(last.date) := DigitsValue(Digits(last.count))]
  }

  /** `k` is the printed date of one of the groups. */
  predicate IsGroupKey(groups: seq<DayCount>, k: JsString)
    requires forall i :: 0 <= i < |groups| ==> ValidDate(groups[i].date)
  {
    exists i :: 0 <= i < |groups| && k == FormatIsoDate(groups[i].date)
  }

  /** The printed dates of a non-empty list of groups are those of all but
      the last group, and the last group's. */
  lemma GroupKeysSnoc(groups: seq<DayCount>)
    requires |groups| > 0
    requires forall i :: 0 <= i < |groups| ==> ValidDate(groups[i].date)
    ensures var n := |groups| - 1;
      forall k :: IsGroupKey(groups, k) <==> IsGroupKey(groups[..n], k) || k == FormatIsoDate(groups[n].date)
  {
    var n := |groups| - 1;
    forall k ensures IsGroupKey(groups, k) <==> IsGroupKey(groups[..n], k) || k == FormatIsoDate(groups[n].date) {
      if IsGroupKey(groups[..n], k) {
        var i :| 0 <= i < n && k == FormatIsoDate(groups[..n][i].date);
        assert groups[..n][i] == groups[i];
      }
      if IsGroupKey(groups, k) {
        var i :| 0 <= i < |groups| && k == FormatIsoDate(groups[i].date);
        if i < n { assert groups[..n][i] == groups[i]; }
      }
    }
  }

  /** `shiftDayCounts`: every key is the printed date of an approved request
      of that month owned by a user of the shift. */
  function ShiftDayCounts(users: Users, rows: seq<DayOff>, shift: Shift, month: int, year: int): (r: map<JsString, nat>)
    requires DatesValid(rows)
    ensures forall k :: k in r ==>
      exists j :: 0 <= j < |rows| && MonthRow(users, shift, month, year)(rows[j]) && k == FormatIsoDate(rows[j].date)
  {
    var p := MonthRow(users, shift, month, year);
    var dates := GroupDates(rows, p);
    var groups := ShiftGroups(users, rows, shift, month, year);
    assert forall i :: 0 <= i < |groups| ==> ValidDate(groups[i].date) && groups[i].date == dates[i] by {
      forall i | 0 <= i < |groups| ensures ValidDate(groups[i].date) && groups[i].date == dates[i] {
        assert groups[i].date == dates[i] && dates[i] in dates;
      }
    }
    var counts := CountsByDate(groups);
    assert forall k :: k in counts ==>
      exists j :: 0 <= j < |rows| && p(rows[j]) && k == FormatIsoDate(rows[j].date) by {
      forall k | k in counts ensures exists j :: 0 <= j < |rows| && p(rows[j]) && k == FormatIsoDate(rows[j].date) {
        var i :| 0 <= i < |groups| && k == FormatIsoDate(groups[i].date);
        assert dates[i] in dates;
        var j :| 0 <= j < |rows| && p(rows[j]) && rows[j].date == dates[i];
      }
    }
    counts
  }

  /** TO_CHAR tells dates apart. */
  lemma FormatIsoDateInjective(d: Date, e: Date)
    requires ValidDate(d) && ValidDate(e)
    requires FormatIsoDate(d) == FormatIsoDate(e)
    ensures d == e
  {
    IsoDateRoundTrip(d);
    IsoDateRoundTrip(e);
  }

  /** Folding groups with distinct dates keys each count by its date. */
  lemma {:induction false} CountsByDateValue(groups: seq<DayCount>, i: nat)
    requires forall i :: 0 <= i < |groups| ==> ValidDate(groups[i].date)
    requires forall i, j :: 0 <= i < j < |groups| ==> groups[i].date != groups[j].date
    requires i < |groups|
    ensures FormatIsoDate(groups[i].date) in CountsByDate(groups)
    ensures CountsByDate(groups)[FormatIsoDate(groups[i].date)] == groups[i].count
    decreases |groups|
  {
    var n := |groups| - 1;
    var init := groups[..n];
    var last := groups[n];
    if i == n {
      DigitsValueOfDigits(last.count);
    } else {
      assert init[i] == groups[i];
      CountsByDateValue(init, i);
      if FormatIsoDate(groups[i].date) == FormatIsoDate(last.date) {
        FormatIsoDateInjective(groups[i].date, last.date);
      }
    }
  }

  /** The shift query's groups carry the grouped dates, in order. */
  lemma ShiftGroupsDates(users: Users, rows: seq<DayOff>, shift: Shift, month: int, year: int)
    requires DatesValid(rows)
    ensures var dates := GroupDates(rows, MonthRow(users, shift, month, year));
      var groups := ShiftGroups(users, rows, shift, month, year);
      forall i :: 0 <= i < |groups| ==> ValidDate(groups[i].date) && groups[i].date == dates[i] && dates[i] in dates
  {
    var dates := GroupDates(rows, MonthRow(users, shift, month, year));
    var groups := ShiftGroups(users, rows, shift, month, year);
    forall i | 0 <= i < |groups| ensures ValidDate(groups[i].date) && groups[i].date == dates[i] && dates[i] in dates {
      assert groups[i].date == dates[i] && dates[i] in dates;
    }
  }

  /** A key of `shiftDayCounts` is a date of that month with approved days
      off in the shift, and maps to their number. */
  lemma ShiftDayCountsHit(users: Users, rows: seq<DayOff>, shift: Shift, month: int, year: int, d: Date)
    requires DatesValid(rows) && ValidDate(d)
    requires FormatIsoDate(d) in ShiftDayCounts(users, rows, shift, month, year)
    ensures d.month == month && d.year == year && ShiftApprovedCount(users, rows, shift, d) > 0
    ensures ShiftDayCounts(users, rows, shift, month, year)[FormatIsoDate(d)] == ShiftApprovedCount(users, rows, shift, d)
  {
    var p := MonthRow(users, shift, month, year);
    var dates := GroupDates(rows, p);
    var groups := ShiftGroups(users, rows, shift, month, year);
    ShiftGroupsDates(users, rows, shift, month, year);
    assert ShiftDayCounts(users, rows, shift, month, year) == CountsByDate(groups);
    var i :| 0 <= i < |groups| && FormatIsoDate(d) == FormatIsoDate(groups[i].date);
    FormatIsoDateInjective(d, groups[i].date);
    CountsByDateValue(groups, i);
    var j :| 0 <= j < |rows| && p(rows[j]) && rows[j].date == d;
    assert ApprovedInShift(users, shift, d)(rows[j]);
    CountPositive(rows, ApprovedInShift(users, shift, d));
  }

  /** Every date of that month with approved days off in the shift is a key
      of `shiftDayCounts`. */
  lemma ShiftDayCountsComplete(users: Users, rows: seq<DayOff>, shift: Shift, month: int, year: int, d: Date)
    requires DatesValid(rows) && ValidDate(d)
    requires d.month == month && d.year == year && ShiftApprovedCount(users, rows, shift, d) > 0
    ensures FormatIsoDate(d) in ShiftDayCounts(users, rows, shift, month, year)
  {
    var p := MonthRow(users, shift, month, year);
    var dates := GroupDates(rows, p);
    var groups := ShiftGroups(users, rows, shift, month, year);
    ShiftGroupsDates(users, rows, shift, month, year);
    assert ShiftDayCounts(users, rows, shift, month, year) == CountsByDate(groups);
    CountPositive(rows, ApprovedInShift(users, shift, d));
    var j :| 0 <= j < |rows| && ApprovedInShift(users, shift, d)(rows[j]);
    assert p(rows[j]);
    assert d in dates;
    var i :| 0 <= i < |dates| && dates[i] == d;
    assert groups[i].date == d;
  }

  /** `shiftDayCounts` has a key exactly for the dates of that month with at
      least one approved day off in the shift; each key maps to that number.
      Dates without one are absent, not zero. */
  lemma ShiftDayCountsSpec(users: Users, rows: seq<DayOff>, shift: Shift, month: int, year: int, d: Date)
    requires DatesValid(rows) && ValidDate(d)
    ensures var counts := ShiftDayCounts(users, rows, shift, month, year);
      && (FormatIsoDate(d) in counts <==>
            d.month == month && d.year == year && ShiftApprovedCount(users, rows, shift, d) > 0)
      && (FormatIsoDate(d) in counts ==> counts[FormatIsoDate(d)] == ShiftApprovedCount(users, rows, shift, d))
  {
    if FormatIsoDate(d) in ShiftDayCounts(users, rows, shift, month, year) {
      ShiftDayCountsHit(users, rows, shift, month, year, d);
    }
    if d.month == month && d.year == year && ShiftApprovedCount(users, rows, shift, d) > 0 {
      ShiftDayCountsComplete(users, rows, shift, month, year, d);
    }
  }

  /** The rows of the caller. */
  function OwnRow(userId: int): DayOff -> bool {
    (r: DayOff) => r.userId == userId
  }

  /** `myDaysOff`: every request of the caller, pending or approved, from any
      month, with its date as TO_CHAR prints it. */
  function MyDaysOff(rows: seq<DayOff>, userId: int): (r: seq<MyDayOff>)
    requires DatesValid(rows)
    ensures |r| == Count(rows, OwnRow(userId))
    ensures forall i :: 0 <= i < |rows| && rows[i].userId == userId ==>
      MyDayOff(FormatIsoDate(rows[i].date), rows[i].status) in r
    ensures forall x :: x in r ==>
      exists i :: 0 <= i < |rows| && rows[i].userId == userId && x == MyDayOff(FormatIsoDate(rows[i].date), rows[i].status)
    decreases |rows|
  {
    if rows == [] then []
    else
      var init := rows[..|rows| - 1];
      var last := rows[|rows| - 1];
      assert forall i :: 0 <= i < |init| ==> init[i] == rows[i];
      var mine := MyDaysOff(init, userId);
      if last.userId == userId then mine + [MyDayOff(FormatIsoDate(last.date), last.status)] else mine
  }

  /** One calendar call. It reads the tables and changes nothing. Month and
      year are required; Postgres raises an error when they are not numbers. */
  function CalendarReply(t: Tables, caller: Claims, month: Option<JsString>, year: Option<JsString>): (r: Reply)
    requires DatesValid(t.daysOff)
    ensures r.tables == t
    ensures r.response.status == 400 <==> FalsyText(month) || FalsyText(year)
    ensures r.response.status == 500 <==>
      !FalsyText(month) && !FalsyText(year) && (ParseInteger(month.value).None? || ParseInteger(year.value).None?)
    ensures r.response.status == 200 ==>
      var m, y := ParseInteger(month.value), ParseInteger(year.value);
      m.Some? && y.Some? &&
      r.response.body == CalendarView(ShiftDayCounts(t.users, t.daysOff, caller.shift, m.value, y.value),
                                      MyDaysOff(t.daysOff, caller.userId))
  {
    if FalsyText(month) || FalsyText(year) then Reply(Plain(400), t)
    else
      match (ParseInteger(month.value), ParseInteger(year.value))
      case (Some(m), Some(y)) =>
        Reply(Response(200, CalendarView(ShiftDayCounts(t.users, t.daysOff, caller.shift, m, y),
                                         MyDaysOff(t.daysOff, caller.userId))), t)
      case _ => Reply(Plain(500), t)
  }
}
