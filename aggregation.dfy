/**
 * The reporting queries: closed sessions grouped by the calendar day of their
 * start time, hours summed per day, rows in ascending order of day.
 */
module Aggregation {
  import opened Common
  import opened WorkStore

  const SecondsPerDay := 86400
  const SecondsPerHour := 3600

  /** One result row: a day and the hours worked on sessions that started that day. */
  datatype DayTotal = DayTotal(date: int, totalHours: real)

  /** The calendar day (days since the epoch, UTC) of a timestamp in seconds; floors for negative times. */
  function DayOf(t: int): int {
    t / SecondsPerDay
  }

  /** Closed: the session has an end time, so it has a duration. */
  predicate IsClosed(w: Work) {
    w.endTime.Some?
  }

  /** The duration of a closed session in hours, exactly. */
  function Hours(w: Work): real
    requires IsClosed(w)
  {
    (w.endTime.value - w.startTime) as real / SecondsPerHour as real
  }

  /** Reference total: the hours of the closed sessions in `works` that started on day `d`. */
  function HoursOn(works: seq<Work>, d: int): real
  {
    if works == [] then 0.0
    else
      (if IsClosed(works[0]) && DayOf(works[0].startTime) == d then Hours(works[0]) else 0.0)
      + HoursOn(works[1..], d)
  }

  /** Reference grouping: the days on which some closed session in `works` started. */
  function ClosedDays(works: seq<Work>): set<int>
  {
    if works == [] then {}
    else (if IsClosed(works[0]) then {DayOf(works[0].startTime)} else {}) + ClosedDays(works[1..])
  }

  /** The sessions of one user, in table order: the `work.user = :user` filter. */
  function OwnedBy(works: seq<Work>, userId: string): (r: seq<Work>)
    ensures |r| <= |works|
    ensures forall w :: w in r <==> w in works && w.userId == userId
    ensures forall w :: multiset(r)[w] == if w.userId == userId then multiset(works)[w] else 0
  {
    if works == [] then []
    else
      assert works == [works[0]] + works[1..];
      if works[0].userId == userId then [works[0]] + OwnedBy(works[1..], userId)
      else OwnedBy(works[1..], userId)
  }

  /** Rows ordered by strictly ascending day, so no day appears twice. */
  ghost predicate StrictlyAscending(rows: seq<DayTotal>) {
    forall i, j :: 0 <= i < j < |rows| ==> rows[i].date < rows[j].date
  }

  /** The days that have a row. */
  ghost function Dates(rows: seq<DayTotal>): set<int> {
    if rows == [] then {} else {rows[0].date} + Dates(rows[1..])
  }

  /** The total of the row for day `d`, or zero when no row has that day. */
  function TotalFor(rows: seq<DayTotal>, d: int): (t: real)
    ensures (forall k :: 0 <= k < |rows| ==> rows[k].date != d) ==> t == 0.0
  {
    if rows == [] then 0.0
    else if rows[0].date == d then rows[0].totalHours
    else TotalFor(rows[1..], d)
  }

  /** In ascending rows, the total for a row's own day is that row's total. */
  lemma {:induction false} TotalForRow(rows: seq<DayTotal>, k: nat)
    requires StrictlyAscending(rows) && k < |rows|
    ensures TotalFor(rows, rows[k].date) == rows[k].totalHours
  {
    if k > 0 {
      assert rows[0].date < rows[k].date;
      TotalForRow(rows[1..], k - 1);
    }
  }

  /** Adds `h` hours to day `d`, inserting a row for `d` in its place when there is none. */
  function AddHours(rows: seq<DayTotal>, d: int, h: real): (r: seq<DayTotal>)
    requires StrictlyAscending(rows)
    ensures StrictlyAscending(r)
    ensures |r| > 0 && r[0].date == (if rows != [] && rows[0].date < d then rows[0].date else d)
  {
    if rows == [] then [DayTotal(d, h)]
    else if d < rows[0].date then [DayTotal(d, h)] + rows
    else if d == rows[0].date then [DayTotal(d, rows[0].totalHours + h)] + rows[1..]
    else [rows[0]] + AddHours(rows[1..], d, h)
  }

  /** Adding hours to a day gives that day a row and no other day a new one. */
  lemma {:induction false} AddHoursDates(rows: seq<DayTotal>, d: int, h: real)
    requires StrictlyAscending(rows)
    ensures Dates(AddHours(rows, d, h)) == Dates(rows) + {d}
  {
    if rows != [] && d > rows[0].date {
      AddHoursDates(rows[1..], d, h);
    }
  }

  /** Adding hours to a day raises that day's total by exactly those hours and leaves every other day's. */
  lemma {:induction false} AddHoursTotals(rows: seq<DayTotal>, d: int, h: real, e: int)
    requires StrictlyAscending(rows)
    ensures TotalFor(AddHours(rows, d, h), e) == TotalFor(rows, e) + (if e == d then h else 0.0)
  {
    if rows != [] {
      if d < rows[0].date {
        if e == d {
          forall k | 0 <= k < |rows| ensures rows[k].date != d {
            assert rows[0].date <= rows[k].date;
          }
        }
      } else if d > rows[0].date {
        AddHoursTotals(rows[1..], d, h, e);
      }
    }
  }

  /** The grouping the query performs: every closed session's hours added to its start day. */
  function Tally(works: seq<Work>): (rows: seq<DayTotal>)
    ensures StrictlyAscending(rows)
  {
    if works == [] then []
    else
      var rest := Tally(works[1..]);
      if IsClosed(works[0]) then AddHours(rest, DayOf(works[0].startTime), Hours(works[0]))
      else rest
  }

  /** The rows are exactly the days on which a closed session started. */
  lemma {:induction false} TallyDates(works: seq<Work>)
    ensures Dates(Tally(works)) == ClosedDays(works)
  {
    if works != [] {
      TallyDates(works[1..]);
      if IsClosed(works[0]) {
        AddHoursDates(Tally(works[1..]), DayOf(works[0].startTime), Hours(works[0]));
      }
    }
  }

  /** Each day's total is the sum of the hours of the closed sessions that started that day. */
  lemma {:induction false} TallyTotals(works: seq<Work>, d: int)
    ensures TotalFor(Tally(works), d) == HoursOn(works, d)
  {
    if works != [] {
      TallyTotals(works[1..], d);
      if IsClosed(works[0]) {
        AddHoursTotals(Tally(works[1..]), DayOf(works[0].startTime), Hours(works[0]), d);
      }
    }
  }

  /**
   * The meaning of the aggregation: ascending rows, one per day with a closed
   * session, each holding that day's summed hours; empty when nothing is closed.
   */
  lemma TallyMeaning(works: seq<Work>)
    ensures StrictlyAscending(Tally(works))
    ensures Dates(Tally(works)) == ClosedDays(works)
    ensures forall k :: 0 <= k < |Tally(works)| ==> Tally(works)[k].totalHours == HoursOn(works, Tally(works)[k].date)
    ensures Tally(works) == [] <==> ClosedDays(works) == {}
  {
    var rows := Tally(works);
    TallyDates(works);
    forall k | 0 <= k < |rows|
      ensures rows[k].totalHours == HoursOn(works, rows[k].date)
    {
      TotalForRow(rows, k);
      TallyTotals(works, rows[k].date);
    }
    if rows != [] {
      assert rows[0].date in Dates(rows);
    }
  }

  /** Open sessions contribute nothing: closing none of them, the report ignores them. */
  lemma {:induction false} OpenSessionsIgnored(works: seq<Work>, w: Work)
    requires IsOpen(w)
    ensures Tally(works + [w]) == Tally(works)
  {
    if works == [] {
      assert [w][1..] == [];
    } else {
      assert (works + [w])[1..] == works[1..] + [w];
      OpenSessionsIgnored(works[1..], w);
    }
  }

  /**
   * Two closed sessions on 2023-01-01 (09:00-13:00 and 14:00-18:00 UTC) and one
   * open session give a single row for that day holding 8 hours.
   */
  lemma {:induction false} EightHourDay()
    ensures Tally([
      Work("a", "u", "morning", 1672563600, Some(1672578000)),
      Work("b", "u", "afternoon", 1672581600, Some(1672596000)),
      Work("c", "u", "evening", 1672599600, None)
    ]) == [DayTotal(19358, 8.0)]
  {
    var works := [
      Work("a", "u", "morning", 1672563600, Some(1672578000)),
      Work("b", "u", "afternoon", 1672581600, Some(1672596000)),
      Work("c", "u", "evening", 1672599600, None)
    ];
    assert works[1..] == [works[1], works[2]];
    assert works[1..][1..] == [works[2]];
    assert works[1..][1..][1..] == [];
    assert Hours(works[0]) == 4.0 && Hours(works[1]) == 4.0;
    assert DayOf(works[0].startTime) == 19358 && DayOf(works[1].startTime) == 19358;
  }
}
