/** Thirty daily buckets of runs for each agent, and the totals shown over their tail. */
module AgentActivity {
  import opened Basics
  import opened Grouping

  const DAYS := 30
  const DAY_MS := 24 * 60 * 60 * 1000

  /** One server row; `at` is its time in milliseconds, if the text could be read. */
  datatype Row = Row(agentId: string, at: Option<int>, taskCount: int, failedCount: int)
  datatype Bucket = Bucket(total: int, failed: int)
  datatype Activity = Activity(buckets: seq<Bucket>, daysSinceCreated: int)
  datatype Agent = Agent(id: string, createdAt: Option<int>)
  datatype Summary = Summary(buckets: seq<Bucket>, totalRuns: int, totalFailed: int, windowDays: int)

  // ----- calendar, in a zone at a fixed offset

  function StartOfDay(ts: int, offset: int): int {
    ts - (ts + offset) % DAY_MS
  }

  /** Whole days between the two day starts, rounded down. */
  function DaysAgo(now: int, ts: int, offset: int): int {
    (StartOfDay(now, offset) - StartOfDay(ts, offset)) / DAY_MS
  }

  /** A time is exactly `d` days ago when it lies in the d-th calendar day before today. */
  lemma DaysAgoIsCalendar(now: int, ts: int, offset: int, d: int)
    ensures DaysAgo(now, ts, offset) == d <==>
            StartOfDay(now, offset) - d * DAY_MS <= ts < StartOfDay(now, offset) - d * DAY_MS + DAY_MS
  {
    var today, day := (now + offset) / DAY_MS, (ts + offset) / DAY_MS;
    assert StartOfDay(now, offset) == today * DAY_MS - offset;
    assert StartOfDay(ts, offset) == day * DAY_MS - offset;
    assert DaysAgo(now, ts, offset) == today - day by {
      assert StartOfDay(now, offset) - StartOfDay(ts, offset) == (today - day) * DAY_MS;
    }
  }

  // ----- what the series must be

  /** The rows' task counts, and failures, that fall a given number of days ago. */
  function TotalOn(rows: seq<Row>, now: int, offset: int, daysAgo: int): int {
    if rows == [] then 0
    else
      var r := rows[|rows| - 1];
      TotalOn(rows[..|rows| - 1], now, offset, daysAgo)
      + if r.at.Some? && DaysAgo(now, r.at.value, offset) == daysAgo then r.taskCount else 0
  }

  function FailedOn(rows: seq<Row>, now: int, offset: int, daysAgo: int): int {
    if rows == [] then 0
    else
      var r := rows[|rows| - 1];
      FailedOn(rows[..|rows| - 1], now, offset, daysAgo)
      + if r.at.Some? && DaysAgo(now, r.at.value, offset) == daysAgo then r.failedCount else 0
  }

  /** Oldest day first, today last. */
  ghost predicate IsSeries(buckets: seq<Bucket>, rows: seq<Row>, now: int, offset: int) {
    && |buckets| == DAYS
    && forall i :: 0 <= i < DAYS ==>
         buckets[i] == Bucket(TotalOn(rows, now, offset, DAYS - 1 - i), FailedOn(rows, now, offset, DAYS - 1 - i))
  }

  function AgeInDays(createdAt: Option<int>, now: int): int {
    if createdAt.None? then DAYS
    else
      var days := (now - createdAt.value) / DAY_MS;
      if days < 0 then 0 else if days > DAYS then DAYS else days
  }

  method DeriveAgentActivity(rows: seq<Row>, createdAt: Option<int>, now: int, offset: int) returns (a: Activity)
    ensures IsSeries(a.buckets, rows, now, offset)
    ensures a.daysSinceCreated == AgeInDays(createdAt, now)
  {
    var series := new Bucket[DAYS](_ => Bucket(0, 0));
    var today := StartOfDay(now, offset);
    assert series[..] == seq(DAYS, _ => Bucket(0, 0));
    for i := 0 to |rows|
      invariant series.Length == DAYS
      invariant IsSeries(series[..], rows[..i], now, offset)
    {
      assert rows[..i + 1][..i] == rows[..i];
      AddRow(series, rows[..i], rows[i], today, now, offset);
      assert rows[..i + 1] == rows[..i] + [rows[i]];
    }
    assert rows[..|rows|] == rows;
    var days := if createdAt.None? then DAYS else (now - createdAt.value) / DAY_MS;
    days := if days > 0 then days else 0;
    days := if days < DAYS then days else DAYS;
    a := Activity(series[..], days);
  }

  method AddRow(series: array<Bucket>, ghost before: seq<Row>, r: Row, today: int, now: int, offset: int)
    requires series.Length == DAYS && today == StartOfDay(now, offset)
    requires IsSeries(series[..], before, now, offset)
    modifies series
    ensures IsSeries(series[..], before + [r], now, offset)
  {
    assert (before + [r])[..|before|] == before;
    ghost var was := series[..];
    if r.at.None? {
      return;
    }
    var daysAgo := (today - StartOfDay(r.at.value, offset)) / DAY_MS;
    if daysAgo < 0 || daysAgo >= DAYS {
      return;
    }
    var slot := DAYS - 1 - daysAgo;
    series[slot] := Bucket(series[slot].total + r.taskCount, series[slot].failed + r.failedCount);
    assert series[..] == was[slot := series[slot]];
  }

  function AgentIdOf(r: Row): string {
    r.agentId
  }

  method BuildActivityMap(agents: seq<Agent>, rows: seq<Row>, now: int, offset: int)
      returns (out: map<string, Activity>)
    ensures forall id :: id in out <==> exists a :: a in agents && a.id == id
    ensures forall id :: id in out ==> IsSeries(out[id].buckets, Select(rows, AgentIdOf, id), now, offset)
    ensures forall id :: id in out
              ==> exists a :: a in agents && a.id == id && out[id].daysSinceCreated == AgeInDays(a.createdAt, now)
  {
    out := map[];
    var rowsByAgent := GroupBy(rows, AgentIdOf);
    for i := 0 to |agents|
      invariant forall id :: id in out <==> exists a :: a in agents[..i] && a.id == id
      invariant forall id :: id in out ==> IsSeries(out[id].buckets, Select(rows, AgentIdOf, id), now, offset)
      invariant forall id :: id in out ==>
                  exists a :: a in agents[..i] && a.id == id && out[id].daysSinceCreated == AgeInDays(a.createdAt, now)
    {
      var agent := agents[i];
      assert agents[..i + 1] == agents[..i] + [agent];
      var mine := if agent.id in rowsByAgent then rowsByAgent[agent.id] else [];
      var a := DeriveAgentActivity(mine, agent.createdAt, now, offset);
      out := out[agent.id := a];
    }
    assert agents[..|agents|] == agents;
  }

  // ----- totals over a window

  function SumTotal(buckets: seq<Bucket>): int {
    if buckets == [] then 0 else SumTotal(buckets[..|buckets| - 1]) + buckets[|buckets| - 1].total
  }

  function SumFailed(buckets: seq<Bucket>): int {
    if buckets == [] then 0 else SumFailed(buckets[..|buckets| - 1]) + buckets[|buckets| - 1].failed
  }

  function Clamp(windowDays: int, most: nat): nat {
    if windowDays < 0 then 0 else if windowDays > most then most else windowDays
  }

  /** The last buckets; none for an empty window, where a slice from the end would give them all. */
  function Tail(buckets: seq<Bucket>, windowDays: int): seq<Bucket> {
    buckets[|buckets| - Clamp(windowDays, |buckets|)..]
  }

  method SummarizeActivityWindow(activity: Option<Activity>, windowDays: int) returns (s: Summary)
    ensures s.windowDays == windowDays
    ensures s.buckets == if activity.None? then [] else Tail(activity.value.buckets, windowDays)
    ensures s.totalRuns == SumTotal(s.buckets) && s.totalFailed == SumFailed(s.buckets)
  {
    if activity.None? {
      return Summary([], 0, 0, windowDays);
    }
    var buckets := activity.value.buckets;
    var safeWindow := if windowDays > 0 then windowDays else 0;
    safeWindow := if safeWindow < |buckets| then safeWindow else |buckets|;
    var slice := if safeWindow == 0 then [] else buckets[|buckets| - safeWindow..];
    var totalRuns, totalFailed := 0, 0;
    for i := 0 to |slice|
      invariant totalRuns == SumTotal(slice[..i]) && totalFailed == SumFailed(slice[..i])
    {
      assert slice[..i + 1][..i] == slice[..i];
      totalRuns := totalRuns + slice[i].total;
      totalFailed := totalFailed + slice[i].failed;
    }
    assert slice[..|slice|] == slice;
    s := Summary(slice, totalRuns, totalFailed, windowDays);
  }

  /** The rows' counts that fall on the last `days` calendar days, today included. */
  function CalendarTotal(rows: seq<Row>, now: int, offset: int, days: nat): int {
    if rows == [] then 0
    else
      var r := rows[|rows| - 1];
      CalendarTotal(rows[..|rows| - 1], now, offset, days)
      + if r.at.Some? && InLastDays(r.at.value, now, offset, days) then r.taskCount else 0
  }

  function CalendarFailed(rows: seq<Row>, now: int, offset: int, days: nat): int {
    if rows == [] then 0
    else
      var r := rows[|rows| - 1];
      CalendarFailed(rows[..|rows| - 1], now, offset, days)
      + if r.at.Some? && InLastDays(r.at.value, now, offset, days) then r.failedCount else 0
  }

  predicate InLastDays(ts: int, now: int, offset: int, days: nat) {
    StartOfDay(now, offset) - (days - 1) * DAY_MS <= ts < StartOfDay(now, offset) + DAY_MS
  }

  lemma {:induction false} CalendarNone(rows: seq<Row>, now: int, offset: int)
    ensures CalendarTotal(rows, now, offset, 0) == 0 && CalendarFailed(rows, now, offset, 0) == 0
  {
    if rows != [] {
      CalendarNone(rows[..|rows| - 1], now, offset);
    }
  }

  /** One more day adds what fell on that day. */
  lemma {:induction false} CalendarStep(rows: seq<Row>, now: int, offset: int, days: nat)
    ensures CalendarTotal(rows, now, offset, days + 1)
         == CalendarTotal(rows, now, offset, days) + TotalOn(rows, now, offset, days)
    ensures CalendarFailed(rows, now, offset, days + 1)
         == CalendarFailed(rows, now, offset, days) + FailedOn(rows, now, offset, days)
  {
    if rows != [] {
      CalendarStep(rows[..|rows| - 1], now, offset, days);
      var r := rows[|rows| - 1];
      if r.at.Some? {
        DaysAgoIsCalendar(now, r.at.value, offset, days);
      }
    }
  }

  lemma {:induction false} SumFront(b: Bucket, rest: seq<Bucket>)
    ensures SumTotal([b] + rest) == b.total + SumTotal(rest)
    ensures SumFailed([b] + rest) == b.failed + SumFailed(rest)
  {
    if rest == [] {
      assert [b] + rest == [b] && [b][..0] == [];
    } else {
      SumFront(b, rest[..|rest| - 1]);
      assert ([b] + rest)[..|rest|] == [b] + rest[..|rest| - 1];
    }
  }

  lemma {:induction false} TailIsCalendar(buckets: seq<Bucket>, rows: seq<Row>, now: int, offset: int, days: nat)
    requires IsSeries(buckets, rows, now, offset) && days <= DAYS
    ensures SumTotal(buckets[DAYS - days..]) == CalendarTotal(rows, now, offset, days)
    ensures SumFailed(buckets[DAYS - days..]) == CalendarFailed(rows, now, offset, days)
  {
    if days == 0 {
      CalendarNone(rows, now, offset);
    } else {
      TailIsCalendar(buckets, rows, now, offset, days - 1);
      CalendarStep(rows, now, offset, days - 1);
      SumFront(buckets[DAYS - days], buckets[DAYS - days + 1..]);
      assert buckets[DAYS - days..] == [buckets[DAYS - days]] + buckets[DAYS - days + 1..];
    }
  }

  /** The totals shown for any window are the sums of the rows that fall on its calendar days: nothing inside the
      window is lost or counted twice, nothing outside it leaks in. */
  lemma WindowTotalsAreCalendarTotals(buckets: seq<Bucket>, rows: seq<Row>, now: int, offset: int, windowDays: int)
    requires IsSeries(buckets, rows, now, offset)
    ensures SumTotal(Tail(buckets, windowDays)) == CalendarTotal(rows, now, offset, Clamp(windowDays, DAYS))
    ensures SumFailed(Tail(buckets, windowDays)) == CalendarFailed(rows, now, offset, Clamp(windowDays, DAYS))
  {
    TailIsCalendar(buckets, rows, now, offset, Clamp(windowDays, DAYS));
  }

  lemma {:induction false} SumsNonNegative(s: seq<Bucket>)
    requires forall b :: b in s ==> b.total >= 0 && b.failed >= 0
    ensures SumTotal(s) >= 0 && SumFailed(s) >= 0
  {
    if s != [] {
      assert s[|s| - 1] in s;
      SumsNonNegative(s[..|s| - 1]);
    }
  }

  lemma {:induction false} SumsSplit(s: seq<Bucket>, t: seq<Bucket>)
    ensures SumTotal(s + t) == SumTotal(s) + SumTotal(t) && SumFailed(s + t) == SumFailed(s) + SumFailed(t)
  {
    if s == [] {
      assert s + t == t;
    } else {
      SumFront(s[0], s[1..] + t);
      SumFront(s[0], s[1..]);
      SumsSplit(s[1..], t);
      assert s + t == [s[0]] + (s[1..] + t) && s == [s[0]] + s[1..];
    }
  }

  /** A narrower window is the end of a wider one, and shows at most as many runs and failures when no count is
      negative. */
  lemma WiderShowsMore(buckets: seq<Bucket>, narrow: int, wide: int)
    requires narrow <= wide
    requires forall b :: b in buckets ==> b.total >= 0 && b.failed >= 0
    ensures Tail(buckets, narrow) == Tail(Tail(buckets, wide), narrow)
    ensures 0 <= SumTotal(Tail(buckets, narrow)) <= SumTotal(Tail(buckets, wide))
    ensures 0 <= SumFailed(Tail(buckets, narrow)) <= SumFailed(Tail(buckets, wide))
  {
    var inner, outer := Tail(buckets, narrow), Tail(buckets, wide);
    var front := outer[..|outer| - |inner|];
    SumsSplit(front, inner);
    assert outer == front + inner;
    SumsNonNegative(front);
    SumsNonNegative(inner);
  }

  lemma {:induction false} DayNonNegative(rows: seq<Row>, now: int, offset: int, daysAgo: int)
    requires forall r :: r in rows ==> r.taskCount >= 0 && r.failedCount >= 0
    ensures TotalOn(rows, now, offset, daysAgo) >= 0 && FailedOn(rows, now, offset, daysAgo) >= 0
  {
    if rows != [] {
      assert rows[|rows| - 1] in rows;
      DayNonNegative(rows[..|rows| - 1], now, offset, daysAgo);
    }
  }

  /** The same from the server's rows: when no row's counts are negative. */
  lemma WiderShowsMoreOfRows(buckets: seq<Bucket>, rows: seq<Row>, now: int, offset: int, narrow: int, wide: int)
    requires IsSeries(buckets, rows, now, offset) && narrow <= wide
    requires forall r :: r in rows ==> r.taskCount >= 0 && r.failedCount >= 0
    ensures 0 <= SumTotal(Tail(buckets, narrow)) <= SumTotal(Tail(buckets, wide))
    ensures 0 <= SumFailed(Tail(buckets, narrow)) <= SumFailed(Tail(buckets, wide))
  {
    forall b | b in buckets
      ensures b.total >= 0 && b.failed >= 0
    {
      var i :| 0 <= i < DAYS && buckets[i] == b;
      DayNonNegative(rows, now, offset, DAYS - 1 - i);
    }
    WiderShowsMore(buckets, narrow, wide);
  }

  /** The age shown is the number of whole days since creation, from none up to thirty; thirty also when the time of
      creation cannot be read. */
  lemma AgeExactly(createdAt: Option<int>, now: int, d: nat)
    requires d <= 30
    ensures AgeInDays(createdAt, now) == d <==>
            if createdAt.None? then d == 30
            else (d == 0 || createdAt.value + d * 86400000 <= now)
                 && (d == 30 || now < createdAt.value + (d + 1) * 86400000)
  {
  }
}
