/** "Avg MTTR today": the server sends a rounded average per analyst, and the client recombines them. */
module Mttr {
  import opened Common
  import opened Schema
  import opened Tables
  import opened Rounding
  import opened Bags
  import Transactions
  import Interleaving

  /** One triage of the day: who, and the recorded response time. */
  datatype Action = Action(analyst: string, seconds: nat)

  datatype Measure = Seconds | Rows

  function Amount(m: Measure, a: Action): nat {
    if m == Seconds then a.seconds else 1
  }

  function Total(m: Measure, actions: seq<Action>): nat {
    if actions == [] then 0 else Total(m, actions[..|actions| - 1]) + Amount(m, actions[|actions| - 1])
  }

  /** The totals are a sum and a count. */
  lemma {:induction false} TotalsAdd(a: seq<Action>, b: seq<Action>)
    ensures Total(Rows, a) == |a|
    ensures Total(Seconds, a + b) == Total(Seconds, a) + Total(Seconds, b)
    ensures |a| == 1 ==> Total(Seconds, a) == a[0].seconds
    decreases |a| + |b|
  {
    if b != [] {
      TotalsAdd(a, b[..|b| - 1]);
      assert (a + b)[..|a + b| - 1] == a + b[..|b| - 1];
    } else {
      assert a + b == a;
      if a != [] {
        TotalsAdd(a[..|a| - 1], []);
      }
    }
  }

  /** The part of the total that one analyst contributes. */
  function Part(m: Measure, actions: seq<Action>, analyst: string): nat {
    if actions == [] then 0
    else
      var last := actions[|actions| - 1];
      Part(m, actions[..|actions| - 1], analyst) + if last.analyst == analyst then Amount(m, last) else 0
  }

  /** A row of mttr_by_analyst for the day. */
  datatype MttrRow = MttrRow(analyst: string, avgSeconds: nat, count: nat)

  /** count(*) and the rounded average of one analyst's group. */
  ghost predicate Served(times: seq<Action>, row: MttrRow) {
    && row.count == Part(Rows, times, row.analyst) > 0
    && row.avgSeconds == Rounded(Part(Seconds, times, row.analyst), row.count)
  }

  /** GROUP BY analyst_name over the day's actions, in any order. */
  ghost predicate IsMttr(actions: seq<Action>, rows: seq<MttrRow>) {
    && (forall i, j :: 0 <= i < j < |rows| ==> rows[i].analyst != rows[j].analyst)
    && (forall i :: 0 <= i < |rows| ==> Served(actions, rows[i]))
    && (forall a :: a in actions ==> exists i :: 0 <= i < |rows| && rows[i].analyst == a.analyst)
  }

  function ClosedToday(rows: seq<MttrRow>): nat {
    if rows == [] then 0 else ClosedToday(rows[..|rows| - 1]) + rows[|rows| - 1].count
  }

  function TotalSecs(rows: seq<MttrRow>): nat {
    if rows == [] then 0
    else TotalSecs(rows[..|rows| - 1]) + rows[|rows| - 1].avgSeconds * rows[|rows| - 1].count
  }

  /** `closedToday ? Math.round(totalSecs / closedToday / 60) : 0`. */
  function MttrMinutes(rows: seq<MttrRow>): nat {
    if ClosedToday(rows) == 0 then 0 else Rounded(TotalSecs(rows), 60 * ClosedToday(rows))
  }

  function PartsOf(m: Measure, actions: seq<Action>, rows: seq<MttrRow>): nat {
    if rows == [] then 0
    else PartsOf(m, actions, rows[..|rows| - 1]) + Part(m, actions, rows[|rows| - 1].analyst)
  }

  ghost predicate Listed(rows: seq<MttrRow>, analyst: string) {
    exists i :: 0 <= i < |rows| && rows[i].analyst == analyst
  }

  lemma {:induction false} OneMoreAction(m: Measure, actions: seq<Action>, a: Action, rows: seq<MttrRow>)
    requires forall i, j :: 0 <= i < j < |rows| ==> rows[i].analyst != rows[j].analyst
    ensures PartsOf(m, actions + [a], rows)
         == PartsOf(m, actions, rows) + if Listed(rows, a.analyst) then Amount(m, a) else 0
  {
    if rows == [] {
    } else {
      var before, last := rows[..|rows| - 1], rows[|rows| - 1];
      OneMoreAction(m, actions, a, before);
      assert (actions + [a])[..|actions|] == actions;
      if Listed(rows, a.analyst) && last.analyst != a.analyst {
        var i :| 0 <= i < |rows| && rows[i].analyst == a.analyst;
        assert before[i].analyst == a.analyst;
      }
      if last.analyst == a.analyst {
        assert rows[|rows| - 1].analyst == a.analyst;
        assert forall i :: 0 <= i < |before| ==> before[i].analyst != last.analyst;
      } else if Listed(before, a.analyst) {
        var i :| 0 <= i < |before| && before[i].analyst == a.analyst;
        assert rows[i].analyst == a.analyst;
      }
    }
  }

  /** The analysts' parts make up the whole day. */
  lemma {:induction false} PartsMakeTotal(m: Measure, actions: seq<Action>, rows: seq<MttrRow>)
    requires forall i, j :: 0 <= i < j < |rows| ==> rows[i].analyst != rows[j].analyst
    requires forall a :: a in actions ==> Listed(rows, a.analyst)
    ensures PartsOf(m, actions, rows) == Total(m, actions)
  {
    if actions == [] {
      NoParts(m, rows);
    } else {
      var before, last := actions[..|actions| - 1], actions[|actions| - 1];
      assert actions == before + [last] && last in actions;
      PartsMakeTotal(m, before, rows);
      OneMoreAction(m, before, last, rows);
    }
  }

  lemma {:induction false} NoParts(m: Measure, rows: seq<MttrRow>)
    ensures PartsOf(m, [], rows) == 0
  {
    if rows == [] {
    } else {
      NoParts(m, rows[..|rows| - 1]);
    }
  }

  lemma {:induction false} WeightedError(actions: seq<Action>, rows: seq<MttrRow>)
    requires forall i :: 0 <= i < |rows| ==> Served(actions, rows[i])
    ensures ClosedToday(rows) == PartsOf(Rows, actions, rows)
    ensures 2 * (TotalSecs(rows) - PartsOf(Seconds, actions, rows)) <= ClosedToday(rows)
    ensures 2 * (PartsOf(Seconds, actions, rows) - TotalSecs(rows)) <= ClosedToday(rows)
  {
    if rows == [] {
    } else {
      var last := rows[|rows| - 1];
      WeightedError(actions, rows[..|rows| - 1]);
      RoundedBounds(Part(Seconds, actions, last.analyst), last.count);
    }
  }

  /** The client's count is exactly the day's triages, and its weighted sum is within half a second per
      triage of the true sum, for any number of analysts: the recombined mean is within half a second. */
  lemma MeanWithinHalfSecond(actions: seq<Action>, rows: seq<MttrRow>)
    requires IsMttr(actions, rows)
    ensures ClosedToday(rows) == Total(Rows, actions)
    ensures 2 * (TotalSecs(rows) - Total(Seconds, actions)) <= Total(Rows, actions)
    ensures 2 * (Total(Seconds, actions) - TotalSecs(rows)) <= Total(Rows, actions)
  {
    forall a | a in actions ensures Listed(rows, a.analyst) {
    }
    WeightedError(actions, rows);
    PartsMakeTotal(Rows, actions, rows);
    PartsMakeTotal(Seconds, actions, rows);
  }

  lemma RoundedMinutes(s: nat, n: nat, e: nat)
    requires n > 0 && e == Rounded(s, 60 * n)
    ensures 120 * (e * n) <= 2 * s + 60 * n < 120 * (e * n) + 120 * n
  {
    RoundedBounds(s, 60 * n);
    assert e * (60 * n) == 60 * (e * n);
  }

  lemma Scaled(exact: nat, shown: nat, n: nat)
    ensures exact + 1 < shown ==> exact * n + 2 * n <= shown * n
    ensures shown == exact + 1 ==> shown * n == exact * n + n
  {
    Products(exact + 1, shown, n);
    assert (exact + 1) * n == exact * n + n;
  }

  /** Minutes rounded from two totals that differ by at most half a second a triage; `e` and `f` stand for
      the rounded minutes times the number of triages. */
  lemma CloseMinutes(s: nat, w: nat, n: nat, e: nat, f: nat, exact: nat, shown: nat)
    requires n > 0 && 2 * (s - w) <= n && 2 * (w - s) <= n
    requires 120 * e <= 2 * s + 60 * n < 120 * e + 120 * n
    requires 120 * f <= 2 * w + 60 * n < 120 * f + 120 * n
    requires exact + 1 < shown ==> e + 2 * n <= f
    requires shown + 1 < exact ==> f + 2 * n <= e
    requires shown == exact + 1 ==> f == e + n
    requires exact == shown + 1 ==> e == f + n
    ensures exact <= shown + 1 && shown <= exact + 1
    ensures shown == exact + 1 ==> 0 < 60 * e + 30 * n - s && 2 * (60 * e + 30 * n - s) <= n
    ensures exact == shown + 1 ==> 0 <= s - 60 * f - 30 * n && 2 * (s - 60 * f - 30 * n) <= n
  {
  }

  lemma HalfMinute(m: nat, n: nat)
    ensures (60 * m + 30) * n == 60 * (m * n) + 30 * n
  {
  }

  /** How far `total` over `n` triages is from half past `minutes`, times `n`. */
  function Gap(minutes: nat, n: nat, total: nat): int {
    (60 * minutes + 30) * n - total
  }

  lemma MinutesApart(s: nat, w: nat, n: nat, exact: nat, shown: nat)
    requires n > 0 && 2 * (s - w) <= n && 2 * (w - s) <= n
    requires 120 * (exact * n) <= 2 * s + 60 * n < 120 * (exact * n) + 120 * n
    requires 120 * (shown * n) <= 2 * w + 60 * n < 120 * (shown * n) + 120 * n
    ensures exact <= shown + 1 && shown <= exact + 1
    ensures shown == exact + 1 ==> 0 < 2 * Gap(exact, n, s) <= n
    ensures exact == shown + 1 ==> -(n as int) <= 2 * Gap(shown, n, s) <= 0
  {
    Scaled(exact, shown, n);
    Scaled(shown, exact, n);
    CloseMinutes(s, w, n, exact * n, shown * n, exact, shown);
    HalfMinute(exact, n);
    HalfMinute(shown, n);
  }

  /** The displayed minutes differ from the correctly rounded true mean by at most one, and then only when
      the true mean lies within half a second of the half minute between the two. */
  lemma MinutesWithinOne(actions: seq<Action>, rows: seq<MttrRow>)
    requires IsMttr(actions, rows) && actions != []
    ensures Total(Rows, actions) > 0
    ensures var n, s := Total(Rows, actions), Total(Seconds, actions);
            var shown, exact := MttrMinutes(rows), Rounded(s, 60 * n);
            && exact <= shown + 1 && shown <= exact + 1
            && (shown == exact + 1 ==> 0 < 2 * Gap(exact, n, s) <= n)
            && (exact == shown + 1 ==> -(n as int) <= 2 * Gap(shown, n, s) <= 0)
  {
    MeanWithinHalfSecond(actions, rows);
    var n, s, w := Total(Rows, actions), Total(Seconds, actions), TotalSecs(rows);
    RoundedMinutes(s, n, Rounded(s, 60 * n));
    RoundedMinutes(w, n, MttrMinutes(rows));
    MinutesApart(s, w, n, Rounded(s, 60 * n), MttrMinutes(rows));
  }

  // ---------------------------------------------------------------- from the tables to the dashboard

  /** `acted_at::date` for a database that runs in UTC, as a day number. */
  function DayOf(at: Micros): int { at / DAY }

  /** Response times are stored through GREATEST(0, ..). */
  ghost predicate NonNegative(actions: Slots<ActionRow>) {
    forall i :: 0 <= i < |actions| && actions[i].Some? && actions[i].value.responseSeconds.Some? ==>
      actions[i].value.responseSeconds.value >= 0
  }

  predicate TimedOn(r: ActionRow, since: Micros, date: int) {
    r.responseSeconds.Some? && r.actedAt >= since && DayOf(r.actedAt) == date
  }

  /** The rows of one day that have a response time and are not older than `since`. */
  function TimesOn(actions: Slots<ActionRow>, since: Micros, date: int): seq<Action>
    requires NonNegative(actions)
  {
    if actions == [] then []
    else
      var last := actions[|actions| - 1];
      TimesOn(actions[..|actions| - 1], since, date)
      + if last.Some? && TimedOn(last.value, since, date)
        then [Action(last.value.analyst, last.value.responseSeconds.value)] else []
  }

  datatype DayRow = DayRow(date: int, row: MttrRow)

  /** The rows of mttr_by_analyst: GROUP BY analyst_name, acted_at::date over the
      actions since a cut, the last seven days. */
  ghost predicate IsServed(actions: Slots<ActionRow>, since: Micros, rows: seq<DayRow>)
    requires NonNegative(actions)
  {
    && (forall i, j :: 0 <= i < j < |rows| ==>
          rows[i].date != rows[j].date || rows[i].row.analyst != rows[j].row.analyst)
    && (forall i :: 0 <= i < |rows| ==> Served(TimesOn(actions, since, rows[i].date), rows[i].row))
    && (forall date :: CoversDay(actions, since, rows, date))
  }

  /** Every timed action of the day is in some row. */
  ghost predicate CoversDay(actions: Slots<ActionRow>, since: Micros, rows: seq<DayRow>, date: int)
    requires NonNegative(actions)
  {
    forall a :: a in TimesOn(actions, since, date) ==>
      exists i :: 0 <= i < |rows| && rows[i].date == date && rows[i].row.analyst == a.analyst
  }

  /** `.filter(r => r.date === today)`. */
  function TodayRows(rows: seq<DayRow>, today: int): seq<MttrRow> {
    if rows == [] then []
    else
      var last := rows[|rows| - 1];
      TodayRows(rows[..|rows| - 1], today) + if last.date == today then [last.row] else []
  }

  lemma {:induction false} TodayRowsMembers(rows: seq<DayRow>, today: int)
    requires forall i, j :: 0 <= i < j < |rows| ==>
               rows[i].date != rows[j].date || rows[i].row.analyst != rows[j].row.analyst
    ensures forall r :: r in TodayRows(rows, today) <==> DayRow(today, r) in rows
    ensures forall i, j :: 0 <= i < j < |TodayRows(rows, today)| ==>
              TodayRows(rows, today)[i].analyst != TodayRows(rows, today)[j].analyst
  {
    if rows == [] {
    } else {
      var n := |rows| - 1;
      var before, last := rows[..n], rows[n];
      assert rows == before + [last];
      TodayRowsMembers(before, today);
      forall r | r in TodayRows(before, today) && last.date == today ensures r.analyst != last.row.analyst {
        var i :| 0 <= i < n && before[i] == DayRow(today, r);
        assert rows[i].date == rows[n].date;
      }
    }
  }

  /** The triages since midnight that have a response time. */
  function TimesToday(actions: Slots<ActionRow>, now: Micros): seq<Action>
    requires NonNegative(actions)
  {
    TimesOn(actions, DayOf(now) * DAY, DayOf(now))
  }

  /** The seven-day cut hides none of them. */
  lemma {:induction false} TodayIsRecent(actions: Slots<ActionRow>, now: Micros)
    requires NonNegative(actions)
    ensures TimesOn(actions, now - 7 * DAY, DayOf(now)) == TimesToday(actions, now)
  {
    if actions == [] {
    } else {
      var before, last := actions[..|actions| - 1], actions[|actions| - 1];
      TodayIsRecent(before, now);
      assert last.Some? && DayOf(last.value.actedAt) == DayOf(now) ==>
          last.value.actedAt >= DayOf(now) * DAY > now - DAY;
    }
  }

  lemma TodayIsMttr(actions: Slots<ActionRow>, now: Micros, rows: seq<DayRow>)
    requires NonNegative(actions) && IsServed(actions, now - 7 * DAY, rows)
    ensures IsMttr(TimesOn(actions, now - 7 * DAY, DayOf(now)), TodayRows(rows, DayOf(now)))
  {
    var today := DayOf(now);
    var times, mine := TimesOn(actions, now - 7 * DAY, today), TodayRows(rows, today);
    TodayRowsMembers(rows, today);
    forall i | 0 <= i < |mine| ensures Served(times, mine[i]) {
      assert mine[i] in mine;
      var j :| 0 <= j < |rows| && rows[j] == DayRow(today, mine[i]);
    }
    assert CoversDay(actions, now - 7 * DAY, rows, today);
    forall a | a in times ensures exists i :: 0 <= i < |mine| && mine[i].analyst == a.analyst {
      var j :| 0 <= j < |rows| && rows[j].date == today && rows[j].row.analyst == a.analyst;
      assert rows[j] == DayRow(today, rows[j].row);
      assert rows[j].row in mine;
    }
  }

  /** A triage of this UTC day with a response time. */
  predicate IsTimedOn(slot: Option<ActionRow>, day: int) {
    slot.Some? && slot.value.responseSeconds.Some?
    && day * 86_400_000_000 <= slot.value.actedAt < (day + 1) * 86_400_000_000
  }

  function TimedIn(day: int): Option<ActionRow> -> bool {
    slot => IsTimedOn(slot, day)
  }

  lemma TimedInIff(slot: Option<ActionRow>, day: int)
    ensures TimedIn(day)(slot) <==> IsTimedOn(slot, day)
  {
  }

  lemma TimesNext(actions: Slots<ActionRow>, slot: Option<ActionRow>, day: int)
    requires NonNegative(actions + [slot]) && NonNegative(actions)
    requires IsTimedOn(slot, day) ==> slot.value.responseSeconds.value >= 0
    ensures TimesOn(actions + [slot], day * DAY, day)
         == TimesOn(actions, day * DAY, day)
            + if IsTimedOn(slot, day) then [Action(slot.value.analyst, slot.value.responseSeconds.value)] else []
  {
    var all := actions + [slot];
    assert all[..|actions|] == actions && all[|actions|] == slot;
    assert forall i :: 0 <= i < |actions| ==> all[i] == actions[i];
    if slot.Some? { DayBounds(slot.value.actedAt, day); }
  }

  /** The analysts and times of these rows. */
  ghost predicate AreTimes(actions: Slots<ActionRow>, at: seq<nat>, times: seq<Action>) {
    && |at| == |times|
    && forall i :: 0 <= i < |at| ==>
         && at[i] < |actions| && actions[at[i]].Some? && times[i].analyst == actions[at[i]].value.analyst
         && actions[at[i]].value.responseSeconds == Some(times[i].seconds as int)
  }

  lemma DayBounds(at: Micros, day: int)
    ensures DayOf(at) == day <==> day * 86_400_000_000 <= at < (day + 1) * 86_400_000_000
  {
  }

  lemma AreTimesNext(actions: Slots<ActionRow>, slot: Option<ActionRow>, at: seq<nat>, times: seq<Action>, day: int)
    requires AreTimes(actions, at, times)
    ensures AreTimes(actions + [slot], at, times)
    ensures IsTimedOn(slot, day) && slot.value.responseSeconds.value >= 0 ==>
              AreTimes(actions + [slot], at + [|actions|],
                       times + [Action(slot.value.analyst, slot.value.responseSeconds.value)])
  {
  }

  lemma LastIsNonNegative(actions: Slots<ActionRow>, slot: Option<ActionRow>)
    requires NonNegative(actions + [slot])
    ensures NonNegative(actions)
    ensures slot.Some? && slot.value.responseSeconds.Some? ==> slot.value.responseSeconds.value >= 0
  {
    var all := actions + [slot];
    assert all[|actions|] == slot;
    forall i | 0 <= i < |actions| && actions[i].Some? && actions[i].value.responseSeconds.Some?
      ensures actions[i].value.responseSeconds.value >= 0
    {
      assert all[i] == actions[i];
    }
  }

  lemma {:induction false} TimesAt(actions: Slots<ActionRow>, day: int) returns (at: seq<nat>)
    requires NonNegative(actions)
    ensures Positions(actions, TimedIn(day), at)
    ensures AreTimes(actions, at, TimesOn(actions, day * DAY, day))
  {
    if actions == [] {
      at := [];
    } else {
      var before, last := actions[..|actions| - 1], actions[|actions| - 1];
      assert actions == before + [last];
      LastIsNonNegative(before, last);
      TimesNext(before, last, day);
      at := TimesAt(before, day);
      PositionsNext(before, last, TimedIn(day), at);
      TimedInIff(last, day);
      AreTimesNext(before, last, at, TimesOn(before, day * DAY, day), day);
      if IsTimedOn(last, day) {
        at := at + [|before|];
      }
    }
  }

  /** Today's times are those of the rows of the current UTC day that have one, in order, each with its
      analyst. */
  lemma TodaysTimes(actions: Slots<ActionRow>, now: Micros) returns (at: seq<nat>, today: int)
    requires NonNegative(actions)
    ensures today * 86_400_000_000 <= now < (today + 1) * 86_400_000_000
    ensures Positions(actions, TimedIn(today), at) && AreTimes(actions, at, TimesToday(actions, now))
  {
    today := DayOf(now);
    DayBounds(now, today);
    at := TimesAt(actions, today);
  }

  /** What the dashboard shows, on a client whose day is the server's: the number of today's timed triages,
      exactly, and minutes within one of their correctly rounded mean. */
  lemma DashboardMttr(actions: Slots<ActionRow>, now: Micros, rows: seq<DayRow>)
    requires NonNegative(actions) && IsServed(actions, now - 7 * DAY, rows)
    ensures var times, mine := TimesToday(actions, now), TodayRows(rows, DayOf(now));
            && ClosedToday(mine) == Total(Rows, times)
            && (times == [] ==> MttrMinutes(mine) == 0)
            && (times != [] ==>
                  Total(Rows, times) > 0
                  && var exact := Rounded(Total(Seconds, times), 60 * Total(Rows, times));
                     exact <= MttrMinutes(mine) + 1 && MttrMinutes(mine) <= exact + 1)
  {
    TodayIsRecent(actions, now);
    TodayIsMttr(actions, now, rows);
    var times := TimesToday(actions, now);
    MeanWithinHalfSecond(times, TodayRows(rows, DayOf(now)));
    if times != [] {
      MinutesWithinOne(times, TodayRows(rows, DayOf(now)));
    }
  }

  /** Every action row has a response time, and none is negative. */
  ghost predicate Timed(actions: Slots<ActionRow>) {
    forall i :: 0 <= i < |actions| && actions[i].Some? ==>
      actions[i].value.responseSeconds.Some? && actions[i].value.responseSeconds.value >= 0
  }

  lemma WrittenRecordsTimes(db: Db, s: Interleaving.Session)
    requires Interleaving.SessionOk(s, db) && Timed(db.actions)
    ensures Timed(Interleaving.Written(db, s).actions)
  {
  }

  lemma StepRecordsTimes(w: Interleaving.World, step: Interleaving.Step)
    requires Interleaving.AllOk(w) && Timed(w.db.actions)
    ensures Timed(Interleaving.Apply(w, step).db.actions)
  {
    if step.By? && step.sid in w.sessions {
      Interleaving.StatementWrites(w, step.does, step.sid);
      assert Interleaving.SessionOk(w.sessions[step.sid], w.db);
      WrittenRecordsTimes(w.db, w.sessions[step.sid]);
    }
  }

  /** Whatever the interleaving, every action row that is committed carries a response time, and none is
      negative, as the averages need. */
  lemma {:induction false} RunsRecordTimes(steps: seq<Interleaving.Step>)
    ensures Timed(Interleaving.Run(Interleaving.START, steps).db.actions)
    ensures NonNegative(Interleaving.Run(Interleaving.START, steps).db.actions)
  {
    if steps == [] {
    } else {
      var before := steps[..|steps| - 1];
      RunsRecordTimes(before);
      Interleaving.RunsKeepInv(Interleaving.START, before);
      StepRecordsTimes(Interleaving.Run(Interleaving.START, before), steps[|steps| - 1]);
    }
  }
}
