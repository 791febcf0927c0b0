/** SLA metrics: the aggregate join that feeds them, the loop that counts them, and how triage and the
    passing of time move an alert in and out of breach. */
module Sla {
  import opened Common
  import opened Schema
  import opened Tables
  import opened Transactions
  import opened Rounding
  import opened Bags
  import opened Grouping
  import Lifecycle
  import Paging

  datatype SlaRow = SlaRow(severity: Severity, resp: Option<int>, createdAt: Micros)

  // ---------------------------------------------------------------- the query

  /** min(response_time_seconds): NULLs are ignored, and no value at all gives NULL. */
  function MinResponse(rows: seq<ActionRow>): Option<int> {
    if rows == [] then None
    else
      var rest, last := MinResponse(rows[..|rows| - 1]), rows[|rows| - 1].responseSeconds;
      if last == None then rest
      else if rest == None || last.value < rest.value then last else rest
  }

  lemma {:induction false} MinResponseIsLeast(rows: seq<ActionRow>)
    ensures MinResponse(rows) == None <==> forall r :: r in rows ==> r.responseSeconds == None
    ensures MinResponse(rows).Some? ==> exists r :: r in rows && r.responseSeconds == MinResponse(rows)
    ensures forall r :: r in rows && r.responseSeconds.Some? ==>
              MinResponse(rows).Some? && MinResponse(rows).value <= r.responseSeconds.value
  {
    if rows == [] {
    } else {
      var before, last := rows[..|rows| - 1], rows[|rows| - 1];
      MinResponseIsLeast(before);
      assert rows == before + [last];
      assert last in rows && forall r :: r in before ==> r in rows;
    }
  }

  datatype Group = Group(alertId: nat, resp: Option<int>)

  /** SELECT alert_id, min(..) GROUP BY alert_id: one row per alert id present, in any order. */
  ghost predicate IsGrouping(actions: Slots<ActionRow>, groups: seq<Group>) {
    && (forall i, j :: 0 <= i < j < |groups| ==> groups[i].alertId != groups[j].alertId)
    && (forall i :: 0 <= i < |groups| ==>
          && RowsOf(actions, ActionKey, groups[i].alertId) != []
          && groups[i].resp == MinResponse(RowsOf(actions, ActionKey, groups[i].alertId)))
    && (forall r: ActionRow :: Some(r) in actions ==> exists i :: 0 <= i < |groups| && groups[i].alertId == r.alertId)
  }

  /** The derived rows that join with an alert. */
  function Joined(groups: seq<Group>, id: nat): seq<Option<int>> {
    if groups == [] then []
    else Joined(groups[..|groups| - 1], id)
         + if groups[|groups| - 1].alertId == id then [groups[|groups| - 1].resp] else []
  }

  function JoinRows(a: Alert, resps: seq<Option<int>>): seq<SlaRow> {
    if resps == [] then [SlaRow(a.severity, None, a.createdAt)]
    else seq(|resps|, i requires 0 <= i < |resps| => SlaRow(a.severity, resps[i], a.createdAt))
  }

  /** alerts a LEFT JOIN groups m ON m.alert_id = a.id. */
  function LeftJoin(alerts: seq<Alert>, groups: seq<Group>): seq<SlaRow> {
    if alerts == [] then []
    else
      var a := alerts[|alerts| - 1];
      LeftJoin(alerts[..|alerts| - 1], groups) + JoinRows(a, Joined(groups, a.id))
  }

  /** The query it replaced: a subquery per alert over that alert's own actions. */
  function Correlated(alerts: seq<Alert>, actions: Slots<ActionRow>): seq<SlaRow> {
    if alerts == [] then []
    else
      var a := alerts[|alerts| - 1];
      Correlated(alerts[..|alerts| - 1], actions)
      + [SlaRow(a.severity, MinResponse(RowsOf(actions, ActionKey, a.id)), a.createdAt)]
  }

  lemma {:induction false} JoinedOnce(groups: seq<Group>, id: nat)
    requires forall i, j :: 0 <= i < j < |groups| ==> groups[i].alertId != groups[j].alertId
    ensures (forall i :: 0 <= i < |groups| ==> groups[i].alertId != id) ==> Joined(groups, id) == []
    ensures forall i :: 0 <= i < |groups| && groups[i].alertId == id ==> Joined(groups, id) == [groups[i].resp]
  {
    if groups == [] {
    } else {
      JoinedOnce(groups[..|groups| - 1], id);
    }
  }

  lemma JoinsItsMinimum(a: Alert, actions: Slots<ActionRow>, groups: seq<Group>)
    requires IsGrouping(actions, groups)
    ensures JoinRows(a, Joined(groups, a.id))
         == [SlaRow(a.severity, MinResponse(RowsOf(actions, ActionKey, a.id)), a.createdAt)]
  {
    JoinedOnce(groups, a.id);
    var rows := RowsOf(actions, ActionKey, a.id);
    RowsOfMembers(actions, ActionKey, a.id);
    if i :| 0 <= i < |groups| && groups[i].alertId == a.id {
      assert Joined(groups, a.id) == [MinResponse(rows)];
    } else {
      assert forall r: ActionRow :: Some(r) in actions ==> r.alertId != a.id;
      assert forall i :: 0 <= i < |actions| ==> actions[i] in actions;
      RowsOfAbsent(actions, ActionKey, a.id);
    }
  }

  /** The aggregate join returns the rows of the correlated subquery, alerts without actions and actions
      without a response time included. */
  lemma {:induction false} JoinEqualsSubquery(alerts: seq<Alert>, actions: Slots<ActionRow>, groups: seq<Group>)
    requires IsGrouping(actions, groups)
    ensures LeftJoin(alerts, groups) == Correlated(alerts, actions)
  {
    if alerts == [] {
    } else {
      JoinEqualsSubquery(alerts[..|alerts| - 1], actions, groups);
      JoinsItsMinimum(alerts[|alerts| - 1], actions, groups);
    }
  }

  // ---------------------------------------------------------------- compute_sla

  function Target(s: Severity): Option<int> {
    match s
    case Critical => Some(15 * 60)
    case High => Some(60 * 60)
    case Medium => Some(4 * 60 * 60)
    case Low => Some(24 * 60 * 60)
    case Unlisted(_) => None
  }

  /** Elapsed time exceeds the target: the recorded response, or the current age while there is none. */
  predicate Breached(r: SlaRow, now: Micros) {
    Target(r.severity).Some?
    && (if r.resp.Some? then r.resp.value * SECOND else now - r.createdAt) > Target(r.severity).value * SECOND
  }

  const MINUTE: Micros := 60 * SECOND

  /** Of two alerts of the same age, neither triaged, the more severe one is in breach first: whenever the
      other is, and strictly before it for some time. */
  lemma SeverityOrdersBreaches(severe: Severity, mild: Severity, createdAt: Micros, now: Micros)
    requires Paging.Rank(severe) < Paging.Rank(mild) && !mild.Unlisted?
    ensures Breached(SlaRow(mild, None, createdAt), now) ==> Breached(SlaRow(severe, None, createdAt), now)
    ensures exists t: Micros ::
              Breached(SlaRow(severe, None, createdAt), t) && !Breached(SlaRow(mild, None, createdAt), t)
  {
    var t := createdAt + Target(mild).value * SECOND;
    assert Breached(SlaRow(severe, None, createdAt), t) && !Breached(SlaRow(mild, None, createdAt), t);
  }

  datatype Kind = AllRows | Considered | Breaching(now: Micros) | BreachingIn(now: Micros, severity: Severity)

  predicate Counts(k: Kind, r: SlaRow) {
    match k
    case AllRows => true
    case Considered => Target(r.severity).Some?
    case Breaching(now) => Breached(r, now)
    case BreachingIn(now, severity) => Breached(r, now) && r.severity == severity
  }

  function Count(k: Kind, rows: seq<SlaRow>): nat {
    if rows == [] then 0 else Count(k, rows[..|rows| - 1]) + if Counts(k, rows[|rows| - 1]) then 1 else 0
  }

  /** round(100 * part / whole, 1) in tenths of a percent. */
  function RateTenths(part: nat, whole: nat): nat {
    if whole == 0 then 0 else Rounded(1000 * part, whole)
  }

  /** The rate is a percentage, within half a tenth of the exact ratio. */
  lemma RateIsNearest(part: nat, whole: nat)
    requires part <= whole && whole > 0
    ensures RateTenths(part, whole) <= 1000
    ensures 2 * (RateTenths(part, whole) * whole - 1000 * part) <= whole
    ensures 2 * (1000 * part - RateTenths(part, whole) * whole) <= whole
    ensures part == 0 ==> RateTenths(part, whole) == 0
    ensures part == whole ==> RateTenths(part, whole) == 1000
  {
    var q := RateTenths(part, whole);
    RoundedBounds(1000 * part, whole);
    Products(1001, q, whole);
    Products(1, q, whole);
    Products(q, 999, whole);
  }

  const LISTED := {Critical, High, Medium, Low}

  /** The severities that have breaches, with how many. */
  function BySeverity(rows: seq<SlaRow>, now: Micros): map<Severity, nat> {
    map s | s in LISTED && Count(BreachingIn(now, s), rows) > 0 :: Count(BreachingIn(now, s), rows)
  }

  lemma BySeverityNext(rows: seq<SlaRow>, r: SlaRow, now: Micros)
    ensures var m := BySeverity(rows, now);
            BySeverity(rows + [r], now) ==
            if Breached(r, now) then m[r.severity := (if r.severity in m then m[r.severity] else 0) + 1] else m
  {
    assert (rows + [r])[..|rows|] == rows;
    forall s ensures Count(BreachingIn(now, s), rows + [r])
                  == Count(BreachingIn(now, s), rows) + if Breached(r, now) && r.severity == s then 1 else 0
    {
    }
  }

  datatype Metrics = Metrics(breaches: nat, considered: nat, rateTenths: nat, bySeverity: map<Severity, nat>)

  function MetricsOf(rows: seq<SlaRow>, now: Micros): Metrics {
    Metrics(Count(Breaching(now), rows), Count(Considered, rows),
            RateTenths(Count(Breaching(now), rows), Count(Considered, rows)), BySeverity(rows, now))
  }

  function Hits(k: Kind, rows: seq<SlaRow>): set<int> {
    set i | 0 <= i < |rows| && Counts(k, rows[i])
  }

  lemma {:induction false} CountIsCardinality(k: Kind, rows: seq<SlaRow>)
    ensures Count(k, rows) == |Hits(k, rows)|
  {
    if rows == [] {
    } else {
      var n := |rows| - 1;
      CountIsCardinality(k, rows[..n]);
      assert Hits(k, rows) == Hits(k, rows[..n]) + if Counts(k, rows[n]) then {n} else {};
    }
  }

  lemma BreachIsListed(rows: seq<SlaRow>, now: Micros, i: nat)
    requires i < |rows| && Breached(rows[i], now)
    ensures rows[i].severity in BySeverity(rows, now)
  {
    var k := BreachingIn(now, rows[i].severity);
    CountIsCardinality(k, rows);
    assert i in Hits(k, rows);
    assert rows[i].severity in LISTED;
  }

  /** Each metric is the number of the rows it is about. */
  lemma MetricsAreCardinalities(rows: seq<SlaRow>, now: Micros)
    ensures var m := MetricsOf(rows, now);
            && m.breaches == |set i | 0 <= i < |rows| && Breached(rows[i], now)|
            && m.considered == |set i | 0 <= i < |rows| && !rows[i].severity.Unlisted?|
            && (forall s :: s in m.bySeverity ==>
                  m.bySeverity[s] == |set i | 0 <= i < |rows| && Breached(rows[i], now) && rows[i].severity == s| > 0)
            && (forall i :: 0 <= i < |rows| && Breached(rows[i], now) ==> rows[i].severity in m.bySeverity)
  {
    CountIsCardinality(Breaching(now), rows);
    assert Hits(Breaching(now), rows) == set i | 0 <= i < |rows| && Breached(rows[i], now);
    CountIsCardinality(Considered, rows);
    assert Hits(Considered, rows) == set i | 0 <= i < |rows| && !rows[i].severity.Unlisted?;
    forall s ensures Count(BreachingIn(now, s), rows)
                  == |set i | 0 <= i < |rows| && Breached(rows[i], now) && rows[i].severity == s|
    {
      CountIsCardinality(BreachingIn(now, s), rows);
      assert Hits(BreachingIn(now, s), rows)
          == set i | 0 <= i < |rows| && Breached(rows[i], now) && rows[i].severity == s;
    }
    forall i | 0 <= i < |rows| && Breached(rows[i], now) ensures rows[i].severity in MetricsOf(rows, now).bySeverity {
      BreachIsListed(rows, now, i);
    }
  }

  method ComputeSla(rows: seq<SlaRow>, now: Micros) returns (m: Metrics)
    ensures m == MetricsOf(rows, now)
    ensures m.breaches == |set i | 0 <= i < |rows| && Breached(rows[i], now)|
    ensures m.considered == |set i | 0 <= i < |rows| && !rows[i].severity.Unlisted?|
    ensures m.rateTenths == RateTenths(m.breaches, m.considered)
    ensures forall s :: s in m.bySeverity ==>
              m.bySeverity[s] == |set i | 0 <= i < |rows| && Breached(rows[i], now) && rows[i].severity == s| > 0
    ensures forall i :: 0 <= i < |rows| && Breached(rows[i], now) ==> rows[i].severity in m.bySeverity
  {
    var considered, breaches := 0, 0;
    var bySeverity: map<Severity, nat> := map[];
    for i := 0 to |rows|
      invariant considered == Count(Considered, rows[..i]) && breaches == Count(Breaching(now), rows[..i])
      invariant bySeverity == BySeverity(rows[..i], now)
    {
      var r := rows[i];
      assert rows[..i + 1] == rows[..i] + [r] && rows[..i + 1][..i] == rows[..i];
      BySeverityNext(rows[..i], r, now);
      var target := Target(r.severity);
      if target == None {
        continue;
      }
      considered := considered + 1;
      var elapsed := if r.resp.Some? then r.resp.value * SECOND else now - r.createdAt;
      if elapsed > target.value * SECOND {
        breaches := breaches + 1;
        var soFar := if r.severity in bySeverity then bySeverity[r.severity] else 0;
        bySeverity := bySeverity[r.severity := soFar + 1];
      }
    }
    assert rows[..|rows|] == rows;
    m := Metrics(breaches, considered, RateTenths(breaches, considered), bySeverity);
    MetricsAreCardinalities(rows, now);
  }

  lemma CountNext(k: Kind, rows: seq<SlaRow>, r: SlaRow)
    ensures Count(k, rows + [r]) == Count(k, rows) + if Counts(k, r) then 1 else 0
  {
    assert (rows + [r])[..|rows|] == rows;
  }

  lemma {:induction false} CountRemove(k: Kind, rows: seq<SlaRow>, i: nat)
    requires i < |rows|
    ensures Count(k, rows) == Count(k, rows[..i] + rows[i + 1..]) + if Counts(k, rows[i]) then 1 else 0
  {
    var n := |rows| - 1;
    if i == n {
      assert rows[..i] + rows[i + 1..] == rows[..n];
    } else {
      CountRemove(k, rows[..n], i);
      CountNext(k, rows[..n][..i] + rows[..n][i + 1..], rows[n]);
      assert rows[..i] + rows[i + 1..] == rows[..n][..i] + rows[..n][i + 1..] + [rows[n]];
    }
  }

  lemma {:induction false} CountPermutation(k: Kind, a: seq<SlaRow>, b: seq<SlaRow>)
    requires multiset(a) == multiset(b)
    ensures Count(k, a) == Count(k, b)
  {
    if a == [] {
      assert |multiset(b)| == 0;
    } else {
      var i := DropMatching(a, b);
      CountRemove(k, b, i);
      CountPermutation(k, a[..|a| - 1], b[..i] + b[i + 1..]);
    }
  }

  /** Main result for the rewrite of the statistics query: in whatever order the database returns the
      rows of the join or of the subquery, every SLA metric is the same. */
  lemma RewriteKeepsMetrics(alerts: seq<Alert>, actions: Slots<ActionRow>, groups: seq<Group>,
                            joined: seq<SlaRow>, subquery: seq<SlaRow>, now: Micros)
    requires IsGrouping(actions, groups)
    requires multiset(joined) == multiset(LeftJoin(alerts, groups))
    requires multiset(subquery) == multiset(Correlated(alerts, actions))
    ensures MetricsOf(joined, now) == MetricsOf(subquery, now)
  {
    JoinEqualsSubquery(alerts, actions, groups);
    CountPermutation(Breaching(now), joined, subquery);
    CountPermutation(Considered, joined, subquery);
    forall s | s in LISTED ensures Count(BreachingIn(now, s), joined) == Count(BreachingIn(now, s), subquery) {
      CountPermutation(BreachingIn(now, s), joined, subquery);
    }
    assert BySeverity(joined, now) == BySeverity(subquery, now);
  }

  /** The breaches by severity add up to all breaches. */
  lemma {:induction false} BySeveritySums(rows: seq<SlaRow>, now: Micros)
    ensures SumValues(BySeverity(rows, now)) == Count(Breaching(now), rows)
  {
    if rows == [] {
      assert BySeverity(rows, now) == map[];
    } else {
      var before, last := rows[..|rows| - 1], rows[|rows| - 1];
      assert rows == before + [last];
      BySeveritySums(before, now);
      BySeverityNext(before, last, now);
      var m := BySeverity(before, now);
      SumUpdate(m, last.severity, (if last.severity in m then m[last.severity] else 0) + 1);
    }
  }

  /** Under the severity CHECK the loop skips no row; and no more rows breach than are considered. */
  lemma {:induction false} SlaTotals(rows: seq<SlaRow>, now: Micros)
    ensures Count(Breaching(now), rows) <= Count(Considered, rows) <= |rows|
    ensures Count(Considered, rows) == |rows| <==> forall r :: r in rows ==> !r.severity.Unlisted?
  {
    if rows == [] {
    } else {
      var before, last := rows[..|rows| - 1], rows[|rows| - 1];
      SlaTotals(before, now);
      assert rows == before + [last];
    }
  }

  // ---------------------------------------------------------------- breaches over time

  /** Past the target by less than half a second. */
  predicate Window(a: Alert, now: Micros) {
    Target(a.severity).Some?
    && Target(a.severity).value * SECOND < now - a.createdAt < Target(a.severity).value * SECOND + SECOND / 2
  }

  /** Triage never puts an alert in breach, and takes it out of breach exactly when its age is within half
      a second past the target, where the recorded time rounds down to the target. */
  lemma TriageClearsIff(a: Alert, now: Micros, later: Micros)
    requires ResponseTime(a.createdAt, now).Some?
    ensures var untriaged := SlaRow(a.severity, None, a.createdAt);
            var triaged := SlaRow(a.severity, ResponseTime(a.createdAt, now), a.createdAt);
            && (Breached(triaged, later) ==> Breached(untriaged, now))
            && (Breached(untriaged, now) && !Breached(triaged, later) <==> Window(a, now))
  {
    if a.severity.Unlisted? {
    } else {
      RoundingBoundary(now - a.createdAt, Target(a.severity).value);
    }
  }

  /** Rounded to whole seconds, a time exceeds `target` exactly from half a second past it. */
  lemma RoundingBoundary(us: Micros, target: nat)
    ensures RoundedSeconds(us) > target <==> us >= target * SECOND + SECOND / 2
  {
  }

  /** The row the statistics query yields for an alert. */
  function RowFor(db: Db, id: nat): SlaRow
    requires id in db.alerts
  {
    SlaRow(db.alerts[id].severity, MinResponse(ActionsOf(db, id)), db.alerts[id].createdAt)
  }

  lemma HistoryKeepsRow(db: Db, db': Db, id: nat)
    requires id in db.alerts && id in db'.alerts && SameHistory(db, db', id)
    ensures RowFor(db', id) == RowFor(db, id)
  {
  }

  lemma TriagedRow(db: Db, id: nat, t: TriageRequest)
    requires id in db.alerts && Paired(db, id) && Lifecycle.CanTriage(db, id, t.now)
    ensures RowFor(db, id) == SlaRow(db.alerts[id].severity, None, db.alerts[id].createdAt)
    ensures var db' := Lifecycle.Step(db, Lifecycle.Classify(id, t));
            && id in db'.alerts && db'.alerts[id].status != Open
            && RowFor(db', id) == SlaRow(db.alerts[id].severity, ResponseTime(db.alerts[id].createdAt, t.now),
                                         db.alerts[id].createdAt)
  {
    var seconds := ResponseTime(db.alerts[id].createdAt, t.now);
    Lifecycle.OpenHasNoActions(db, id);
    WholeTriageHistory(db, id, Open, t, seconds);
    assert [TriageAction(id, t, seconds)][..0] == [];
  }

  /** A request that triages the alert inside the window. */
  ghost predicate Clears(db: Db, r: Lifecycle.Request, id: nat) {
    && r.Classify? && r.id == id && Lifecycle.CanTriage(db, id, r.triage.now)
    && Window(db.alerts[id], r.triage.now)
  }

  /** Whatever classification is attempted outside the window, the alert stays in breach. */
  lemma ClassifyKeepsBreach(db: Db, a: nat, t: TriageRequest, id: nat, since: Micros, later: Micros)
    requires id in db.alerts && Paired(db, id) && since <= later && Breached(RowFor(db, id), since)
    requires a == id ==> t.now >= since && !Clears(db, Lifecycle.Classify(a, t), id)
    ensures id in Lifecycle.Step(db, Lifecycle.Classify(a, t)).alerts
    ensures Breached(RowFor(Lifecycle.Step(db, Lifecycle.Classify(a, t)), id), later)
  {
    if Lifecycle.CanTriage(db, a, t.now) {
      if a == id {
        TriagedRow(db, id, t);
        TriageClearsIff(db.alerts[id], t.now, later);
      } else {
        WholeTriageHistory(db, a, Open, t, ResponseTime(db.alerts[a].createdAt, t.now));
        HistoryKeepsRow(db, Lifecycle.Step(db, Lifecycle.Classify(a, t)), id);
      }
    }
  }

  lemma StepKeepsBreach(db: Db, r: Lifecycle.Request, id: nat, since: Micros, later: Micros)
    requires Sound(db) && id in db.alerts && Paired(db, id) && since <= later && Breached(RowFor(db, id), since)
    requires id in Lifecycle.Step(db, r).alerts && !Clears(db, r, id)
    requires r.Classify? && r.id == id ==> r.triage.now >= since
    ensures Breached(RowFor(Lifecycle.Step(db, r), id), later)
  {
    match r
    case Ingest(n, now) =>
      if !n.severity.Unlisted? {
        Lifecycle.InsertHistory(db, n, now);
        HistoryKeepsRow(db, Lifecycle.Step(db, r), id);
      }
    case Failed(drawn) =>
      BurnHistory(db, drawn);
      HistoryKeepsRow(db, Lifecycle.Step(db, r), id);
    case Classify(a, t) => ClassifyKeepsBreach(db, a, t, id, since, later);
    case Note(a, user, text, now) =>
      if a in db.alerts { WholeNoteHistory(db, a, db.alerts[a].status, user, text, now); }
    case Purge(cutoff) =>
      PurgeHistory(db, cutoff);
      HistoryKeepsRow(db, Lifecycle.Step(db, r), id);
    case Embed(_, _) =>
  }

  ghost predicate ClearsAt(rs: seq<Lifecycle.Request>, i: nat, id: nat)
    requires i < |rs|
  {
    Clears(Lifecycle.Run(rs[..i]), rs[i], id)
  }

  /** The requests of a stretch of a run that could triage the alert come after `since`. */
  ghost predicate After(rs: seq<Lifecycle.Request>, k: nat, j: nat, id: nat, since: Micros)
    requires k <= j <= |rs|
  {
    forall i :: k <= i < j && rs[i].Classify? && rs[i].id == id ==> rs[i].triage.now >= since
  }

  lemma NextKeepsBreach(rs: seq<Lifecycle.Request>, j: nat, id: nat, since: Micros, later: Micros)
    requires 0 < j <= |rs| && since <= later && id in Lifecycle.Run(rs[..j - 1]).alerts
    requires Breached(RowFor(Lifecycle.Run(rs[..j - 1]), id), since) && id in Lifecycle.Run(rs[..j]).alerts
    requires !ClearsAt(rs, j - 1, id)
    requires rs[j - 1].Classify? && rs[j - 1].id == id ==> rs[j - 1].triage.now >= since
    ensures Breached(RowFor(Lifecycle.Run(rs[..j]), id), later)
  {
    Lifecycle.RunIsPaired(rs[..j - 1], id);
    Lifecycle.RunIsSound(rs[..j - 1]);
    Lifecycle.NextRun(rs, j - 1);
    StepKeepsBreach(Lifecycle.Run(rs[..j - 1]), rs[j - 1], id, since, later);
  }

  lemma {:induction false} BreachPersists(rs: seq<Lifecycle.Request>, k: nat, j: nat, id: nat, since: Micros,
                                          later: Micros)
    requires k <= j <= |rs| && since <= later && After(rs, k, j, id, since)
    requires id in Lifecycle.Run(rs[..k]).alerts && Breached(RowFor(Lifecycle.Run(rs[..k]), id), since)
    requires id in Lifecycle.Run(rs[..j]).alerts
    requires forall i :: k <= i < j ==> !ClearsAt(rs, i, id)
    ensures Breached(RowFor(Lifecycle.Run(rs[..j]), id), later)
  {
    if k == j {
    } else {
      Lifecycle.KeptThroughout(rs, k, j - 1, j, id);
      BreachPersists(rs, k, j - 1, id, since, since);
      assert !ClearsAt(rs, j - 1, id);
      NextKeepsBreach(rs, j, id, since, later);
    }
  }

  lemma ClearingStep(db: Db, r: Lifecycle.Request, id: nat, later: Micros)
    requires Clears(db, r, id) && Paired(db, id)
    ensures var db' := Lifecycle.Step(db, r);
            id in db'.alerts && db'.alerts[id].status != Open && !Breached(RowFor(db', id), later)
  {
    TriagedRow(db, id, r.triage);
    TriageClearsIff(db.alerts[id], r.triage.now, later);
  }

  /** A triage inside the window ends the breach for good. */
  lemma ClearedForGood(rs: seq<Lifecycle.Request>, i: nat, j: nat, id: nat, later: Micros)
    requires i < j <= |rs| && ClearsAt(rs, i, id) && id in Lifecycle.Run(rs[..j]).alerts
    ensures !Breached(RowFor(Lifecycle.Run(rs[..j]), id), later)
  {
    Lifecycle.RunIsPaired(rs[..i], id);
    Lifecycle.NextRun(rs, i);
    ClearingStep(Lifecycle.Run(rs[..i]), rs[i], id, later);
    Lifecycle.TriagedIsFinal(rs, i + 1, j, id);
  }

  /** In any run of whole requests, an alert in breach at some time is still in breach later, for as long as
      it is kept, exactly when it was not triaged within half a second past its target. */
  lemma BreachPersistsIff(rs: seq<Lifecycle.Request>, k: nat, j: nat, id: nat, since: Micros, later: Micros)
    requires k <= j <= |rs| && since <= later && After(rs, k, j, id, since)
    requires id in Lifecycle.Run(rs[..k]).alerts && Breached(RowFor(Lifecycle.Run(rs[..k]), id), since)
    requires id in Lifecycle.Run(rs[..j]).alerts
    ensures Breached(RowFor(Lifecycle.Run(rs[..j]), id), later)
       <==> forall i :: k <= i < j ==> !ClearsAt(rs, i, id)
  {
    if forall i :: k <= i < j ==> !ClearsAt(rs, i, id) {
      BreachPersists(rs, k, j, id, since, later);
    } else {
      var i :| k <= i < j && ClearsAt(rs, i, id);
      ClearedForGood(rs, i, j, id, later);
    }
  }

  /** A CRITICAL alert is in breach 15 minutes and 0.3 seconds after it was created, and triage at that very
      time takes it out. */
  lemma TriageClearsExample(a: Alert, later: Micros)
    requires a.severity == Critical
    ensures var now := a.createdAt + 15 * MINUTE + 300_000;
            && Breached(SlaRow(Critical, None, a.createdAt), now)
            && ResponseTime(a.createdAt, now) == Some(900)
            && !Breached(SlaRow(Critical, ResponseTime(a.createdAt, now), a.createdAt), later)
  {
  }
}
