/** The counts of /api/stats on one snapshot of the alerts, and the client's own counts of the rows it
    has fetched. */
module Stats {
  import opened Common
  import opened Schema
  import opened Crypto
  import opened Bags
  import opened Grouping
  import opened Tables
  import opened Transactions
  import Mttr
  import Interleaving
  import Sla
  import Filters
  import Paging
  import AlertList
  import AcrossEndpoints

  /** The two non-null columns that are charted. */
  datatype Dimension = Category | SeverityLevel

  function Value(a: Alert, d: Dimension): string {
    if d == Category then a.category else Filters.SeverityText(a.severity)
  }

  function Column(rows: seq<Alert>, d: Dimension): seq<string> {
    seq(|rows|, i requires 0 <= i < |rows| => Value(rows[i], d))
  }

  function Sources(rows: seq<Alert>): seq<Option<string>> {
    seq(|rows|, i requires 0 <= i < |rows| => rows[i].source)
  }

  /** Charts over non-null columns account for every alert. */
  lemma ChartTotal(alerts: seq<Alert>, d: Dimension, rows: seq<Row<string>>)
    requires IsGroupBy(multiset(Column(alerts, d)), rows)
    ensures SumValues(DictOf(rows)) == |alerts|
  {
    GroupByDict(multiset(Column(alerts, d)), rows);
  }

  function Places<T(==)>(values: seq<T>, v: T): set<int> {
    set i | 0 <= i < |values| && values[i] == v
  }

  lemma {:induction false} CountIsCardinality<T>(values: seq<T>, v: T)
    ensures multiset(values)[v] == |Places(values, v)|
  {
    if values == [] {
    } else {
      var n := |values| - 1;
      assert values == values[..n] + [values[n]];
      CountIsCardinality(values[..n], v);
      assert Places(values, v) == Places(values[..n], v) + if values[n] == v then {n} else {};
    }
  }

  lemma GroupCounts(column: seq<string>, rows: seq<Row<string>>, v: string)
    requires IsGroupBy(multiset(column), rows)
    ensures v in DictOf(rows) <==> Places(column, v) != {}
    ensures v in DictOf(rows) ==> DictOf(rows)[v] == |Places(column, v)|
  {
    GroupByDict(multiset(column), rows);
    CountIsCardinality(column, v);
    assert v in multiset(column) <==> |Places(column, v)| > 0;
  }

  function OfCategory(alerts: seq<Alert>, category: string): set<int> {
    set i | 0 <= i < |alerts| && alerts[i].category == category
  }

  function OfSeverity(alerts: seq<Alert>, severity: Severity): set<int> {
    set i | 0 <= i < |alerts| && alerts[i].severity == severity
  }

  /** by_category has each category that occurs, with the number of its alerts. */
  lemma CategoryCounts(alerts: seq<Alert>, rows: seq<Row<string>>, category: string)
    requires IsGroupBy(multiset(Column(alerts, Category)), rows)
    ensures category in DictOf(rows) <==> OfCategory(alerts, category) != {}
    ensures category in DictOf(rows) ==> DictOf(rows)[category] == |OfCategory(alerts, category)|
  {
    GroupCounts(Column(alerts, Category), rows, category);
    assert Places(Column(alerts, Category), category) == OfCategory(alerts, category);
  }

  /** by_severity has each severity that occurs, under its name, with the number of its alerts. */
  lemma SeverityCounts(alerts: seq<Alert>, rows: seq<Row<string>>, severity: Severity, name: string)
    requires IsGroupBy(multiset(Column(alerts, SeverityLevel)), rows) && AcrossEndpoints.NameOf(severity, name)
    requires forall i :: 0 <= i < |alerts| ==> !alerts[i].severity.Unlisted?
    ensures name in DictOf(rows) <==> OfSeverity(alerts, severity) != {}
    ensures name in DictOf(rows) ==> DictOf(rows)[name] == |OfSeverity(alerts, severity)|
  {
    GroupCounts(Column(alerts, SeverityLevel), rows, name);
    forall i | 0 <= i < |alerts| ensures Column(alerts, SeverityLevel)[i] == name <==> alerts[i].severity == severity {
      SeverityNamed(alerts[i], severity, name);
    }
    assert Places(Column(alerts, SeverityLevel), name) == OfSeverity(alerts, severity);
  }

  lemma SeverityNamed(a: Alert, severity: Severity, name: string)
    requires !a.severity.Unlisted? && AcrossEndpoints.NameOf(severity, name)
    ensures Value(a, SeverityLevel) == name <==> a.severity == severity
  {
    AcrossEndpoints.NamesAreTexts(a.severity, name);
    if Value(a, SeverityLevel) == name { OneName(a.severity, severity, name); }
  }

  lemma OneName(a: Severity, b: Severity, name: string)
    requires AcrossEndpoints.NameOf(a, name) && AcrossEndpoints.NameOf(b, name)
    ensures a == b
  {
    assert |"CRITICAL"| == 8 && |"HIGH"| == 4 && |"MEDIUM"| == 6 && |"LOW"| == 3;
  }

  /** coalesce(source, 'unknown'), applied to the groups of GROUP BY source. */
  function Coalesced(rows: seq<Row<Option<string>>>): seq<Row<string>> {
    seq(|rows|, i requires 0 <= i < |rows| => Row(Coalesce(rows[i].key), rows[i].count))
  }

  lemma {:induction false} CoalescedSum(rows: seq<Row<Option<string>>>)
    ensures SumCounts(Coalesced(rows)) == SumCounts(rows)
  {
    if rows == [] {
    } else {
      CoalescedSum(rows[..|rows| - 1]);
      assert Coalesced(rows)[..|rows| - 1] == Coalesced(rows[..|rows| - 1]);
    }
  }

  /** The detection-source chart accounts for every alert exactly when NULL and the literal text `unknown`
      do not both occur: GROUP BY keeps them apart, the dict does not. */
  lemma BySourceTotalIff(alerts: seq<Alert>, bySource: seq<Row<Option<string>>>)
    requires IsGroupBy(multiset(Sources(alerts)), bySource)
    ensures SumValues(DictOf(Coalesced(bySource))) == |alerts| <==>
            !(None in Sources(alerts) && Some("unknown") in Sources(alerts))
  {
    GroupByTotal(multiset(Sources(alerts)), bySource);
    CoalescedSum(bySource);
    DictKeepsSumIff(Coalesced(bySource));
    CoalescedDistinctIff(multiset(Sources(alerts)), bySource);
  }

  function Coalesce(key: Option<string>): string {
    if key == None then "unknown" else key.value
  }

  lemma SameAfterCoalesce(a: Option<string>, b: Option<string>)
    requires a != b
    ensures Coalesce(a) == Coalesce(b) <==> {a, b} == {None, Some("unknown")}
  {
    assert a in {a, b} && b in {a, b};
  }

  lemma CoalescedDistinctIff(keys: multiset<Option<string>>, rows: seq<Row<Option<string>>>)
    requires IsGroupBy(keys, rows)
    ensures DistinctKeys(Coalesced(rows)) <==> !(None in keys && Some("unknown") in keys)
  {
    var dict := Coalesced(rows);
    if None in keys && Some("unknown") in keys {
      var i :| 0 <= i < |rows| && rows[i].key == None;
      var j :| 0 <= j < |rows| && rows[j].key == Some("unknown");
      assert dict[i].key == dict[j].key;
    } else {
      forall i, j | 0 <= i < j < |dict| ensures dict[i].key != dict[j].key {
        assert rows[i].key in keys && rows[j].key in keys;
        SameAfterCoalesce(rows[i].key, rows[j].key);
        assert None in {None, Some("unknown")} && Some("unknown") in {None, Some("unknown")};
      }
    }
  }

  /** One alert without a source and one whose source is the text `unknown`: the chart counts one alert. */
  lemma UnknownSourcesCollide(alerts: seq<Alert>, bySource: seq<Row<Option<string>>>)
    requires |alerts| == 2 && alerts[0].source == None && alerts[1].source == Some("unknown")
    requires IsGroupBy(multiset(Sources(alerts)), bySource)
    ensures SumValues(DictOf(Coalesced(bySource))) < |alerts|
  {
    assert Sources(alerts)[0] == None && Sources(alerts)[1] == Some("unknown");
    BySourceTotalIff(alerts, bySource);
    GroupByTotal(multiset(Sources(alerts)), bySource);
    CoalescedSum(bySource);
    DictKeepsSumIff(Coalesced(bySource));
  }

  function CountStatus(alerts: seq<Alert>, statuses: set<Status>): nat {
    if alerts == [] then 0
    else CountStatus(alerts[..|alerts| - 1], statuses) + if alerts[|alerts| - 1].status in statuses then 1 else 0
  }

  lemma {:induction false} CountStatusIs(alerts: seq<Alert>, statuses: set<Status>)
    ensures CountStatus(alerts, statuses) == |set i | 0 <= i < |alerts| && alerts[i].status in statuses|
  {
    if alerts == [] {
    } else {
      var n := |alerts| - 1;
      CountStatusIs(alerts[..n], statuses);
      assert (set i | 0 <= i < |alerts| && alerts[i].status in statuses)
          == (set i | 0 <= i < n && alerts[..n][i].status in statuses)
             + if alerts[n].status in statuses then {n} else {};
    }
  }

  const CLOSED := {TruePositive, FalsePositive, Escalated}

  /** closed = total - open is the number triaged, no more were escalated than triaged, and the escalation
      rate is a percentage. */
  lemma ClosedIsTriaged(alerts: seq<Alert>)
    ensures |alerts| - CountStatus(alerts, {Open}) == CountStatus(alerts, CLOSED)
    ensures CountStatus(alerts, {Escalated}) <= CountStatus(alerts, CLOSED)
    ensures Sla.RateTenths(CountStatus(alerts, {Escalated}), CountStatus(alerts, CLOSED)) <= 1000
  {
    StatusCounts(alerts);
    if CountStatus(alerts, CLOSED) > 0 {
      Sla.RateIsNearest(CountStatus(alerts, {Escalated}), CountStatus(alerts, CLOSED));
    }
  }

  lemma {:induction false} StatusCounts(alerts: seq<Alert>)
    ensures |alerts| - CountStatus(alerts, {Open}) == CountStatus(alerts, CLOSED)
    ensures CountStatus(alerts, {Escalated}) <= CountStatus(alerts, CLOSED)
  {
    if alerts == [] {
    } else {
      StatusCounts(alerts[..|alerts| - 1]);
      var s := alerts[|alerts| - 1].status;
      match s { case Open => case TruePositive => case FalsePositive => case Escalated => }
    }
  }

  // ---------------------------------------------------------------- SLA metrics of a reachable state

  /** SELECT * FROM alerts, in any order. */
  ghost predicate IsTable(db: Db, alerts: seq<Alert>) {
    && (forall i :: 0 <= i < |alerts| ==> alerts[i].id in db.alerts && db.alerts[alerts[i].id] == alerts[i])
    && (forall i, j :: 0 <= i < j < |alerts| ==> alerts[i].id != alerts[j].id)
    && (forall id :: id in db.alerts ==> exists i :: 0 <= i < |alerts| && alerts[i].id == id)
  }

  lemma {:induction false} CorrelatedSeverities(alerts: seq<Alert>, actions: Slots<ActionRow>)
    requires forall a :: a in alerts ==> !a.severity.Unlisted?
    ensures |Sla.Correlated(alerts, actions)| == |alerts|
    ensures forall r :: r in Sla.Correlated(alerts, actions) ==> !r.severity.Unlisted?
  {
    if alerts == [] {
    } else {
      var before, last := alerts[..|alerts| - 1], alerts[|alerts| - 1];
      assert alerts == before + [last];
      CorrelatedSeverities(before, actions);
    }
  }

  ghost predicate InTable(alerts: seq<Alert>, id: nat) {
    exists i :: 0 <= i < |alerts| && alerts[i].id == id
  }

  /** The alerts among these whose row counts. */
  ghost function HitIds(k: Sla.Kind, db: Db, alerts: seq<Alert>): set<nat> {
    set id | id in db.alerts && Sla.Counts(k, Sla.RowFor(db, id)) && InTable(alerts, id)
  }

  /** Counting the rows of the query counts each alert by its own row. */
  lemma {:induction false} CountByAlert(k: Sla.Kind, db: Db, alerts: seq<Alert>)
    requires forall i :: 0 <= i < |alerts| ==> alerts[i].id in db.alerts && db.alerts[alerts[i].id] == alerts[i]
    requires forall i, j :: 0 <= i < j < |alerts| ==> alerts[i].id != alerts[j].id
    ensures Sla.Count(k, Sla.Correlated(alerts, db.actions)) == |HitIds(k, db, alerts)|
  {
    if alerts == [] {
      assert HitIds(k, db, alerts) == {};
    } else {
      var n := |alerts| - 1;
      var a := alerts[n];
      CountByAlert(k, db, alerts[..n]);
      Sla.CountNext(k, Sla.Correlated(alerts[..n], db.actions), Sla.RowFor(db, a.id));
      assert alerts == alerts[..n] + [a];
      assert !InTable(alerts[..n], a.id);
      HitOneMore(k, db, alerts[..n], a);
    }
  }

  lemma InTableNext(alerts: seq<Alert>, a: Alert, id: nat)
    ensures InTable(alerts + [a], id) <==> InTable(alerts, id) || id == a.id
  {
    var all := alerts + [a];
    assert all[|alerts|] == a;
    if i :| 0 <= i < |alerts| && alerts[i].id == id {
      assert all[i].id == id;
    }
  }

  lemma HitOneMore(k: Sla.Kind, db: Db, alerts: seq<Alert>, a: Alert)
    requires a.id in db.alerts && !InTable(alerts, a.id)
    ensures HitIds(k, db, alerts + [a])
         == HitIds(k, db, alerts) + if Sla.Counts(k, Sla.RowFor(db, a.id)) then {a.id} else {}
    ensures a.id !in HitIds(k, db, alerts)
  {
    forall id | id in db.alerts ensures InTable(alerts + [a], id) <==> InTable(alerts, id) || id == a.id {
      InTableNext(alerts, a, id);
    }
  }

  lemma CountedOnce(k: Sla.Kind, db: Db, alerts: seq<Alert>, joined: seq<Sla.SlaRow>)
    requires IsTable(db, alerts) && multiset(joined) == multiset(Sla.Correlated(alerts, db.actions))
    ensures Sla.Count(k, joined) == |HitIds(k, db, alerts)|
  {
    Sla.CountPermutation(k, joined, Sla.Correlated(alerts, db.actions));
    CountByAlert(k, db, alerts);
  }

  ghost function InBreach(db: Db, now: Micros): set<nat> {
    set id | id in db.alerts && Sla.Breached(Sla.RowFor(db, id), now)
  }

  ghost function InBreachOf(db: Db, now: Micros, severity: Severity): set<nat> {
    set id | id in InBreach(db, now) && db.alerts[id].severity == severity
  }

  lemma BreachesCounted(db: Db, alerts: seq<Alert>, joined: seq<Sla.SlaRow>, now: Micros)
    requires IsTable(db, alerts) && multiset(joined) == multiset(Sla.Correlated(alerts, db.actions))
    ensures Sla.Count(Sla.Breaching(now), joined) == |InBreach(db, now)|
  {
    CountedOnce(Sla.Breaching(now), db, alerts, joined);
    assert HitIds(Sla.Breaching(now), db, alerts) == InBreach(db, now);
  }

  lemma BreachesOfCounted(db: Db, alerts: seq<Alert>, joined: seq<Sla.SlaRow>, now: Micros, severity: Severity)
    requires IsTable(db, alerts) && multiset(joined) == multiset(Sla.Correlated(alerts, db.actions))
    ensures Sla.Count(Sla.BreachingIn(now, severity), joined) == |InBreachOf(db, now, severity)|
  {
    CountedOnce(Sla.BreachingIn(now, severity), db, alerts, joined);
    assert HitIds(Sla.BreachingIn(now, severity), db, alerts) == InBreachOf(db, now, severity);
  }

  /** Over any snapshot, whatever the order of the joined rows, the SLA metrics count exactly the alerts that are
      in breach, in all and for each severity. */
  lemma SlaCountsBreaches(db: Db, alerts: seq<Alert>, groups: seq<Sla.Group>, joined: seq<Sla.SlaRow>, now: Micros,
                          severity: Severity)
    requires IsTable(db, alerts) && Sla.IsGrouping(db.actions, groups)
    requires multiset(joined) == multiset(Sla.LeftJoin(alerts, groups))
    ensures var m := Sla.MetricsOf(joined, now);
            && m.breaches == |InBreach(db, now)|
            && (severity in m.bySeverity ==> m.bySeverity[severity] == |InBreachOf(db, now, severity)|)
  {
    Sla.JoinEqualsSubquery(alerts, db.actions, groups);
    BreachesCounted(db, alerts, joined, now);
    BreachesOfCounted(db, alerts, joined, now, severity);
  }

  /** On a snapshot of any state the interleavings reach, the SLA metrics cover every alert once, whatever
      the order of the joined rows: all are considered, and the breaches by severity sum to the breaches. */
  lemma {:induction false} SlaCoversAlerts(steps: seq<Interleaving.Step>, alerts: seq<Alert>, groups: seq<Sla.Group>,
                        joined: seq<Sla.SlaRow>, now: Micros)
    requires IsTable(Interleaving.Run(Interleaving.START, steps).db, alerts)
    requires Sla.IsGrouping(Interleaving.Run(Interleaving.START, steps).db.actions, groups)
    requires multiset(joined) == multiset(Sla.LeftJoin(alerts, groups))
    ensures var m := Sla.MetricsOf(joined, now);
            m.considered == |alerts| && m.breaches <= |alerts| && m.rateTenths <= 1000
            && SumValues(m.bySeverity) == m.breaches
  {
    var db := Interleaving.Run(Interleaving.START, steps).db;
    ListedSeverities(steps, alerts);
    Sla.JoinEqualsSubquery(alerts, db.actions, groups);
    CorrelatedSeverities(alerts, db.actions);
    var rows := Sla.LeftJoin(alerts, groups);
    assert |joined| == |multiset(joined)| == |rows|;
    forall r | r in joined ensures !r.severity.Unlisted? {
      assert r in multiset(joined) && r in rows;
    }
    Sla.SlaTotals(joined, now);
    Sla.BySeveritySums(joined, now);
    if joined == [] {
    } else {
      Sla.RateIsNearest(Sla.Count(Sla.Breaching(now), joined), |joined|);
    }
  }

  lemma ListedSeverities(steps: seq<Interleaving.Step>, alerts: seq<Alert>)
    requires IsTable(Interleaving.Run(Interleaving.START, steps).db, alerts)
    ensures forall a :: a in alerts ==> !a.severity.Unlisted?
  {
    Interleaving.EveryInterleavingKeepsIntegrity(steps);
  }

  /** Longer than 15 minutes, 1 hour, 4 hours or 24 hours, in microseconds. */
  ghost predicate Exceeds(severity: Severity, us: Micros) {
    || (severity == Critical && us > 900_000_000)
    || (severity == High && us > 3_600_000_000)
    || (severity == Medium && us > 14_400_000_000)
    || (severity == Low && us > 86_400_000_000)
  }

  lemma BreachedExceeds(r: Sla.SlaRow, now: Micros)
    ensures Sla.Breached(r, now) <==>
            Exceeds(r.severity, if r.resp.Some? then r.resp.value * 1_000_000 else now - r.createdAt)
  {
  }

  lemma AllTimed(db: Db, id: nat)
    requires Mttr.Timed(db.actions)
    ensures forall a :: a in ActionsOf(db, id) ==> a.responseSeconds.Some?
  {
    RowsOfMembers(db.actions, ActionKey, id);
    forall a | a in ActionsOf(db, id) ensures a.responseSeconds.Some? {
      var k :| 0 <= k < |db.actions| && db.actions[k] == Some(a);
    }
  }

  lemma LeastExceeds(rows: seq<ActionRow>, severity: Severity)
    requires rows != [] && forall a :: a in rows ==> a.responseSeconds.Some?
    ensures Sla.MinResponse(rows).Some?
    ensures Exceeds(severity, Sla.MinResponse(rows).value * 1_000_000) <==> AllExceed(severity, rows)
  {
    Sla.MinResponseIsLeast(rows);
    assert rows[0] in rows;
  }

  /** Every response time recorded for the alert does. */
  ghost predicate AllExceed(severity: Severity, rows: seq<ActionRow>) {
    forall r :: r in rows ==> r.responseSeconds.Some? && Exceeds(severity, r.responseSeconds.value * 1_000_000)
  }

  ghost predicate BreachedRightly(db: Db, id: nat, now: Micros)
    requires id in db.alerts
  {
    var a, breached := db.alerts[id], Sla.Breached(Sla.RowFor(db, id), now);
    && (a.status == Open ==> (breached <==> Exceeds(a.severity, now - a.createdAt)))
    && (a.status != Open ==> ActionsOf(db, id) != [] && (breached <==> AllExceed(a.severity, ActionsOf(db, id))))
  }

  lemma BreachIff(db: Db, id: nat, now: Micros)
    requires id in db.alerts && Paired(db, id) && Mttr.Timed(db.actions)
    ensures BreachedRightly(db, id, now)
  {
    BreachedExceeds(Sla.RowFor(db, id), now);
    AllTimed(db, id);
    if db.alerts[id].status != Open {
      LeastExceeds(ActionsOf(db, id), db.alerts[id].severity);
    }
  }

  /** In every state the interleavings reach, an open alert is in breach when its age exceeds the target of its
      severity; and one that was triaged, when every response time recorded for it does. */
  lemma ReachableBreachIff(steps: seq<Interleaving.Step>, id: nat, now: Micros)
    requires id in Interleaving.Run(Interleaving.START, steps).db.alerts
    ensures !Interleaving.Run(Interleaving.START, steps).db.alerts[id].severity.Unlisted?
    ensures BreachedRightly(Interleaving.Run(Interleaving.START, steps).db, id, now)
  {
    Interleaving.EveryInterleavingKeepsIntegrity(steps);
    Mttr.RunsRecordTimes(steps);
    BreachIff(Interleaving.Run(Interleaving.START, steps).db, id, now);
  }

  // ---------------------------------------------------------------- the client's tally

  /** A property of the `counts` object: a number, or the text that `+ 1` makes of an inherited one. */
  datatype Cell = Num(n: nat) | Garbled

  /** `r[key] || "unknown"`. */
  function Label(value: Option<string>): string {
    if value == None || value.value == "" then "unknown" else value.value
  }

  function Labels(values: seq<Option<string>>): seq<string> {
    seq(|values|, i requires 0 <= i < |values| => Label(values[i]))
  }

  function TallyOf(labels: multiset<string>, inherited: set<string>): map<string, Cell> {
    map k | k in labels :: if k in inherited then Garbled else Num(labels[k])
  }

  lemma TallyNext(labels: multiset<string>, k: string, inherited: set<string>)
    ensures var m := TallyOf(labels, inherited);
            TallyOf(labels + multiset{k}, inherited) ==
            m[k := if k in inherited then Garbled else Num(1 + if k in m then m[k].n else 0)]
  {
  }

  /** `tally`: counts a column of the fetched rows. `inherited` names what every object already has, so
      that `counts[k] || 0` does not start from 0 there. */
  method Tally(values: seq<Option<string>>, inherited: set<string>) returns (counts: map<string, Cell>)
    ensures counts == TallyOf(multiset(Labels(values)), inherited)
  {
    counts := map[];
    ghost var bag: multiset<string> := multiset{};
    for i := 0 to |values|
      invariant bag == multiset(Labels(values[..i]))
      invariant counts == TallyOf(bag, inherited)
    {
      var k := Label(values[i]);
      var before := if k in counts then counts[k] else if k in inherited then Garbled else Num(0);
      TallyNext(bag, k, inherited);
      LabelsNext(values, i);
      counts := counts[k := if before.Num? then Num(before.n + 1) else Garbled];
      bag := bag + multiset{k};
    }
    assert values[..|values|] == values;
  }

  lemma LabelsNext(values: seq<Option<string>>, i: nat)
    requires i < |values|
    ensures multiset(Labels(values[..i + 1])) == multiset(Labels(values[..i])) + multiset{Label(values[i])}
  {
    assert Labels(values[..i + 1]) == Labels(values[..i]) + [Label(values[i])];
  }

  lemma {:induction false} LabelsPermute(a: seq<Option<string>>, b: seq<Option<string>>)
    requires multiset(a) == multiset(b)
    ensures multiset(Labels(a)) == multiset(Labels(b))
  {
    if a == [] {
      assert |multiset(b)| == 0;
    } else {
      var n := |a| - 1;
      var i := DropMatching(a, b);
      var fewer := b[..i] + b[i + 1..];
      LabelsPermute(a[..n], fewer);
      assert Labels(a) == Labels(a[..n]) + [Label(a[n])];
      assert Labels(b)[..i] + Labels(b)[i + 1..] == Labels(fewer);
      BagWithout(Labels(b), i);
    }
  }

  function Tallied(counts: map<string, Cell>, k: string): Cell {
    if k in counts then counts[k] else Num(0)
  }

  function Plus(a: Cell, b: Cell): Cell {
    if a.Num? && b.Num? then Num(a.n + b.n) else Garbled
  }

  lemma BagAdds(a: multiset<string>, b: multiset<string>, k: string, inherited: set<string>)
    ensures Tallied(TallyOf(a + b, inherited), k)
         == Plus(Tallied(TallyOf(a, inherited), k), Tallied(TallyOf(b, inherited), k))
    ensures k in TallyOf(a + b, inherited) <==> k in TallyOf(a, inherited) || k in TallyOf(b, inherited)
  {
  }

  /** The tally of the rows of two pages, taken in any order, adds the tallies of the pages. */
  lemma TallyAdds(a: seq<Option<string>>, b: seq<Option<string>>, all: seq<Option<string>>, inherited: set<string>,
                  k: string)
    requires multiset(all) == multiset(a + b)
    ensures var ta, tb := TallyOf(multiset(Labels(a)), inherited), TallyOf(multiset(Labels(b)), inherited);
            var whole := TallyOf(multiset(Labels(all)), inherited);
            && (k in whole <==> k in ta || k in tb)
            && Tallied(whole, k) == Plus(Tallied(ta, k), Tallied(tb, k))
  {
    LabelsPermute(all, a + b);
    assert Labels(a + b) == Labels(a) + Labels(b);
    BagAdds(multiset(Labels(a)), multiset(Labels(b)), k, inherited);
  }

  function Present(values: seq<string>): seq<Option<string>> {
    seq(|values|, i requires 0 <= i < |values| => Some(values[i]))
  }

  function Numbered(m: map<string, nat>): map<string, Cell> {
    map k | k in m :: Num(m[k])
  }

  /** Over the same rows, the client's counts of a non-null column are the server's GROUP BY counts exactly
      when no value is empty and none names an inherited property. */
  lemma TallyMatchesGroupByIff(values: seq<string>, rows: seq<Row<string>>, inherited: set<string>)
    requires IsGroupBy(multiset(values), rows)
    ensures TallyOf(multiset(Labels(Present(values))), inherited) == Numbered(DictOf(rows))
       <==> (forall v :: v in values ==> v != "" && v !in inherited)
  {
    if forall v :: v in values ==> v != "" && v !in inherited {
      forall i | 0 <= i < |values| ensures Labels(Present(values))[i] == values[i] {
        assert values[i] in values;
      }
      assert Labels(Present(values)) == values;
      TallyHits(multiset(values), rows, inherited);
    } else {
      var v :| v in values && (v == "" || v in inherited);
      TallyMisses(values, v, inherited);
      ServerCounts(values, rows, v);
    }
  }

  /** An alert of category `constructor`, a property that every object inherits: the client's count of it is
      no number. */
  lemma ConstructorIsMiscounted(rows: seq<Row<string>>, inherited: set<string>)
    requires IsGroupBy(multiset(["constructor"]), rows) && "constructor" in inherited
    ensures TallyOf(multiset(Labels(Present(["constructor"]))), inherited) != Numbered(DictOf(rows))
  {
    var values := ["constructor"];
    assert values[0] in values;
    TallyMatchesGroupByIff(values, rows, inherited);
  }

  lemma ServerCounts(values: seq<string>, rows: seq<Row<string>>, v: string)
    requires IsGroupBy(multiset(values), rows) && v in values
    ensures v in Numbered(DictOf(rows)) && Numbered(DictOf(rows))[v].Num?
  {
    GroupByDict(multiset(values), rows);
    assert v in multiset(values);
  }

  lemma TallyHits(labels: multiset<string>, rows: seq<Row<string>>, inherited: set<string>)
    requires IsGroupBy(labels, rows) && forall v :: v in labels ==> v !in inherited
    ensures TallyOf(labels, inherited) == Numbered(DictOf(rows))
  {
    GroupByDict(labels, rows);
  }

  lemma TallyMisses(values: seq<string>, v: string, inherited: set<string>)
    requires v in values && (v == "" || v in inherited)
    ensures var tally := TallyOf(multiset(Labels(Present(values))), inherited);
            v !in tally || tally[v] == Garbled
  {
    var labels := Labels(Present(values));
    if v == "" {
      assert forall i :: 0 <= i < |labels| ==> labels[i] != "";
      assert "" !in labels;
    }
  }

  // ---------------------------------------------------------------- the client's tally of the nullable column

  /** No other value present shows under this value's label. */
  ghost predicate OwnLabel(values: seq<Option<string>>, v: Option<string>) {
    forall u :: u in values && u != v ==> Label(u) != Label(v)
  }

  lemma {:induction false} LabelCount(values: seq<Option<string>>, v: Option<string>)
    requires OwnLabel(values, v)
    ensures multiset(Labels(values))[Label(v)] == multiset(values)[v]
  {
    if values == [] {
    } else {
      var n := |values| - 1;
      assert values == values[..n] + [values[n]] && values[n] in values;
      LabelCount(values[..n], v);
      LabelsNext(values, n);
      assert values[..n + 1] == values;
    }
  }

  /** NULL and the text `unknown` are counted together. */
  lemma {:induction false} UnknownCount(values: seq<Option<string>>)
    ensures multiset(Labels(values))["unknown"] >= multiset(values)[None] + multiset(values)[Some("unknown")]
  {
    if values == [] {
    } else {
      var n := |values| - 1;
      assert values == values[..n] + [values[n]];
      UnknownCount(values[..n]);
      LabelsNext(values, n);
      assert values[..n + 1] == values;
    }
  }

  /** No value is empty, and NULL and the text `unknown` do not both occur. */
  ghost predicate Unmixed(values: seq<Option<string>>) {
    Some("") !in values && !(None in values && Some("unknown") in values)
  }

  lemma LabelIsCoalesced(values: seq<Option<string>>, v: Option<string>)
    requires Unmixed(values) && v in values
    ensures Label(v) == Coalesce(v) && OwnLabel(values, v)
  {
    forall u | u in values && u != v ensures Label(u) != Label(v) {
      SameAfterCoalesce(u, v);
      assert {u, v} == {None, Some("unknown")} ==> None in {u, v} && Some("unknown") in {u, v};
    }
  }

  /** The server's coalesced groups are then the groups of the client's labels. */
  lemma LabelsGrouped(values: seq<Option<string>>, rows: seq<Row<Option<string>>>)
    requires IsGroupBy(multiset(values), rows) && Unmixed(values)
    ensures IsGroupBy(multiset(Labels(values)), Coalesced(rows))
  {
    var labels, dict := Labels(values), Coalesced(rows);
    CoalescedDistinctIff(multiset(values), rows);
    forall i | 0 <= i < |dict| ensures dict[i].count == multiset(labels)[dict[i].key] > 0 {
      assert rows[i].key in multiset(values);
      LabelIsCoalesced(values, rows[i].key);
      LabelCount(values, rows[i].key);
    }
    forall k | k in multiset(labels) ensures exists i :: 0 <= i < |dict| && dict[i].key == k {
      var p :| 0 <= p < |labels| && labels[p] == k;
      assert values[p] in values && values[p] in multiset(values);
      LabelIsCoalesced(values, values[p]);
      var i :| 0 <= i < |rows| && rows[i].key == values[p];
      assert dict[i].key == k;
    }
  }

  /** What the dict shows under a key is the count of the last row with that key. */
  lemma {:induction false} DictFromRow(rows: seq<Row<string>>, k: string) returns (i: nat)
    requires k in DictOf(rows)
    ensures i < |rows| && rows[i] == Row(k, DictOf(rows)[k])
    ensures forall j :: i < j < |rows| ==> rows[j].key != k
  {
    if rows[|rows| - 1].key == k {
      i := |rows| - 1;
    } else {
      i := DictFromRow(rows[..|rows| - 1], k);
    }
  }

  lemma CoalescedKeys(values: seq<Option<string>>, rows: seq<Row<Option<string>>>, v: Option<string>)
    requires IsGroupBy(multiset(values), rows) && v in values
    ensures Coalesce(v) in DictOf(Coalesced(rows))
  {
    DictKeys(Coalesced(rows));
    assert v in multiset(values);
    var i :| 0 <= i < |rows| && rows[i].key == v;
    assert Coalesced(rows)[i].key == Coalesce(v);
  }

  lemma CountDiffers(labels: multiset<string>, dict: map<string, nat>, k: string, inherited: set<string>)
    requires k in dict && labels[k] != dict[k]
    ensures TallyOf(labels, inherited) != Numbered(dict)
  {
    assert Numbered(dict)[k] == Num(dict[k]);
  }

  lemma MixedDiffers(values: seq<Option<string>>, rows: seq<Row<Option<string>>>, inherited: set<string>)
    requires IsGroupBy(multiset(values), rows) && !Unmixed(values)
    ensures TallyOf(multiset(Labels(values)), inherited) != Numbered(DictOf(Coalesced(rows)))
  {
    var labels, dict := Labels(values), DictOf(Coalesced(rows));
    if Some("") in values {
      CoalescedKeys(values, rows, Some(""));
      assert forall i :: 0 <= i < |labels| ==> labels[i] != "";
      DictKeys(Coalesced(rows));
      CountDiffers(multiset(labels), dict, "", inherited);
    } else {
      CoalescedKeys(values, rows, None);
      var i := DictFromRow(Coalesced(rows), "unknown");
      assert rows[i].key == None || rows[i].key == Some("unknown");
      UnknownCount(values);
      assert None in multiset(values) && Some("unknown") in multiset(values);
      CountDiffers(multiset(labels), dict, "unknown", inherited);
    }
  }

  lemma InheritedDiffers(values: seq<Option<string>>, rows: seq<Row<Option<string>>>, v: Option<string>,
                         inherited: set<string>)
    requires v in values && Label(v) in inherited
    ensures TallyOf(multiset(Labels(values)), inherited) != Numbered(DictOf(Coalesced(rows)))
  {
    var p :| 0 <= p < |values| && values[p] == v;
    assert Labels(values)[p] == Label(v);
    assert TallyOf(multiset(Labels(values)), inherited)[Label(v)] == Garbled;
  }

  /** Over the same rows, the client's counts of the sources are the server's coalesced GROUP BY counts exactly
      when no source is empty, none has a label that names an inherited property, and NULL and the text
      `unknown` do not both occur. */
  lemma SourceTallyIff(values: seq<Option<string>>, rows: seq<Row<Option<string>>>, inherited: set<string>)
    requires IsGroupBy(multiset(values), rows)
    ensures TallyOf(multiset(Labels(values)), inherited) == Numbered(DictOf(Coalesced(rows)))
       <==> Unmixed(values) && forall v :: v in values ==> Label(v) !in inherited
  {
    if !Unmixed(values) {
      MixedDiffers(values, rows, inherited);
    } else if v :| v in values && Label(v) in inherited {
      InheritedDiffers(values, rows, v, inherited);
    } else {
      LabelsGrouped(values, rows);
      TallyHits(multiset(Labels(values)), Coalesced(rows), inherited);
    }
  }

  // ---------------------------------------------------------------- the fetched page

  /** The values at the given positions. */
  function Picked<T>(xs: seq<T>, order: seq<nat>): seq<T>
    requires forall i :: 0 <= i < |order| ==> order[i] < |xs|
  {
    seq(|order|, i requires 0 <= i < |order| => xs[order[i]])
  }

  ghost predicate Covers(order: seq<nat>, n: nat) {
    && |order| == n
    && (forall i, j :: 0 <= i < j < |order| ==> order[i] != order[j])
    && (forall i :: 0 <= i < |order| ==> order[i] < n)
    && (forall p: nat :: p < n ==> p in order)
  }

  /** Without its last position, a permutation still covers the others. */
  lemma CoversFewer(order: seq<nat>, n: nat) returns (j: nat)
    requires Covers(order, n + 1)
    ensures j < |order| && order[j] == n && Covers(order[..j] + order[j + 1..], n)
  {
    assert n in order;
    j :| 0 <= j < |order| && order[j] == n;
    var fewer := order[..j] + order[j + 1..];
    forall p: nat | p < n ensures p in fewer {
      assert p in order;
      var i :| 0 <= i < |order| && order[i] == p;
      assert fewer[if i < j then i else i - 1] == p;
    }
  }

  lemma {:induction false} PermutedMultiset<T>(xs: seq<T>, order: seq<nat>)
    requires Covers(order, |xs|)
    ensures multiset(Picked(xs, order)) == multiset(xs)
  {
    if xs == [] {
    } else {
      var n := |xs| - 1;
      var j := CoversFewer(order, n);
      var fewer := order[..j] + order[j + 1..];
      PermutedMultiset(xs[..n], fewer);
      assert Picked(xs[..n], fewer) == Picked(xs, order)[..j] + Picked(xs, order)[j + 1..];
      BagWithout(Picked(xs, order), j);
      assert xs == xs[..n] + [xs[n]];
    }
  }

  /** Over an unfiltered first page of 500 that covers the whole table, whatever ordering the database chose
      for it, the client's counts of a column are the server's exactly when no value in the table is empty
      or names an inherited property. */
  lemma ChartsAgreeIff(f: Option<Fernet>, table: seq<Alert>, d: Dimension, order: seq<nat>, rows: seq<Row<string>>,
                       inherited: set<string>)
    requires |table| <= 500 && IsGroupBy(multiset(Column(table, d)), rows)
    requires Paging.Permitted(Paging.KeysOf(table), AlertList.Matching(table, []), order)
    ensures var page := AlertList.Respond(f, table, order, |table|, 1, 500).alerts;
            TallyOf(multiset(Labels(Present(Column(page, d)))), inherited) == Numbered(DictOf(rows))
            <==> (forall a :: a in table ==> Value(a, d) != "" && Value(a, d) !in inherited)
  {
    WholeTable(table, order);
    PermutedMultiset(Column(table, d), order);
    var page := AlertList.Rows(f, table, order);
    assert Column(page, d) == Picked(Column(table, d), order);
    TallyMatchesGroupByIff(Column(page, d), rows, inherited);
    SameValues(table, page, d, inherited);
  }

  lemma SameValues(table: seq<Alert>, page: seq<Alert>, d: Dimension, inherited: set<string>)
    requires multiset(Column(page, d)) == multiset(Column(table, d))
    ensures (forall v :: v in Column(page, d) ==> v != "" && v !in inherited)
       <==> (forall a :: a in table ==> Value(a, d) != "" && Value(a, d) !in inherited)
  {
    forall v ensures v in Column(page, d) <==> v in Column(table, d) {
      assert v in multiset(Column(page, d)) <==> v in multiset(Column(table, d));
    }
    forall a | a in table ensures Value(a, d) in Column(table, d) {
      var i :| 0 <= i < |table| && table[i] == a;
      assert Column(table, d)[i] == Value(a, d);
    }
    forall v | v in Column(table, d) ensures exists a :: a in table && Value(a, d) == v {
      var i :| 0 <= i < |table| && Column(table, d)[i] == v;
      assert table[i] in table;
    }
  }

  /** The same for the sources, where NULL and the text `unknown` must not both occur in the table. */
  lemma SourceChartsAgreeIff(f: Option<Fernet>, table: seq<Alert>, order: seq<nat>, rows: seq<Row<Option<string>>>,
                             inherited: set<string>)
    requires |table| <= 500 && IsGroupBy(multiset(Sources(table)), rows)
    requires Paging.Permitted(Paging.KeysOf(table), AlertList.Matching(table, []), order)
    ensures var page := AlertList.Respond(f, table, order, |table|, 1, 500).alerts;
            TallyOf(multiset(Labels(Sources(page))), inherited) == Numbered(DictOf(Coalesced(rows)))
            <==> Unmixed(Sources(table)) && forall v :: v in Sources(table) ==> Label(v) !in inherited
  {
    WholeTable(table, order);
    PermutedMultiset(Sources(table), order);
    var page := AlertList.Rows(f, table, order);
    assert Sources(page) == Picked(Sources(table), order);
    SourceTallyIff(Sources(page), rows, inherited);
    forall v ensures v in Sources(page) <==> v in Sources(table) {
      assert v in multiset(Sources(page)) <==> v in multiset(Sources(table));
    }
  }

  const SEVERITIES := {"CRITICAL", "HIGH", "MEDIUM", "LOW"}

  /** For severity the CHECK sees to it: in every state the interleavings reach, the client's severity chart
      is the server's, since no object inherits a property of one of the four names. */
  lemma SeverityChartAgrees(steps: seq<Interleaving.Step>, f: Option<Fernet>, table: seq<Alert>, order: seq<nat>,
                            rows: seq<Row<string>>, inherited: set<string>)
    requires IsTable(Interleaving.Run(Interleaving.START, steps).db, table) && |table| <= 500
    requires IsGroupBy(multiset(Column(table, SeverityLevel)), rows) && inherited !! SEVERITIES
    requires Paging.Permitted(Paging.KeysOf(table), AlertList.Matching(table, []), order)
    ensures var page := AlertList.Respond(f, table, order, |table|, 1, 500).alerts;
            TallyOf(multiset(Labels(Present(Column(page, SeverityLevel)))), inherited) == Numbered(DictOf(rows))
  {
    ListedSeverities(steps, table);
    forall a | a in table ensures Value(a, SeverityLevel) != "" && Value(a, SeverityLevel) !in inherited {
      SeverityIsListed(a);
    }
    ChartsAgreeIff(f, table, SeverityLevel, order, rows, inherited);
  }

  lemma SeverityIsListed(a: Alert)
    requires !a.severity.Unlisted?
    ensures Value(a, SeverityLevel) in SEVERITIES && Value(a, SeverityLevel) != ""
  {
    assert |"CRITICAL"| == 8 && |"HIGH"| == 4 && |"MEDIUM"| == 6 && |"LOW"| == 3;
  }

  /** With no filter and room for every row, the first page is an ordering of the whole table. */
  lemma WholeTable(table: seq<Alert>, order: seq<nat>)
    requires |table| <= 500 && Paging.Permitted(Paging.KeysOf(table), AlertList.Matching(table, []), order)
    ensures Covers(order, |table|) && Paging.Page(order, 1, 500) == order
  {
    Paging.PermittedLength(Paging.KeysOf(table), AlertList.Matching(table, []), order);
    AllMatch(table);
    forall p: nat | p < |table| ensures p in order {
      assert p in AlertList.Matching(table, []);
    }
  }

  lemma AllMatch(table: seq<Alert>)
    ensures |AlertList.Matching(table, [])| == |table|
  {
    var all := seq(|table|, i => i);
    Paging.DistinctCardinality(all);
    assert Paging.Elements(all) == AlertList.Matching(table, []) by {
      forall p: nat ensures p in Paging.Elements(all) <==> p in AlertList.Matching(table, []) {
        if p < |table| { assert all[p] == p; }
      }
    }
  }
}
