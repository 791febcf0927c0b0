/** What the missing re-check in api_classify costs: two analysts can triage one alert. */
module Races {
  import opened Common
  import opened Schema
  import opened Transactions
  import opened Interleaving
  import Lifecycle

  ghost predicate AtMostOneTriage(db: Db) {
    forall id :: id in db.alerts ==> |ActionsOf(db, id)| <= 1
  }

  /** The step at which a classification becomes visible. */
  ghost predicate Commits(w: World, step: Step) {
    step.By? && step.does.Commit? && step.sid in w.sessions && w.sessions[step.sid].HasAudit?
  }

  ghost predicate IsOpen(db: Db, id: nat) {
    id in db.alerts && db.alerts[id].status == Open
  }

  /** The status that a COMMIT overwrites is still `open`. */
  ghost predicate FindsOpen(w: World, step: Step) {
    Commits(w, step) ==> IsOpen(w.db, w.sessions[step.sid].seen.id)
  }

  /** A committing classification adds one action row, to its own alert; that alert had none exactly
      when it was still open. */
  lemma CommitCounts(db: Db, s: Session)
    requires s.HasAudit? && SessionOk(s, db) && Paired(db, s.seen.id)
    ensures var id, db' := s.seen.id, Written(db, s);
            && db'.alerts.Keys == db.alerts.Keys
            && |ActionsOf(db', id)| == |ActionsOf(db, id)| + 1
            && (ActionsOf(db, id) == [] <==> db.alerts[id].status == Open)
            && forall a :: a in db.alerts && a != id ==> ActionsOf(db', a) == ActionsOf(db, a)
  {
    var db' := Written(db, s);
    TriageHistory(db, s.seen.id, s.seen.status, s.triage, Some(s.seconds), s.actionId, s.auditId);
    forall a | a in db.alerts && a != s.seen.id ensures ActionsOf(db', a) == ActionsOf(db, a) {
      assert SameHistory(db, db', a);
    }
  }

  lemma DrawsCount(db: Db, db': Db)
    requires AtMostOneTriage(db) && DrawsOnly(db, db')
    ensures AtMostOneTriage(db')
  {
    forall id | id in db'.alerts ensures |ActionsOf(db', id)| <= 1 {
      DrawsKeepTriages(db, db', id);
    }
  }

  lemma OtherCommitsCount(db: Db, s: Session)
    requires Sound(db) && SessionOk(s, db) && AtMostOneTriage(db) && !s.HasAudit?
    ensures AtMostOneTriage(Written(db, s))
  {
    match s
    case Inserting(alert) => AlertHistory(db, alert);
    case NoteWritten(_, _, _, _, _, auditId) => NoteHistory(db, NoteRow(s), auditId);
    case Deleting(dead) => RemoveHistory(db, dead);
    case _ =>
  }

  lemma OtherStepsCount(w: World, step: Step)
    requires Sound(w.db) && AllOk(w) && AtMostOneTriage(w.db) && !Commits(w, step)
    ensures AtMostOneTriage(Apply(w, step).db)
  {
    match step
    case Embed(_, _) =>
    case Failed(drawn) => BurnHistory(w.db, drawn);
    case By(sid, does) =>
      if DrawsOnly(w.db, Apply(w, step).db) {
        DrawsCount(w.db, Apply(w, step).db);
      } else {
        StatementWrites(w, does, sid);
        OtherCommitsCount(w.db, w.sessions[sid]);
      }
  }

  lemma OpenCommitKeepsSingle(w: World, sid: nat)
    requires Inv(w) && AtMostOneTriage(w.db) && sid in w.sessions && w.sessions[sid].HasAudit?
    requires IsOpen(w.db, w.sessions[sid].seen.id)
    ensures AtMostOneTriage(Written(w.db, w.sessions[sid]))
  {
    var s := w.sessions[sid];
    assert SessionOk(s, w.db) && Paired(w.db, s.seen.id);
    CommitCounts(w.db, s);
  }

  lemma OpenStepKeepsSingle(w: World, step: Step)
    requires Inv(w) && AtMostOneTriage(w.db) && FindsOpen(w, step)
    ensures AtMostOneTriage(Apply(w, step).db)
  {
    if Commits(w, step) {
      CommitRuns(w, step.sid);
      OpenCommitKeepsSingle(w, step.sid);
    } else {
      OtherStepsCount(w, step);
    }
  }

  lemma SingleFindsOpen(w: World, step: Step)
    requires Inv(w) && AtMostOneTriage(Apply(w, step).db)
    ensures FindsOpen(w, step)
  {
    if Commits(w, step) {
      var s := w.sessions[step.sid];
      CommitRuns(w, step.sid);
      assert SessionOk(s, w.db) && Paired(w.db, s.seen.id);
      CommitCounts(w.db, s);
      assert |ActionsOf(Written(w.db, s), s.seen.id)| <= 1;
    }
  }

  lemma {:induction false} OpenCommitsKeepSingle(steps: seq<Step>, k: nat)
    requires k <= |steps|
    requires forall i :: 0 <= i < |steps| ==> FindsOpen(Run(START, steps[..i]), steps[i])
    ensures AtMostOneTriage(Run(START, steps[..k]).db)
  {
    if k == 0 {
    } else {
      OpenCommitsKeepSingle(steps, k - 1);
      RunsKeepInv(START, steps[..k - 1]);
      RunStep(START, steps, k - 1);
      OpenStepKeepsSingle(Run(START, steps[..k - 1]), steps[k - 1]);
    }
  }

  ghost predicate AlwaysSingle(steps: seq<Step>) {
    forall k :: 0 <= k <= |steps| ==> AtMostOneTriage(Run(START, steps[..k]).db)
  }

  /** Over a whole run, no alert ever carries two triages exactly when every classification that
      commits finds its alert still open. */
  lemma SingleTriageIff(steps: seq<Step>)
    ensures AlwaysSingle(steps) <==> (forall k :: 0 <= k < |steps| ==> FindsOpen(Run(START, steps[..k]), steps[k]))
  {
    if AlwaysSingle(steps) {
      forall k | 0 <= k < |steps| ensures FindsOpen(Run(START, steps[..k]), steps[k]) {
        RunsKeepInv(START, steps[..k]);
        RunStep(START, steps, k);
        assert AtMostOneTriage(Run(START, steps[..k]).db) && AtMostOneTriage(Run(START, steps[..k + 1]).db);
        SingleFindsOpen(Run(START, steps[..k]), steps[k]);
      }
    }
    if forall k :: 0 <= k < |steps| ==> FindsOpen(Run(START, steps[..k]), steps[k]) {
      forall k | 0 <= k <= |steps| ensures AtMostOneTriage(Run(START, steps[..k]).db) {
        OpenCommitsKeepSingle(steps, k);
      }
    }
  }

  // ---------------------------------------------------------------- the re-check belongs at the UPDATE

  /** Step k is the UPDATE by which the session that holds the row at time i took its lock. */
  ghost predicate TakesLock(steps: seq<Step>, k: nat, i: nat, sid: nat, id: nat)
    requires k < i <= |steps|
  {
    && steps[k] == By(sid, Update)
    && sid in Run(START, steps[..k]).sessions && Run(START, steps[..k]).sessions[sid].HasRead?
    && forall j :: k < j <= i ==> HoldsIn(Run(START, steps[..j]), sid, id)
  }

  lemma LockBegins(w: World, step: Step, sid: nat, id: nat)
    requires HoldsIn(Apply(w, step), sid, id) && !HoldsIn(w, sid, id)
    ensures step == By(sid, Update) && sid in w.sessions && w.sessions[sid].HasRead? && Apply(w, step).db == w.db
  {
  }

  lemma LockTaken(steps: seq<Step>, k: nat, sid: nat, id: nat)
    requires k < |steps| && HoldsIn(Run(START, steps[..k + 1]), sid, id) && !HoldsIn(Run(START, steps[..k]), sid, id)
    ensures TakesLock(steps, k, k + 1, sid, id)
  {
    RunStep(START, steps, k);
    LockBegins(Run(START, steps[..k]), steps[k], sid, id);
  }

  /** Every row lock was taken by an UPDATE of the run. */
  lemma {:induction false} LockedSince(steps: seq<Step>, i: nat, sid: nat, id: nat) returns (k: nat)
    requires i <= |steps| && HoldsIn(Run(START, steps[..i]), sid, id)
    ensures k < i && TakesLock(steps, k, i, sid, id)
  {
    if i == 0 {
      assert false;
    } else if HoldsIn(Run(START, steps[..i - 1]), sid, id) {
      k := LockedSince(steps, i - 1, sid, id);
    } else {
      k := i - 1;
      LockTaken(steps, k, sid, id);
    }
  }

  lemma UpdateIsPrivate(w: World, sid: nat)
    ensures Apply(w, By(sid, Update)).db == w.db
  {
  }

  /** A classification's UPDATE is not to be seen before its COMMIT: for as long as its transaction holds the
      row, the tables show the alert and its classifications as they were before the UPDATE. */
  lemma UpdateIsInvisible(steps: seq<Step>, k: nat, i: nat, sid: nat, id: nat)
    requires k < i <= |steps| && TakesLock(steps, k, i, sid, id)
    ensures SameTriages(Run(START, steps[..k]).db, Run(START, steps[..i]).db, id)
  {
    assert forall j :: k + 1 <= j <= i ==> HoldsIn(Run(START, steps[..j]), sid, id);
    LockIsStable(steps, k + 1, i, sid, id);
    RunStep(START, steps, k);
    UpdateIsPrivate(Run(START, steps[..k]), sid);
  }

  lemma OpenSinceUpdate(steps: seq<Step>, k: nat, i: nat, sid: nat, id: nat)
    requires k < i <= |steps| && TakesLock(steps, k, i, sid, id)
    ensures IsOpen(Run(START, steps[..k]).db, id) <==> IsOpen(Run(START, steps[..i]).db, id)
  {
    UpdateIsInvisible(steps, k, i, sid, id);
  }

  /** Every UPDATE of a classification that goes on to commit would have passed a test `status = 'open'`. */
  ghost predicate UpdatesFindOpen(steps: seq<Step>) {
    forall k, i :: 0 <= k < i < |steps| && Commits(Run(START, steps[..i]), steps[i])
      && TakesLock(steps, k, i, steps[i].sid, Run(START, steps[..i]).sessions[steps[i].sid].seen.id)
      ==> IsOpen(Run(START, steps[..k]).db, Run(START, steps[..i]).sessions[steps[i].sid].seen.id)
  }

  /** Over a whole run, no alert ever carries two triages exactly when every UPDATE that takes effect finds
      the status `open`: because the row lock then holds to COMMIT, testing it there is all that is missing. */
  lemma RecheckAtUpdateIff(steps: seq<Step>)
    ensures AlwaysSingle(steps) <==> UpdatesFindOpen(steps)
  {
    SingleTriageIff(steps);
    if UpdatesFindOpen(steps) {
      forall i | 0 <= i < |steps| ensures FindsOpen(Run(START, steps[..i]), steps[i]) {
        var w := Run(START, steps[..i]);
        if Commits(w, steps[i]) {
          var id := w.sessions[steps[i].sid].seen.id;
          var k := LockedSince(steps, i, steps[i].sid, id);
          OpenSinceUpdate(steps, k, i, steps[i].sid, id);
        }
      }
    }
    if AlwaysSingle(steps) {
      forall k, i | 0 <= k < i < |steps| && Commits(Run(START, steps[..i]), steps[i])
        && TakesLock(steps, k, i, steps[i].sid, Run(START, steps[..i]).sessions[steps[i].sid].seen.id)
        ensures IsOpen(Run(START, steps[..k]).db, Run(START, steps[..i]).sessions[steps[i].sid].seen.id)
      {
        assert FindsOpen(Run(START, steps[..i]), steps[i]);
        OpenSinceUpdate(steps, k, i, steps[i].sid, Run(START, steps[..i]).sessions[steps[i].sid].seen.id);
      }
    }
  }

  // ---------------------------------------------------------------- the race

  function FirstAlert(n: NewAlert): Db { InsertAlertDb(EMPTY_DB, n, 0) }

  /** Sessions 1 and 2 begin, in the order of the clock. */
  function BothBegin(t1: Micros, t2: Micros): seq<Step> {
    if t1 < t2 then [By(1, Begin(t1)), By(2, Begin(t2))] else [By(2, Begin(t2)), By(1, Begin(t1))]
  }

  /** A new alert, and two sessions that have begun. */
  function Setting(n: NewAlert, t1: Micros, t2: Micros): seq<Step> {
    Inserts(0, n, 0) + BothBegin(t1, t2)
  }

  lemma SettingRuns(n: NewAlert, t1: Micros, t2: Micros)
    requires !n.severity.Unlisted?
    ensures Run(START, Setting(n, t1, t2)) == World(FirstAlert(n), map[1 := Begun(t1), 2 := Begun(t2)])
  {
    RunAppend(START, Inserts(0, n, 0), BothBegin(t1, t2));
    InsertRuns(START, 0, n, 0);
    var w := World(FirstAlert(n), map[]);
    RunTwo(w, By(1, Begin(t1)), By(2, Begin(t2)));
    RunTwo(w, By(2, Begin(t2)), By(1, Begin(t1)));
    assert Apply(w, By(1, Begin(t1))) == World(FirstAlert(n), map[1 := Begun(t1)]);
    assert Apply(w, By(2, Begin(t2))) == World(FirstAlert(n), map[2 := Begun(t2)]);
  }

  /** What a SELECT of the new alert leaves in a session. */
  function Sighting(n: NewAlert, does: Statement, now: Micros): Session
    requires (does.ReadAlert? || does.ReadForNote?) && does.id == 0
  {
    if does.ReadAlert? then HasRead(OpenAlert(0, n, 0), TriageRequest(does.analyst, does.action, does.user, now))
    else NoteRead(0, Open, does.user, does.text, now)
  }

  lemma SightingRuns(n: NewAlert, does: Statement, now: Micros)
    requires !n.severity.Unlisted? && (does.ReadAlert? || does.ReadForNote?) && does.id == 0
    ensures First(FirstAlert(n), does, now) == Outcome(FirstAlert(n), Some(Sighting(n, does, now)))
  {
  }

  lemma ReadRuns(n: NewAlert, w: World, sid: nat, does: Statement, now: Micros)
    requires !n.severity.Unlisted? && (does.ReadAlert? || does.ReadForNote?) && does.id == 0
    requires w.db == FirstAlert(n) && sid in w.sessions && w.sessions[sid] == Begun(now)
    ensures Apply(w, By(sid, does)) == World(FirstAlert(n), w.sessions[sid := Sighting(n, does, now)])
  {
    SightingRuns(n, does, now);
  }

  /** Both sessions read the alert while it is open. */
  function BothRead(n: NewAlert, t1: Micros, a: Statement, t2: Micros, b: Statement): seq<Step> {
    Setting(n, t1, t2) + [By(1, a), By(2, b)]
  }

  lemma ReadsRun(n: NewAlert, t1: Micros, a: Statement, t2: Micros, b: Statement)
    requires !n.severity.Unlisted?
    requires (a.ReadAlert? || a.ReadForNote?) && a.id == 0 && (b.ReadAlert? || b.ReadForNote?) && b.id == 0
    ensures Run(World(FirstAlert(n), map[1 := Begun(t1), 2 := Begun(t2)]), [By(1, a), By(2, b)])
         == World(FirstAlert(n), map[1 := Sighting(n, a, t1), 2 := Sighting(n, b, t2)])
  {
    var w := World(FirstAlert(n), map[1 := Begun(t1), 2 := Begun(t2)]);
    RunTwo(w, By(1, a), By(2, b));
    ReadRuns(n, w, 1, a, t1);
    var w1 := World(FirstAlert(n), map[1 := Sighting(n, a, t1), 2 := Begun(t2)]);
    assert Apply(w, By(1, a)) == w1;
    ReadRuns(n, w1, 2, b, t2);
  }

  lemma BothReadRuns(n: NewAlert, t1: Micros, a: Statement, t2: Micros, b: Statement)
    requires !n.severity.Unlisted?
    requires (a.ReadAlert? || a.ReadForNote?) && a.id == 0 && (b.ReadAlert? || b.ReadForNote?) && b.id == 0
    ensures Run(START, BothRead(n, t1, a, t2, b))
         == World(FirstAlert(n), map[1 := Sighting(n, a, t1), 2 := Sighting(n, b, t2)])
  {
    SettingRuns(n, t1, t2);
    RunAppend(START, Setting(n, t1, t2), [By(1, a), By(2, b)]);
    ReadsRun(n, t1, a, t2, b);
  }

  function Race(n: NewAlert, first: TriageRequest, second: TriageRequest): seq<Step> {
    BothRead(n, first.now, Reads(0, first), second.now, Reads(0, second)) + Rest(1) + Rest(2)
  }

  lemma RaceRuns(n: NewAlert, first: TriageRequest, second: TriageRequest)
    requires !n.severity.Unlisted? && FitsInt4(RoundedSeconds(first.now)) && FitsInt4(RoundedSeconds(second.now))
    ensures Run(START, Race(n, first, second)).db
         == TriageDb(TriageDb(FirstAlert(n), 0, Open, first, ResponseTime(0, first.now)),
                     0, Open, second, ResponseTime(0, second.now))
  {
    var opening := BothRead(n, first.now, Reads(0, first), second.now, Reads(0, second));
    BothReadRuns(n, first.now, Reads(0, first), second.now, Reads(0, second));
    var w1 := Run(START, opening);
    RestRuns(w1, 1);
    var w2 := Run(w1, Rest(1));
    assert w2.sessions == map[2 := HasRead(OpenAlert(0, n, 0), second)];
    RestRuns(w2, 2);
    RunAppend(START, opening, Rest(1));
    RunAppend(START, opening + Rest(1), Rest(2));
  }

  lemma OneMoreTriage(db: Db, t: TriageRequest, seconds: Option<int>, acts: seq<ActionRow>, rows: seq<AuditRow>)
    requires 0 in db.alerts && ActionsOf(db, 0) == acts && AuditOf(db, 0) == rows
    ensures var db' := TriageDb(db, 0, Open, t, seconds);
            && 0 in db'.alerts && db'.alerts[0].status == ToStatus(t.action)
            && ActionsOf(db', 0) == acts + [TriageAction(0, t, seconds)]
            && AuditOf(db', 0) == rows + [TriageAudit(0, Open, t)]
  {
    WholeTriageHistory(db, 0, Open, t, seconds);
  }

  lemma TwoTriages(db: Db, first: TriageRequest, second: TriageRequest, s1: Option<int>, s2: Option<int>)
    requires 0 in db.alerts && ActionsOf(db, 0) == [] && AuditOf(db, 0) == []
    ensures var db' := TriageDb(TriageDb(db, 0, Open, first, s1), 0, Open, second, s2);
            && 0 in db'.alerts && db'.alerts[0].status == ToStatus(second.action)
            && ActionsOf(db', 0) == [TriageAction(0, first, s1), TriageAction(0, second, s2)]
            && AuditOf(db', 0) == [TriageAudit(0, Open, first), TriageAudit(0, Open, second)]
  {
    OneMoreTriage(db, first, s1, [], []);
    OneMoreTriage(TriageDb(db, 0, Open, first, s1), second, s2, [TriageAction(0, first, s1)],
                  [TriageAudit(0, Open, first)]);
  }

  lemma EndsDouble(steps: seq<Step>, id: nat)
    requires id in Run(START, steps).db.alerts && |ActionsOf(Run(START, steps).db, id)| > 1
    ensures !AlwaysSingle(steps)
  {
    assert steps[..|steps|] == steps;
    assert !AtMostOneTriage(Run(START, steps[..|steps|]).db);
  }

  /** Two analysts who both read the alert while it was open: the race leaves two triages on one alert, both
      audited as made from `open`, and the alert shows the second verdict only. */
  lemma RaceTriagesTwice(n: NewAlert, first: TriageRequest, second: TriageRequest)
    requires !n.severity.Unlisted? && FitsInt4(RoundedSeconds(first.now)) && FitsInt4(RoundedSeconds(second.now))
    ensures var db := Run(START, Race(n, first, second)).db;
            && 0 in db.alerts && db.alerts[0].status == ToStatus(second.action)
            && ActionsOf(db, 0) == [TriageAction(0, first, ResponseTime(0, first.now)),
                                    TriageAction(0, second, ResponseTime(0, second.now))]
            && AuditOf(db, 0) == [TriageAudit(0, Open, first), TriageAudit(0, Open, second)]
            && !AlwaysSingle(Race(n, first, second))
  {
    RaceRuns(n, first, second);
    Lifecycle.InsertHistory(EMPTY_DB, n, 0);
    TwoTriages(FirstAlert(n), first, second, ResponseTime(0, first.now), ResponseTime(0, second.now));
    EndsDouble(Race(n, first, second), 0);
  }
}
