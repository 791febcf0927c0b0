/** The audit trail as /api/alerts/<id>/audit serves it: an alert's audit rows in the order of created_at,
    the time their transactions began. When is it an unbroken path of statuses? */
module AuditTrail {
  import opened Common
  import opened Schema
  import opened Tables
  import opened Transactions
  import opened Interleaving
  import Crypto
  import Effects
  import Lifecycle
  import Races

  // ---------------------------------------------------------------- ORDER BY created_at

  function InsertByTime(rows: seq<AuditRow>, r: AuditRow): seq<AuditRow> {
    if rows == [] || rows[|rows| - 1].createdAt <= r.createdAt then rows + [r]
    else InsertByTime(rows[..|rows| - 1], r) + [rows[|rows| - 1]]
  }

  function ByTime(rows: seq<AuditRow>): seq<AuditRow> {
    if rows == [] then [] else InsertByTime(ByTime(rows[..|rows| - 1]), rows[|rows| - 1])
  }

  function Trail(db: Db, id: nat): seq<AuditRow> { ByTime(AuditOf(db, id)) }

  ghost predicate Sorted(rows: seq<AuditRow>) {
    forall i, j :: 0 <= i < j < |rows| ==> rows[i].createdAt < rows[j].createdAt
  }

  ghost predicate DistinctTimes(rows: seq<AuditRow>) {
    forall i, j :: 0 <= i < j < |rows| ==> rows[i].createdAt != rows[j].createdAt
  }

  ghost predicate SameRows(a: seq<AuditRow>, b: seq<AuditRow>) {
    forall r :: r in a <==> r in b
  }

  lemma {:induction false} InsertSorts(rows: seq<AuditRow>, r: AuditRow)
    requires Sorted(rows) && forall x :: x in rows ==> x.createdAt != r.createdAt
    ensures Sorted(InsertByTime(rows, r)) && SameRows(InsertByTime(rows, r), rows + [r])
  {
    if rows == [] || rows[|rows| - 1].createdAt <= r.createdAt {
    } else {
      var before, last := rows[..|rows| - 1], rows[|rows| - 1];
      InsertSorts(before, r);
      assert rows == before + [last];
      var inserted := InsertByTime(before, r);
      forall i | 0 <= i < |inserted| ensures inserted[i].createdAt < last.createdAt {
        assert inserted[i] in inserted && inserted[i] in before + [r];
      }
    }
  }

  /** With no two rows at the same time, the trail is the alert's rows, strictly in order. */
  lemma {:induction false} ByTimeSorts(rows: seq<AuditRow>)
    requires DistinctTimes(rows)
    ensures Sorted(ByTime(rows)) && SameRows(ByTime(rows), rows)
  {
    if rows == [] {
    } else {
      var before, last := rows[..|rows| - 1], rows[|rows| - 1];
      ByTimeSorts(before);
      assert rows == before + [last];
      InsertSorts(ByTime(before), last);
    }
  }

  lemma SharesRow(a: seq<AuditRow>, b: seq<AuditRow>)
    requires SameRows(a, b)
    ensures a == [] <==> b == []
  {
    if a != [] {
      assert a[0] in a && a[0] in b;
    }
    if b != [] {
      assert b[0] in b && b[0] in a;
    }
  }

  /** Then it is also the only order that ORDER BY created_at permits. */
  lemma {:induction false} SortedIsUnique(a: seq<AuditRow>, b: seq<AuditRow>)
    requires Sorted(a) && Sorted(b) && SameRows(a, b)
    ensures a == b
  {
    SharesRow(a, b);
    if a == [] {
    } else {
      var n, m := |a| - 1, |b| - 1;
      LastIsLatest(a, b);
      assert a == a[..n] + [a[n]] && b == b[..m] + [b[m]];
      forall r ensures r in a[..n] <==> r in b[..m] {
        assert r in a[..n] ==> r in a && r.createdAt < a[n].createdAt;
        assert r in b[..m] ==> r in b && r.createdAt < b[m].createdAt;
      }
      SortedIsUnique(a[..n], b[..m]);
    }
  }

  lemma LastIsLatest(a: seq<AuditRow>, b: seq<AuditRow>)
    requires a != [] && b != [] && Sorted(a) && Sorted(b) && SameRows(a, b)
    ensures a[|a| - 1] == b[|b| - 1]
  {
    var x, y := a[|a| - 1], b[|b| - 1];
    assert x in a && x in b && y in b && y in a;
    var i :| 0 <= i < |b| && b[i] == x;
    var j :| 0 <= j < |a| && a[j] == y;
  }

  /** No two rows of the table have the same time. */
  ghost predicate DistinctSlots(slots: Slots<AuditRow>) {
    forall i, j :: 0 <= i < j < |slots| && slots[i].Some? && slots[j].Some? ==>
      slots[i].value.createdAt != slots[j].value.createdAt
  }

  lemma {:induction false} RowsDistinct(slots: Slots<AuditRow>, id: nat)
    requires DistinctSlots(slots)
    ensures DistinctTimes(RowsOf(slots, AuditKey, id))
  {
    if slots == [] {
    } else {
      var before := slots[..|slots| - 1];
      RowsDistinct(before, id);
      RowsOfMembers(before, AuditKey, id);
      var rows := RowsOf(before, AuditKey, id);
      forall i | 0 <= i < |rows| && slots[|slots| - 1].Some?
        ensures rows[i].createdAt != slots[|slots| - 1].value.createdAt
      {
        assert rows[i] in rows;
        var k :| 0 <= k < |before| && before[k] == Some(rows[i]);
        assert slots[k] == Some(rows[i]);
      }
    }
  }

  lemma TrailRows(db: Db, id: nat)
    requires DistinctSlots(db.audit)
    ensures Sorted(Trail(db, id))
    ensures forall r :: r in Trail(db, id) <==> Some(r) in db.audit && r.alertId == id
  {
    RowsDistinct(db.audit, id);
    ByTimeSorts(AuditOf(db, id));
    RowsOfMembers(db.audit, AuditKey, id);
  }

  ghost predicate AllTrails(db: Db) {
    forall id :: id in db.alerts ==> Lifecycle.Path(Trail(db, id), db.alerts[id].status)
  }

  // ---------------------------------------------------------------- the clock and the log of a run

  /** The time of a BEGIN, which is now() throughout its transaction. */
  function Begins(step: Step): Option<Micros> {
    if step.By? && step.does.Begin? then Some(step.does.now) else None
  }

  /** When the latest transaction began. */
  function Clock(epoch: Micros, steps: seq<Step>): Micros {
    if steps == [] then epoch
    else
      var t := Begins(steps[|steps| - 1]);
      if t.Some? then t.value else Clock(epoch, steps[..|steps| - 1])
  }

  /** The server's clock advances from each BEGIN to the next. */
  ghost predicate Clocked(epoch: Micros, steps: seq<Step>) {
    forall k :: 0 <= k < |steps| && Begins(steps[k]).Some? ==> Begins(steps[k]).value > Clock(epoch, steps[..k])
  }

  /** A committed audit row, whose createdAt is the time of its BEGIN, with the positions of its SELECT and
      its COMMIT among the steps of the run. */
  datatype Entry = Entry(row: AuditRow, selected: nat, committed: nat)

  /** What a run has done: how many steps, at which of them each session executed its SELECT, and the
      classifications and notes committed, in the order of their COMMITs. */
  datatype Past = Past(length: nat, selects: map<nat, nat>, log: seq<Entry>)

  /** The session's transaction executes its SELECT. */
  predicate Selects(w: World, step: Step) {
    && step.By? && (step.does.ReadAlert? || step.does.ReadForNote?)
    && step.sid in w.sessions && w.sessions[step.sid].Begun?
  }

  function SelectOf(h: Past, sid: nat): nat {
    if sid in h.selects then h.selects[sid] else 0
  }

  function Logged(w: World, step: Step, h: Past): seq<Entry> {
    if step.By? && step.does.Commit? && step.sid in w.sessions then
      match w.sessions[step.sid]
      case HasAudit(_, _, _, _, _) => [Entry(AuditRowOf(w.sessions[step.sid]), SelectOf(h, step.sid), h.length)]
      case NoteWritten(_, _, _, _, _, _) => [Entry(NoteRow(w.sessions[step.sid]), SelectOf(h, step.sid), h.length)]
      case _ => []
    else []
  }

  function Record(w: World, step: Step, h: Past): Past {
    Past(h.length + 1, if Selects(w, step) then h.selects[step.sid := h.length] else h.selects,
         h.log + Logged(w, step, h))
  }

  function PastOf(steps: seq<Step>): Past {
    if steps == [] then Past(0, map[], [])
    else
      var before := steps[..|steps| - 1];
      Record(Run(START, before), steps[|steps| - 1], PastOf(before))
  }

  function Log(steps: seq<Step>): seq<Entry> { PastOf(steps).log }

  /** A committed classification agrees with another committed row of its alert: the other is a note, which
      began before the classification exactly when its SELECT did not come after the classification's COMMIT.
      (No two statements have the same position.) */
  ghost predicate Agrees(t: Entry, other: Entry) {
    t.row.action.Triage? && other.row.alertId == t.row.alertId ==>
      && other.row.action.NoteAdded?
      && (other.row.createdAt < t.row.createdAt <==> other.selected <= t.committed)
  }

  ghost predicate AllAgree(log: seq<Entry>) {
    forall i, j :: 0 <= i < |log| && 0 <= j < |log| && i != j ==> Agrees(log[i], log[j])
  }

  // ---------------------------------------------------------------- what the log says about a state

  function SessionTime(s: Session): Option<Micros> {
    if s.Begun? || OfNote(s) then Some(s.now)
    else if s.HasRead? || Holding(s) then Some(s.triage.now)
    else None
  }

  ghost predicate SessionsTimely(w: World, clock: Micros, log: seq<Entry>) {
    && (forall sid :: sid in w.sessions && SessionTime(w.sessions[sid]).Some? ==>
          SessionTime(w.sessions[sid]).value <= clock)
    && (forall s1, s2 :: s1 in w.sessions && s2 in w.sessions && s1 != s2 && SessionTime(w.sessions[s1]).Some? ==>
          SessionTime(w.sessions[s1]) != SessionTime(w.sessions[s2]))
    && (forall sid, i :: sid in w.sessions && 0 <= i < |log| ==>
          SessionTime(w.sessions[sid]) != Some(log[i].row.createdAt))
  }

  /** No two rows began at the same time. */
  ghost predicate LogTimely(clock: Micros, log: seq<Entry>) {
    && (forall i :: 0 <= i < |log| ==> log[i].row.createdAt <= clock)
    && (forall i, j :: 0 <= i < j < |log| ==> log[i].row.createdAt != log[j].row.createdAt)
  }

  /** All positions are those of past steps. */
  ghost predicate Placed(h: Past) {
    && (forall sid :: sid in h.selects ==> h.selects[sid] < h.length)
    && (forall i :: 0 <= i < |h.log| ==> h.log[i].selected <= h.length && h.log[i].committed < h.length)
  }

  ghost predicate InLog(log: seq<Entry>, row: AuditRow) {
    exists i :: 0 <= i < |log| && log[i].row == row
  }

  /** The table holds exactly the logged rows of the alerts that are there, and an alert that was purged
      never comes back. */
  ghost predicate Recorded(w: World, log: seq<Entry>) {
    && (forall k :: 0 <= k < |w.db.audit| && w.db.audit[k].Some? ==> InLog(log, w.db.audit[k].value))
    && (forall i :: 0 <= i < |log| && log[i].row.alertId in w.db.alerts ==> Some(log[i].row) in w.db.audit)
    && DistinctSlots(w.db.audit)
    && UsedIds(w, log)
  }

  ghost predicate UsedIds(w: World, log: seq<Entry>) {
    forall i :: 0 <= i < |log| ==>
      && log[i].row.alertId < w.db.nextAlert
      && forall sid :: sid in w.sessions && w.sessions[sid].Inserting? ==>
           w.sessions[sid].alert.id != log[i].row.alertId
  }

  ghost predicate Shaped(r: AuditRow) {
    if r.action.Triage? then r.fromStatus == Open && r.toStatus != Open else r.fromStatus == r.toStatus
  }

  ghost predicate AllShaped(log: seq<Entry>) {
    forall i :: 0 <= i < |log| ==> Shaped(log[i].row)
  }

  predicate TriagedBefore(e: Entry, id: nat, at: nat) {
    e.row.action.Triage? && e.row.alertId == id && e.committed < at
  }

  /** What a SELECT at this position saw: `open` if no classification had committed, or else the verdict of
      one that had. */
  ghost predicate Saw(log: seq<Entry>, id: nat, status: Status, at: nat) {
    && (status == Open ==> forall i :: 0 <= i < |log| ==> !TriagedBefore(log[i], id, at))
    && (status != Open ==> exists i :: 0 <= i < |log| && TriagedBefore(log[i], id, at) && log[i].row.toStatus == status)
  }

  ghost predicate SessionSaw(s: Session, sid: nat, selects: map<nat, nat>, log: seq<Entry>) {
    OfNote(s) ==> sid in selects && Saw(log, s.id, s.status, selects[sid])
  }

  ghost predicate AllSaw(w: World, selects: map<nat, nat>, log: seq<Entry>) {
    && (forall sid :: sid in w.sessions ==> SessionSaw(w.sessions[sid], sid, selects, log))
    && (forall i :: 0 <= i < |log| && log[i].row.action.NoteAdded? ==>
          Saw(log, log[i].row.alertId, log[i].row.fromStatus, log[i].selected))
  }

  ghost predicate Chronicle(w: World, clock: Micros, h: Past) {
    && SessionsTimely(w, clock, h.log) && LogTimely(clock, h.log) && Placed(h)
    && Recorded(w, h.log) && AllShaped(h.log) && AllSaw(w, h.selects, h.log)
  }

  /** The status an alert shows is open exactly when no classification of it is logged. */
  lemma StatusFromLog(w: World, log: seq<Entry>, id: nat)
    requires Integrity(w.db) && Recorded(w, log) && AllShaped(log) && id in w.db.alerts
    ensures var status := w.db.alerts[id].status;
            && (status == Open ==>
                  forall i :: 0 <= i < |log| && log[i].row.alertId == id ==> !log[i].row.action.Triage?)
            && (status != Open ==> exists i :: 0 <= i < |log| && log[i].row.alertId == id && log[i].row.action.Triage?
                                               && log[i].row.toStatus == status)
  {
    assert Paired(w.db, id);
    var tri := TriagesOf(w.db, id);
    RowsOfMembers(w.db.audit, TriageKey, id);
    forall i | 0 <= i < |log| && log[i].row.alertId == id && log[i].row.action.Triage? ensures tri != [] {
      assert Some(log[i].row) in w.db.audit && log[i].row in tri;
    }
    if tri != [] {
      var last := tri[|tri| - 1];
      assert last in tri && Some(last) in w.db.audit;
      var k :| 0 <= k < |w.db.audit| && w.db.audit[k] == Some(last);
      assert InLog(log, last);
    }
  }

  // ---------------------------------------------------------------- every step keeps the chronicle

  /** The times of the sessions and of the log, whatever the tables hold. */
  ghost predicate Timely(w: World, clock: Micros, log: seq<Entry>) {
    SessionsTimely(w, clock, log) && LogTimely(clock, log)
  }

  function Ticked(step: Step, clock: Micros): Micros {
    if Begins(step).Some? then Begins(step).value else clock
  }

  ghost predicate InTime(step: Step, clock: Micros) {
    Begins(step).Some? ==> Begins(step).value > clock
  }

  lemma StatementKeepsTime(w: World, does: Statement, sid: nat)
    requires sid in w.sessions
    ensures var o := Executed(w, does, w.sessions[sid]);
            o.session.Some? ==>
              && (SessionTime(o.session.value).Some? ==> SessionTime(o.session.value) == SessionTime(w.sessions[sid]))
              && (o.session.value.Inserting? ==>
                    o.session.value == w.sessions[sid] || o.session.value.alert.id == w.db.nextAlert)
  {
  }

  lemma StepKeepsTimely(w: World, step: Step, clock: Micros, log: seq<Entry>)
    requires Timely(w, clock, log) && InTime(step, clock)
    ensures Timely(Apply(w, step), Ticked(step, clock), log)
  {
    if step.By? && step.sid in w.sessions {
      StatementKeepsTime(w, step.does, step.sid);
    }
  }

  /** A session that has committed leaves its time to the log. */
  lemma CommitKeepsTimely(w: World, sid: nat, clock: Micros, log: seq<Entry>, e: Entry)
    requires Timely(w, clock, log) && sid in w.sessions && SessionTime(w.sessions[sid]) == Some(e.row.createdAt)
    ensures Timely(World(w.db, w.sessions - {sid}), clock, log + [e])
  {
  }

  lemma RecordKeepsPlaced(w: World, step: Step, h: Past)
    requires Placed(h)
    ensures Placed(Record(w, step, h))
  {
  }

  /** The two tables differ in ids that were drawn, and in nothing that is logged. */
  ghost predicate SameAudit(db: Db, db': Db) {
    && db'.alerts.Keys == db.alerts.Keys && db.nextAlert <= db'.nextAlert && |db.audit| <= |db'.audit|
    && (forall k :: 0 <= k < |db.audit| ==> db'.audit[k] == db.audit[k])
    && (forall k :: |db.audit| <= k < |db'.audit| ==> db'.audit[k] == None)
  }

  /** No session is about to commit an alert under an id that a logged row carries. */
  ghost predicate NewIds(w: World, sessions: map<nat, Session>) {
    forall sid :: sid in sessions && sessions[sid].Inserting? ==>
      || (sid in w.sessions && w.sessions[sid] == sessions[sid])
      || sessions[sid].alert.id >= w.db.nextAlert
  }

  lemma SameAuditRecorded(w: World, db': Db, sessions: map<nat, Session>, log: seq<Entry>)
    requires Recorded(w, log) && SameAudit(w.db, db') && NewIds(w, sessions)
    ensures Recorded(World(db', sessions), log)
  {
    forall i | 0 <= i < |log| && log[i].row.alertId in db'.alerts ensures Some(log[i].row) in db'.audit {
      assert Some(log[i].row) in w.db.audit;
      var k :| 0 <= k < |w.db.audit| && w.db.audit[k] == Some(log[i].row);
      assert db'.audit[k] == Some(log[i].row);
    }
    forall k | 0 <= k < |db'.audit| && db'.audit[k].Some? ensures InLog(log, db'.audit[k].value) {
      assert k < |w.db.audit| && w.db.audit[k].Some?;
    }
  }

  /** Any step that is not a COMMIT. */
  lemma QuietRecorded(w: World, step: Step, log: seq<Entry>)
    requires Recorded(w, log)
    requires !(step.By? && step.does.Commit? && step.sid in w.sessions && CanCommit(w.sessions[step.sid]))
    ensures Recorded(Apply(w, step), log)
  {
    if step.By? && step.sid in w.sessions {
      StatementKeepsTime(w, step.does, step.sid);
      StatementWrites(w, step.does, step.sid);
    }
    SameAuditRecorded(w, Apply(w, step).db, Apply(w, step).sessions, log);
  }

  lemma InsertRecorded(w: World, sid: nat, log: seq<Entry>)
    requires Recorded(w, log) && sid in w.sessions && w.sessions[sid].Inserting?
    ensures Recorded(World(Written(w.db, w.sessions[sid]), w.sessions - {sid}), log)
  {
  }

  lemma DeleteRecorded(w: World, sid: nat, log: seq<Entry>)
    requires Recorded(w, log) && sid in w.sessions && w.sessions[sid].Deleting?
    ensures Recorded(World(Written(w.db, w.sessions[sid]), w.sessions - {sid}), log)
  {
    var dead := w.sessions[sid].dead;
    var db' := RemoveDb(w.db, dead);
    forall i | 0 <= i < |log| && log[i].row.alertId in db'.alerts ensures Some(log[i].row) in db'.audit {
      assert Some(log[i].row) in w.db.audit;
      var k :| 0 <= k < |w.db.audit| && w.db.audit[k] == Some(log[i].row);
      assert AuditKey(log[i].row) == Some(log[i].row.alertId);
      assert db'.audit[k] == Some(log[i].row);
    }
  }

  /** A row that takes up its id and goes into the log. */
  lemma FillRecorded(w: World, db': Db, sid: nat, auditId: nat, log: seq<Entry>, e: Entry)
    requires Recorded(w, log) && auditId < |w.db.audit| && w.db.audit[auditId] == None
    requires db'.audit == w.db.audit[auditId := Some(e.row)] && db'.alerts.Keys == w.db.alerts.Keys
    requires db'.nextAlert == w.db.nextAlert && e.row.alertId < w.db.nextAlert
    requires forall o :: o in w.sessions && w.sessions[o].Inserting? ==> w.sessions[o].alert.id != e.row.alertId
    requires forall i :: 0 <= i < |log| ==> log[i].row.createdAt != e.row.createdAt
    ensures Recorded(World(db', w.sessions - {sid}), log + [e])
  {
    var log' := log + [e];
    assert log'[|log|] == e;
    forall k | 0 <= k < |db'.audit| && db'.audit[k].Some? ensures InLog(log', db'.audit[k].value) {
      if k != auditId {
        var i :| 0 <= i < |log| && log[i].row == w.db.audit[k].value;
        assert log'[i] == log[i];
      }
    }
    forall i | 0 <= i < |log'| && log'[i].row.alertId in db'.alerts ensures Some(log'[i].row) in db'.audit {
      if i < |log| {
        assert Some(log[i].row) in w.db.audit;
        var k :| 0 <= k < |w.db.audit| && w.db.audit[k] == Some(log[i].row);
        assert db'.audit[k] == Some(log[i].row);
      } else {
        assert db'.audit[auditId] == Some(e.row);
      }
    }
    forall k | 0 <= k < |w.db.audit| && w.db.audit[k].Some?
      ensures w.db.audit[k].value.createdAt != e.row.createdAt
    {
      assert InLog(log, w.db.audit[k].value);
    }
  }

  /** The row a classification or a note commits. */
  function RowOf(s: Session): AuditRow
    requires s.HasAudit? || s.NoteWritten?
  {
    if s.HasAudit? then AuditRowOf(s) else NoteRow(s)
  }

  function EntryOf(s: Session, sid: nat, h: Past): Entry
    requires s.HasAudit? || s.NoteWritten?
  {
    Entry(RowOf(s), SelectOf(h, sid), h.length)
  }

  lemma RowRecorded(w: World, sid: nat, clock: Micros, log: seq<Entry>, e: Entry)
    requires Inv(w) && Recorded(w, log) && SessionsTimely(w, clock, log)
    requires sid in w.sessions && (w.sessions[sid].HasAudit? || w.sessions[sid].NoteWritten?)
    requires e.row == RowOf(w.sessions[sid])
    ensures Recorded(World(Written(w.db, w.sessions[sid]), w.sessions - {sid}), log + [e])
  {
    var s := w.sessions[sid];
    assert SessionOk(s, w.db) && e.row.alertId in w.db.alerts;
    forall o | o in w.sessions && w.sessions[o].Inserting? ensures w.sessions[o].alert.id != e.row.alertId {
      assert SessionOk(w.sessions[o], w.db);
    }
    forall i | 0 <= i < |log| ensures log[i].row.createdAt != e.row.createdAt {
      assert SessionTime(s) == Some(e.row.createdAt);
    }
    FillRecorded(w, Written(w.db, s), sid, s.auditId, log, e);
  }

  // ---------------------------------------------------------------- what notes saw

  /** A classification that commits after the SELECT does not change what it saw. */
  lemma StillSaw(log: seq<Entry>, e: Entry, id: nat, status: Status, at: nat)
    requires Saw(log, id, status, at) && at <= e.committed
    ensures Saw(log + [e], id, status, at)
  {
    var log' := log + [e];
    if status != Open {
      var i :| 0 <= i < |log| && TriagedBefore(log[i], id, at) && log[i].row.toStatus == status;
      assert log'[i] == log[i];
    }
  }

  /** A SELECT sees the verdict of a committed classification, or `open` if there is none. */
  lemma SeesStatus(w: World, h: Past, id: nat)
    requires Integrity(w.db) && Recorded(w, h.log) && AllShaped(h.log) && Placed(h) && id in w.db.alerts
    ensures Saw(h.log, id, w.db.alerts[id].status, h.length)
  {
    var log := h.log;
    StatusFromLog(w, log, id);
    if w.db.alerts[id].status != Open {
      var i :| 0 <= i < |log| && log[i].row.alertId == id && log[i].row.action.Triage?
               && log[i].row.toStatus == w.db.alerts[id].status;
      assert TriagedBefore(log[i], id, h.length);
    }
  }

  /** After its SELECT a note keeps what it saw. */
  lemma NoteKeepsSight(w: World, does: Statement, sid: nat)
    requires sid in w.sessions
    ensures var s, o := w.sessions[sid], Executed(w, does, w.sessions[sid]).session;
            o.Some? && OfNote(o.value) ==>
              || (OfNote(s) && o.value.id == s.id && o.value.status == s.status)
              || (s.Begun? && does.ReadForNote? && does.id in w.db.alerts
                  && o.value.id == does.id && o.value.status == w.db.alerts[does.id].status)
  {
  }

  lemma StatementKeepsSaw(w: World, does: Statement, sid: nat, clock: Micros, h: Past)
    requires Integrity(w.db) && Chronicle(w, clock, h) && sid in w.sessions
    requires Executed(w, does, w.sessions[sid]).session.Some?
    ensures SessionSaw(Executed(w, does, w.sessions[sid]).session.value, sid,
                       Record(w, By(sid, does), h).selects, h.log)
  {
    NoteKeepsSight(w, does, sid);
    assert SessionSaw(w.sessions[sid], sid, h.selects, h.log);
    if does.ReadForNote? && does.id in w.db.alerts {
      SeesStatus(w, h, does.id);
    }
  }

  lemma StepKeepsSaw(w: World, step: Step, clock: Micros, h: Past)
    requires Integrity(w.db) && Chronicle(w, clock, h)
    ensures AllSaw(Apply(w, step), Record(w, step, h).selects, h.log)
  {
    if step.By? && step.sid in w.sessions && Executed(w, step.does, w.sessions[step.sid]).session.Some? {
      StatementKeepsSaw(w, step.does, step.sid, clock, h);
    }
  }

  /** The row of a session that saw what it saw joins the log. */
  lemma CommitKeepsSaw(w: World, sid: nat, h: Past)
    requires Placed(h) && AllSaw(w, h.selects, h.log)
    requires sid in w.sessions && (w.sessions[sid].HasAudit? || w.sessions[sid].NoteWritten?)
    ensures AllSaw(World(w.db, w.sessions - {sid}), h.selects, h.log + [EntryOf(w.sessions[sid], sid, h)])
  {
    var s, e, log := w.sessions[sid], EntryOf(w.sessions[sid], sid, h), h.log;
    forall o | o in w.sessions ensures SessionSaw(w.sessions[o], o, h.selects, log + [e]) {
      var n := w.sessions[o];
      assert SessionSaw(n, o, h.selects, log);
      if OfNote(n) {
        StillSaw(log, e, n.id, n.status, h.selects[o]);
      }
    }
    forall i | 0 <= i < |log| && log[i].row.action.NoteAdded?
      ensures Saw(log + [e], log[i].row.alertId, log[i].row.fromStatus, log[i].selected)
    {
      StillSaw(log, e, log[i].row.alertId, log[i].row.fromStatus, log[i].selected);
    }
    assert SessionSaw(s, sid, h.selects, log + [e]);
  }

  lemma RowIsShaped(s: Session, db: Db)
    requires SessionOk(s, db) && (s.HasAudit? || s.NoteWritten?)
    ensures Shaped(RowOf(s)) && SessionTime(s) == Some(RowOf(s).createdAt)
  {
  }

  /** The parts of the chronicle that look at sessions only. */
  lemma SessionsOnly(db: Db, db': Db, sessions: map<nat, Session>, clock: Micros, selects: map<nat, nat>,
                     log: seq<Entry>)
    ensures Timely(World(db, sessions), clock, log) ==> Timely(World(db', sessions), clock, log)
    ensures AllSaw(World(db, sessions), selects, log) ==> AllSaw(World(db', sessions), selects, log)
  {
  }

  lemma RowKeepsTimesAndSight(w: World, sid: nat, clock: Micros, h: Past)
    requires Inv(w) && Chronicle(w, clock, h)
    requires sid in w.sessions && (w.sessions[sid].HasAudit? || w.sessions[sid].NoteWritten?)
    ensures var w' := World(Written(w.db, w.sessions[sid]), w.sessions - {sid});
            var log' := h.log + [EntryOf(w.sessions[sid], sid, h)];
            Timely(w', clock, log') && AllSaw(w', h.selects, log')
  {
    var e := EntryOf(w.sessions[sid], sid, h);
    RowIsShaped(w.sessions[sid], w.db);
    CommitKeepsTimely(w, sid, clock, h.log, e);
    CommitKeepsSaw(w, sid, h);
    SessionsOnly(w.db, Written(w.db, w.sessions[sid]), w.sessions - {sid}, clock, h.selects, h.log + [e]);
  }

  lemma EntryIsPlaced(h: Past, e: Entry)
    requires Placed(h) && AllShaped(h.log) && Shaped(e.row) && e.selected <= h.length && e.committed == h.length
    ensures Placed(Past(h.length + 1, h.selects, h.log + [e])) && AllShaped(h.log + [e])
  {
  }

  lemma RowKeepsChronicle(w: World, sid: nat, clock: Micros, h: Past)
    requires Inv(w) && Chronicle(w, clock, h)
    requires sid in w.sessions && (w.sessions[sid].HasAudit? || w.sessions[sid].NoteWritten?)
    ensures Chronicle(World(Written(w.db, w.sessions[sid]), w.sessions - {sid}), clock,
                      Past(h.length + 1, h.selects, h.log + [EntryOf(w.sessions[sid], sid, h)]))
  {
    var e := EntryOf(w.sessions[sid], sid, h);
    RowIsShaped(w.sessions[sid], w.db);
    EntryIsPlaced(h, e);
    RowKeepsTimesAndSight(w, sid, clock, h);
    RowRecorded(w, sid, clock, h.log, e);
  }

  lemma OtherStepKeepsRecorded(w: World, step: Step, h: Past)
    requires Recorded(w, h.log) && Logged(w, step, h) == []
    ensures Recorded(Apply(w, step), h.log)
  {
    if step.By? && step.does.Commit? && step.sid in w.sessions && CanCommit(w.sessions[step.sid]) {
      if w.sessions[step.sid].Inserting? {
        InsertRecorded(w, step.sid, h.log);
      } else {
        DeleteRecorded(w, step.sid, h.log);
      }
    } else {
      QuietRecorded(w, step, h.log);
    }
  }

  lemma StepKeepsChronicle(w: World, step: Step, clock: Micros, h: Past)
    requires Inv(w) && Chronicle(w, clock, h) && InTime(step, clock)
    ensures Chronicle(Apply(w, step), Ticked(step, clock), Record(w, step, h))
  {
    RecordKeepsPlaced(w, step, h);
    if Logged(w, step, h) == [] {
      assert h.log + [] == h.log;
      StepKeepsTimely(w, step, clock, h.log);
      OtherStepKeepsRecorded(w, step, h);
      StepKeepsSaw(w, step, clock, h);
    } else {
      CommitRuns(w, step.sid);
      RowKeepsChronicle(w, step.sid, clock, h);
    }
  }

  lemma {:induction false} RunsKeepChronicle(epoch: Micros, steps: seq<Step>)
    requires Clocked(epoch, steps)
    ensures Inv(Run(START, steps)) && Chronicle(Run(START, steps), Clock(epoch, steps), PastOf(steps))
  {
    RunsKeepInv(START, steps);
    if steps == [] {
    } else {
      var n := |steps| - 1;
      ClockedPrefix(epoch, steps, n);
      RunsKeepChronicle(epoch, steps[..n]);
      StepKeepsChronicle(Run(START, steps[..n]), steps[n], Clock(epoch, steps[..n]), PastOf(steps[..n]));
    }
  }

  // ---------------------------------------------------------------- one state

  /** A path that has left `open` never comes back to it. */
  lemma {:induction false} PathNeverReopens(rows: seq<AuditRow>, status: Status, a: nat, b: nat)
    requires Lifecycle.Path(rows, status) && a < b < |rows|
    requires forall i :: 0 <= i < |rows| ==> Shaped(rows[i])
    requires rows[a].toStatus != Open
    ensures rows[b].fromStatus != Open
  {
    if b == a + 1 {
    } else {
      PathNeverReopens(rows, status, a, b - 1);
    }
  }

  lemma TrailShaped(w: World, log: seq<Entry>, id: nat)
    requires Recorded(w, log) && AllShaped(log)
    ensures forall i :: 0 <= i < |Trail(w.db, id)| ==>
              Shaped(Trail(w.db, id)[i]) && InLog(log, Trail(w.db, id)[i]) && Trail(w.db, id)[i].alertId == id
  {
    var trail := Trail(w.db, id);
    TrailRows(w.db, id);
    forall i | 0 <= i < |trail| ensures Shaped(trail[i]) && InLog(log, trail[i]) && trail[i].alertId == id {
      assert trail[i] in trail;
      var k :| 0 <= k < |w.db.audit| && w.db.audit[k] == Some(trail[i]);
      assert InLog(log, w.db.audit[k].value);
    }
  }

  /** Where a logged row of an alert stands in its trail. */
  lemma StandsAt(w: World, log: seq<Entry>, i: nat) returns (p: nat)
    requires Recorded(w, log) && i < |log| && log[i].row.alertId in w.db.alerts
    ensures p < |Trail(w.db, log[i].row.alertId)| && Trail(w.db, log[i].row.alertId)[p] == log[i].row
  {
    TrailRows(w.db, log[i].row.alertId);
    assert Some(log[i].row) in w.db.audit;
    p :| 0 <= p < |Trail(w.db, log[i].row.alertId)| && Trail(w.db, log[i].row.alertId)[p] == log[i].row;
  }

  /** A row that is not made from `open` must not come after one that left it, nor the other way round. */
  lemma ReopeningBreaksPath(w: World, log: seq<Entry>, i: nat, j: nat)
    requires Recorded(w, log) && AllShaped(log) && i < |log| && j < |log|
    requires log[i].row.alertId == log[j].row.alertId && log[i].row.alertId in w.db.alerts
    requires log[i].row.createdAt < log[j].row.createdAt
    requires log[i].row.toStatus != Open && log[j].row.fromStatus == Open
    ensures !Lifecycle.Path(Trail(w.db, log[i].row.alertId), w.db.alerts[log[i].row.alertId].status)
  {
    var id := log[i].row.alertId;
    var p := StandsAt(w, log, i);
    var q := StandsAt(w, log, j);
    TrailRows(w.db, id);
    TrailShaped(w, log, id);
    if Lifecycle.Path(Trail(w.db, id), w.db.alerts[id].status) {
      assert p < q;
      PathNeverReopens(Trail(w.db, id), w.db.alerts[id].status, p, q);
    }
  }

  lemma TwoTriagesBreakPath(w: World, clock: Micros, log: seq<Entry>, i: nat, j: nat)
    requires LogTimely(clock, log) && Recorded(w, log) && AllShaped(log)
    requires i < |log| && j < |log| && i != j && log[i].row.action.Triage? && log[j].row.action.Triage?
    requires log[i].row.alertId == log[j].row.alertId && log[i].row.alertId in w.db.alerts
    ensures !Lifecycle.Path(Trail(w.db, log[i].row.alertId), w.db.alerts[log[i].row.alertId].status)
  {
    if log[i].row.createdAt < log[j].row.createdAt {
      ReopeningBreaksPath(w, log, i, j);
    } else {
      ReopeningBreaksPath(w, log, j, i);
    }
  }

  /** A note that saw a verdict is served before the classification. */
  lemma LateReaderBreaksPath(w: World, log: seq<Entry>, i: nat, j: nat)
    requires Recorded(w, log) && AllShaped(log) && i < |log| && j < |log|
    requires log[i].row.alertId == log[j].row.alertId && log[i].row.alertId in w.db.alerts
    requires log[i].row.action.Triage? && log[j].row.action.NoteAdded?
    requires Saw(log, log[j].row.alertId, log[j].row.fromStatus, log[j].selected)
    requires log[j].row.createdAt < log[i].row.createdAt && log[i].committed < log[j].selected
    ensures !Lifecycle.Path(Trail(w.db, log[i].row.alertId), w.db.alerts[log[i].row.alertId].status)
  {
    assert TriagedBefore(log[i], log[j].row.alertId, log[j].selected);
    ReopeningBreaksPath(w, log, j, i);
  }

  /** A note that saw `open` is served after the classification. */
  lemma EarlyReaderBreaksPath(w: World, clock: Micros, log: seq<Entry>, i: nat, j: nat)
    requires LogTimely(clock, log) && Recorded(w, log) && AllShaped(log) && i < |log| && j < |log| && i != j
    requires log[i].row.alertId == log[j].row.alertId && log[i].row.alertId in w.db.alerts
    requires log[i].row.action.Triage? && log[j].row.action.NoteAdded?
    requires Saw(log, log[j].row.alertId, log[j].row.fromStatus, log[j].selected)
    requires log[j].row.createdAt >= log[i].row.createdAt && log[j].selected <= log[i].committed
    ensures !Lifecycle.Path(Trail(w.db, log[i].row.alertId), w.db.alerts[log[i].row.alertId].status)
  {
    if log[j].row.fromStatus == Open {
      ReopeningBreaksPath(w, log, i, j);
    } else {
      var k :| 0 <= k < |log| && TriagedBefore(log[k], log[j].row.alertId, log[j].selected);
      TwoTriagesBreakPath(w, clock, log, i, k);
    }
  }

  /** A disagreement shows in the trail of its alert for as long as the alert is kept. */
  lemma DisagreementBreaksPath(w: World, clock: Micros, h: Past, i: nat, j: nat)
    requires Chronicle(w, clock, h) && i < |h.log| && j < |h.log| && i != j && !Agrees(h.log[i], h.log[j])
    requires h.log[i].row.alertId in w.db.alerts
    ensures !Lifecycle.Path(Trail(w.db, h.log[i].row.alertId), w.db.alerts[h.log[i].row.alertId].status)
  {
    if h.log[j].row.action.Triage? {
      TwoTriagesBreakPath(w, clock, h.log, i, j);
    } else if h.log[j].row.createdAt < h.log[i].row.createdAt {
      LateReaderBreaksPath(w, h.log, i, j);
    } else {
      EarlyReaderBreaksPath(w, clock, h.log, i, j);
    }
  }

  /** What a note saw when it agrees with the alert's only classification. */
  lemma NoteSawRight(log: seq<Entry>, t: nat, i: nat)
    requires AllAgree(log) && t < |log| && i < |log| && i != t
    requires log[t].row.action.Triage? && log[i].row.alertId == log[t].row.alertId
    requires Saw(log, log[i].row.alertId, log[i].row.fromStatus, log[i].selected)
    ensures log[i].row.action.NoteAdded?
    ensures log[i].row.fromStatus == if log[i].row.createdAt < log[t].row.createdAt then Open else log[t].row.toStatus
  {
    assert Agrees(log[t], log[i]);
    var id, at := log[i].row.alertId, log[i].selected;
    assert forall k :: 0 <= k < |log| && k != t ==> Agrees(log[t], log[k]);
    assert forall k :: 0 <= k < |log| && TriagedBefore(log[k], id, at) ==> k == t;
    if log[i].row.createdAt >= log[t].row.createdAt {
      assert TriagedBefore(log[t], id, at);
    }
  }

  /** Without a classification every row is an open note; with one, what comes before it is made from `open`
      and what comes after from its verdict. */
  lemma RowsFollow(w: World, clock: Micros, h: Past, id: nat, t: nat, p: nat)
    requires Chronicle(w, clock, h) && AllAgree(h.log) && t < |h.log|
    requires h.log[t].row.action.Triage? && h.log[t].row.alertId == id && p < |Trail(w.db, id)|
    ensures var r, verdict := Trail(w.db, id)[p], h.log[t].row;
            && r.fromStatus == (if r.createdAt <= verdict.createdAt then Open else verdict.toStatus)
            && r.toStatus == (if r.createdAt < verdict.createdAt then Open else verdict.toStatus)
  {
    TrailShaped(w, h.log, id);
    var r := Trail(w.db, id)[p];
    assert InLog(h.log, r);
    var i :| 0 <= i < |h.log| && h.log[i].row == r;
    if i != t {
      assert Agrees(h.log[t], h.log[i]);
      assert h.log[i].row.createdAt != h.log[t].row.createdAt;
      NoteSawRight(h.log, t, i);
    }
  }

  /** The trail on either side of the classification. */
  lemma TrailHalves(w: World, clock: Micros, h: Past, id: nat, t: nat, q: nat)
    requires Chronicle(w, clock, h) && AllAgree(h.log) && q < |Trail(w.db, id)|
    requires t < |h.log| && h.log[t].row.action.Triage? && h.log[t].row.alertId == id
    requires Trail(w.db, id)[q] == h.log[t].row
    ensures forall p :: 0 <= p < |Trail(w.db, id)| ==>
              && Trail(w.db, id)[p].fromStatus == (if p <= q then Open else h.log[t].row.toStatus)
              && Trail(w.db, id)[p].toStatus == (if p < q then Open else h.log[t].row.toStatus)
  {
    var trail := Trail(w.db, id);
    TrailRows(w.db, id);
    forall p | 0 <= p < |trail|
      ensures trail[p].fromStatus == if p <= q then Open else h.log[t].row.toStatus
      ensures trail[p].toStatus == if p < q then Open else h.log[t].row.toStatus
    {
      RowsFollow(w, clock, h, id, t, p);
      assert p < q ==> trail[p].createdAt < trail[q].createdAt;
      assert q < p ==> trail[q].createdAt < trail[p].createdAt;
    }
  }

  /** The alert shows the verdict of its only classification. */
  lemma VerdictShows(w: World, log: seq<Entry>, id: nat, t: nat)
    requires Integrity(w.db) && Recorded(w, log) && AllShaped(log) && AllAgree(log) && id in w.db.alerts
    requires t < |log| && log[t].row.action.Triage? && log[t].row.alertId == id
    ensures w.db.alerts[id].status == log[t].row.toStatus
  {
    StatusFromLog(w, log, id);
    assert forall k :: 0 <= k < |log| && k != t ==> Agrees(log[t], log[k]);
  }

  lemma TriagedTrailIsPath(w: World, clock: Micros, h: Past, id: nat, t: nat)
    requires Integrity(w.db) && Chronicle(w, clock, h) && AllAgree(h.log) && id in w.db.alerts
    requires t < |h.log| && h.log[t].row.action.Triage? && h.log[t].row.alertId == id
    ensures Lifecycle.Path(Trail(w.db, id), w.db.alerts[id].status)
  {
    var q := StandsAt(w, h.log, t);
    TrailHalves(w, clock, h, id, t, q);
    VerdictShows(w, h.log, id, t);
  }

  /** A row of an alert without a classification is a note that was made while the alert was open. */
  lemma OpenRow(w: World, h: Past, id: nat, p: nat)
    requires Recorded(w, h.log) && AllShaped(h.log) && AllSaw(w, h.selects, h.log) && p < |Trail(w.db, id)|
    requires forall i :: 0 <= i < |h.log| && h.log[i].row.alertId == id ==> !h.log[i].row.action.Triage?
    ensures Trail(w.db, id)[p].fromStatus == Open && Trail(w.db, id)[p].toStatus == Open
  {
    var r := Trail(w.db, id)[p];
    TrailShaped(w, h.log, id);
    assert InLog(h.log, r);
    var i :| 0 <= i < |h.log| && h.log[i].row == r;
    assert Saw(h.log, id, h.log[i].row.fromStatus, h.log[i].selected);
  }

  lemma OpenTrailIsPath(w: World, clock: Micros, h: Past, id: nat)
    requires Integrity(w.db) && Chronicle(w, clock, h) && id in w.db.alerts
    requires forall i :: 0 <= i < |h.log| && h.log[i].row.alertId == id ==> !h.log[i].row.action.Triage?
    ensures Lifecycle.Path(Trail(w.db, id), w.db.alerts[id].status)
  {
    var trail := Trail(w.db, id);
    forall p | 0 <= p < |trail| ensures trail[p].fromStatus == Open && trail[p].toStatus == Open {
      OpenRow(w, h, id, p);
    }
    StatusFromLog(w, h.log, id);
  }

  lemma AgreementGivesPaths(w: World, clock: Micros, h: Past)
    requires Integrity(w.db) && Chronicle(w, clock, h) && AllAgree(h.log)
    ensures AllTrails(w.db)
  {
    forall id | id in w.db.alerts ensures Lifecycle.Path(Trail(w.db, id), w.db.alerts[id].status) {
      if t :| 0 <= t < |h.log| && h.log[t].row.alertId == id && h.log[t].row.action.Triage? {
        TriagedTrailIsPath(w, clock, h, id, t);
      } else {
        OpenTrailIsPath(w, clock, h, id);
      }
    }
  }

  // ---------------------------------------------------------------- whole runs

  lemma ClockedPrefix(epoch: Micros, steps: seq<Step>, k: nat)
    requires Clocked(epoch, steps) && k <= |steps|
    ensures Clocked(epoch, steps[..k])
  {
    forall i | 0 <= i < k && Begins(steps[i]).Some? ensures Begins(steps[i]).value > Clock(epoch, steps[..k][..i]) {
      assert steps[..k][..i] == steps[..i];
    }
  }

  lemma LastGrows(steps: seq<Step>)
    requires steps != []
    ensures Log(steps[..|steps| - 1]) <= Log(steps)
  {
  }

  lemma PrefixCompose(a: seq<Entry>, b: seq<Entry>, c: seq<Entry>)
    requires a <= b && b <= c
    ensures a <= c
  {
  }

  /** What is logged stays logged. */
  lemma {:induction false} LogGrows(steps: seq<Step>, k: nat)
    requires k <= |steps|
    ensures Log(steps[..k]) <= Log(steps)
  {
    if k == |steps| {
      assert steps[..k] == steps;
    } else {
      var before := steps[..|steps| - 1];
      LogGrows(before, k);
      assert before[..k] == steps[..k];
      LastGrows(steps);
      PrefixCompose(Log(steps[..k]), Log(before), Log(steps));
    }
  }

  ghost predicate AlwaysPaths(steps: seq<Step>) {
    forall k :: 0 <= k <= |steps| ==> AllTrails(Run(START, steps[..k]).db)
  }

  /** The alert of a row that has just been committed is still there. */
  lemma LoggedIsThere(w: World, step: Step, h: Past)
    requires AllOk(w) && Logged(w, step, h) != []
    ensures |Logged(w, step, h)| == 1 && Logged(w, step, h)[0].row.alertId in Apply(w, step).db.alerts
  {
    CommitRuns(w, step.sid);
    WrittenIsThere(w.sessions[step.sid], w.db);
  }

  lemma WrittenIsThere(s: Session, db: Db)
    requires SessionOk(s, db) && (s.HasAudit? || s.NoteWritten?)
    ensures RowOf(s).alertId in Written(db, s).alerts
  {
  }

  /** A disagreement that this entry brings. */
  lemma NewDisagreement(log: seq<Entry>, e: Entry) returns (i: nat, j: nat)
    requires AllAgree(log) && !AllAgree(log + [e])
    ensures i <= |log| && j <= |log| && i != j && (i == |log| || j == |log|)
    ensures !Agrees((log + [e])[i], (log + [e])[j])
  {
    var log' := log + [e];
    assert forall a :: 0 <= a < |log| ==> log'[a] == log[a];
    i, j :| 0 <= i < |log'| && 0 <= j < |log'| && i != j && !Agrees(log'[i], log'[j]);
  }

  lemma PathsAgreeWithEntry(w: World, clock: Micros, h: Past, before: seq<Entry>, e: Entry)
    requires Chronicle(w, clock, h) && AllTrails(w.db) && h.log == before + [e]
    requires AllAgree(before) && e.row.alertId in w.db.alerts
    ensures AllAgree(h.log)
  {
    if !AllAgree(h.log) {
      var i, j := NewDisagreement(before, e);
      DisagreementBreaksPath(w, clock, h, i, j);
    }
  }

  lemma PathsKeepAgreement(w: World, step: Step, clock: Micros, h: Past)
    requires Inv(w) && Chronicle(w, clock, h) && InTime(step, clock)
    requires AllAgree(h.log) && AllTrails(Apply(w, step).db)
    ensures AllAgree(Record(w, step, h).log)
  {
    assert h.log + [] == h.log;
    StepKeepsChronicle(w, step, clock, h);
    if Logged(w, step, h) != [] {
      LoggedIsThere(w, step, h);
      var e := Logged(w, step, h)[0];
      assert Record(w, step, h).log == h.log + [e];
      PathsAgreeWithEntry(Apply(w, step), Ticked(step, clock), Record(w, step, h), h.log, e);
    }
  }

  lemma LastKeepsAgreement(epoch: Micros, steps: seq<Step>)
    requires steps != [] && Clocked(epoch, steps) && AllTrails(Run(START, steps).db)
    requires AllAgree(Log(steps[..|steps| - 1]))
    ensures AllAgree(Log(steps))
  {
    var before, step := steps[..|steps| - 1], steps[|steps| - 1];
    ClockedPrefix(epoch, steps, |steps| - 1);
    RunsKeepChronicle(epoch, before);
    PathsKeepAgreement(Run(START, before), step, Clock(epoch, before), PastOf(before));
  }

  lemma {:induction false} PathsMeanAgreement(epoch: Micros, steps: seq<Step>, k: nat)
    requires Clocked(epoch, steps) && AlwaysPaths(steps) && k <= |steps|
    ensures AllAgree(Log(steps[..k]))
  {
    if k == 0 {
    } else {
      PathsMeanAgreement(epoch, steps, k - 1);
      ClockedPrefix(epoch, steps, k);
      assert steps[..k][..k - 1] == steps[..k - 1];
      assert AllTrails(Run(START, steps[..k]).db);
      LastKeepsAgreement(epoch, steps[..k]);
    }
  }

  /** Main result. Under a clock that advances, every alert's trail is at all times an unbroken path from
      `open` to its status exactly when the alert's committed classifications and notes agree: there is at
      most one classification, and a note began before it exactly when the note's SELECT came before its
      COMMIT. */
  lemma TrailPathsIff(epoch: Micros, steps: seq<Step>)
    requires Clocked(epoch, steps)
    ensures AlwaysPaths(steps) <==> AllAgree(Log(steps))
  {
    assert steps[..|steps|] == steps;
    if AlwaysPaths(steps) {
      PathsMeanAgreement(epoch, steps, |steps|);
    }
    if AllAgree(Log(steps)) {
      forall k | 0 <= k <= |steps| ensures AllTrails(Run(START, steps[..k]).db) {
        ClockedPrefix(epoch, steps, k);
        RunsKeepChronicle(epoch, steps[..k]);
        LogGrows(steps, k);
        AgreementOfPrefix(Log(steps[..k]), Log(steps));
        AgreementGivesPaths(Run(START, steps[..k]), Clock(epoch, steps[..k]), PastOf(steps[..k]));
      }
    }
  }

  lemma AgreementOfPrefix(short: seq<Entry>, long: seq<Entry>)
    requires short <= long && AllAgree(long)
    ensures AllAgree(short)
  {
    forall i, j | 0 <= i < |short| && 0 <= j < |short| && i != j ensures Agrees(short[i], short[j]) {
      assert Agrees(long[i], long[j]);
    }
  }

  // ---------------------------------------------------------------- overlapping requests, by example

  lemma TwoByTime(x: AuditRow, y: AuditRow)
    requires x.createdAt != y.createdAt
    ensures ByTime([x, y]) == if x.createdAt < y.createdAt then [x, y] else [y, x]
  {
    var rows, sorted := [x, y], if x.createdAt < y.createdAt then [x, y] else [y, x];
    ByTimeSorts(rows);
    assert SameRows(ByTime(rows), sorted) by {
      forall r ensures r in rows <==> r in sorted {
      }
    }
    SortedIsUnique(ByTime(rows), sorted);
  }

  lemma PairIsPath(x: AuditRow, y: AuditRow)
    requires x.fromStatus == Open && x.toStatus == y.fromStatus
    ensures Lifecycle.Path([x, y], y.toStatus)
  {
  }

  lemma PairIsNoPath(x: AuditRow, y: AuditRow, status: Status)
    requires x.toStatus != y.fromStatus
    ensures !Lifecycle.Path([x, y], status)
  {
    var rows := [x, y];
    assert rows[0] == x && rows[1] == y;
  }

  lemma FirstAlertAudit(n: NewAlert)
    requires !n.severity.Unlisted?
    ensures AuditOf(Races.FirstAlert(n), 0) == []
  {
    Lifecycle.InsertHistory(EMPTY_DB, n, 0);
  }

  /** The two rows by id, and the status the alert shows, when the note is written first. */
  lemma NoteThenTriage(db: Db, t: TriageRequest, user: User, text: string, now: Micros, seconds: Option<int>)
    requires 0 in db.alerts && AuditOf(db, 0) == []
    ensures var db' := TriageDb(NoteDb(db, 0, Open, user, text, now), 0, Open, t, seconds);
            && 0 in db'.alerts && db'.alerts[0].status == ToStatus(t.action)
            && AuditOf(db', 0) == [NoteAudit(0, Open, user, text, now), TriageAudit(0, Open, t)]
  {
    WholeNoteHistory(db, 0, Open, user, text, now);
    WholeTriageHistory(NoteDb(db, 0, Open, user, text, now), 0, Open, t, seconds);
  }

  /** The same when the classification is written first, whichever status the note saw. */
  lemma TriageThenNote(db: Db, t: TriageRequest, seen: Status, user: User, text: string, now: Micros,
                       seconds: Option<int>)
    requires 0 in db.alerts && AuditOf(db, 0) == []
    ensures var db' := NoteDb(TriageDb(db, 0, Open, t, seconds), 0, seen, user, text, now);
            && 0 in db'.alerts && db'.alerts[0].status == ToStatus(t.action)
            && AuditOf(db', 0) == [TriageAudit(0, Open, t), NoteAudit(0, seen, user, text, now)]
  {
    WholeTriageHistory(db, 0, Open, t, seconds);
    WholeNoteHistory(TriageDb(db, 0, Open, t, seconds), 0, seen, user, text, now);
  }

  /** Session 1 classifies the alert and session 2 adds a note; both read the alert while it is open. */
  function Overlap(n: NewAlert, t: TriageRequest, user: User, text: string, now: Micros): seq<Step> {
    Races.BothRead(n, t.now, Reads(0, t), now, ReadForNote(0, user, text))
  }

  lemma OverlapRuns(n: NewAlert, t: TriageRequest, user: User, text: string, now: Micros)
    requires !n.severity.Unlisted?
    ensures Run(START, Overlap(n, t, user, text, now))
         == World(Races.FirstAlert(n),
                  map[1 := HasRead(OpenAlert(0, n, 0), t), 2 := NoteRead(0, Open, user, text, now)])
  {
    Races.BothReadRuns(n, t.now, Reads(0, t), now, ReadForNote(0, user, text));
  }

  /** The note commits before the classification does. */
  function NoteInside(n: NewAlert, t: TriageRequest, user: User, text: string, now: Micros): seq<Step> {
    Overlap(n, t, user, text, now) + NoteRest(2) + Rest(1)
  }

  lemma NoteInsideRuns(n: NewAlert, t: TriageRequest, user: User, text: string, now: Micros)
    requires !n.severity.Unlisted? && FitsInt4(RoundedSeconds(t.now))
    ensures Run(START, NoteInside(n, t, user, text, now)).db
         == TriageDb(NoteDb(Races.FirstAlert(n), 0, Open, user, text, now), 0, Open, t, ResponseTime(0, t.now))
  {
    OverlapRuns(n, t, user, text, now);
    var w1 := Run(START, Overlap(n, t, user, text, now));
    NoteRestRuns(w1, 2);
    var w2 := Run(w1, NoteRest(2));
    assert w2.sessions == map[1 := HasRead(OpenAlert(0, n, 0), t)];
    RestRuns(w2, 1);
    RunAppend(START, Overlap(n, t, user, text, now), NoteRest(2));
    RunAppend(START, Overlap(n, t, user, text, now) + NoteRest(2), Rest(1));
  }

  /** A note that began after the classification. Each of the two finds at its COMMIT the status it saw, and
      still the trail that is served is no path: the note, which says `open`, comes after the classification. */
  lemma NoteInsideBreaksPath(n: NewAlert, t: TriageRequest, user: User, text: string, now: Micros)
    requires !n.severity.Unlisted? && FitsInt4(RoundedSeconds(t.now)) && t.now < now
    ensures var db := Run(START, NoteInside(n, t, user, text, now)).db;
            && 0 in db.alerts && db.alerts[0].status == ToStatus(t.action)
            && Trail(db, 0) == [TriageAudit(0, Open, t), NoteAudit(0, Open, user, text, now)]
            && !Lifecycle.Path(Trail(db, 0), db.alerts[0].status)
  {
    NoteInsideRuns(n, t, user, text, now);
    FirstAlertAudit(n);
    NoteThenTriage(Races.FirstAlert(n), t, user, text, now, ResponseTime(0, t.now));
    TwoByTime(NoteAudit(0, Open, user, text, now), TriageAudit(0, Open, t));
    PairIsNoPath(TriageAudit(0, Open, t), NoteAudit(0, Open, user, text, now), ToStatus(t.action));
  }

  /** The same steps with a note that began before the classification: its SELECT lies inside the
      classification all the same, and the trail that is served is a path. */
  lemma NoteReadInsideKeepsPath(n: NewAlert, t: TriageRequest, user: User, text: string, now: Micros)
    requires !n.severity.Unlisted? && FitsInt4(RoundedSeconds(t.now)) && now < t.now
    ensures var db := Run(START, NoteInside(n, t, user, text, now)).db;
            && 0 in db.alerts && db.alerts[0].status == ToStatus(t.action)
            && Trail(db, 0) == [NoteAudit(0, Open, user, text, now), TriageAudit(0, Open, t)]
            && Lifecycle.Path(Trail(db, 0), db.alerts[0].status)
  {
    NoteInsideRuns(n, t, user, text, now);
    FirstAlertAudit(n);
    NoteThenTriage(Races.FirstAlert(n), t, user, text, now, ResponseTime(0, t.now));
    TwoByTime(NoteAudit(0, Open, user, text, now), TriageAudit(0, Open, t));
    PairIsPath(NoteAudit(0, Open, user, text, now), TriageAudit(0, Open, t));
  }

  /** The classification commits between the note's SELECT and its COMMIT. */
  function NoteBefore(n: NewAlert, t: TriageRequest, user: User, text: string, now: Micros): seq<Step> {
    Overlap(n, t, user, text, now) + Rest(1) + NoteRest(2)
  }

  lemma NoteBeforeRuns(n: NewAlert, t: TriageRequest, user: User, text: string, now: Micros)
    requires !n.severity.Unlisted? && FitsInt4(RoundedSeconds(t.now))
    ensures Run(START, NoteBefore(n, t, user, text, now)).db
         == NoteDb(TriageDb(Races.FirstAlert(n), 0, Open, t, ResponseTime(0, t.now)), 0, Open, user, text, now)
  {
    OverlapRuns(n, t, user, text, now);
    var w1 := Run(START, Overlap(n, t, user, text, now));
    RestRuns(w1, 1);
    var w2 := Run(w1, Rest(1));
    assert w2.sessions == map[2 := NoteRead(0, Open, user, text, now)];
    NoteRestRuns(w2, 2);
    RunAppend(START, Overlap(n, t, user, text, now), Rest(1));
    RunAppend(START, Overlap(n, t, user, text, now) + Rest(1), NoteRest(2));
  }

  /** A note that began before the classification, and whose SELECT came before the classification's COMMIT. It
      no longer finds at its own COMMIT the status it saw, and still the trail that is served is a path. */
  lemma NoteBeforeKeepsPath(n: NewAlert, t: TriageRequest, user: User, text: string, now: Micros)
    requires !n.severity.Unlisted? && FitsInt4(RoundedSeconds(t.now)) && now < t.now
    ensures var db := Run(START, NoteBefore(n, t, user, text, now)).db;
            && 0 in db.alerts && db.alerts[0].status == ToStatus(t.action)
            && Trail(db, 0) == [NoteAudit(0, Open, user, text, now), TriageAudit(0, Open, t)]
            && Lifecycle.Path(Trail(db, 0), db.alerts[0].status)
  {
    NoteBeforeRuns(n, t, user, text, now);
    FirstAlertAudit(n);
    TriageThenNote(Races.FirstAlert(n), t, Open, user, text, now, ResponseTime(0, t.now));
    TwoByTime(TriageAudit(0, Open, t), NoteAudit(0, Open, user, text, now));
    PairIsPath(NoteAudit(0, Open, user, text, now), TriageAudit(0, Open, t));
  }

  /** Both sessions have begun; the classification reads the alert, closes it and commits. */
  function TriageAlone(n: NewAlert, t: TriageRequest, now: Micros): seq<Step> {
    Races.Setting(n, t.now, now) + [By(1, Reads(0, t))] + Rest(1)
  }

  lemma TriageAloneRuns(n: NewAlert, t: TriageRequest, now: Micros)
    requires !n.severity.Unlisted? && FitsInt4(RoundedSeconds(t.now))
    ensures Run(START, TriageAlone(n, t, now))
         == World(TriageDb(Races.FirstAlert(n), 0, Open, t, ResponseTime(0, t.now)), map[2 := Begun(now)])
  {
    Races.SettingRuns(n, t.now, now);
    var w := Run(START, Races.Setting(n, t.now, now));
    RunOne(w, By(1, Reads(0, t)));
    var w1 := Run(w, [By(1, Reads(0, t))]);
    assert w1 == World(Races.FirstAlert(n), map[1 := HasRead(OpenAlert(0, n, 0), t), 2 := Begun(now)]);
    RestRuns(w1, 1);
    assert w1.sessions - {1} == map[2 := Begun(now)];
    RunAppend(START, Races.Setting(n, t.now, now), [By(1, Reads(0, t))]);
    RunAppend(START, Races.Setting(n, t.now, now) + [By(1, Reads(0, t))], Rest(1));
  }

  /** The note has begun, but reads the alert when the classification is over. */
  function NoteReadLate(n: NewAlert, t: TriageRequest, user: User, text: string, now: Micros): seq<Step> {
    TriageAlone(n, t, now) + [By(2, ReadForNote(0, user, text))] + NoteRest(2)
  }

  lemma NoteReadLateRuns(n: NewAlert, t: TriageRequest, user: User, text: string, now: Micros)
    requires !n.severity.Unlisted? && FitsInt4(RoundedSeconds(t.now))
    ensures Run(START, NoteReadLate(n, t, user, text, now)).db
         == NoteDb(TriageDb(Races.FirstAlert(n), 0, Open, t, ResponseTime(0, t.now)),
                   0, ToStatus(t.action), user, text, now)
  {
    TriageAloneRuns(n, t, now);
    var w := Run(START, TriageAlone(n, t, now));
    RunOne(w, By(2, ReadForNote(0, user, text)));
    var w1 := Run(w, [By(2, ReadForNote(0, user, text))]);
    assert w1 == World(w.db, map[2 := NoteRead(0, ToStatus(t.action), user, text, now)]);
    NoteRestRuns(w1, 2);
    RunAppend(START, TriageAlone(n, t, now), [By(2, ReadForNote(0, user, text))]);
    RunAppend(START, TriageAlone(n, t, now) + [By(2, ReadForNote(0, user, text))], NoteRest(2));
  }

  /** A note that began before the classification. No SELECT comes between the classification's SELECT and its
      COMMIT, and still the trail that is served is no path: the note, which says that the alert was closed,
      comes before the classification that closed it. */
  lemma NoteReadLateBreaksPath(n: NewAlert, t: TriageRequest, user: User, text: string, now: Micros)
    requires !n.severity.Unlisted? && FitsInt4(RoundedSeconds(t.now)) && now < t.now
    ensures var db := Run(START, NoteReadLate(n, t, user, text, now)).db;
            && 0 in db.alerts && db.alerts[0].status == ToStatus(t.action)
            && Trail(db, 0) == [NoteAudit(0, ToStatus(t.action), user, text, now), TriageAudit(0, Open, t)]
            && !Lifecycle.Path(Trail(db, 0), db.alerts[0].status)
  {
    NoteReadLateRuns(n, t, user, text, now);
    FirstAlertAudit(n);
    TriageThenNote(Races.FirstAlert(n), t, ToStatus(t.action), user, text, now, ResponseTime(0, t.now));
    TwoByTime(TriageAudit(0, Open, t), NoteAudit(0, ToStatus(t.action), user, text, now));
    PairIsNoPath(NoteAudit(0, ToStatus(t.action), user, text, now), TriageAudit(0, Open, t), ToStatus(t.action));
  }

  // ---------------------------------------------------------------- requests one at a time

  function RequestTime(r: Lifecycle.Request): Option<Micros> {
    match r
    case Ingest(_, now) => Some(now)
    case Classify(_, t) => Some(t.now)
    case Note(_, _, _, now) => Some(now)
    case _ => None
  }

  /** The clock advances from each request to the next. */
  ghost predicate Increasing(rs: seq<Lifecycle.Request>) {
    forall i, j :: 0 <= i < j < |rs| && RequestTime(rs[i]).Some? && RequestTime(rs[j]).Some? ==>
      RequestTime(rs[i]).value < RequestTime(rs[j]).value
  }

  /** Audit rows by id are audit rows by time, and all before `bound`. */
  ghost predicate InOrder(slots: Slots<AuditRow>, bound: Micros) {
    && (forall i, j :: 0 <= i < j < |slots| && slots[i].Some? && slots[j].Some? ==>
          slots[i].value.createdAt < slots[j].value.createdAt)
    && (forall i :: 0 <= i < |slots| && slots[i].Some? ==> slots[i].value.createdAt < bound)
  }

  lemma StepInOrder(db: Db, r: Lifecycle.Request, before: Micros, bound: Micros)
    requires InOrder(db.audit, before) && before <= bound
    requires RequestTime(r).Some? ==> before <= RequestTime(r).value < bound
    ensures InOrder(Lifecycle.Step(db, r).audit, bound)
  {
  }

  lemma {:induction false} RunsInOrder(rs: seq<Lifecycle.Request>, bound: Micros)
    requires Increasing(rs)
    requires forall i :: 0 <= i < |rs| && RequestTime(rs[i]).Some? ==> RequestTime(rs[i]).value < bound
    ensures InOrder(Lifecycle.Run(rs).audit, bound)
  {
    if rs == [] {
    } else {
      var n := |rs| - 1;
      var before := if RequestTime(rs[n]).Some? then RequestTime(rs[n]).value else bound;
      RunsInOrder(rs[..n], before);
      StepInOrder(Lifecycle.Run(rs[..n]), rs[n], before, bound);
    }
  }

  lemma {:induction false} RowsInOrder(slots: Slots<AuditRow>, bound: Micros, id: nat)
    requires InOrder(slots, bound)
    ensures Sorted(RowsOf(slots, AuditKey, id))
  {
    if slots == [] {
    } else {
      var before := slots[..|slots| - 1];
      RowsInOrder(before, bound, id);
      RowsOfMembers(before, AuditKey, id);
      var rows := RowsOf(before, AuditKey, id);
      forall i | 0 <= i < |rows| && slots[|slots| - 1].Some?
        ensures rows[i].createdAt < slots[|slots| - 1].value.createdAt
      {
        assert rows[i] in rows;
        var k :| 0 <= k < |before| && before[k] == Some(rows[i]);
        assert slots[k] == Some(rows[i]);
      }
    }
  }

  function Bound(rs: seq<Lifecycle.Request>): Micros {
    if rs == [] then 0
    else
      var rest, t := Bound(rs[..|rs| - 1]), RequestTime(rs[|rs| - 1]);
      if t.Some? && t.value >= rest then t.value + 1 else rest
  }

  lemma {:induction false} BoundBounds(rs: seq<Lifecycle.Request>)
    ensures forall i :: 0 <= i < |rs| && RequestTime(rs[i]).Some? ==> RequestTime(rs[i]).value < Bound(rs)
  {
    if rs == [] {
    } else {
      BoundBounds(rs[..|rs| - 1]);
    }
  }

  /** Requests that do not overlap, under a clock that advances, leave every alert a trail that is an
      unbroken path from `open` to its status. */
  lemma WholeRequestTrails(rs: seq<Lifecycle.Request>, id: nat)
    requires Increasing(rs) && id in Lifecycle.Run(rs).alerts
    ensures Lifecycle.Path(Trail(Lifecycle.Run(rs), id), Lifecycle.Run(rs).alerts[id].status)
  {
    BoundBounds(rs);
    RunsInOrder(rs, Bound(rs));
    RowsInOrder(Lifecycle.Run(rs).audit, Bound(rs), id);
    Lifecycle.RunsAreSerial(rs);
    assert Lifecycle.Story(Lifecycle.Run(rs), id);
    var rows := AuditOf(Lifecycle.Run(rs), id);
    ByTimeSorts(rows);
    SortedIsUnique(ByTime(rows), rows);
  }

  // ---------------------------------------------------------------- notes are served in plaintext

  /** The reply of the audit endpoint: each note decrypted. */
  function Served(f: Option<Crypto.Fernet>, rows: seq<AuditRow>): seq<AuditRow> {
    seq(|rows|, i requires 0 <= i < |rows| => rows[i].(note := Crypto.DecryptField(f, rows[i].note)))
  }

  /** A note that AddNote stored comes back as it was written, in its alert's trail, with the user who wrote it
      and the status the alert had. */
  lemma NoteIsServed(f: Option<Crypto.Fernet>, before: Db, after: Db, id: nat, user: User, text: string, nonce: nat,
                     now: Micros)
    returns (p: nat)
    requires f.Some? ==> Crypto.Lawful(f.value)
    requires Effects.NoteEffect(f, before, after, id, user, text, nonce, now) && DistinctSlots(after.audit)
    ensures p < |Served(f, Trail(after, id))|
    ensures Effects.NoteSays(Served(f, Trail(after, id))[p], id, user, before.alerts[id].status, now)
    ensures Served(f, Trail(after, id))[p].note == Some(text)
  {
    var row := after.audit[|before.audit|].value;
    TrailRows(after, id);
    assert Some(row) in after.audit;
    p :| 0 <= p < |Trail(after, id)| && Trail(after, id)[p] == row;
    Effects.KeptReadsBack(f, Some(text), row.note, nonce);
  }
}
