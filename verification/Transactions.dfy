/** What each transaction writes to the four tables once it commits, and the integrity every
    committed state has, however requests interleave. */
module Transactions {
  import opened Common
  import opened Schema
  import opened Tables

  /** The parameters of INSERT INTO alerts. */
  datatype NewAlert = NewAlert(
    title: string, category: string, severity: Severity, source: Option<string>, sourceIp: Option<string>,
    description: Option<string>, workflowRunId: Option<string>, runMetadata: Option<string>)

  /** One classification: who triaged how, and when its transaction began. */
  datatype TriageRequest = TriageRequest(analyst: string, action: Action, user: User, now: Micros)

  function ActionKey(r: ActionRow): Option<nat> { Some(r.alertId) }
  function AuditKey(r: AuditRow): Option<nat> { Some(r.alertId) }
  function TriageKey(r: AuditRow): Option<nat> { if r.action.Triage? then Some(r.alertId) else None }

  /** An alert's rows in the order of their serial ids. */
  function ActionsOf(db: Db, id: nat): seq<ActionRow> { RowsOf(db.actions, ActionKey, id) }
  function AuditOf(db: Db, id: nat): seq<AuditRow> { RowsOf(db.audit, AuditKey, id) }
  function TriagesOf(db: Db, id: nat): seq<AuditRow> { RowsOf(db.audit, TriageKey, id) }

  // ---------------------------------------------------------------- serial ids

  function Unused<R>(n: nat): Slots<R> { seq(n, _ => None) }

  function DrawAlert(db: Db): Db { db.(nextAlert := db.nextAlert + 1) }
  function DrawAction(db: Db): Db { db.(actions := db.actions + [None]) }
  function DrawAudit(db: Db): Db { db.(audit := db.audit + [None]) }

  /** Ids that a failed request has used up; ROLLBACK never hands them back. */
  datatype Drawn = Drawn(alerts: nat, actions: nat, audit: nat)

  function Burn(db: Db, d: Drawn): Db {
    db.(nextAlert := db.nextAlert + d.alerts, actions := db.actions + Unused(d.actions),
        audit := db.audit + Unused(d.audit))
  }

  // ---------------------------------------------------------------- what is written

  function OpenAlert(id: nat, n: NewAlert, now: Micros): Alert {
    Alert(id, n.title, n.category, n.severity, n.source, n.sourceIp, n.description, now, Open,
          None, n.workflowRunId, n.runMetadata)
  }

  function WriteAlert(db: Db, alert: Alert): Db { db.(alerts := db.alerts[alert.id := alert]) }

  function InsertAlertDb(db: Db, n: NewAlert, now: Micros): Db {
    WriteAlert(DrawAlert(db), OpenAlert(db.nextAlert, n, now))
  }

  /** INSERT .. ON CONFLICT (alert_id) DO UPDATE. */
  function Upsert(rows: seq<EmbeddingRow>, row: EmbeddingRow): seq<EmbeddingRow> {
    if rows == [] then [row]
    else if rows[|rows| - 1].alertId == row.alertId then rows[..|rows| - 1] + [row]
    else Upsert(rows[..|rows| - 1], row) + [rows[|rows| - 1]]
  }

  /** The foreign key rejects an embedding whose alert is gone; the handler logs and goes on. */
  function EmbedDb(db: Db, id: nat, embedding: string): Db {
    if id in db.alerts then db.(embeddings := Upsert(db.embeddings, EmbeddingRow(id, embedding))) else db
  }

  function TriageAction(id: nat, t: TriageRequest, seconds: Option<int>): ActionRow {
    ActionRow(id, t.analyst, t.action, t.now, seconds)
  }

  function TriageAudit(id: nat, seen: Status, t: TriageRequest): AuditRow {
    AuditRow(id, t.user, Triage(t.action), seen, ToStatus(t.action), None, t.now)
  }

  function NoteAudit(id: nat, seen: Status, user: User, note: string, now: Micros): AuditRow {
    AuditRow(id, user, NoteAdded, seen, seen, Some(note), now)
  }

  /** UPDATE alerts, INSERT INTO analyst_actions and INSERT INTO audit_log, for a transaction whose SELECT
      saw the status `seen` and whose INSERTs drew these ids. The UPDATE rewrites two columns. */
  function WriteTriage(db: Db, id: nat, seen: Status, t: TriageRequest, seconds: Option<int>, actionId: nat,
                       auditId: nat): Db
    requires id in db.alerts && actionId < |db.actions| && auditId < |db.audit|
  {
    db.(alerts := db.alerts[id := db.alerts[id].(status := ToStatus(t.action), assignedTo := Some(t.analyst))],
        actions := db.actions[actionId := Some(TriageAction(id, t, seconds))],
        audit := db.audit[auditId := Some(TriageAudit(id, seen, t))])
  }

  function TriageDb(db: Db, id: nat, seen: Status, t: TriageRequest, seconds: Option<int>): Db
    requires id in db.alerts
  {
    WriteTriage(DrawAudit(DrawAction(db)), id, seen, t, seconds, |db.actions|, |db.audit|)
  }

  function WriteNote(db: Db, row: AuditRow, auditId: nat): Db
    requires auditId < |db.audit|
  {
    db.(audit := db.audit[auditId := Some(row)])
  }

  function NoteDb(db: Db, id: nat, seen: Status, user: User, note: string, now: Micros): Db {
    WriteNote(DrawAudit(db), NoteAudit(id, seen, user, note, now), |db.audit|)
  }

  function Expired(db: Db, cutoff: Micros): set<nat> {
    set id | id in db.alerts && db.alerts[id].createdAt < cutoff
  }

  function DropRows(rows: seq<EmbeddingRow>, dead: set<nat>): seq<EmbeddingRow> {
    if rows == [] then []
    else
      var last := rows[|rows| - 1];
      DropRows(rows[..|rows| - 1], dead) + if last.alertId in dead then [] else [last]
  }

  /** DELETE of these alerts, with ON DELETE CASCADE in the three child tables. */
  function RemoveDb(db: Db, dead: set<nat>): Db {
    db.(alerts := db.alerts - dead,
        actions := Cascade(db.actions, ActionKey, dead),
        audit := Cascade(db.audit, AuditKey, dead),
        embeddings := DropRows(db.embeddings, dead))
  }

  function PurgeDb(db: Db, cutoff: Micros): Db { RemoveDb(db, Expired(db, cutoff)) }

  // ---------------------------------------------------------------- integrity

  ghost predicate OnePerAlert(rows: seq<EmbeddingRow>) {
    forall i, j :: 0 <= i < j < |rows| ==> rows[i].alertId != rows[j].alertId
  }

  /** No row of a child table refers to an alert that is not there. */
  ghost predicate NoDangling(db: Db) {
    && (forall i :: 0 <= i < |db.actions| && db.actions[i].Some? ==> db.actions[i].value.alertId in db.alerts)
    && (forall i :: 0 <= i < |db.audit| && db.audit[i].Some? ==> db.audit[i].value.alertId in db.alerts)
    && (forall i :: 0 <= i < |db.embeddings| ==> db.embeddings[i].alertId in db.alerts)
  }

  /** Primary keys, the severity CHECK, no dangling alert_id, and one embedding per alert. */
  ghost predicate Sound(db: Db) {
    && (forall id :: id in db.alerts ==>
          db.alerts[id].id == id && id < db.nextAlert && !db.alerts[id].severity.Unlisted?)
    && NoDangling(db)
    && OnePerAlert(db.embeddings)
  }

  /** The action rows of an alert and the classification rows of its audit log, each by serial id, are the
      same classifications in the same order, each made from `open`, and the alert shows the last one. */
  ghost predicate Paired(db: Db, id: nat)
    requires id in db.alerts
  {
    var acts, tri, alert := ActionsOf(db, id), TriagesOf(db, id), db.alerts[id];
    && |acts| == |tri|
    && (forall i :: 0 <= i < |acts| ==>
          && tri[i].action == Triage(acts[i].action)
          && tri[i].fromStatus == Open
          && tri[i].toStatus == ToStatus(acts[i].action))
    && (acts == [] ==> alert.status == Open && alert.assignedTo == None)
    && (acts != [] ==> alert.status == ToStatus(acts[|acts| - 1].action)
                       && alert.assignedTo == Some(acts[|acts| - 1].analyst))
  }

  ghost predicate AllPaired(db: Db) {
    forall id :: id in db.alerts ==> Paired(db, id)
  }

  ghost predicate NotesLoop(db: Db) {
    forall i :: 0 <= i < |db.audit| && db.audit[i].Some? && db.audit[i].value.action.NoteAdded? ==>
      db.audit[i].value.fromStatus == db.audit[i].value.toStatus
  }

  /** What every committed state satisfies under any interleaving. */
  ghost predicate Integrity(db: Db) {
    Sound(db) && AllPaired(db) && NotesLoop(db)
  }

  /** An alert's row and the rows that refer to it are the same in both states. */
  ghost predicate SameHistory(db: Db, db': Db, id: nat)
    requires id in db.alerts && id in db'.alerts
  {
    && db'.alerts[id] == db.alerts[id]
    && ActionsOf(db', id) == ActionsOf(db, id)
    && TriagesOf(db', id) == TriagesOf(db, id)
    && AuditOf(db', id) == AuditOf(db, id)
  }

  lemma PairedByHistory(db: Db, db': Db, id: nat)
    requires id in db.alerts && id in db'.alerts && Paired(db, id) && SameHistory(db, db', id)
    ensures Paired(db', id)
  {
  }

  /** Every alert of the later state was there before, with the same history. */
  ghost predicate Inherited(db: Db, db': Db) {
    forall id :: id in db'.alerts ==> id in db.alerts && SameHistory(db, db', id)
  }

  lemma InheritedPairs(db: Db, db': Db)
    requires AllPaired(db) && Inherited(db, db')
    ensures AllPaired(db')
  {
    forall id | id in db'.alerts ensures Paired(db', id) {
      PairedByHistory(db, db', id);
    }
  }

  // ---------------------------------------------------------------- drawing ids

  lemma {:induction false} RowsOfUnused<R>(slots: Slots<R>, n: nat, key: R -> Option<nat>, id: nat)
    ensures RowsOf(slots + Unused(n), key, id) == RowsOf(slots, key, id)
  {
    if n == 0 {
      assert slots + Unused(0) == slots;
    } else {
      RowsOfUnused(slots, n - 1, key, id);
      RowsOfAppend(slots + Unused(n - 1), None, key, id);
      assert slots + Unused(n) == slots + Unused(n - 1) + [None];
    }
  }

  /** Using up ids changes no alert's row or history. */
  lemma BurnHistory(db: Db, d: Drawn)
    ensures Inherited(db, Burn(db, d))
  {
    forall id | id in db.alerts ensures SameHistory(db, Burn(db, d), id) {
      RowsOfUnused(db.actions, d.actions, ActionKey, id);
      RowsOfUnused(db.audit, d.audit, TriageKey, id);
      RowsOfUnused(db.audit, d.audit, AuditKey, id);
    }
  }

  lemma BurnKeepsIntegrity(db: Db, d: Drawn)
    requires Integrity(db)
    ensures Integrity(Burn(db, d))
  {
    BurnHistory(db, d);
    InheritedPairs(db, Burn(db, d));
  }

  lemma DrawsAreBurnt(db: Db)
    ensures DrawAlert(db) == Burn(db, Drawn(1, 0, 0))
    ensures DrawAction(db) == Burn(db, Drawn(0, 1, 0))
    ensures DrawAudit(db) == Burn(db, Drawn(0, 0, 1))
  {
    assert Unused<ActionRow>(1) == [None] && Unused<AuditRow>(1) == [None];
    assert db.actions + Unused(0) == db.actions && db.audit + Unused(0) == db.audit;
  }

  // ---------------------------------------------------------------- ingest

  /** An alert whose id no other row carries. */
  ghost predicate FreshAlert(db: Db, alert: Alert) {
    && alert.id < db.nextAlert && alert.id !in db.alerts
    && alert.status == Open && alert.assignedTo == None && !alert.severity.Unlisted?
  }

  /** A fresh alert has no history and disturbs no other alert's. */
  lemma AlertHistory(db: Db, alert: Alert)
    requires Sound(db) && FreshAlert(db, alert)
    ensures var db' := WriteAlert(db, alert);
            && ActionsOf(db', alert.id) == [] && TriagesOf(db', alert.id) == [] && AuditOf(db', alert.id) == []
            && forall id :: id in db.alerts ==> SameHistory(db, db', id)
  {
    RowsOfAbsent(db.actions, ActionKey, alert.id);
    RowsOfAbsent(db.audit, TriageKey, alert.id);
    RowsOfAbsent(db.audit, AuditKey, alert.id);
  }

  lemma AlertKeepsPaired(db: Db, alert: Alert)
    requires Sound(db) && AllPaired(db) && FreshAlert(db, alert)
    ensures AllPaired(WriteAlert(db, alert))
  {
    var db' := WriteAlert(db, alert);
    AlertHistory(db, alert);
    forall id | id in db'.alerts ensures Paired(db', id) {
      if id != alert.id {
        PairedByHistory(db, db', id);
      }
    }
  }

  lemma AlertKeepsIntegrity(db: Db, alert: Alert)
    requires Integrity(db) && FreshAlert(db, alert)
    ensures Integrity(WriteAlert(db, alert))
  {
    AlertKeepsPaired(db, alert);
  }

  // ---------------------------------------------------------------- embeddings

  lemma {:induction false} UpsertRows(rows: seq<EmbeddingRow>, row: EmbeddingRow)
    requires OnePerAlert(rows)
    ensures OnePerAlert(Upsert(rows, row))
    ensures forall r :: r in Upsert(rows, row) <==> r == row || (r in rows && r.alertId != row.alertId)
  {
    if rows == [] {
    } else {
      var before, last := rows[..|rows| - 1], rows[|rows| - 1];
      assert rows == before + [last];
      if last.alertId != row.alertId {
        UpsertRows(before, row);
        assert forall r :: r in before ==> r.alertId != last.alertId;
        assert forall r :: r in Upsert(before, row) ==> r.alertId != last.alertId;
      }
    }
  }

  lemma EmbedIsSound(db: Db, id: nat, embedding: string)
    requires Sound(db)
    ensures Sound(EmbedDb(db, id, embedding))
  {
    var row := EmbeddingRow(id, embedding);
    UpsertRows(db.embeddings, row);
    var rows := Upsert(db.embeddings, row);
    forall i | 0 <= i < |rows| && id in db.alerts ensures rows[i].alertId in db.alerts {
      assert rows[i] in rows;
    }
  }

  lemma EmbedKeepsIntegrity(db: Db, id: nat, embedding: string)
    requires Integrity(db)
    ensures Integrity(EmbedDb(db, id, embedding))
  {
    EmbedIsSound(db, id, embedding);
    InheritedPairs(db, EmbedDb(db, id, embedding));
  }

  // ---------------------------------------------------------------- classify

  /** The ids a classification drew, not overtaken by another classification of the same alert: what the
      row lock provides between INSERT and COMMIT. */
  ghost predicate Undisturbed(db: Db, id: nat, actionId: nat, auditId: nat) {
    Latest(db.actions, ActionKey, id, actionId) && Latest(db.audit, TriageKey, id, auditId)
  }

  lemma TriageRows(db: Db, id: nat, seen: Status, t: TriageRequest, seconds: Option<int>, actionId: nat,
                   auditId: nat, a: nat)
    requires id in db.alerts && Undisturbed(db, id, actionId, auditId)
    ensures var db' := WriteTriage(db, id, seen, t, seconds, actionId, auditId);
            && ActionsOf(db', a) == ActionsOf(db, a) + (if a == id then [TriageAction(id, t, seconds)] else [])
            && TriagesOf(db', a) == TriagesOf(db, a) + (if a == id then [TriageAudit(id, seen, t)] else [])
            && (a != id ==> AuditOf(db', a) == AuditOf(db, a))
  {
    RowsOfFill(db.actions, actionId, TriageAction(id, t, seconds), ActionKey, a);
    RowsOfFill(db.audit, auditId, TriageAudit(id, seen, t), TriageKey, a);
    if a != id {
      RowsOfFill(db.audit, auditId, TriageAudit(id, seen, t), AuditKey, a);
    }
  }

  /** A triage appends to one alert's classifications and to no other's. */
  lemma TriageHistory(db: Db, id: nat, seen: Status, t: TriageRequest, seconds: Option<int>, actionId: nat,
                      auditId: nat)
    requires id in db.alerts && Undisturbed(db, id, actionId, auditId)
    ensures var db' := WriteTriage(db, id, seen, t, seconds, actionId, auditId);
            && ActionsOf(db', id) == ActionsOf(db, id) + [TriageAction(id, t, seconds)]
            && TriagesOf(db', id) == TriagesOf(db, id) + [TriageAudit(id, seen, t)]
            && forall a :: a in db.alerts && a != id ==> SameHistory(db, db', a)
  {
    TriageRows(db, id, seen, t, seconds, actionId, auditId, id);
    forall a | a in db.alerts && a != id
      ensures SameHistory(db, WriteTriage(db, id, seen, t, seconds, actionId, auditId), a)
    {
      TriageRows(db, id, seen, t, seconds, actionId, auditId, a);
    }
  }

  lemma TriagePairs(db: Db, id: nat, t: TriageRequest, seconds: Option<int>, actionId: nat, auditId: nat)
    requires id in db.alerts && Paired(db, id) && Undisturbed(db, id, actionId, auditId)
    ensures Paired(WriteTriage(db, id, Open, t, seconds, actionId, auditId), id)
  {
    TriageRows(db, id, Open, t, seconds, actionId, auditId, id);
  }

  lemma TriageKeepsPaired(db: Db, id: nat, t: TriageRequest, seconds: Option<int>, actionId: nat, auditId: nat)
    requires AllPaired(db) && id in db.alerts && Undisturbed(db, id, actionId, auditId)
    ensures AllPaired(WriteTriage(db, id, Open, t, seconds, actionId, auditId))
  {
    var db' := WriteTriage(db, id, Open, t, seconds, actionId, auditId);
    TriageHistory(db, id, Open, t, seconds, actionId, auditId);
    forall a | a in db'.alerts ensures Paired(db', a) {
      if a == id {
        TriagePairs(db, id, t, seconds, actionId, auditId);
      } else {
        PairedByHistory(db, db', a);
      }
    }
  }

  lemma TriageIsSound(db: Db, id: nat, t: TriageRequest, seconds: Option<int>, actionId: nat, auditId: nat)
    requires Sound(db) && id in db.alerts && actionId < |db.actions| && auditId < |db.audit|
    ensures Sound(WriteTriage(db, id, Open, t, seconds, actionId, auditId))
  {
  }

  lemma TriageKeepsIntegrity(db: Db, id: nat, t: TriageRequest, seconds: Option<int>, actionId: nat, auditId: nat)
    requires Integrity(db) && id in db.alerts && Undisturbed(db, id, actionId, auditId)
    ensures Integrity(WriteTriage(db, id, Open, t, seconds, actionId, auditId))
  {
    TriageIsSound(db, id, t, seconds, actionId, auditId);
    TriageKeepsPaired(db, id, t, seconds, actionId, auditId);
  }

  /** Ids drawn with nobody in between are not overtaken. */
  lemma DrawnNow(db: Db, id: nat)
    ensures Undisturbed(DrawAudit(DrawAction(db)), id, |db.actions|, |db.audit|)
    ensures Latest(DrawAudit(DrawAction(db)).audit, AuditKey, id, |db.audit|)
    ensures forall a :: ActionsOf(DrawAudit(DrawAction(db)), a) == ActionsOf(db, a)
                     && TriagesOf(DrawAudit(DrawAction(db)), a) == TriagesOf(db, a)
                     && AuditOf(DrawAudit(DrawAction(db)), a) == AuditOf(db, a)
  {
    forall a: nat
      ensures ActionsOf(DrawAudit(DrawAction(db)), a) == ActionsOf(db, a)
      ensures TriagesOf(DrawAudit(DrawAction(db)), a) == TriagesOf(db, a)
      ensures AuditOf(DrawAudit(DrawAction(db)), a) == AuditOf(db, a)
    {
      RowsOfAppend(db.actions, None, ActionKey, a);
      RowsOfAppend(db.audit, None, TriageKey, a);
      RowsOfAppend(db.audit, None, AuditKey, a);
    }
  }

  /** A whole classification, with nobody in between, appends one row to each of its alert's histories. */
  lemma WholeTriageHistory(db: Db, id: nat, seen: Status, t: TriageRequest, seconds: Option<int>)
    requires id in db.alerts
    ensures var db' := TriageDb(db, id, seen, t, seconds);
            && ActionsOf(db', id) == ActionsOf(db, id) + [TriageAction(id, t, seconds)]
            && TriagesOf(db', id) == TriagesOf(db, id) + [TriageAudit(id, seen, t)]
            && AuditOf(db', id) == AuditOf(db, id) + [TriageAudit(id, seen, t)]
            && forall a :: a in db.alerts && a != id ==> SameHistory(db, db', a)
  {
    var drawn := DrawAudit(DrawAction(db));
    DrawnNow(db, id);
    TriageHistory(drawn, id, seen, t, seconds, |db.actions|, |db.audit|);
    RowsOfFill(drawn.audit, |db.audit|, TriageAudit(id, seen, t), AuditKey, id);
    var db' := TriageDb(db, id, seen, t, seconds);
    forall a | a in db.alerts && a != id ensures SameHistory(db, db', a) {
      assert SameHistory(drawn, db', a);
    }
  }

  lemma WholeTriageKeepsIntegrity(db: Db, id: nat, t: TriageRequest, seconds: Option<int>)
    requires Integrity(db) && id in db.alerts
    ensures Integrity(TriageDb(db, id, Open, t, seconds))
  {
    DrawsAreBurnt(db);
    DrawsAreBurnt(DrawAction(db));
    BurnKeepsIntegrity(db, Drawn(0, 1, 0));
    BurnKeepsIntegrity(DrawAction(db), Drawn(0, 0, 1));
    DrawnNow(db, id);
    TriageKeepsIntegrity(DrawAudit(DrawAction(db)), id, t, seconds, |db.actions|, |db.audit|);
  }

  // ---------------------------------------------------------------- notes

  /** A note adds one row to its alert's audit log and leaves every classification as it was. */
  lemma NoteHistory(db: Db, row: AuditRow, auditId: nat)
    requires auditId < |db.audit| && db.audit[auditId] == None && row.action == NoteAdded
    ensures var db' := WriteNote(db, row, auditId);
            && db'.alerts == db.alerts
            && (forall a :: ActionsOf(db', a) == ActionsOf(db, a) && TriagesOf(db', a) == TriagesOf(db, a))
            && (forall a :: a != row.alertId ==> AuditOf(db', a) == AuditOf(db, a))
            && (forall r :: r in AuditOf(db', row.alertId) <==> r in AuditOf(db, row.alertId) || r == row)
  {
    var db' := WriteNote(db, row, auditId);
    forall a: nat
      ensures TriagesOf(db', a) == TriagesOf(db, a)
      ensures a != row.alertId ==> AuditOf(db', a) == AuditOf(db, a)
    {
      RowsOfFill(db.audit, auditId, row, TriageKey, a);
      if a != row.alertId {
        RowsOfFill(db.audit, auditId, row, AuditKey, a);
      }
    }
    RowsOfMembers(db.audit, AuditKey, row.alertId);
    RowsOfMembers(db'.audit, AuditKey, row.alertId);
    FilledMembers(db.audit, auditId, row);
  }

  lemma FilledMembers<R>(slots: Slots<R>, k: nat, row: R)
    requires k < |slots| && slots[k] == None
    ensures forall r :: Some(r) in slots[k := Some(row)] <==> Some(r) in slots || r == row
  {
    var filled := slots[k := Some(row)];
    forall r ensures Some(r) in filled <==> Some(r) in slots || r == row {
      if Some(r) in slots {
        var i :| 0 <= i < |slots| && slots[i] == Some(r);
        assert filled[i] == Some(r);
      }
      assert filled[k] == Some(row);
    }
  }

  lemma NoteKeepsIntegrity(db: Db, row: AuditRow, auditId: nat)
    requires Integrity(db) && row.alertId in db.alerts && row.fromStatus == row.toStatus
    requires auditId < |db.audit| && db.audit[auditId] == None && row.action == NoteAdded
    ensures Integrity(WriteNote(db, row, auditId))
  {
    NoteHistory(db, row, auditId);
    var db' := WriteNote(db, row, auditId);
    forall a | a in db'.alerts ensures Paired(db', a) {
      assert Paired(db, a);
    }
  }

  lemma WholeNoteHistory(db: Db, id: nat, seen: Status, user: User, note: string, now: Micros)
    ensures var db' := NoteDb(db, id, seen, user, note, now);
            && AuditOf(db', id) == AuditOf(db, id) + [NoteAudit(id, seen, user, note, now)]
            && (forall a :: ActionsOf(db', a) == ActionsOf(db, a) && TriagesOf(db', a) == TriagesOf(db, a))
            && (forall a :: a != id ==> AuditOf(db', a) == AuditOf(db, a))
  {
    var drawn, row := DrawAudit(db), NoteAudit(id, seen, user, note, now);
    forall a: nat
      ensures TriagesOf(drawn, a) == TriagesOf(db, a) && AuditOf(drawn, a) == AuditOf(db, a)
    {
      RowsOfAppend(db.audit, None, TriageKey, a);
      RowsOfAppend(db.audit, None, AuditKey, a);
    }
    NoteHistory(drawn, row, |db.audit|);
    RowsOfFill(drawn.audit, |db.audit|, row, AuditKey, id);
  }

  lemma WholeNoteKeepsIntegrity(db: Db, id: nat, seen: Status, user: User, note: string, now: Micros)
    requires Integrity(db) && id in db.alerts
    ensures Integrity(NoteDb(db, id, seen, user, note, now))
  {
    DrawsAreBurnt(db);
    BurnKeepsIntegrity(db, Drawn(0, 0, 1));
    NoteKeepsIntegrity(DrawAudit(db), NoteAudit(id, seen, user, note, now), |db.audit|);
  }

  // ---------------------------------------------------------------- purge

  lemma {:induction false} DroppedRows(rows: seq<EmbeddingRow>, dead: set<nat>)
    requires OnePerAlert(rows)
    ensures OnePerAlert(DropRows(rows, dead))
    ensures forall r :: r in DropRows(rows, dead) <==> r in rows && r.alertId !in dead
  {
    if rows == [] {
    } else {
      var before, last := rows[..|rows| - 1], rows[|rows| - 1];
      DroppedRows(before, dead);
      assert rows == before + [last];
      assert forall r :: r in before ==> r.alertId != last.alertId;
    }
  }

  /** A DELETE removes exactly these alerts; the survivors keep their histories. */
  lemma RemoveHistory(db: Db, dead: set<nat>)
    ensures Inherited(db, RemoveDb(db, dead))
    ensures forall id :: id in RemoveDb(db, dead).alerts <==> id in db.alerts && id !in dead
  {
    var db' := RemoveDb(db, dead);
    forall id: nat | id in db'.alerts ensures SameHistory(db, db', id) {
      RowsOfCascade(db.actions, ActionKey, ActionKey, id, dead);
      RowsOfCascade(db.audit, AuditKey, AuditKey, id, dead);
      RowsOfCascade(db.audit, TriageKey, AuditKey, id, dead);
    }
  }

  /** A purge removes exactly the alerts older than the cutoff; the survivors keep their histories. */
  lemma PurgeHistory(db: Db, cutoff: Micros)
    ensures var db' := PurgeDb(db, cutoff);
            && (forall id :: id in db'.alerts <==> id in db.alerts && db.alerts[id].createdAt >= cutoff)
            && Inherited(db, db')
  {
    RemoveHistory(db, Expired(db, cutoff));
  }

  lemma RemoveIsSound(db: Db, dead: set<nat>)
    requires Sound(db)
    ensures Sound(RemoveDb(db, dead))
  {
    DroppedRows(db.embeddings, dead);
    var rows := DropRows(db.embeddings, dead);
    forall i | 0 <= i < |rows| ensures rows[i].alertId in db.alerts - dead {
      assert rows[i] in rows;
    }
    var db' := RemoveDb(db, dead);
    forall i | 0 <= i < |db'.actions| && db'.actions[i].Some? ensures db'.actions[i].value.alertId in db'.alerts {
      assert db'.actions[i] == db.actions[i] && ActionKey(db.actions[i].value) == Some(db.actions[i].value.alertId);
    }
    forall i | 0 <= i < |db'.audit| && db'.audit[i].Some? ensures db'.audit[i].value.alertId in db'.alerts {
      assert db'.audit[i] == db.audit[i] && AuditKey(db.audit[i].value) == Some(db.audit[i].value.alertId);
    }
  }

  lemma RemoveKeepsIntegrity(db: Db, dead: set<nat>)
    requires Integrity(db)
    ensures Integrity(RemoveDb(db, dead))
  {
    RemoveIsSound(db, dead);
    RemoveHistory(db, dead);
    InheritedPairs(db, RemoveDb(db, dead));
  }
}
