/** What a request leaves in the tables, column by column and in terms of what was sent. */
module Effects {
  import opened Common
  import opened Schema
  import opened Tables
  import opened Transactions
  import opened Crypto

  // ---------------------------------------------------------------- single rows

  /** A sensitive text as it is stored: encrypted if there is a key, and as it was sent if there is none. */
  ghost predicate Kept(f: Option<Fernet>, sent: Option<string>, stored: Option<string>, nonce: nat) {
    && (f == None || sent == None ==> stored == sent)
    && (f.Some? && sent.Some? ==> stored == Some(f.value.encrypt(sent.value, nonce)))
  }

  ghost predicate HasColumns(f: Option<Fernet>, row: Alert, sent: NewAlert, nonces: (nat, nat, nat), now: Micros) {
    && row.status == Open && row.assignedTo == None && row.createdAt == now
    && row.category == sent.category && row.severity == sent.severity && row.source == sent.source
    && row.workflowRunId == sent.workflowRunId && row.runMetadata == sent.runMetadata
    && Kept(f, Some(sent.title), Some(row.title), nonces.0)
    && Kept(f, sent.sourceIp, row.sourceIp, nonces.1)
    && Kept(f, sent.description, row.description, nonces.2)
  }

  /** A reply with the columns in plaintext. */
  ghost predicate ShowsSent(row: Alert, sent: NewAlert) {
    && row.title == sent.title && row.category == sent.category && row.severity == sent.severity
    && row.source == sent.source && row.sourceIp == sent.sourceIp && row.description == sent.description
    && row.workflowRunId == sent.workflowRunId && row.runMetadata == sent.runMetadata
  }

  ghost predicate IsVerdict(status: Status, action: Action) {
    && (action == ClassifyTp ==> status == TruePositive)
    && (action == ClassifyFp ==> status == FalsePositive)
    && (action == Escalate ==> status == Escalated)
  }

  /** The nearest whole number of seconds, halves up, and 0 for a negative time. */
  ghost predicate NearestSeconds(seconds: int, us: Micros) {
    && (us >= 0 ==> 2_000_000 * seconds - 1_000_000 <= 2 * us < 2_000_000 * seconds + 1_000_000)
    && (us < 0 ==> seconds == 0)
  }

  /** What analyst_actions says about a classification. */
  ghost predicate ActionSays(row: ActionRow, id: nat, analyst: string, action: Action, now: Micros,
                             createdAt: Micros)
  {
    && row.alertId == id && row.analyst == analyst && row.action == action && row.actedAt == now
    && row.responseSeconds.Some? && NearestSeconds(row.responseSeconds.value, now - createdAt)
  }

  /** What audit_log says about it. */
  ghost predicate AuditSays(row: AuditRow, id: nat, user: User, action: Action, now: Micros) {
    && row.alertId == id && row.user.id == user.id && row.user.name == user.name
    && row.action == Triage(action) && row.fromStatus == Open && IsVerdict(row.toStatus, action)
    && row.note == None && row.createdAt == now
  }

  ghost predicate NoteSays(row: AuditRow, id: nat, user: User, seen: Status, now: Micros) {
    && row.alertId == id && row.user.id == user.id && row.user.name == user.name
    && row.action == NoteAdded && row.fromStatus == seen && row.toStatus == seen && row.createdAt == now
  }

  // ---------------------------------------------------------------- whole requests

  /** One row more, under the next serial id. */
  ghost predicate Appended<R>(before: Slots<R>, after: Slots<R>) {
    |after| == |before| + 1 && after[..|before|] == before && after[|before|].Some?
  }

  /** One alert more, with its embedding if there is one. */
  ghost predicate IngestEffect(f: Option<Fernet>, before: Db, after: Db, sent: NewAlert, nonces: (nat, nat, nat),
                               now: Micros, vector: Option<string>)
  {
    var id := before.nextAlert;
    && id !in before.alerts && after.alerts.Keys == before.alerts.Keys + {id} && after.nextAlert == id + 1
    && after.alerts[id].id == id && HasColumns(f, after.alerts[id], sent, nonces, now)
    && (forall a :: a in before.alerts ==> after.alerts[a] == before.alerts[a])
    && after.actions == before.actions && after.audit == before.audit
    && (forall r :: r in after.embeddings <==>
          r in before.embeddings || (vector.Some? && r == EmbeddingRow(id, vector.value)))
  }

  /** Three rows: the alert's with two columns changed, and one more in each of two tables. */
  ghost predicate ClassifyEffect(before: Db, after: Db, id: nat, analyst: string, action: Action, user: User,
                                 now: Micros)
  {
    && id in before.alerts && id in after.alerts && IsVerdict(after.alerts[id].status, action)
    && after.alerts == before.alerts[id := before.alerts[id].(status := after.alerts[id].status,
                                                             assignedTo := Some(analyst))]
    && after.embeddings == before.embeddings && after.nextAlert == before.nextAlert
    && Appended(before.actions, after.actions)
    && ActionSays(after.actions[|before.actions|].value, id, analyst, action, now, before.alerts[id].createdAt)
    && Appended(before.audit, after.audit)
    && AuditSays(after.audit[|before.audit|].value, id, user, action, now)
  }

  /** One row more, in the audit log. */
  ghost predicate NoteEffect(f: Option<Fernet>, before: Db, after: Db, id: nat, user: User, text: string,
                             nonce: nat, now: Micros)
  {
    && id in before.alerts && after.alerts == before.alerts && after.actions == before.actions
    && after.embeddings == before.embeddings && after.nextAlert == before.nextAlert
    && Appended(before.audit, after.audit)
    && NoteSays(after.audit[|before.audit|].value, id, user, before.alerts[id].status, now)
    && Kept(f, Some(text), after.audit[|before.audit|].value.note, nonce)
  }

  /** A child row whose alert is gone is gone, and no other. */
  ghost predicate SweptActions(before: Slots<ActionRow>, after: Slots<ActionRow>, left: set<nat>) {
    && |after| == |before|
    && forall k :: 0 <= k < |before| ==>
         after[k] == if before[k].Some? && before[k].value.alertId !in left then None else before[k]
  }

  ghost predicate SweptAudit(before: Slots<AuditRow>, after: Slots<AuditRow>, left: set<nat>) {
    && |after| == |before|
    && forall k :: 0 <= k < |before| ==>
         after[k] == if before[k].Some? && before[k].value.alertId !in left then None else before[k]
  }

  /** Exactly the alerts more than `days` days old are gone, and the rows that refer to them. */
  ghost predicate PurgeEffect(before: Db, after: Db, days: int, now: Micros) {
    && (forall id :: id in after.alerts <==>
          id in before.alerts && now - before.alerts[id].createdAt <= days * 86_400_000_000)
    && (forall id :: id in after.alerts ==> SameHistory(before, after, id))
    && SweptActions(before.actions, after.actions, after.alerts.Keys)
    && SweptAudit(before.audit, after.audit, after.alerts.Keys)
    && (forall r :: r in after.embeddings <==> r in before.embeddings && r.alertId in after.alerts)
    && after.nextAlert == before.nextAlert
  }

  /** A request that failed changed nothing, but may have used up an id of each child table. */
  ghost predicate OnlyDrew(before: Db, after: Db) {
    && after.alerts == before.alerts && after.embeddings == before.embeddings && after.nextAlert == before.nextAlert
    && (after.actions == before.actions || after.actions == before.actions + [None])
    && (after.audit == before.audit || after.audit == before.audit + [None])
  }

  /** A failed INSERT of an alert may have used up an id of that table. */
  ghost predicate OnlyDrewAlert(before: Db, after: Db, drew: bool) {
    && after.alerts == before.alerts && after.embeddings == before.embeddings
    && after.actions == before.actions && after.audit == before.audit
    && after.nextAlert == before.nextAlert + if drew then 1 else 0
  }

  // ---------------------------------------------------------------- the transactions have these effects

  /** The recorded time is the nearest second; the INT cast fails exactly when it does not fit in 32 bits. */
  lemma ResponseIsNearest(createdAt: Micros, now: Micros)
    ensures var r := ResponseTime(createdAt, now);
            && (r.Some? ==> r.value >= 0 && NearestSeconds(r.value, now - createdAt))
            && (r == None <==> now - createdAt >= 2_147_483_647_500_000 || now - createdAt <= -2_147_483_648_500_000)
  {
  }

  lemma SealedColumns(f: Option<Fernet>, sent: NewAlert, nonces: (nat, nat, nat), id: nat, now: Micros)
    ensures HasColumns(f, OpenAlert(id, Sealed(f, sent, nonces), now), sent, nonces, now)
  {
  }

  lemma KeptReadsBack(f: Option<Fernet>, sent: Option<string>, stored: Option<string>, nonce: nat)
    requires (f.Some? ==> Lawful(f.value)) && Kept(f, sent, stored, nonce)
    ensures DecryptField(f, stored) == sent
  {
    assert stored == EncryptField(f, sent, nonce);
    StoredFieldReadsBack(f, sent, stored);
  }

  /** The stored row decrypts to what was sent. */
  lemma ColumnsReadBack(f: Option<Fernet>, row: Alert, sent: NewAlert, nonces: (nat, nat, nat), now: Micros)
    requires (f.Some? ==> Lawful(f.value)) && HasColumns(f, row, sent, nonces, now)
    ensures var shown := DecryptAlert(f, row);
            && ShowsSent(shown, sent)
            && shown.id == row.id && shown.createdAt == now && shown.status == Open && shown.assignedTo == None
  {
    KeptReadsBack(f, Some(sent.title), Some(row.title), nonces.0);
    KeptReadsBack(f, sent.sourceIp, row.sourceIp, nonces.1);
    KeptReadsBack(f, sent.description, row.description, nonces.2);
  }

  lemma RowReadsBack(f: Option<Fernet>, row: Alert, sent: NewAlert, nonces: (nat, nat, nat), now: Micros)
    requires HasColumns(f, row, sent, nonces, now)
    ensures var shown := DecryptAlert(f, row);
            && shown.id == row.id && shown.createdAt == now && shown.status == Open && shown.assignedTo == None
            && ((f.Some? ==> Lawful(f.value)) ==> ShowsSent(shown, sent))
  {
    if f.Some? ==> Lawful(f.value) {
      ColumnsReadBack(f, row, sent, nonces, now);
    }
  }

  lemma NoEmbeddingYet(db: Db, id: nat)
    requires Sound(db) && id !in db.alerts
    ensures forall r :: r in db.embeddings ==> r.alertId != id
  {
    forall r | r in db.embeddings ensures r.alertId != id {
      var i :| 0 <= i < |db.embeddings| && db.embeddings[i] == r;
    }
  }

  lemma IngestHasEffect(f: Option<Fernet>, db: Db, sent: NewAlert, nonces: (nat, nat, nat), now: Micros,
                        vector: Option<string>)
    requires Sound(db)
    ensures var stored := InsertAlertDb(db, Sealed(f, sent, nonces), now);
            IngestEffect(f, db, if vector.Some? then EmbedDb(stored, db.nextAlert, vector.value) else stored,
                         sent, nonces, now, vector)
  {
    SealedColumns(f, sent, nonces, db.nextAlert, now);
    NoEmbeddingYet(db, db.nextAlert);
    if vector.Some? {
      UpsertRows(db.embeddings, EmbeddingRow(db.nextAlert, vector.value));
    }
  }

  lemma ClassifyHasEffect(db: Db, id: nat, t: TriageRequest)
    requires id in db.alerts && db.alerts[id].status == Open && ResponseTime(db.alerts[id].createdAt, t.now).Some?
    ensures ClassifyEffect(db, TriageDb(db, id, Open, t, ResponseTime(db.alerts[id].createdAt, t.now)),
                           id, t.analyst, t.action, t.user, t.now)
  {
    ResponseIsNearest(db.alerts[id].createdAt, t.now);
  }

  lemma NoteHasEffect(f: Option<Fernet>, db: Db, id: nat, user: User, text: string, nonce: nat, now: Micros)
    requires id in db.alerts
    ensures NoteEffect(f, db, NoteDb(db, id, db.alerts[id].status, user, EncryptField(f, Some(text), nonce).value, now),
                       id, user, text, nonce, now)
  {
  }

  lemma CascadeSweeps(db: Db, cutoff: Micros)
    requires NoDangling(db)
    ensures var db' := PurgeDb(db, cutoff);
            SweptActions(db.actions, db'.actions, db'.alerts.Keys) && SweptAudit(db.audit, db'.audit, db'.alerts.Keys)
  {
    var db' := PurgeDb(db, cutoff);
    forall k | 0 <= k < |db.actions|
      ensures db'.actions[k] == if db.actions[k].Some? && db.actions[k].value.alertId !in db'.alerts then None
                                else db.actions[k]
    {
      assert db.actions[k].Some? ==> ActionKey(db.actions[k].value) == Some(db.actions[k].value.alertId);
    }
    forall k | 0 <= k < |db.audit|
      ensures db'.audit[k] == if db.audit[k].Some? && db.audit[k].value.alertId !in db'.alerts then None
                              else db.audit[k]
    {
      assert db.audit[k].Some? ==> AuditKey(db.audit[k].value) == Some(db.audit[k].value.alertId);
    }
  }

  lemma PurgeHasEffect(db: Db, days: int, now: Micros, cutoff: Micros)
    requires Sound(db) && cutoff == now - days * DAY
    ensures PurgeEffect(db, PurgeDb(db, cutoff), days, now)
  {
    PurgeHistory(db, cutoff);
    CascadeSweeps(db, cutoff);
    DroppedRows(db.embeddings, Expired(db, cutoff));
    forall r | r in db.embeddings ensures r.alertId in db.alerts {
      var i :| 0 <= i < |db.embeddings| && db.embeddings[i] == r;
    }
  }
}
