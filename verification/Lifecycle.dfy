/** The alert lifecycle when each request runs alone: the handlers as transactions over the tables,
    statement by statement, and what every run of them keeps. */
module Lifecycle {
  import opened Common
  import opened Schema
  import opened Tables
  import opened Transactions
  import opened Effects
  import Crypto

  // ---------------------------------------------------------------- requests and runs

  datatype Request =
    | Ingest(fields: NewAlert, now: Micros)
    | Failed(drawn: Drawn)                      // a request that was rolled back after drawing these ids
    | Embed(id: nat, embedding: string)
    | Classify(id: nat, triage: TriageRequest)
    | Note(id: nat, user: User, text: string, now: Micros)
    | Purge(cutoff: Micros)

  /** The guard of api_classify, with the INT cast that may still fail the transaction. */
  predicate CanTriage(db: Db, id: nat, now: Micros) {
    id in db.alerts && db.alerts[id].status == Open && ResponseTime(db.alerts[id].createdAt, now).Some?
  }

  function Step(db: Db, r: Request): Db {
    match r
    case Ingest(n, now) => if n.severity.Unlisted? then DrawAlert(db) else InsertAlertDb(db, n, now)
    case Failed(drawn) => Burn(db, drawn)
    case Embed(id, embedding) => EmbedDb(db, id, embedding)
    case Classify(id, t) =>
      if CanTriage(db, id, t.now)
      then TriageDb(db, id, Open, t, ResponseTime(db.alerts[id].createdAt, t.now)) else db
    case Note(id, user, text, now) =>
      if id in db.alerts then NoteDb(db, id, db.alerts[id].status, user, text, now) else db
    case Purge(cutoff) => PurgeDb(db, cutoff)
  }

  function Run(rs: seq<Request>): Db {
    if rs == [] then EMPTY_DB else Step(Run(rs[..|rs| - 1]), rs[|rs| - 1])
  }

  /** Audit rows read as a walk over statuses: from `open` to the status shown, without a gap. */
  ghost predicate Path(rows: seq<AuditRow>, status: Status) {
    && (rows == [] ==> status == Open)
    && (rows != [] ==> rows[0].fromStatus == Open && rows[|rows| - 1].toStatus == status)
    && forall i :: 0 < i < |rows| ==> rows[i - 1].toStatus == rows[i].fromStatus
  }

  ghost predicate Story(db: Db, id: nat)
    requires id in db.alerts
  {
    |ActionsOf(db, id)| <= 1 && Path(AuditOf(db, id), db.alerts[id].status)
  }

  ghost predicate AllStories(db: Db) {
    forall id :: id in db.alerts ==> Story(db, id)
  }

  ghost predicate Serial(db: Db) {
    Integrity(db) && AllStories(db)
  }

  lemma InheritedStories(db: Db, db': Db)
    requires AllStories(db) && Inherited(db, db')
    ensures AllStories(db')
  {
    forall id | id in db'.alerts ensures Story(db', id) {
      assert Story(db, id);
    }
  }

  lemma PathAppend(rows: seq<AuditRow>, status: Status, row: AuditRow)
    requires Path(rows, status) && row.fromStatus == status
    ensures Path(rows + [row], row.toStatus)
  {
    assert rows != [] ==> (rows + [row])[0] == rows[0];
  }

  lemma OpenHasNoActions(db: Db, id: nat)
    requires id in db.alerts && db.alerts[id].status == Open && Paired(db, id)
    ensures ActionsOf(db, id) == []
  {
  }

  lemma TriageTellsStory(db: Db, id: nat, t: TriageRequest, seconds: Option<int>)
    requires id in db.alerts && db.alerts[id].status == Open && Paired(db, id) && Story(db, id)
    ensures Story(TriageDb(db, id, Open, t, seconds), id)
  {
    WholeTriageHistory(db, id, Open, t, seconds);
    PathAppend(AuditOf(db, id), Open, TriageAudit(id, Open, t));
    OpenHasNoActions(db, id);
  }

  lemma TriageKeepsStories(db: Db, id: nat, t: TriageRequest, seconds: Option<int>)
    requires AllPaired(db) && AllStories(db) && id in db.alerts && db.alerts[id].status == Open
    ensures AllStories(TriageDb(db, id, Open, t, seconds))
  {
    var db' := TriageDb(db, id, Open, t, seconds);
    WholeTriageHistory(db, id, Open, t, seconds);
    forall a | a in db'.alerts ensures Story(db', a) {
      if a == id {
        TriageTellsStory(db, id, t, seconds);
      } else {
        assert Story(db, a) && SameHistory(db, db', a);
      }
    }
  }

  lemma NoteKeepsStories(db: Db, id: nat, user: User, text: string, now: Micros)
    requires AllStories(db) && id in db.alerts
    ensures AllStories(NoteDb(db, id, db.alerts[id].status, user, text, now))
  {
    var status := db.alerts[id].status;
    var db' := NoteDb(db, id, status, user, text, now);
    WholeNoteHistory(db, id, status, user, text, now);
    assert Story(db, id);
    PathAppend(AuditOf(db, id), status, NoteAudit(id, status, user, text, now));
    forall a | a in db'.alerts ensures Story(db', a) {
      assert Story(db, a);
    }
  }

  /** The INSERT's id and row, drawn and written with nobody in between. */
  lemma InsertHistory(db: Db, n: NewAlert, now: Micros)
    requires Sound(db) && !n.severity.Unlisted?
    ensures FreshAlert(DrawAlert(db), OpenAlert(db.nextAlert, n, now)) && Sound(DrawAlert(db))
    ensures var db' := InsertAlertDb(db, n, now);
            && db.nextAlert !in db.alerts
            && ActionsOf(db', db.nextAlert) == [] && TriagesOf(db', db.nextAlert) == []
            && AuditOf(db', db.nextAlert) == []
            && forall id :: id in db.alerts ==> SameHistory(db, db', id)
  {
    AlertHistory(DrawAlert(db), OpenAlert(db.nextAlert, n, now));
    var db' := InsertAlertDb(db, n, now);
    forall id | id in db.alerts ensures SameHistory(db, db', id) {
      assert SameHistory(DrawAlert(db), db', id);
    }
  }

  lemma InsertKeepsStories(db: Db, n: NewAlert, now: Micros)
    requires Sound(db) && AllStories(db) && !n.severity.Unlisted?
    ensures AllStories(InsertAlertDb(db, n, now))
  {
    var db' := InsertAlertDb(db, n, now);
    InsertHistory(db, n, now);
    forall a | a in db'.alerts ensures Story(db', a) {
      if a != db.nextAlert {
        assert Story(db, a) && SameHistory(db, db', a);
      }
    }
  }

  lemma DrawAlertKeepsIntegrity(db: Db)
    requires Integrity(db)
    ensures Integrity(DrawAlert(db))
  {
    InheritedPairs(db, DrawAlert(db));
  }

  lemma InsertKeepsIntegrity(db: Db, n: NewAlert, now: Micros)
    requires Integrity(db) && !n.severity.Unlisted?
    ensures Integrity(InsertAlertDb(db, n, now))
  {
    DrawAlertKeepsIntegrity(db);
    InsertHistory(db, n, now);
    AlertKeepsIntegrity(DrawAlert(db), OpenAlert(db.nextAlert, n, now));
  }

  /** A request that adds no row to any alert's history. */
  ghost predicate Quiet(r: Request) {
    r.Failed? || r.Embed? || r.Purge? || (r.Ingest? && r.fields.severity.Unlisted?)
  }

  lemma QuietStep(db: Db, r: Request)
    requires Quiet(r)
    ensures Inherited(db, Step(db, r))
  {
    match r
    case Failed(drawn) => BurnHistory(db, drawn);
    case Purge(cutoff) => PurgeHistory(db, cutoff);
    case _ =>
  }

  lemma StepKeepsStories(db: Db, r: Request)
    requires Sound(db) && AllPaired(db) && AllStories(db)
    ensures AllStories(Step(db, r))
  {
    if Quiet(r) {
      QuietStep(db, r);
      InheritedStories(db, Step(db, r));
    } else if r.Ingest? {
      InsertKeepsStories(db, r.fields, r.now);
    } else if r.Classify? {
      if CanTriage(db, r.id, r.triage.now) {
        TriageKeepsStories(db, r.id, r.triage, ResponseTime(db.alerts[r.id].createdAt, r.triage.now));
      }
    } else {
      if r.id in db.alerts { NoteKeepsStories(db, r.id, r.user, r.text, r.now); }
    }
  }

  lemma StepKeepsIntegrity(db: Db, r: Request)
    requires Integrity(db)
    ensures Integrity(Step(db, r))
  {
    match r
    case Ingest(n, now) =>
      if n.severity.Unlisted? { DrawAlertKeepsIntegrity(db); } else { InsertKeepsIntegrity(db, n, now); }
    case Failed(drawn) => BurnKeepsIntegrity(db, drawn);
    case Embed(id, embedding) => EmbedKeepsIntegrity(db, id, embedding);
    case Classify(id, t) =>
      if CanTriage(db, id, t.now) {
        WholeTriageKeepsIntegrity(db, id, t, ResponseTime(db.alerts[id].createdAt, t.now));
      }
    case Note(id, user, text, now) =>
      if id in db.alerts { WholeNoteKeepsIntegrity(db, id, db.alerts[id].status, user, text, now); }
    case Purge(cutoff) => RemoveKeepsIntegrity(db, Expired(db, cutoff));
  }

  /** Every run of whole requests from empty tables leaves, for each surviving alert, an unbroken
      audit path from `open` to its status, and no dangling row anywhere. */
  lemma {:induction false} RunsAreSerial(rs: seq<Request>)
    ensures Serial(Run(rs))
  {
    if rs == [] {
    } else {
      RunsAreSerial(rs[..|rs| - 1]);
      StepKeepsIntegrity(Run(rs[..|rs| - 1]), rs[|rs| - 1]);
      StepKeepsStories(Run(rs[..|rs| - 1]), rs[|rs| - 1]);
    }
  }

  /** In such a run an open alert has no action row; any other has exactly one, which names its
      status and its assignee. */
  lemma TriagedOnce(rs: seq<Request>, id: nat)
    requires id in Run(rs).alerts
    ensures var alert, acts := Run(rs).alerts[id], ActionsOf(Run(rs), id);
            && (alert.status == Open <==> acts == [])
            && (alert.status == Open ==> alert.assignedTo == None)
            && (alert.status != Open ==> |acts| == 1 && alert.assignedTo == Some(acts[0].analyst))
            && (alert.status == TruePositive ==> acts[0].action == ClassifyTp)
            && (alert.status == FalsePositive ==> acts[0].action == ClassifyFp)
            && (alert.status == Escalated ==> acts[0].action == Escalate)
  {
    RunsAreSerial(rs);
    assert Paired(Run(rs), id) && Story(Run(rs), id);
  }

  lemma TriagedStep(db: Db, r: Request, id: nat)
    requires Sound(db) && id in db.alerts && db.alerts[id].status != Open && id in Step(db, r).alerts
    ensures Step(db, r).alerts[id] == db.alerts[id]
    ensures ActionsOf(Step(db, r), id) == ActionsOf(db, id)
  {
    match r
    case Ingest(n, now) => if !n.severity.Unlisted? { InsertHistory(db, n, now); }
    case Failed(drawn) => BurnHistory(db, drawn);
    case Classify(a, t) =>
      if CanTriage(db, a, t.now) {
        WholeTriageHistory(db, a, Open, t, ResponseTime(db.alerts[a].createdAt, t.now));
        assert SameHistory(db, Step(db, r), id);
      }
    case Note(a, user, text, now) =>
      if a in db.alerts { WholeNoteHistory(db, a, db.alerts[a].status, user, text, now); }
    case Purge(cutoff) => PurgeHistory(db, cutoff);
    case Embed(a, embedding) =>
  }

  /** An id that is used up, and an alert that has this row and these action rows for as long as it is kept. */
  ghost predicate Final(db: Db, id: nat, row: Alert, acts: seq<ActionRow>) {
    && id < db.nextAlert
    && (id in db.alerts ==> db.alerts[id] == row && ActionsOf(db, id) == acts)
  }

  lemma FinalStep(db: Db, r: Request, id: nat, row: Alert, acts: seq<ActionRow>)
    requires Sound(db) && row.status != Open && Final(db, id, row, acts)
    ensures Final(Step(db, r), id, row, acts)
  {
    if id in db.alerts && id in Step(db, r).alerts {
      TriagedStep(db, r, id);
    }
  }

  /** Once an alert is triaged no later request changes its row or its action rows, and its id never names
      another alert: it can only be purged. */
  lemma {:induction false} TriagedIsFinal(rs: seq<Request>, k: nat, j: nat, id: nat)
    requires k <= j <= |rs| && id in Run(rs[..k]).alerts && Run(rs[..k]).alerts[id].status != Open
    ensures Final(Run(rs[..j]), id, Run(rs[..k]).alerts[id], ActionsOf(Run(rs[..k]), id))
  {
    if k == j {
      RunIsSound(rs[..k]);
    } else {
      TriagedIsFinal(rs, k, j - 1, id);
      RunIsSound(rs[..j - 1]);
      NextRun(rs, j - 1);
      FinalStep(Run(rs[..j - 1]), rs[j - 1], id, Run(rs[..k]).alerts[id], ActionsOf(Run(rs[..k]), id));
    }
  }

  /** Ids are never drawn twice. */
  lemma IdStep(db: Db, r: Request, id: nat)
    requires id < db.nextAlert
    ensures id < Step(db, r).nextAlert && (id !in db.alerts ==> id !in Step(db, r).alerts)
  {
  }

  lemma NextRun(rs: seq<Request>, k: nat)
    requires k < |rs|
    ensures Run(rs[..k + 1]) == Step(Run(rs[..k]), rs[k])
  {
    assert rs[..k + 1][..k] == rs[..k];
  }

  lemma NextId(rs: seq<Request>, j: nat, id: nat)
    requires 0 < j <= |rs| && id < Run(rs[..j - 1]).nextAlert
    ensures id < Run(rs[..j]).nextAlert
    ensures id !in Run(rs[..j - 1]).alerts ==> id !in Run(rs[..j]).alerts
  {
    NextRun(rs, j - 1);
    IdStep(Run(rs[..j - 1]), rs[j - 1], id);
  }

  /** A purged alert does not come back. */
  lemma {:induction false} GoneForGood(rs: seq<Request>, k: nat, j: nat, id: nat)
    requires k <= j <= |rs| && id !in Run(rs[..k]).alerts && id < Run(rs[..k]).nextAlert
    ensures id !in Run(rs[..j]).alerts && id < Run(rs[..j]).nextAlert
  {
    if k == j {
    } else {
      GoneForGood(rs, k, j - 1, id);
      NextId(rs, j, id);
    }
  }

  /** An alert that is there at both ends of a stretch of a run is there throughout. */
  lemma {:induction false} KeptThroughout(rs: seq<Request>, k: nat, i: nat, j: nat, id: nat)
    requires k <= i <= j <= |rs| && id in Run(rs[..k]).alerts && id in Run(rs[..j]).alerts
    ensures id in Run(rs[..i]).alerts && id < Run(rs[..i]).nextAlert
  {
    if k == i {
      RunIsSound(rs[..k]);
    } else {
      KeptThroughout(rs, k, i - 1, j, id);
      NextId(rs, i, id);
      if id !in Run(rs[..i]).alerts {
        GoneForGood(rs, i, j, id);
      }
    }
  }

  lemma RunIsPaired(rs: seq<Request>, id: nat)
    requires id in Run(rs).alerts
    ensures Paired(Run(rs), id)
  {
    RunsAreSerial(rs);
  }

  lemma RunIsSound(rs: seq<Request>)
    ensures Sound(Run(rs))
  {
    RunsAreSerial(rs);
  }

  lemma CutoffEffect(rs: seq<Request>, days: int, now: Micros)
    ensures PurgeEffect(Run(rs), Step(Run(rs), Purge(AlertStore.Cutoff(days, now))), days, now)
  {
    RunIsSound(rs);
    PurgeHasEffect(Run(rs), days, now, AlertStore.Cutoff(days, now));
  }

  /** The row count a purge reports is how many alerts it removed. */
  lemma PurgeCount(db: Db, cutoff: Micros)
    ensures |PurgeDb(db, cutoff).alerts| == |db.alerts| - |Expired(db, cutoff)|
  {
    var dead := Expired(db, cutoff);
    assert PurgeDb(db, cutoff).alerts.Keys == db.alerts.Keys - dead;
    assert dead <= db.alerts.Keys;
  }

  // ---------------------------------------------------------------- the handlers

  /** An event handed to `_sse_publish`. */
  datatype Event = AlertEvent(kind: EventKind, alertId: nat, severity: Severity, status: Status)
  datatype EventKind = NewAlertEvent | StatusChange

  datatype Reply = Stored(alert: Alert) | Updated(alert: Alert) | Noted | BadRequest | NotFound | Conflict | ServerError

  /** The outcome of `_embed_text`: no model, a vector, or an exception. */
  datatype Embedding = Unavailable | Vector(text: string) | Raises

  /** The `action` of a request body; a list or an object cannot be looked up in ACTION_TO_STATUS. */
  datatype ActionArg = Known(action: Action) | Unknown | Unhashable

  predicate NoText(f: Field) {
    f.Falsy? || (f.Given? && Blank(f.text))
  }

  lemma DrewNothing(db: Db)
    ensures Burn(db, Drawn(0, 0, 0)) == db
  {
    assert db.actions + Unused(0) == db.actions && db.audit + Unused(0) == db.audit;
  }

  /** At most one id of each child table. */
  lemma DrewFew(db: Db, actions: nat, audit: nat)
    requires actions <= 1 && audit <= 1
    ensures OnlyDrew(db, Burn(db, Drawn(0, actions, audit)))
  {
    DrewNothing(db);
    assert Unused<ActionRow>(1) == [None] && Unused<AuditRow>(1) == [None];
  }

  lemma DrewAnAlert(db: Db, drew: bool)
    ensures OnlyDrewAlert(db, Burn(db, Drawn(if drew then 1 else 0, 0, 0)), drew)
  {
    DrewNothing(db);
  }

  /** The tables once an alert is stored, with its embedding if there is a vector and the INSERT succeeds. */
  function StoredDb(db: Db, n: NewAlert, now: Micros, embedding: Embedding, embedFails: bool): Db {
    var stored := Step(db, Ingest(n, now));
    if embedding.Vector? && !embedFails then Step(stored, Embed(db.nextAlert, embedding.text)) else stored
  }

  function StoredVector(embedding: Embedding, embedFails: bool): Option<string> {
    if embedding.Vector? && !embedFails then Some(embedding.text) else None
  }

  lemma StoredHasEffect(rs: seq<Request>, f: Option<Crypto.Fernet>, sent: NewAlert, nonces: (nat, nat, nat),
                        now: Micros, embedding: Embedding, embedFails: bool)
    requires !sent.severity.Unlisted?
    ensures IngestEffect(f, Run(rs), StoredDb(Run(rs), Crypto.Sealed(f, sent, nonces), now, embedding, embedFails),
                         sent, nonces, now, StoredVector(embedding, embedFails))
  {
    RunIsSound(rs);
    IngestHasEffect(f, Run(rs), sent, nonces, now, StoredVector(embedding, embedFails));
  }

  /** The database behind the handlers, with the stream of published events. A `faultAt` parameter
      names the statement at which the server reports an error (0: none); COMMIT is the last one; `drew`
      says whether an INSERT that fails has drawn its id. `history` records, for the proof, the requests
      that have taken effect. */
  class AlertStore {
    var alerts: map<nat, Alert>
    var actions: Slots<ActionRow>
    var audit: Slots<AuditRow>
    var embeddings: seq<EmbeddingRow>
    var nextAlert: nat
    var published: seq<Event>
    ghost var history: seq<Request>

    function Contents(): Db
      reads this
    {
      Db(alerts, actions, audit, embeddings, nextAlert)
    }

    /** The tables hold what some run of requests leaves in them, so RunsAreSerial applies. */
    ghost predicate Valid()
      reads this
    {
      Contents() == Run(history)
    }

    constructor ()
      ensures Valid() && Contents() == EMPTY_DB && published == []
    {
      alerts, actions, audit, embeddings, nextAlert := map[], [], [], [], 0;
      published, history := [], [];
    }

    ghost method Record(r: Request)
      requires Contents() == Step(Run(history), r)
      modifies this`history
      ensures Valid() && history == old(history) + [r] && published == old(published)
    {
      assert (history + [r])[..|history|] == history;
      history := history + [r];
    }

    /** ROLLBACK restores the tables; ids drawn from a SERIAL counter are never handed back. */
    method Rollback(begun: Db, drawn: Drawn)
      requires begun == Run(history)
      modifies this`alerts, this`actions, this`audit, this`embeddings, this`nextAlert, this`history
      ensures Valid() && Contents() == Burn(begun, drawn) && published == old(published)
    {
      alerts, embeddings, nextAlert := begun.alerts, begun.embeddings, begun.nextAlert + drawn.alerts;
      actions, audit := begun.actions + Unused(drawn.actions), begun.audit + Unused(drawn.audit);
      Record(Failed(drawn));
    }

    /** The INSERT of an alert and its COMMIT; None when the transaction fails. */
    method StoreAlert(n: NewAlert, now: Micros, faultAt: nat, drew: bool) returns (created: Option<Alert>)
      requires Valid()
      modifies this`alerts, this`actions, this`audit, this`embeddings, this`nextAlert, this`history
      ensures Valid() && published == old(published)
      ensures created.Some? <==> !n.severity.Unlisted? && !(1 <= faultAt <= 2)
      ensures created == None ==>
                Contents() == Burn(old(Contents()), Drawn(if faultAt == 1 && !drew then 0 else 1, 0, 0))
      ensures created == None ==> OnlyDrewAlert(old(Contents()), Contents(), faultAt != 1 || drew)
      ensures created.Some? ==>
                && Contents() == Step(old(Contents()), Ingest(n, now))
                && IngestEffect(None, old(Contents()), Contents(), n, (0, 0, 0), now, None)
                && old(nextAlert) in alerts && created.value == alerts[old(nextAlert)]
    {
      var begun, id := Contents(), nextAlert;
      if faultAt == 1 || n.severity.Unlisted? {
        DrewAnAlert(begun, faultAt != 1 || drew);
        Rollback(begun, Drawn(if faultAt == 1 && !drew then 0 else 1, 0, 0));
        return None;
      }
      nextAlert := nextAlert + 1;
      alerts := alerts[id := OpenAlert(id, n, now)];
      if faultAt == 2 {
        DrewAnAlert(begun, true);
        Rollback(begun, Drawn(1, 0, 0));
        return None;
      }
      RunIsSound(history);
      IngestHasEffect(None, begun, n, (0, 0, 0), now, None);
      Record(Ingest(n, now));
      return Some(alerts[id]);
    }

    /** Best effort: without a vector, or when the INSERT fails, nothing is stored. */
    method StoreEmbedding(id: nat, embedding: Embedding, embedFails: bool)
      requires Valid() && id in alerts
      modifies this`embeddings, this`history
      ensures Valid()
      ensures Contents() == if embedding.Vector? && !embedFails then Step(old(Contents()), Embed(id, embedding.text))
                            else old(Contents())
    {
      if embedding.Vector? && !embedFails {
        embeddings := Upsert(embeddings, EmbeddingRow(id, embedding.text));
        Record(Embed(id, embedding.text));
      }
    }

    /** What follows the INSERT of an alert: its embedding, and the event. */
    method Announce(row: Alert, embedding: Embedding, embedFails: bool) returns (announced: bool)
      requires Valid() && row.id in alerts
      modifies this`embeddings, this`history, this`published
      ensures Valid() && announced == !embedding.Raises?
      ensures Contents() == if embedding.Vector? && !embedFails
                            then Step(old(Contents()), Embed(row.id, embedding.text)) else old(Contents())
      ensures announced ==> published == old(published) + [AlertEvent(NewAlertEvent, row.id, row.severity, row.status)]
      ensures !announced ==> published == old(published)
    {
      if embedding.Raises? {
        return false;
      }
      StoreEmbedding(row.id, embedding, embedFails);
      published := published + [AlertEvent(NewAlertEvent, row.id, row.severity, row.status)];
      return true;
    }

    /** The reply is the stored row, decrypted. */
    method InsertAlert(f: Option<Crypto.Fernet>, sent: NewAlert, nonces: (nat, nat, nat), embedding: Embedding,
                       now: Micros, faultAt: nat, drew: bool, embedFails: bool)
        returns (reply: Reply)
      requires Valid()
      modifies this
      ensures Valid()
      ensures reply.Stored? <==> !sent.severity.Unlisted? && !(1 <= faultAt <= 2) && !embedding.Raises?
      ensures !reply.Stored? ==> reply.ServerError? && published == old(published)
      ensures sent.severity.Unlisted? || 1 <= faultAt <= 2 ==>
                && Contents() == Burn(old(Contents()), Drawn(if faultAt == 1 && !drew then 0 else 1, 0, 0))
                && OnlyDrewAlert(old(Contents()), Contents(), faultAt != 1 || drew)
      ensures !sent.severity.Unlisted? && !(1 <= faultAt <= 2) ==>
                && Contents() == StoredDb(old(Contents()), Crypto.Sealed(f, sent, nonces), now, embedding, embedFails)
                && IngestEffect(f, old(Contents()), Contents(), sent, nonces, now, StoredVector(embedding, embedFails))
      ensures reply.Stored? && (f.Some? ==> Crypto.Lawful(f.value)) ==>
                && reply.alert.id == old(nextAlert) && ShowsSent(reply.alert, sent)
                && reply.alert.createdAt == now && reply.alert.status == Open && reply.alert.assignedTo == None
      ensures reply.Stored? ==>
                && old(nextAlert) in alerts && reply.alert == Crypto.DecryptAlert(f, alerts[old(nextAlert)])
                && published == old(published) + [AlertEvent(NewAlertEvent, old(nextAlert), sent.severity, Open)]
    {
      ghost var begun := history;
      var created := StoreAlert(Crypto.Sealed(f, sent, nonces), now, faultAt, drew);
      if created == None {
        return ServerError;
      }
      StoredHasEffect(begun, f, sent, nonces, now, embedding, embedFails);
      var announced := Announce(created.value, embedding, embedFails);
      if !announced {
        return ServerError;
      }
      RowReadsBack(f, created.value, sent, nonces, now);
      return Stored(Crypto.DecryptAlert(f, created.value));
    }

    /** The writes of a classification: UPDATE, two INSERTs and COMMIT, statements 2 to 5 of its transaction. */
    method Triage(id: nat, alert: Alert, t: TriageRequest, newStatus: Status, faultAt: nat, drew: bool)
        returns (done: bool)
      requires Valid() && id in alerts && alert == alerts[id] && alert.status == Open
      requires newStatus == ToStatus(t.action)
      modifies this`alerts, this`actions, this`audit, this`embeddings, this`nextAlert, this`history
      ensures Valid()
      ensures done <==> ResponseTime(alert.createdAt, t.now).Some? && !(2 <= faultAt <= 5)
      ensures done ==>
                && Contents() == Step(old(Contents()), Classify(id, t))
                && ClassifyEffect(old(Contents()), Contents(), id, t.analyst, t.action, t.user, t.now)
      ensures !done ==> OnlyDrew(old(Contents()), Contents())
    {
      var begun := Contents();
      DrewNothing(begun);
      if faultAt == 2 {
        return false;
      }
      alerts := alerts[id := alerts[id].(status := newStatus, assignedTo := Some(t.analyst))];
      var seconds := ResponseTime(alert.createdAt, t.now);
      if faultAt == 3 || seconds == None {
        DrewFew(begun, if drew then 1 else 0, 0);
        Rollback(begun, Drawn(0, if drew then 1 else 0, 0));
        return false;
      }
      actions := actions + [Some(ActionRow(id, t.analyst, t.action, t.now, seconds))];
      if faultAt == 4 {
        DrewFew(begun, 1, if drew then 1 else 0);
        Rollback(begun, Drawn(0, 1, if drew then 1 else 0));
        return false;
      }
      audit := audit + [Some(AuditRow(id, t.user, AuditAction.Triage(t.action), alert.status, newStatus, None, t.now))];
      if faultAt == 5 {
        DrewFew(begun, 1, 1);
        Rollback(begun, Drawn(0, 1, 1));
        return false;
      }
      assert Contents() == TriageDb(begun, id, Open, t, seconds);
      ClassifyHasEffect(begun, id, t);
      Record(Classify(id, t));
      return true;
    }

    /** The reply is the updated row, decrypted. */
    method ClassifyAlert(f: Option<Crypto.Fernet>, id: nat, analyst: Field, action: ActionArg, user: User,
                         now: Micros, faultAt: nat, drew: bool)
        returns (reply: Reply)
      requires Valid()
      modifies this
      ensures Valid()
      ensures reply == BadRequest <==> NoText(analyst) || (analyst.Given? && action == Unknown)
      ensures var good := analyst.Given? && !Blank(analyst.text) && action.Known? && faultAt != 1;
              && (reply == NotFound <==> good && id !in old(alerts))
              && (reply == Conflict <==> good && id in old(alerts) && old(alerts)[id].status != Open)
              && (reply.Updated? <==> good && id in old(alerts) && old(alerts)[id].status == Open
                                      && ResponseTime(old(alerts)[id].createdAt, now).Some? && !(2 <= faultAt <= 5))
      ensures reply.Updated? ==>
                && ClassifyEffect(old(Contents()), Contents(), id, Strip(analyst.text), action.action, user, now)
                && reply.alert == Crypto.DecryptAlert(f, alerts[id])
                && Contents() == Step(old(Contents()),
                                      Classify(id, TriageRequest(Strip(analyst.text), action.action, user, now)))
                && published == old(published) + [AlertEvent(StatusChange, id, alerts[id].severity, alerts[id].status)]
      ensures !reply.Updated? ==> OnlyDrew(old(Contents()), Contents()) && published == old(published)
    {
      DrewNothing(Contents());
      var name := Stripped(analyst);
      if name == None {
        return ServerError;
      }
      if analyst.Given? { StripEmptyIffBlank(analyst.text); }
      if name.value == "" {
        return BadRequest;
      }
      if action == Unhashable {
        return ServerError;
      }
      if action == Unknown {
        return BadRequest;
      }
      var newStatus := ToStatus(action.action);
      if faultAt == 1 {
        return ServerError;
      }
      if id !in alerts {
        return NotFound;
      }
      var alert := alerts[id];
      if alert.status != Open {
        return Conflict;
      }
      var done := Triage(id, alert, TriageRequest(name.value, action.action, user, now), newStatus, faultAt, drew);
      if !done {
        return ServerError;
      }
      published := published + [AlertEvent(StatusChange, id, alerts[id].severity, newStatus)];
      return Updated(Crypto.DecryptAlert(f, alerts[id]));
    }

    /** The note is encrypted under the configured key, if there is one. */
    method AddNote(id: nat, text: Field, user: User, now: Micros, f: Option<Crypto.Fernet>, nonce: nat,
                   faultAt: nat, drew: bool)
        returns (reply: Reply)
      requires Valid()
      modifies this
      ensures Valid() && published == old(published)
      ensures reply == BadRequest <==> NoText(text)
      ensures reply == NotFound <==> text.Given? && !Blank(text.text) && faultAt != 1 && id !in old(alerts)
      ensures reply == Noted <==> text.Given? && !Blank(text.text) && id in old(alerts) && !(1 <= faultAt <= 3)
      ensures reply == Noted ==>
                var stored := Crypto.EncryptField(f, Some(Strip(text.text)), nonce).value;
                && Contents() == Step(old(Contents()), Note(id, user, stored, now))
                && NoteEffect(f, old(Contents()), Contents(), id, user, Strip(text.text), nonce, now)
      ensures reply != Noted ==> OnlyDrew(old(Contents()), Contents())
    {
      DrewNothing(Contents());
      var note := Stripped(text);
      if note == None {
        return ServerError;
      }
      if text.Given? { StripEmptyIffBlank(text.text); }
      if note.value == "" {
        return BadRequest;
      }
      var begun := Contents();
      if faultAt == 1 {
        return ServerError;
      }
      if id !in alerts {
        return NotFound;
      }
      var status := alerts[id].status;
      var stored := Crypto.EncryptField(f, note, nonce).value;
      if faultAt == 2 {
        DrewFew(begun, 0, if drew then 1 else 0);
        Rollback(begun, Drawn(0, 0, if drew then 1 else 0));
        return ServerError;
      }
      audit := audit + [Some(AuditRow(id, user, NoteAdded, status, status, Some(stored), now))];
      if faultAt == 3 {
        DrewFew(begun, 0, 1);
        Rollback(begun, Drawn(0, 0, 1));
        return ServerError;
      }
      assert Contents() == NoteDb(begun, id, status, user, stored, now);
      NoteHasEffect(f, begun, id, user, note.value, nonce, now);
      Record(Note(id, user, stored, now));
      return Noted;
    }

    /** now() - make_interval(days => ..), where a day of the session's time zone has 24 hours. */
    static function Cutoff(days: int, now: Micros): Micros {
      now - days * DAY
    }

    /** The DELETE and the cascades the foreign keys ask for. */
    method DeleteExpired(cutoff: Micros) returns (rowcount: nat)
      modifies this`alerts, this`actions, this`audit, this`embeddings
      ensures Contents() == PurgeDb(old(Contents()), cutoff)
      ensures rowcount == |Expired(old(Contents()), cutoff)| == |old(alerts)| - |alerts|
    {
      var dead := set id | id in alerts && alerts[id].createdAt < cutoff;
      assert dead == Expired(Contents(), cutoff);
      PurgeCount(Contents(), cutoff);
      alerts := alerts - dead;
      actions := Cascade(actions, ActionKey, dead);
      audit := Cascade(audit, AuditKey, dead);
      embeddings := DropRows(embeddings, dead);
      return |dead|;
    }

    method PurgeOldAlerts(days: int, now: Micros, faultAt: nat) returns (deleted: Option<nat>)
      requires Valid()
      modifies this
      ensures Valid() && published == old(published)
      ensures days <= 0 ==> deleted == Some(0) && Contents() == old(Contents())
      ensures days > 0 && 1 <= faultAt <= 2 ==> deleted == None && Contents() == old(Contents())
      ensures days > 0 && !(1 <= faultAt <= 2) ==>
                && deleted == Some(|old(alerts)| - |alerts|)
                && PurgeEffect(old(Contents()), Contents(), days, now)
                && Contents() == Step(old(Contents()), Purge(Cutoff(days, now)))
    {
      if days <= 0 {
        return Some(0);
      }
      var begun := Contents();
      DrewNothing(begun);
      if faultAt == 1 {
        return None;
      }
      var cutoff := Cutoff(days, now);
      var rowcount := DeleteExpired(cutoff);
      if faultAt == 2 {
        Rollback(begun, Drawn(0, 0, 0));
        return None;
      }
      CutoffEffect(history, days, now);
      Record(Purge(cutoff));
      return Some(rowcount);
    }
  }

  /** Whatever its handlers did, and wherever they failed, a store is in a serial state. */
  lemma StoreIsSerial(store: AlertStore)
    requires store.Valid()
    ensures Serial(store.Contents())
  {
    RunsAreSerial(store.history);
  }
}
