/** The same requests as sessions that interleave under READ COMMITTED. A classify transaction reads
    the alert without locking it, so two of them can both see `open`; its UPDATE then takes the row
    lock and holds it to COMMIT. Writes stay private to the session until then, but the serial ids its
    INSERTs draw are gone at once. */
module Interleaving {
  import opened Common
  import opened Schema
  import opened Tables
  import opened Transactions
  import Lifecycle

  datatype Session =
    /** BEGIN done: now() is this time until the transaction ends, but nothing has been read yet. */
    | Begun(now: Micros)
    /** INSERT INTO alerts done; nobody else sees the row yet. */
    | Inserting(alert: Alert)
    /** A classification's SELECT returned this open alert. */
    | HasRead(seen: Alert, triage: TriageRequest)
    /** UPDATE done: the row lock is held and the new version is private. */
    | HasUpdated(seen: Alert, triage: TriageRequest)
    /** INSERT INTO analyst_actions done, under this id. */
    | HasAction(seen: Alert, triage: TriageRequest, seconds: int, actionId: nat)
    /** INSERT INTO audit_log done, under this id. */
    | HasAudit(seen: Alert, triage: TriageRequest, seconds: int, actionId: nat, auditId: nat)
    /** A note's SELECT returned this status. */
    | NoteRead(id: nat, status: Status, user: User, text: string, now: Micros)
    /** The note's INSERT has drawn its id, and waits for the key-share lock on the alert it refers to. */
    | NoteDrawn(id: nat, status: Status, user: User, text: string, now: Micros, auditId: nat)
    /** The note's INSERT is done and holds the lock. */
    | NoteWritten(id: nat, status: Status, user: User, text: string, now: Micros, auditId: nat)
    /** A purge has these alerts in its snapshot. */
    | Selecting(expired: set<nat>)
    /** The purge has deleted these alerts and holds their rows. */
    | Deleting(dead: set<nat>)

  datatype World = World(db: Db, sessions: map<nat, Session>)

  const START := World(EMPTY_DB, map[])

  /** A statement that is not enabled, or that has to wait for a lock, changes nothing. */
  datatype Statement =
    | Begin(now: Micros)
    | InsertAlert(fields: NewAlert)
    | ReadAlert(id: nat, analyst: string, action: Action, user: User)
    | Update
    | InsertAction
    | InsertAudit
    | ReadForNote(id: nat, user: User, text: string)
    | InsertNote
    | CheckKey                                          // the foreign-key check of that INSERT
    | SelectExpired(age: Micros)
    | DeleteExpired
    | Commit
    | Abort                                             // an error, or a lost connection, anywhere

  datatype Step =
    | By(sid: nat, does: Statement)
    | Embed(id: nat, embedding: string)
    | Failed(drawn: Drawn)                              // some other request, rolled back

  // ---------------------------------------------------------------- locks

  /** FOR NO KEY UPDATE, taken by UPDATE. */
  predicate Holding(s: Session) {
    s.HasUpdated? || s.HasAction? || s.HasAudit?
  }

  predicate HoldsRow(s: Session, id: nat) {
    Holding(s) && s.seen.id == id
  }

  /** FOR UPDATE, taken by DELETE. */
  predicate Deletes(s: Session, id: nat) {
    s.Deleting? && id in s.dead
  }

  /** FOR KEY SHARE, taken by the foreign-key check of an INSERT. */
  predicate RefersTo(s: Session, dead: set<nat>) {
    s.NoteWritten? && s.id in dead
  }

  /** What UPDATE waits for. */
  predicate RowFree(w: World, id: nat) {
    forall sid :: sid in w.sessions ==> !HoldsRow(w.sessions[sid], id) && !Deletes(w.sessions[sid], id)
  }

  /** What a foreign-key check waits for; an UPDATE that leaves the key alone does not block it. */
  predicate KeyFree(w: World, id: nat) {
    forall sid :: sid in w.sessions ==> !Deletes(w.sessions[sid], id)
  }

  predicate Blocks(s: Session, dead: set<nat>) {
    (Holding(s) && s.seen.id in dead) || RefersTo(s, dead) || (s.Deleting? && !(s.dead !! dead))
  }

  /** What DELETE waits for. */
  predicate AllFree(w: World, dead: set<nat>) {
    forall sid :: sid in w.sessions ==> !Blocks(w.sessions[sid], dead)
  }

  // ---------------------------------------------------------------- steps

  /** What a statement of a session leaves: the tables, and the session unless its transaction is over. */
  datatype Outcome = Outcome(db: Db, session: Option<Session>)

  function NoteRow(s: Session): AuditRow
    requires s.NoteWritten?
  {
    NoteAudit(s.id, s.status, s.user, s.text, s.now)
  }

  predicate OfNote(s: Session) {
    s.NoteRead? || s.NoteDrawn? || s.NoteWritten?
  }

  predicate OfTriage(s: Session) {
    s.HasRead? || Holding(s)
  }

  /** The tables with what a session has written, which COMMIT makes visible. */
  function Written(db: Db, s: Session): Db {
    match s
    case Inserting(alert) => WriteAlert(db, alert)
    case HasAudit(seen, t, seconds, actionId, auditId) =>
      if seen.id in db.alerts && actionId < |db.actions| && auditId < |db.audit|
      then WriteTriage(db, seen.id, seen.status, t, Some(seconds), actionId, auditId) else db
    case NoteWritten(id, status, user, text, now, auditId) =>
      if auditId < |db.audit| then WriteNote(db, NoteRow(s), auditId) else db
    case Deleting(dead) => RemoveDb(db, dead)
    case _ => db
  }

  predicate CanCommit(s: Session) {
    s.Inserting? || s.HasAudit? || s.NoteWritten? || s.Deleting?
  }

  /** The first statement after BEGIN, which sees the rows committed by then. */
  function First(db: Db, does: Statement, now: Micros): Outcome {
    match does
    case InsertAlert(n) =>
      Outcome(DrawAlert(db), if n.severity.Unlisted? then None else Some(Inserting(OpenAlert(db.nextAlert, n, now))))
    case ReadAlert(id, analyst, action, user) =>
      Outcome(db, if id in db.alerts && db.alerts[id].status == Open
                  then Some(HasRead(db.alerts[id], TriageRequest(analyst, action, user, now))) else None)
    case ReadForNote(id, user, text) =>
      Outcome(db, if id in db.alerts then Some(NoteRead(id, db.alerts[id].status, user, text, now)) else None)
    case SelectExpired(age) => Outcome(db, Some(Selecting(Expired(db, now - age))))
    case Abort => Outcome(db, None)
    case _ => Outcome(db, Some(Begun(now)))
  }

  /** The statements of a session that is under way. */
  function Executed(w: World, does: Statement, s: Session): Outcome {
    if s.Begun? then First(w.db, does, s.now) else Later(w, does, s)
  }

  /** The statements after the first. */
  function Later(w: World, does: Statement, s: Session): Outcome {
    match (does, s)
    case (Update, HasRead(seen, t)) =>
      if seen.id !in w.db.alerts then Outcome(w.db, None)     // RETURNING yields no row: the handler raises
      else if RowFree(w, seen.id) then Outcome(w.db, Some(HasUpdated(seen, t)))
      else Outcome(w.db, Some(s))
    case (InsertAction, HasUpdated(seen, t)) =>
      var seconds := ResponseTime(seen.createdAt, t.now);
      Outcome(DrawAction(w.db),
              if seconds == None then None else Some(HasAction(seen, t, seconds.value, |w.db.actions|)))
    case (InsertAudit, HasAction(seen, t, seconds, actionId)) =>
      Outcome(DrawAudit(w.db), Some(HasAudit(seen, t, seconds, actionId, |w.db.audit|)))
    case (InsertNote, NoteRead(id, status, user, text, now)) =>
      Outcome(DrawAudit(w.db), Some(NoteDrawn(id, status, user, text, now, |w.db.audit|)))
    case (CheckKey, NoteDrawn(id, status, user, text, now, auditId)) =>
      if id !in w.db.alerts then Outcome(w.db, None)          // foreign key violation
      else if KeyFree(w, id) then Outcome(w.db, Some(NoteWritten(id, status, user, text, now, auditId)))
      else Outcome(w.db, Some(s))
    case (DeleteExpired, Selecting(expired)) =>
      var dead := expired * w.db.alerts.Keys;
      Outcome(w.db, Some(if AllFree(w, dead) then Deleting(dead) else s))
    case (Commit, _) => if CanCommit(s) then Outcome(Written(w.db, s), None) else Outcome(w.db, Some(s))
    case (Abort, _) => Outcome(w.db, None)
    case _ => Outcome(w.db, Some(s))
  }

  function After(w: World, sid: nat, o: Outcome): World {
    World(o.db, if o.session.Some? then w.sessions[sid := o.session.value] else w.sessions - {sid})
  }

  function Apply(w: World, step: Step): World {
    match step
    case Embed(id, embedding) => if KeyFree(w, id) then w.(db := EmbedDb(w.db, id, embedding)) else w
    case Failed(drawn) => w.(db := Burn(w.db, drawn))
    case By(sid, does) =>
      After(w, sid, if sid in w.sessions then Executed(w, does, w.sessions[sid]) else Opened(w.db, does))
  }

  /** A session opens with BEGIN. */
  function Opened(db: Db, does: Statement): Outcome {
    Outcome(db, if does.Begin? then Some(Begun(does.now)) else None)
  }

  function Run(w: World, steps: seq<Step>): World {
    if steps == [] then w else Apply(Run(w, steps[..|steps| - 1]), steps[|steps| - 1])
  }

  // ---------------------------------------------------------------- what waits for what

  /** UPDATE goes ahead exactly when no other classification has updated this alert without having ended, and
      no purge has deleted it. Notes do not hold it up. */
  lemma UpdateRunsIff(w: World, sid: nat)
    requires sid in w.sessions && w.sessions[sid].HasRead? && w.sessions[sid].seen.id in w.db.alerts
    ensures var id, w' := w.sessions[sid].seen.id, Apply(w, By(sid, Update));
            && sid in w'.sessions && (w'.sessions[sid].HasUpdated? || w' == w)
            && (w'.sessions[sid].HasUpdated? <==>
                  forall o :: o in w.sessions ==>
                    && !((w.sessions[o].HasUpdated? || w.sessions[o].HasAction? || w.sessions[o].HasAudit?)
                         && w.sessions[o].seen.id == id)
                    && !(w.sessions[o].Deleting? && id in w.sessions[o].dead))
  {
    assert w.sessions[sid := w.sessions[sid]] == w.sessions;
  }

  /** The foreign-key check of a note goes ahead exactly when no purge has deleted the alert. Classifications
      do not hold it up. */
  lemma CheckKeyRunsIff(w: World, sid: nat)
    requires sid in w.sessions && w.sessions[sid].NoteDrawn? && w.sessions[sid].id in w.db.alerts
    ensures var id, w' := w.sessions[sid].id, Apply(w, By(sid, CheckKey));
            && sid in w'.sessions && (w'.sessions[sid].NoteWritten? || w' == w)
            && (w'.sessions[sid].NoteWritten? <==>
                  forall o :: o in w.sessions ==> !(w.sessions[o].Deleting? && id in w.sessions[o].dead))
  {
    assert w.sessions[sid := w.sessions[sid]] == w.sessions;
  }

  /** DELETE goes ahead exactly when, of the alerts in its snapshot that are still there, none is updated by a
      classification, referred to by a note or deleted by another purge that has not ended. */
  lemma DeleteRunsIff(w: World, sid: nat)
    requires sid in w.sessions && w.sessions[sid].Selecting?
    ensures var expired, w' := w.sessions[sid].expired, Apply(w, By(sid, DeleteExpired));
            && sid in w'.sessions && (w'.sessions[sid] == Deleting(expired * w.db.alerts.Keys) || w' == w)
            && (w'.sessions[sid].Deleting? <==>
                  forall o, id :: o in w.sessions && id in expired && id in w.db.alerts ==>
                    && !((w.sessions[o].HasUpdated? || w.sessions[o].HasAction? || w.sessions[o].HasAudit?)
                         && w.sessions[o].seen.id == id)
                    && !(w.sessions[o].NoteWritten? && w.sessions[o].id == id)
                    && !(w.sessions[o].Deleting? && id in w.sessions[o].dead))
  {
    assert w.sessions[sid := w.sessions[sid]] == w.sessions;
    var dead := w.sessions[sid].expired * w.db.alerts.Keys;
    forall o | o in w.sessions
      ensures Blocks(w.sessions[o], dead) <==> exists id :: id in dead && BlocksOne(w.sessions[o], id)
    {
      BlocksSome(w.sessions[o], dead);
    }
  }

  predicate BlocksOne(s: Session, id: nat) {
    HoldsRow(s, id) || (s.NoteWritten? && s.id == id) || Deletes(s, id)
  }

  lemma BlocksSome(s: Session, dead: set<nat>)
    ensures Blocks(s, dead) <==> exists id :: id in dead && BlocksOne(s, id)
  {
    if s.Deleting? && !(s.dead !! dead) {
      var id :| id in s.dead && id in dead;
      assert BlocksOne(s, id);
    }
    if Holding(s) && s.seen.id in dead {
      assert BlocksOne(s, s.seen.id);
    }
    if RefersTo(s, dead) {
      assert BlocksOne(s, s.id);
    }
    if id :| id in dead && BlocksOne(s, id) && Deletes(s, id) {
      assert id in s.dead && id in dead;
    }
  }

  // ---------------------------------------------------------------- what the locks provide

  function ActionId(s: Session): Option<nat> {
    if s.HasAction? || s.HasAudit? then Some(s.actionId) else None
  }

  function AuditId(s: Session): Option<nat> {
    if s.HasAudit? || s.NoteDrawn? || s.NoteWritten? then Some(s.auditId) else None
  }

  /** A classify session read an open alert; from its UPDATE on the alert is there, and from each INSERT on
      no other classification of the alert has a later id. Other sessions keep what they rely on, too. */
  ghost predicate SessionOk(s: Session, db: Db) {
    && (s.HasRead? || Holding(s) ==> s.seen.status == Open)
    && (Holding(s) ==> s.seen.id in db.alerts)
    && (s.HasAction? || s.HasAudit? ==> Latest(db.actions, ActionKey, s.seen.id, s.actionId) && s.seconds >= 0)
    && (s.HasAudit? ==> Latest(db.audit, TriageKey, s.seen.id, s.auditId))
    && (s.NoteDrawn? || s.NoteWritten? ==> s.auditId < |db.audit| && db.audit[s.auditId] == None)
    && (s.NoteWritten? ==> s.id in db.alerts)
    && (s.Inserting? ==> FreshAlert(db, s.alert))
    && (s.Deleting? ==> s.dead <= db.alerts.Keys)
  }

  /** Two sessions never hold conflicting locks, and no two own the same id. */
  predicate Apart(a: Session, b: Session) {
    && !(Holding(a) && Holding(b) && a.seen.id == b.seen.id)
    && (a.Deleting? ==> !Blocks(b, a.dead))
    && !(ActionId(a).Some? && ActionId(a) == ActionId(b))
    && !(AuditId(a).Some? && AuditId(a) == AuditId(b))
    && !(a.Inserting? && b.Inserting? && a.alert.id == b.alert.id)
  }

  ghost predicate AllOk(w: World) {
    forall sid :: sid in w.sessions ==> SessionOk(w.sessions[sid], w.db)
  }

  ghost predicate AllApart(w: World) {
    forall s1, s2 :: s1 in w.sessions && s2 in w.sessions && s1 != s2 ==> Apart(w.sessions[s1], w.sessions[s2])
  }

  ghost predicate Locked(w: World) {
    AllOk(w) && AllApart(w)
  }

  ghost predicate Inv(w: World) {
    Integrity(w.db) && Locked(w)
  }

  /** The other sessions still have what they rely on. */
  ghost predicate OthersOk(w: World, sid: nat, db: Db) {
    forall o :: o in w.sessions && o != sid ==> SessionOk(w.sessions[o], db)
  }

  ghost predicate FitsIn(w: World, sid: nat, s: Session) {
    forall o :: o in w.sessions && o != sid ==> Apart(s, w.sessions[o]) && Apart(w.sessions[o], s)
  }

  lemma AfterKeepsLocked(w: World, sid: nat, o: Outcome)
    requires AllApart(w) && OthersOk(w, sid, o.db)
    requires o.session.Some? ==> SessionOk(o.session.value, o.db) && FitsIn(w, sid, o.session.value)
    ensures Locked(After(w, sid, o))
  {
  }

  lemma DrawsKeepOk(s: Session, db: Db)
    requires SessionOk(s, db)
    ensures SessionOk(s, DrawAlert(db)) && SessionOk(s, DrawAction(db)) && SessionOk(s, DrawAudit(db))
  {
  }

  lemma BurnKeepsOk(s: Session, db: Db, drawn: Drawn)
    requires SessionOk(s, db)
    ensures SessionOk(s, Burn(db, drawn))
  {
  }

  lemma OthersOkAfterDraws(w: World, sid: nat)
    requires AllOk(w)
    ensures OthersOk(w, sid, w.db) && OthersOk(w, sid, DrawAlert(w.db))
    ensures OthersOk(w, sid, DrawAction(w.db)) && OthersOk(w, sid, DrawAudit(w.db))
  {
    forall o | o in w.sessions && o != sid
      ensures SessionOk(w.sessions[o], DrawAlert(w.db)) && SessionOk(w.sessions[o], DrawAction(w.db))
              && SessionOk(w.sessions[o], DrawAudit(w.db))
    {
      DrawsKeepOk(w.sessions[o], w.db);
    }
  }

  lemma NewAlertFits(w: World, n: NewAlert, now: Micros, sid: nat)
    requires Sound(w.db) && AllOk(w) && !n.severity.Unlisted?
    requires sid in w.sessions && w.sessions[sid].Begun?
    ensures var s := Inserting(OpenAlert(w.db.nextAlert, n, now));
            SessionOk(s, DrawAlert(w.db)) && FitsIn(w, sid, s)
  {
    forall o | o in w.sessions ensures !(w.sessions[o].Inserting? && w.sessions[o].alert.id == w.db.nextAlert) {
      assert SessionOk(w.sessions[o], w.db);
    }
  }

  /** A session that has written nothing yet conflicts with no other. */
  lemma ReaderFits(w: World, sid: nat, s: Session)
    requires s.Begun? || s.HasRead? || s.NoteRead? || s.Selecting?
    ensures FitsIn(w, sid, s)
  {
  }

  lemma FirstFits(w: World, does: Statement, now: Micros, sid: nat)
    requires Sound(w.db) && Locked(w) && sid in w.sessions && w.sessions[sid] == Begun(now)
    ensures OthersOk(w, sid, First(w.db, does, now).db)
    ensures var o := First(w.db, does, now);
            o.session.Some? ==> SessionOk(o.session.value, o.db) && FitsIn(w, sid, o.session.value)
  {
    OthersOkAfterDraws(w, sid);
    var o := First(w.db, does, now);
    if does.InsertAlert? {
      if !does.fields.severity.Unlisted? { NewAlertFits(w, does.fields, now, sid); }
    } else if o.session.Some? {
      ReaderFits(w, sid, o.session.value);
    }
  }

  lemma UpdateFits(w: World, sid: nat, s: Session)
    requires Locked(w) && sid in w.sessions && w.sessions[sid] == s && s.HasRead?
    requires s.seen.id in w.db.alerts && RowFree(w, s.seen.id)
    ensures SessionOk(HasUpdated(s.seen, s.triage), w.db) && FitsIn(w, sid, HasUpdated(s.seen, s.triage))
  {
    assert SessionOk(s, w.db);
  }

  lemma ActionFits(w: World, sid: nat, s: Session, seconds: int)
    requires Locked(w) && sid in w.sessions && w.sessions[sid] == s && s.HasUpdated? && seconds >= 0
    ensures var s' := HasAction(s.seen, s.triage, seconds, |w.db.actions|);
            SessionOk(s', DrawAction(w.db)) && FitsIn(w, sid, s')
  {
    assert SessionOk(s, w.db);
    forall o | o in w.sessions && o != sid ensures ActionId(w.sessions[o]) != Some(|w.db.actions|) {
      assert SessionOk(w.sessions[o], w.db);
    }
  }

  lemma AuditFits(w: World, sid: nat, s: Session)
    requires Locked(w) && sid in w.sessions && w.sessions[sid] == s && s.HasAction?
    ensures var s' := HasAudit(s.seen, s.triage, s.seconds, s.actionId, |w.db.audit|);
            SessionOk(s', DrawAudit(w.db)) && FitsIn(w, sid, s')
  {
    assert SessionOk(s, w.db);
    FreshAuditId(w, sid);
  }

  lemma FreshAuditId(w: World, sid: nat)
    requires AllOk(w)
    ensures forall o :: o in w.sessions && o != sid ==> AuditId(w.sessions[o]) != Some(|w.db.audit|)
  {
    forall o | o in w.sessions && o != sid ensures AuditId(w.sessions[o]) != Some(|w.db.audit|) {
      assert SessionOk(w.sessions[o], w.db);
    }
  }

  lemma NoteDrawnFits(w: World, sid: nat, s: Session)
    requires Locked(w) && sid in w.sessions && w.sessions[sid] == s && s.NoteRead?
    ensures var s' := NoteDrawn(s.id, s.status, s.user, s.text, s.now, |w.db.audit|);
            SessionOk(s', DrawAudit(w.db)) && FitsIn(w, sid, s')
  {
    FreshAuditId(w, sid);
  }

  lemma NoteFits(w: World, sid: nat, s: Session)
    requires Locked(w) && sid in w.sessions && w.sessions[sid] == s && s.NoteDrawn?
    requires s.id in w.db.alerts && KeyFree(w, s.id)
    ensures var s' := NoteWritten(s.id, s.status, s.user, s.text, s.now, s.auditId);
            SessionOk(s', w.db) && FitsIn(w, sid, s')
  {
    assert SessionOk(s, w.db) && FitsIn(w, sid, s);
  }

  // ---------------------------------------------------------------- COMMIT and the other sessions

  lemma TriageKeepsOk(o: Session, s: Session, db: Db)
    requires SessionOk(o, db) && SessionOk(s, db) && s.HasAudit? && Apart(o, s)
    ensures SessionOk(o, Written(db, s))
  {
    assert ActionKey(TriageAction(s.seen.id, s.triage, Some(s.seconds))) == Some(s.seen.id);
    assert TriageKey(TriageAudit(s.seen.id, s.seen.status, s.triage)) == Some(s.seen.id);
  }

  lemma NoteKeepsOk(o: Session, s: Session, db: Db)
    requires SessionOk(o, db) && SessionOk(s, db) && s.NoteWritten? && Apart(o, s)
    ensures SessionOk(o, Written(db, s))
  {
    assert TriageKey(NoteRow(s)) == None;
  }

  lemma InsertKeepsOk(o: Session, s: Session, db: Db)
    requires SessionOk(o, db) && SessionOk(s, db) && s.Inserting? && Apart(o, s)
    ensures SessionOk(o, Written(db, s))
  {
  }

  lemma DeleteKeepsOk(o: Session, s: Session, db: Db)
    requires SessionOk(o, db) && SessionOk(s, db) && s.Deleting? && Apart(o, s) && Apart(s, o)
    ensures SessionOk(o, Written(db, s))
  {
    var db' := Written(db, s);
    if o.HasAction? || o.HasAudit? {
      assert Latest(db.actions, ActionKey, o.seen.id, o.actionId);
    }
    if o.Deleting? {
      assert o.dead !! s.dead;
    }
  }

  lemma CommitKeepsOthers(w: World, sid: nat)
    requires Locked(w) && sid in w.sessions
    ensures OthersOk(w, sid, Written(w.db, w.sessions[sid]))
  {
    var s := w.sessions[sid];
    forall o | o in w.sessions && o != sid ensures SessionOk(w.sessions[o], Written(w.db, s)) {
      assert SessionOk(s, w.db) && SessionOk(w.sessions[o], w.db);
      assert Apart(w.sessions[o], s) && Apart(s, w.sessions[o]);
      match s
      case Inserting(_) => InsertKeepsOk(w.sessions[o], s, w.db);
      case HasAudit(_, _, _, _, _) => TriageKeepsOk(w.sessions[o], s, w.db);
      case NoteWritten(_, _, _, _, _, _) => NoteKeepsOk(w.sessions[o], s, w.db);
      case Deleting(_) => DeleteKeepsOk(w.sessions[o], s, w.db);
      case _ =>
    }
  }

  lemma LaterKeepsOthers(w: World, does: Statement, sid: nat)
    requires Locked(w) && sid in w.sessions
    ensures OthersOk(w, sid, Later(w, does, w.sessions[sid]).db)
  {
    OthersOkAfterDraws(w, sid);
    if does.Commit? {
      CommitKeepsOthers(w, sid);
    }
  }

  lemma DeleteFits(w: World, sid: nat, s: Session, dead: set<nat>)
    requires Locked(w) && sid in w.sessions && w.sessions[sid] == s && s.Selecting?
    requires dead <= w.db.alerts.Keys && AllFree(w, dead)
    ensures SessionOk(Deleting(dead), w.db) && FitsIn(w, sid, Deleting(dead))
  {
  }

  lemma LaterFits(w: World, does: Statement, sid: nat)
    requires Locked(w) && sid in w.sessions && !w.sessions[sid].Begun?
    ensures var o := Later(w, does, w.sessions[sid]);
            o.session.Some? ==> SessionOk(o.session.value, o.db) && FitsIn(w, sid, o.session.value)
  {
    var s := w.sessions[sid];
    assert SessionOk(s, w.db) && FitsIn(w, sid, s);
    match (does, s)
    case (Update, HasRead(seen, t)) =>
      if seen.id in w.db.alerts && RowFree(w, seen.id) { UpdateFits(w, sid, s); }
    case (InsertAction, HasUpdated(seen, t)) =>
      var seconds := ResponseTime(seen.createdAt, t.now);
      if seconds.Some? { ActionFits(w, sid, s, seconds.value); }
    case (InsertAudit, HasAction(_, _, _, _)) => AuditFits(w, sid, s);
    case (InsertNote, NoteRead(_, _, _, _, _)) => NoteDrawnFits(w, sid, s);
    case (CheckKey, NoteDrawn(id, _, _, _, _, _)) =>
      if id in w.db.alerts && KeyFree(w, id) { NoteFits(w, sid, s); }
    case (DeleteExpired, Selecting(expired)) =>
      var dead := expired * w.db.alerts.Keys;
      if AllFree(w, dead) { DeleteFits(w, sid, s, dead); }
    case _ =>
  }

  lemma StatementFits(w: World, does: Statement, sid: nat)
    requires Sound(w.db) && Locked(w) && sid in w.sessions
    ensures var o := Executed(w, does, w.sessions[sid]);
            && OthersOk(w, sid, o.db)
            && (o.session.Some? ==> SessionOk(o.session.value, o.db) && FitsIn(w, sid, o.session.value))
  {
    if w.sessions[sid].Begun? {
      FirstFits(w, does, w.sessions[sid].now, sid);
    } else {
      LaterKeepsOthers(w, does, sid);
      LaterFits(w, does, sid);
    }
  }

  lemma ApplyKeepsLocked(w: World, step: Step)
    requires Sound(w.db) && Locked(w)
    ensures Locked(Apply(w, step))
  {
    match step
    case Embed(id, embedding) =>
      forall sid | sid in w.sessions ensures SessionOk(w.sessions[sid], EmbedDb(w.db, id, embedding)) {
        assert SessionOk(w.sessions[sid], w.db);
      }
    case Failed(drawn) =>
      forall sid | sid in w.sessions ensures SessionOk(w.sessions[sid], Burn(w.db, drawn)) {
        BurnKeepsOk(w.sessions[sid], w.db, drawn);
      }
    case By(sid, does) =>
      if sid in w.sessions {
        StatementFits(w, does, sid);
        AfterKeepsLocked(w, sid, Executed(w, does, w.sessions[sid]));
      } else {
        AfterKeepsLocked(w, sid, Opened(w.db, does));
      }
  }

  // ---------------------------------------------------------------- what survives interleaving

  /** The tables after a step: a session's own rows come in all at once, when it commits. */
  function TablesAfter(w: World, step: Step): Db {
    match step
    case Embed(id, embedding) => if KeyFree(w, id) then EmbedDb(w.db, id, embedding) else w.db
    case Failed(drawn) => Burn(w.db, drawn)
    case By(sid, does) => if sid in w.sessions then Executed(w, does, w.sessions[sid]).db else w.db
  }

  /** A statement other than COMMIT changes no table; it may draw one id. */
  ghost predicate DrawsOnly(db: Db, db': Db) {
    db' == db || db' == DrawAlert(db) || db' == DrawAction(db) || db' == DrawAudit(db)
  }

  lemma StatementWrites(w: World, does: Statement, sid: nat)
    requires sid in w.sessions
    ensures var s, db' := w.sessions[sid], Executed(w, does, w.sessions[sid]).db;
            DrawsOnly(w.db, db') || (does.Commit? && CanCommit(s) && db' == Written(w.db, s))
  {
  }

  lemma DrawsKeepIntegrity(db: Db, db': Db)
    requires Integrity(db) && DrawsOnly(db, db')
    ensures Integrity(db')
  {
    DrawsAreBurnt(db);
    BurnKeepsIntegrity(db, Drawn(1, 0, 0));
    BurnKeepsIntegrity(db, Drawn(0, 1, 0));
    BurnKeepsIntegrity(db, Drawn(0, 0, 1));
  }

  lemma WrittenTriageKeepsIntegrity(db: Db, s: Session)
    requires SessionOk(s, db) && Integrity(db) && s.HasAudit?
    ensures Integrity(Written(db, s))
  {
    TriageKeepsIntegrity(db, s.seen.id, s.triage, Some(s.seconds), s.actionId, s.auditId);
  }

  lemma WrittenNoteKeepsIntegrity(db: Db, s: Session)
    requires SessionOk(s, db) && Integrity(db) && s.NoteWritten?
    ensures Integrity(Written(db, s))
  {
    NoteKeepsIntegrity(db, NoteRow(s), s.auditId);
  }

  lemma WrittenKeepsIntegrity(db: Db, s: Session)
    requires SessionOk(s, db) && Integrity(db)
    ensures Integrity(Written(db, s))
  {
    match s
    case Inserting(alert) => AlertKeepsIntegrity(db, alert);
    case HasAudit(_, _, _, _, _) => WrittenTriageKeepsIntegrity(db, s);
    case NoteWritten(_, _, _, _, _, _) => WrittenNoteKeepsIntegrity(db, s);
    case Deleting(dead) => RemoveKeepsIntegrity(db, dead);
    case _ =>
  }

  lemma TablesKeepIntegrity(w: World, step: Step)
    requires AllOk(w) && Integrity(w.db)
    ensures Integrity(TablesAfter(w, step))
  {
    match step
    case Embed(id, embedding) => EmbedKeepsIntegrity(w.db, id, embedding);
    case Failed(drawn) => BurnKeepsIntegrity(w.db, drawn);
    case By(sid, does) =>
      if sid in w.sessions {
        StatementWrites(w, does, sid);
        if DrawsOnly(w.db, TablesAfter(w, step)) {
          DrawsKeepIntegrity(w.db, TablesAfter(w, step));
        } else {
          WrittenKeepsIntegrity(w.db, w.sessions[sid]);
        }
      } else {
        DrawsKeepIntegrity(w.db, TablesAfter(w, step));
      }
  }

  lemma ApplyTables(w: World, step: Step)
    ensures Apply(w, step).db == TablesAfter(w, step)
  {
  }

  lemma ApplyKeepsInv(w: World, step: Step)
    requires Inv(w)
    ensures Inv(Apply(w, step))
  {
    ApplyTables(w, step);
    TablesKeepIntegrity(w, step);
    ApplyKeepsLocked(w, step);
  }

  lemma {:induction false} RunsKeepInv(w: World, steps: seq<Step>)
    requires Inv(w)
    ensures Inv(Run(w, steps))
  {
    if steps == [] {
    } else {
      RunsKeepInv(w, steps[..|steps| - 1]);
      ApplyKeepsInv(Run(w, steps[..|steps| - 1]), steps[|steps| - 1]);
    }
  }

  /** Main result. In every interleaving from empty tables: an alert's classification audit rows and action
      rows, each in the order of their ids, pair up, each made from `open`; its status and assignee are the
      last classification's; no row dangles. */
  lemma EveryInterleavingKeepsIntegrity(steps: seq<Step>)
    ensures Integrity(Run(START, steps).db)
  {
    RunsKeepInv(START, steps);
  }

  lemma RunStep(w: World, steps: seq<Step>, k: nat)
    requires k < |steps|
    ensures Run(w, steps[..k + 1]) == Apply(Run(w, steps[..k]), steps[k])
  {
    assert steps[..k + 1][..k] == steps[..k];
  }

  // ---------------------------------------------------------------- closed alerts

  /** An id that is used up, on no row that is still to be committed, and on no open alert. */
  ghost predicate Closed(w: World, id: nat) {
    && id < w.db.nextAlert
    && (id in w.db.alerts ==> w.db.alerts[id].status != Open)
    && forall sid :: sid in w.sessions && w.sessions[sid].Inserting? ==> w.sessions[sid].alert.id != id
  }

  lemma WrittenStaysClosed(w: World, sid: nat, id: nat)
    requires Closed(w, id) && sid in w.sessions
    ensures var db' := Written(w.db, w.sessions[sid]);
            id < db'.nextAlert && (id in db'.alerts ==> db'.alerts[id].status != Open)
  {
  }

  lemma StatementStaysClosed(w: World, does: Statement, sid: nat, id: nat)
    requires Closed(w, id) && sid in w.sessions
    ensures var o := Executed(w, does, w.sessions[sid]);
            && id < o.db.nextAlert && (id in o.db.alerts ==> o.db.alerts[id].status != Open)
            && (o.session.Some? && o.session.value.Inserting? ==> o.session.value.alert.id != id)
  {
    StatementWrites(w, does, sid);
    WrittenStaysClosed(w, sid, id);
  }

  lemma StaysClosed(w: World, step: Step, id: nat)
    requires Closed(w, id)
    ensures Closed(Apply(w, step), id)
  {
    if step.By? && step.sid in w.sessions {
      StatementStaysClosed(w, step.does, step.sid, id);
    }
  }

  lemma ClosedNow(w: World, id: nat)
    requires Sound(w.db) && AllOk(w) && id in w.db.alerts && w.db.alerts[id].status != Open
    ensures Closed(w, id)
  {
    forall sid | sid in w.sessions && w.sessions[sid].Inserting? ensures w.sessions[sid].alert.id != id {
      assert SessionOk(w.sessions[sid], w.db);
    }
  }

  /** Over any run, an alert that is no longer open is never open again, whichever sessions are in flight;
      nor is its id given to another alert once it is purged. */
  lemma {:induction false} NeverReopened(steps: seq<Step>, k: nat, j: nat, id: nat)
    requires k <= j <= |steps|
    requires id in Run(START, steps[..k]).db.alerts && Run(START, steps[..k]).db.alerts[id].status != Open
    ensures Closed(Run(START, steps[..j]), id)
  {
    if k == j {
      RunsKeepInv(START, steps[..k]);
      ClosedNow(Run(START, steps[..k]), id);
    } else {
      NeverReopened(steps, k, j - 1, id);
      RunStep(START, steps, j - 1);
      StaysClosed(Run(START, steps[..j - 1]), steps[j - 1], id);
    }
  }

  // ---------------------------------------------------------------- all rows or none

  function ActionRowOf(s: Session): ActionRow
    requires s.HasAudit?
  {
    TriageAction(s.seen.id, s.triage, Some(s.seconds))
  }

  function AuditRowOf(s: Session): AuditRow
    requires s.HasAudit?
  {
    TriageAudit(s.seen.id, s.seen.status, s.triage)
  }

  /** Neither of a classification's two rows is in the tables, or both are, and are its own. */
  ghost predicate BothOrNeither(db: Db, s: Session)
    requires s.HasAudit?
  {
    && s.actionId < |db.actions| && s.auditId < |db.audit|
    && ((db.actions[s.actionId] == None && db.audit[s.auditId] == None)
        || (db.actions[s.actionId] == Some(ActionRowOf(s)) && db.audit[s.auditId] == Some(AuditRowOf(s))))
  }

  /** A session's ids, once it has ended without COMMIT, belong to nobody. */
  ghost predicate Orphaned(w: World, s: Session)
    requires s.HasAudit?
  {
    forall sid :: sid in w.sessions ==>
      ActionId(w.sessions[sid]) != Some(s.actionId) && AuditId(w.sessions[sid]) != Some(s.auditId)
  }

  /** Still under way and unseen, or over with both rows or neither. */
  ghost predicate Settled(w: World, sid: nat, s: Session)
    requires s.HasAudit?
  {
    && BothOrNeither(w.db, s)
    && ((sid in w.sessions && w.sessions[sid] == s) || Orphaned(w, s))
  }

  /** A commit of another session leaves these two ids alone, unless it deletes the alert. */
  lemma WrittenKeepsBoth(w: World, other: nat, s: Session)
    requires Locked(w) && other in w.sessions && s.HasAudit? && BothOrNeither(w.db, s)
    requires ActionId(w.sessions[other]) != Some(s.actionId) && AuditId(w.sessions[other]) != Some(s.auditId)
    ensures BothOrNeither(Written(w.db, w.sessions[other]), s)
  {
    assert ActionKey(ActionRowOf(s)) == Some(s.seen.id) && AuditKey(AuditRowOf(s)) == Some(s.seen.id);
  }

  lemma DrawnIdsAreNew(w: World, other: nat, does: Statement)
    requires other in w.sessions
    ensures var s, o := w.sessions[other], Executed(w, does, w.sessions[other]).session;
            o.Some? ==>
              && (ActionId(o.value) == ActionId(s) || ActionId(o.value) == Some(|w.db.actions|))
              && (AuditId(o.value) == AuditId(s) || AuditId(o.value) == Some(|w.db.audit|))
  {
  }

  /** Whoever executes a statement, and owns neither id, leaves them settled. */
  lemma OthersKeepBoth(w: World, other: nat, does: Statement, s: Session)
    requires Locked(w) && other in w.sessions && s.HasAudit? && BothOrNeither(w.db, s)
    requires ActionId(w.sessions[other]) != Some(s.actionId) && AuditId(w.sessions[other]) != Some(s.auditId)
    ensures var o := Executed(w, does, w.sessions[other]);
            && BothOrNeither(o.db, s)
            && (o.session.Some? ==> ActionId(o.session.value) != Some(s.actionId)
                                    && AuditId(o.session.value) != Some(s.auditId))
  {
    StatementWrites(w, does, other);
    DrawnIdsAreNew(w, other, does);
    WrittenKeepsBoth(w, other, s);
  }

  /** A session that has written both rows ends with both of them committed, or with neither. */
  lemma OwnerSettles(w: World, sid: nat, does: Statement)
    requires Locked(w) && sid in w.sessions && w.sessions[sid].HasAudit?
    ensures Settled(Apply(w, By(sid, does)), sid, w.sessions[sid])
  {
    var s := w.sessions[sid];
    assert SessionOk(s, w.db);
    forall o | o in w.sessions && o != sid
      ensures ActionId(w.sessions[o]) != Some(s.actionId) && AuditId(w.sessions[o]) != Some(s.auditId)
    {
      assert Apart(s, w.sessions[o]);
    }
  }

  lemma NewSessionSettles(w: World, other: nat, does: Statement, sid: nat, s: Session)
    requires s.HasAudit? && Settled(w, sid, s) && other !in w.sessions
    ensures Settled(Apply(w, By(other, does)), sid, s)
  {
  }

  lemma OtherSessionSettles(w: World, other: nat, does: Statement, sid: nat, s: Session)
    requires Locked(w) && s.HasAudit? && Settled(w, sid, s) && other in w.sessions
    requires ActionId(w.sessions[other]) != Some(s.actionId) && AuditId(w.sessions[other]) != Some(s.auditId)
    requires other == sid ==> w.sessions[sid] != s
    ensures Settled(Apply(w, By(other, does)), sid, s)
  {
    OthersKeepBoth(w, other, does, s);
  }

  lemma StaysSettled(w: World, step: Step, sid: nat, s: Session)
    requires Locked(w) && s.HasAudit? && Settled(w, sid, s)
    ensures Settled(Apply(w, step), sid, s)
  {
    if step.By? {
      if step.sid !in w.sessions {
        NewSessionSettles(w, step.sid, step.does, sid, s);
      } else if step.sid == sid && w.sessions[sid] == s {
        OwnerSettles(w, sid, step.does);
      } else {
        if !Orphaned(w, s) {
          assert Apart(w.sessions[step.sid], w.sessions[sid]);
        }
        OtherSessionSettles(w, step.sid, step.does, sid, s);
      }
    }
  }

  lemma RunIsLocked(steps: seq<Step>, k: nat)
    requires k <= |steps|
    ensures Locked(Run(START, steps[..k]))
  {
    RunsKeepInv(START, steps[..k]);
  }

  lemma OwnerIsSettled(w: World, sid: nat)
    requires AllOk(w) && sid in w.sessions && w.sessions[sid].HasAudit?
    ensures Settled(w, sid, w.sessions[sid])
  {
    assert SessionOk(w.sessions[sid], w.db);
  }

  lemma NextSettles(steps: seq<Step>, j: nat, sid: nat, s: Session)
    requires 0 < j <= |steps| && s.HasAudit? && Settled(Run(START, steps[..j - 1]), sid, s)
    ensures Settled(Run(START, steps[..j]), sid, s)
  {
    RunIsLocked(steps, j - 1);
    RunStep(START, steps, j - 1);
    StaysSettled(Run(START, steps[..j - 1]), steps[j - 1], sid, s);
  }

  lemma {:induction false} RunsSettle(steps: seq<Step>, k: nat, j: nat, sid: nat, s: Session)
    requires k <= j <= |steps| && s.HasAudit?
    requires sid in Run(START, steps[..k]).sessions && Run(START, steps[..k]).sessions[sid] == s
    ensures Settled(Run(START, steps[..j]), sid, s)
  {
    if k == j {
      RunIsLocked(steps, k);
      OwnerIsSettled(Run(START, steps[..k]), sid);
    } else {
      RunsSettle(steps, k, j - 1, sid, s);
      NextSettles(steps, j, sid, s);
    }
  }

  /** An alert with an action row in the tables is there, and is not open. */
  lemma ActionCloses(db: Db, k: nat)
    requires Integrity(db) && k < |db.actions| && db.actions[k].Some?
    ensures var id := db.actions[k].value.alertId; id in db.alerts && db.alerts[id].status != Open
  {
    var row := db.actions[k].value;
    assert Paired(db, row.alertId);
    RowsOfMembers(db.actions, ActionKey, row.alertId);
    assert Some(row) in db.actions && row in ActionsOf(db, row.alertId);
  }

  /** A classification that has written both its rows, followed through the rest of a run: at every later
      time the tables hold neither row or both, and while they hold both the alert is there and no longer open,
      whatever became of the session and the others. */
  lemma AllOrNothing(steps: seq<Step>, k: nat, j: nat, sid: nat)
    requires k <= j <= |steps|
    requires sid in Run(START, steps[..k]).sessions && Run(START, steps[..k]).sessions[sid].HasAudit?
    ensures var s, db := Run(START, steps[..k]).sessions[sid], Run(START, steps[..j]).db;
            && BothOrNeither(db, s)
            && (db.actions[s.actionId].Some? ==> s.seen.id in db.alerts && db.alerts[s.seen.id].status != Open)
  {
    var s := Run(START, steps[..k]).sessions[sid];
    RunsSettle(steps, k, j, sid, s);
    RunsKeepInv(START, steps[..j]);
    if Run(START, steps[..j]).db.actions[s.actionId].Some? {
      ActionCloses(Run(START, steps[..j]).db, s.actionId);
    }
  }

  // ---------------------------------------------------------------- the row lock is stable

  /** An alert's row and its classifications are the same in both states. */
  ghost predicate SameTriages(db: Db, db': Db, id: nat) {
    && id in db.alerts && id in db'.alerts && db'.alerts[id] == db.alerts[id]
    && ActionsOf(db', id) == ActionsOf(db, id) && TriagesOf(db', id) == TriagesOf(db, id)
  }

  lemma DrawsKeepTriages(db: Db, db': Db, id: nat)
    requires DrawsOnly(db, db') && id in db.alerts
    ensures SameTriages(db, db', id)
  {
    DrawsAreBurnt(db);
    BurnHistory(db, Drawn(1, 0, 0));
    BurnHistory(db, Drawn(0, 1, 0));
    BurnHistory(db, Drawn(0, 0, 1));
  }

  lemma TriageSparesOthers(db: Db, o: Session, id: nat)
    requires SessionOk(o, db) && o.HasAudit? && id in db.alerts && o.seen.id != id
    ensures SameTriages(db, Written(db, o), id)
  {
    TriageHistory(db, o.seen.id, o.seen.status, o.triage, Some(o.seconds), o.actionId, o.auditId);
  }

  /** Nobody else's COMMIT touches an alert whose row lock is held. */
  lemma WrittenSparesLocked(w: World, sid: nat, other: nat)
    requires Sound(w.db) && Locked(w) && other in w.sessions && other != sid
    requires sid in w.sessions && Holding(w.sessions[sid])
    ensures SameTriages(w.db, Written(w.db, w.sessions[other]), w.sessions[sid].seen.id)
  {
    var s, o := w.sessions[sid], w.sessions[other];
    assert SessionOk(s, w.db) && SessionOk(o, w.db) && Apart(s, o) && Apart(o, s);
    match o
    case Inserting(alert) => AlertHistory(w.db, alert);
    case HasAudit(_, _, _, _, _) => TriageSparesOthers(w.db, o, s.seen.id);
    case NoteWritten(_, _, _, _, _, auditId) => NoteHistory(w.db, NoteRow(o), auditId);
    case Deleting(dead) => RemoveHistory(w.db, dead);
    case _ =>
  }

  ghost predicate HoldsIn(w: World, sid: nat, id: nat) {
    sid in w.sessions && HoldsRow(w.sessions[sid], id)
  }

  lemma StatementSparesLocked(w: World, other: nat, does: Statement, sid: nat, id: nat)
    requires Inv(w) && HoldsIn(w, sid, id) && other in w.sessions && id in w.db.alerts
    requires other == sid ==> !does.Commit?
    ensures SameTriages(w.db, Executed(w, does, w.sessions[other]).db, id)
  {
    StatementWrites(w, does, other);
    if DrawsOnly(w.db, Executed(w, does, w.sessions[other]).db) {
      DrawsKeepTriages(w.db, Executed(w, does, w.sessions[other]).db, id);
    } else {
      WrittenSparesLocked(w, sid, other);
    }
  }

  /** A session that goes on holding its row has not committed. */
  lemma HolderHasNotCommitted(w: World, sid: nat, does: Statement, id: nat)
    requires HoldsIn(w, sid, id) && HoldsIn(Apply(w, By(sid, does)), sid, id)
    ensures does.Commit? ==> Executed(w, does, w.sessions[sid]).db == w.db
  {
  }

  lemma HeldIsThere(w: World, sid: nat, id: nat)
    requires AllOk(w) && HoldsIn(w, sid, id)
    ensures id in w.db.alerts
  {
    assert SessionOk(w.sessions[sid], w.db);
  }

  lemma StepSparesLocked(w: World, step: Step, sid: nat, id: nat)
    requires Inv(w) && HoldsIn(w, sid, id) && HoldsIn(Apply(w, step), sid, id)
    ensures SameTriages(w.db, Apply(w, step).db, id)
  {
    HeldIsThere(w, sid, id);
    match step
    case Embed(_, _) =>
    case Failed(drawn) => BurnHistory(w.db, drawn);
    case By(other, does) =>
      if other !in w.sessions {
        DrawsKeepTriages(w.db, w.db, id);
      } else if other == sid && does.Commit? {
        HolderHasNotCommitted(w, sid, does, id);
      } else {
        StatementSparesLocked(w, other, does, sid, id);
      }
  }

  lemma NextSparesLocked(steps: seq<Step>, j: nat, sid: nat, id: nat)
    requires 0 < j <= |steps|
    requires HoldsIn(Run(START, steps[..j - 1]), sid, id) && HoldsIn(Run(START, steps[..j]), sid, id)
    ensures SameTriages(Run(START, steps[..j - 1]).db, Run(START, steps[..j]).db, id)
  {
    RunsKeepInv(START, steps[..j - 1]);
    RunStep(START, steps, j - 1);
    StepSparesLocked(Run(START, steps[..j - 1]), steps[j - 1], sid, id);
  }

  lemma SameTriagesCompose(a: Db, b: Db, c: Db, id: nat)
    requires SameTriages(a, b, id) && SameTriages(b, c, id)
    ensures SameTriages(a, c, id)
  {
  }

  /** From its UPDATE until it ends, a classification is the only one to change its alert. */
  lemma {:induction false} LockIsStable(steps: seq<Step>, k: nat, j: nat, sid: nat, id: nat)
    requires k <= j <= |steps|
    requires forall i :: k <= i <= j ==> HoldsIn(Run(START, steps[..i]), sid, id)
    ensures SameTriages(Run(START, steps[..k]).db, Run(START, steps[..j]).db, id)
  {
    if k == j {
      RunIsLocked(steps, k);
      HeldIsThere(Run(START, steps[..k]), sid, id);
    } else {
      LockIsStable(steps, k, j - 1, sid, id);
      assert HoldsIn(Run(START, steps[..j - 1]), sid, id) && HoldsIn(Run(START, steps[..j]), sid, id);
      NextSparesLocked(steps, j, sid, id);
      SameTriagesCompose(Run(START, steps[..k]).db, Run(START, steps[..j - 1]).db, Run(START, steps[..j]).db, id);
    }
  }

  // ---------------------------------------------------------------- whole requests are interleavings

  lemma {:induction false} RunAppend(w: World, a: seq<Step>, b: seq<Step>)
    ensures Run(w, a + b) == Run(Run(w, a), b)
  {
    if b == [] {
      assert a + b == a;
    } else {
      RunAppend(w, a, b[..|b| - 1]);
      assert (a + b)[..|a + b| - 1] == a + b[..|b| - 1];
    }
  }

  lemma RunOne(w: World, a: Step)
    ensures Run(w, [a]) == Apply(w, a)
  {
    var one := [a];
    assert one[..0] == [] && Run(w, one[..0]) == w;
  }

  lemma RunTwo(w: World, a: Step, b: Step)
    ensures Run(w, [a, b]) == Apply(Apply(w, a), b)
  {
    var two := [a, b];
    assert two[..1] == [a];
    RunOne(w, a);
  }

  lemma RunThree(w: World, a: Step, b: Step, c: Step)
    ensures Run(w, [a, b, c]) == Apply(Apply(Apply(w, a), b), c)
  {
    var three := [a, b, c];
    assert three[..2] == [a, b];
    RunTwo(w, a, b);
  }

  lemma CommitRuns(w: World, sid: nat)
    requires sid in w.sessions && CanCommit(w.sessions[sid])
    ensures Apply(w, By(sid, Commit)) == World(Written(w.db, w.sessions[sid]), w.sessions - {sid})
  {
  }

  /** BEGIN and the first statement. */
  function Opening(sid: nat, now: Micros, does: Statement): seq<Step> {
    [By(sid, Begin(now)), By(sid, does)]
  }

  lemma OpeningRuns(w: World, sid: nat, now: Micros, does: Statement)
    requires sid !in w.sessions
    ensures var o := First(w.db, does, now);
            Run(w, Opening(sid, now, does)) ==
            World(o.db, if o.session.Some? then w.sessions[sid := o.session.value] else w.sessions)
  {
    var w1, o := World(w.db, w.sessions[sid := Begun(now)]), First(w.db, does, now);
    RunTwo(w, By(sid, Begin(now)), By(sid, does));
    assert Apply(w, By(sid, Begin(now))) == w1;
    assert w1.sessions - {sid} == w.sessions;
    if o.session.Some? {
      assert w1.sessions[sid := o.session.value] == w.sessions[sid := o.session.value];
    }
  }

  /** The statements that follow a classification's SELECT, with nobody in between. */
  function Rest(sid: nat): seq<Step> {
    [By(sid, Update), By(sid, InsertAction), By(sid, InsertAudit), By(sid, Commit)]
  }

  ghost predicate Ready(w: World, sid: nat) {
    && sid in w.sessions && w.sessions[sid].HasRead?
    && w.sessions[sid].seen.id in w.db.alerts && RowFree(w, w.sessions[sid].seen.id)
    && ResponseTime(w.sessions[sid].seen.createdAt, w.sessions[sid].triage.now).Some?
  }

  lemma RestWrites(w: World, sid: nat)
    requires Ready(w, sid)
    ensures var s := w.sessions[sid];
            Apply(Apply(Apply(w, By(sid, Update)), By(sid, InsertAction)), By(sid, InsertAudit)) ==
            World(DrawAudit(DrawAction(w.db)),
                  w.sessions[sid := HasAudit(s.seen, s.triage, ResponseTime(s.seen.createdAt, s.triage.now).value,
                                             |w.db.actions|, |w.db.audit|)])
  {
    var s := w.sessions[sid];
    var seconds := ResponseTime(s.seen.createdAt, s.triage.now).value;
    var w1 := Apply(w, By(sid, Update));
    assert w1 == World(w.db, w.sessions[sid := HasUpdated(s.seen, s.triage)]);
    var w2 := Apply(w1, By(sid, InsertAction));
    assert w2.db == DrawAction(w.db);
    assert w2.sessions == w.sessions[sid := HasAction(s.seen, s.triage, seconds, |w.db.actions|)];
    var w3 := Apply(w2, By(sid, InsertAudit));
    assert w3.sessions == w.sessions[sid := HasAudit(s.seen, s.triage, seconds, |w.db.actions|, |w.db.audit|)];
  }

  lemma RestRuns(w: World, sid: nat)
    requires Ready(w, sid)
    ensures var s := w.sessions[sid];
            Run(w, Rest(sid)) ==
            World(TriageDb(w.db, s.seen.id, s.seen.status, s.triage, ResponseTime(s.seen.createdAt, s.triage.now)),
                  w.sessions - {sid})
  {
    var three := [By(sid, Update), By(sid, InsertAction), By(sid, InsertAudit)];
    RunThree(w, three[0], three[1], three[2]);
    RestWrites(w, sid);
    var w3 := Run(w, three);
    CommitRuns(w3, sid);
    assert w3.sessions - {sid} == w.sessions - {sid};
    RunOne(w3, By(sid, Commit));
    RunAppend(w, three, [By(sid, Commit)]);
    assert Rest(sid) == three + [By(sid, Commit)];
  }

  /** The statements that follow a note's SELECT. */
  function NoteRest(sid: nat): seq<Step> {
    [By(sid, InsertNote), By(sid, CheckKey), By(sid, Commit)]
  }

  lemma NoteRestDraws(w: World, sid: nat)
    requires sid in w.sessions && w.sessions[sid].NoteRead?
    ensures var s := w.sessions[sid];
            Apply(w, By(sid, InsertNote))
            == World(DrawAudit(w.db),
                     w.sessions[sid := NoteDrawn(s.id, s.status, s.user, s.text, s.now, |w.db.audit|)])
  {
  }

  lemma NoteRestChecks(w: World, sid: nat)
    requires sid in w.sessions && w.sessions[sid].NoteDrawn?
    requires w.sessions[sid].id in w.db.alerts && KeyFree(w, w.sessions[sid].id)
    ensures var s := w.sessions[sid];
            Apply(w, By(sid, CheckKey))
            == World(w.db, w.sessions[sid := NoteWritten(s.id, s.status, s.user, s.text, s.now, s.auditId)])
  {
  }

  lemma NoteRestRuns(w: World, sid: nat)
    requires sid in w.sessions && w.sessions[sid].NoteRead?
    requires w.sessions[sid].id in w.db.alerts && KeyFree(w, w.sessions[sid].id)
    ensures var s := w.sessions[sid];
            Run(w, NoteRest(sid)) == World(NoteDb(w.db, s.id, s.status, s.user, s.text, s.now), w.sessions - {sid})
  {
    var s, k := w.sessions[sid], |w.db.audit|;
    RunThree(w, By(sid, InsertNote), By(sid, CheckKey), By(sid, Commit));
    var w1 := World(DrawAudit(w.db), w.sessions[sid := NoteDrawn(s.id, s.status, s.user, s.text, s.now, k)]);
    NoteRestDraws(w, sid);
    NoteRestChecks(w1, sid);
    var w2 := World(DrawAudit(w.db), w.sessions[sid := NoteWritten(s.id, s.status, s.user, s.text, s.now, k)]);
    assert w1.sessions[sid := w2.sessions[sid]] == w2.sessions;
    CommitRuns(w2, sid);
    assert w2.sessions - {sid} == w.sessions - {sid};
  }

  function Inserts(sid: nat, n: NewAlert, now: Micros): seq<Step> {
    Opening(sid, now, InsertAlert(n)) + [By(sid, Commit)]
  }

  lemma InsertRuns(w: World, sid: nat, n: NewAlert, now: Micros)
    requires sid !in w.sessions && !n.severity.Unlisted?
    ensures Run(w, Inserts(sid, n, now)) == World(InsertAlertDb(w.db, n, now), w.sessions)
  {
    var w1 := World(DrawAlert(w.db), w.sessions[sid := Inserting(OpenAlert(w.db.nextAlert, n, now))]);
    OpeningRuns(w, sid, now, InsertAlert(n));
    RunAppend(w, Opening(sid, now, InsertAlert(n)), [By(sid, Commit)]);
    RunOne(w1, By(sid, Commit));
    CommitRuns(w1, sid);
    assert w1.sessions - {sid} == w.sessions;
  }

  function Purges(now: Micros, age: Micros): seq<Step> {
    Opening(0, now, SelectExpired(age)) + [By(0, DeleteExpired), By(0, Commit)]
  }

  lemma DeleteApplies(db: Db, expired: set<nat>)
    requires expired <= db.alerts.Keys
    ensures Apply(World(db, map[0 := Selecting(expired)]), By(0, DeleteExpired))
         == World(db, map[0 := Deleting(expired)])
  {
    assert expired * db.alerts.Keys == expired;
  }

  lemma DeleteRuns(db: Db, expired: set<nat>)
    requires expired <= db.alerts.Keys
    ensures Run(World(db, map[0 := Selecting(expired)]), [By(0, DeleteExpired), By(0, Commit)])
         == World(RemoveDb(db, expired), map[])
  {
    var w1, w2 := World(db, map[0 := Selecting(expired)]), World(db, map[0 := Deleting(expired)]);
    RunTwo(w1, By(0, DeleteExpired), By(0, Commit));
    DeleteApplies(db, expired);
    CommitRuns(w2, 0);
    assert w2.sessions - {0} == map[];
  }

  lemma PurgeRuns(db: Db, now: Micros, age: Micros)
    ensures Run(World(db, map[]), Purges(now, age)) == World(PurgeDb(db, now - age), map[])
  {
    OpeningRuns(World(db, map[]), 0, now, SelectExpired(age));
    RunAppend(World(db, map[]), Opening(0, now, SelectExpired(age)), [By(0, DeleteExpired), By(0, Commit)]);
    DeleteRuns(db, Expired(db, now - age));
  }

  function Reads(id: nat, t: TriageRequest): Statement { ReadAlert(id, t.analyst, t.action, t.user) }

  /** The steps of one whole request, run by session 0. */
  function StepsOf(db: Db, r: Lifecycle.Request): seq<Step> {
    match r
    case Ingest(n, now) => if n.severity.Unlisted? then Opening(0, now, InsertAlert(n)) else Inserts(0, n, now)
    case Failed(drawn) => [Failed(drawn)]
    case Embed(id, embedding) => [Embed(id, embedding)]
    case Purge(cutoff) => Purges(cutoff, 0)
    case Classify(id, t) =>
      if Lifecycle.CanTriage(db, id, t.now) then Opening(0, t.now, Reads(id, t)) + Rest(0) else []
    case Note(id, user, text, now) =>
      if id in db.alerts then Opening(0, now, ReadForNote(id, user, text)) + NoteRest(0) else []
  }

  function Expand(rs: seq<Lifecycle.Request>): seq<Step> {
    if rs == [] then []
    else Expand(rs[..|rs| - 1]) + StepsOf(Lifecycle.Run(rs[..|rs| - 1]), rs[|rs| - 1])
  }

  lemma ClassifyRuns(db: Db, id: nat, t: TriageRequest)
    requires Lifecycle.CanTriage(db, id, t.now) && db.alerts[id].id == id
    ensures Run(World(db, map[]), Opening(0, t.now, Reads(id, t)) + Rest(0))
         == World(Lifecycle.Step(db, Lifecycle.Classify(id, t)), map[])
  {
    var w := World(db, map[0 := HasRead(db.alerts[id], t)]);
    RunAppend(World(db, map[]), Opening(0, t.now, Reads(id, t)), Rest(0));
    OpeningRuns(World(db, map[]), 0, t.now, Reads(id, t));
    RestRuns(w, 0);
    assert w.sessions - {0} == map[];
  }

  lemma NoteRuns(db: Db, id: nat, user: User, text: string, now: Micros)
    requires id in db.alerts
    ensures Run(World(db, map[]), Opening(0, now, ReadForNote(id, user, text)) + NoteRest(0))
         == World(Lifecycle.Step(db, Lifecycle.Note(id, user, text, now)), map[])
  {
    var w := World(db, map[0 := NoteRead(id, db.alerts[id].status, user, text, now)]);
    RunAppend(World(db, map[]), Opening(0, now, ReadForNote(id, user, text)), NoteRest(0));
    OpeningRuns(World(db, map[]), 0, now, ReadForNote(id, user, text));
    NoteRestRuns(w, 0);
    assert w.sessions - {0} == map[];
  }

  lemma RequestRuns(db: Db, r: Lifecycle.Request)
    requires Sound(db)
    ensures Run(World(db, map[]), StepsOf(db, r)) == World(Lifecycle.Step(db, r), map[])
  {
    match r
    case Ingest(n, now) =>
      if n.severity.Unlisted? {
        OpeningRuns(World(db, map[]), 0, now, InsertAlert(n));
      } else {
        InsertRuns(World(db, map[]), 0, n, now);
      }
    case Failed(drawn) => RunOne(World(db, map[]), Failed(drawn));
    case Embed(id, embedding) => RunOne(World(db, map[]), Embed(id, embedding));
    case Purge(cutoff) => PurgeRuns(db, cutoff, 0);
    case Classify(id, t) =>
      if Lifecycle.CanTriage(db, id, t.now) { ClassifyRuns(db, id, t); }
    case Note(id, user, text, now) =>
      if id in db.alerts { NoteRuns(db, id, user, text, now); }
  }

  /** Every run of whole requests is one of the interleavings, and ends in the same tables. */
  lemma {:induction false} RequestsAreInterleavings(rs: seq<Lifecycle.Request>)
    ensures Run(START, Expand(rs)) == World(Lifecycle.Run(rs), map[])
  {
    if rs == [] {
    } else {
      var before, r := rs[..|rs| - 1], rs[|rs| - 1];
      RequestsAreInterleavings(before);
      Lifecycle.RunIsSound(before);
      RunAppend(START, Expand(before), StepsOf(Lifecycle.Run(before), r));
      RequestRuns(Lifecycle.Run(before), r);
    }
  }
}
