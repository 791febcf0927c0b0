/** Where the rows of the audit log come from: over any interleaving, each was committed by a session that
    began at the row's time and read the alert on behalf of the row's user. */
module Provenance {
  import opened Common
  import opened Schema
  import opened Tables
  import opened Transactions
  import opened Interleaving
  import opened Effects

  // ---------------------------------------------------------------- sessions

  /** The session is there at all times after step b, up to n. */
  ghost predicate UnderWay(steps: seq<Step>, b: nat, n: nat, sid: nat) {
    && b < n <= |steps| && sid in Run(START, steps[..n]).sessions
    && (n == b + 1 || UnderWay(steps, b, n - 1, sid))
  }

  /** Step b is the BEGIN of the session that is still under way at time n. */
  ghost predicate BeganAt(steps: seq<Step>, b: nat, n: nat, sid: nat) {
    && UnderWay(steps, b, n, sid) && steps[b].By? && steps[b].sid == sid && steps[b].does.Begin?
    && sid !in Run(START, steps[..b]).sessions
  }

  /** Step r is its first statement. */
  ghost predicate ReadAt(steps: seq<Step>, b: nat, r: nat, n: nat, sid: nat) {
    && BeganAt(steps, b, n, sid) && b < r < n && steps[r].By? && steps[r].sid == sid
    && sid in Run(START, steps[..r]).sessions
    && Run(START, steps[..r]).sessions[sid] == Begun(steps[b].does.now)
  }

  /** A classification's session, after this SELECT of the alert. */
  ghost predicate TriagedFrom(s: Session, does: Statement, db: Db, now: Micros) {
    && OfTriage(s) && does.ReadAlert? && does.id in db.alerts && db.alerts[does.id].status == Open
    && s.seen == db.alerts[does.id]
    && s.triage.analyst == does.analyst && s.triage.action == does.action
    && s.triage.user == does.user && s.triage.now == now
  }

  ghost predicate NotedFrom(s: Session, does: Statement, db: Db, now: Micros) {
    && OfNote(s) && does.ReadForNote? && does.id in db.alerts
    && s.id == does.id && s.status == db.alerts[does.id].status
    && s.user == does.user && s.text == does.text && s.now == now
  }

  ghost predicate InsertedFrom(s: Session, does: Statement, now: Micros) {
    s.Inserting? && does.InsertAlert? && HasColumns(None, s.alert, does.fields, (0, 0, 0), now)
  }

  /** The same transaction, further on. */
  predicate SameTriage(s: Session, s': Session) {
    OfTriage(s) && OfTriage(s') && s'.seen == s.seen && s'.triage == s.triage
  }

  predicate SameNote(s: Session, s': Session) {
    && OfNote(s) && OfNote(s') && s'.id == s.id && s'.status == s.status
    && s'.user == s.user && s'.text == s.text && s'.now == s.now
  }

  /** What a step can have made of a session. */
  ghost predicate Follows(w: World, step: Step, sid: nat, s': Session) {
    if sid !in w.sessions then step.By? && step.sid == sid && step.does.Begin? && s' == Begun(step.does.now)
    else var s := w.sessions[sid];
      && (s'.Begun? ==> s' == s)
      && (OfTriage(s') && !SameTriage(s, s') ==>
            s.Begun? && step.By? && step.sid == sid && TriagedFrom(s', step.does, w.db, s.now))
      && (OfNote(s') && !SameNote(s, s') ==>
            s.Begun? && step.By? && step.sid == sid && NotedFrom(s', step.does, w.db, s.now))
      && (s'.Inserting? && s' != s ==>
            s.Begun? && step.By? && step.sid == sid && InsertedFrom(s', step.does, s.now))
  }

  lemma SessionFollows(w: World, step: Step, sid: nat)
    requires sid in Apply(w, step).sessions
    ensures Follows(w, step, sid, Apply(w, step).sessions[sid])
  {
  }

  /** A classification, a note or an ingest goes on, or starts with this step. */
  lemma FollowsCases(w: World, step: Step, sid: nat, s': Session)
    requires Follows(w, step, sid, s') && (OfTriage(s') || OfNote(s') || s'.Inserting?)
    ensures sid in w.sessions
    ensures var s := w.sessions[sid];
            && (OfTriage(s') ==> if OfTriage(s) then SameTriage(s, s') else s.Begun?)
            && (OfNote(s') ==> if OfNote(s) then SameNote(s, s') else s.Begun?)
            && (s'.Inserting? ==> if s.Inserting? then s' == s else s.Begun?)
            && (s.Begun? ==> step.By? && step.sid == sid
                             && (OfTriage(s') ==> TriagedFrom(s', step.does, w.db, s.now))
                             && (OfNote(s') ==> NotedFrom(s', step.does, w.db, s.now))
                             && (s'.Inserting? ==> InsertedFrom(s', step.does, s.now)))
  {
  }

  lemma NextFollows(steps: seq<Step>, n: nat, sid: nat)
    requires n < |steps| && sid in Run(START, steps[..n + 1]).sessions
    ensures Follows(Run(START, steps[..n]), steps[n], sid, Run(START, steps[..n + 1]).sessions[sid])
  {
    RunStep(START, steps, n);
    SessionFollows(Run(START, steps[..n]), steps[n], sid);
  }

  /** The recorded response time is that of the alert the session saw. */
  ghost predicate TimedRight(s: Session) {
    s.HasAction? || s.HasAudit? ==> ResponseTime(s.seen.createdAt, s.triage.now) == Some(s.seconds)
  }

  lemma StepKeepsTimedRight(w: World, step: Step, sid: nat)
    requires sid in Apply(w, step).sessions && (sid in w.sessions ==> TimedRight(w.sessions[sid]))
    ensures TimedRight(Apply(w, step).sessions[sid])
  {
  }

  lemma {:induction false} RunsKeepTimedRight(steps: seq<Step>, n: nat, sid: nat)
    requires n <= |steps| && sid in Run(START, steps[..n]).sessions
    ensures TimedRight(Run(START, steps[..n]).sessions[sid])
  {
    if n == 0 {
      assert false;
    } else {
      if sid in Run(START, steps[..n - 1]).sessions {
        RunsKeepTimedRight(steps, n - 1, sid);
      }
      RunStep(START, steps, n - 1);
      StepKeepsTimedRight(Run(START, steps[..n - 1]), steps[n - 1], sid);
    }
  }

  lemma {:induction false} SessionBegan(steps: seq<Step>, n: nat, sid: nat) returns (b: nat)
    requires n <= |steps| && sid in Run(START, steps[..n]).sessions
    ensures BeganAt(steps, b, n, sid)
    ensures Run(START, steps[..n]).sessions[sid].Begun? ==>
              Run(START, steps[..n]).sessions[sid] == Begun(steps[b].does.now)
  {
    if n == 0 {
      assert false;
    } else {
      NextFollows(steps, n - 1, sid);
      if sid in Run(START, steps[..n - 1]).sessions {
        b := SessionBegan(steps, n - 1, sid);
      } else {
        b := n - 1;
      }
    }
  }

  /** The session is a classification that read the alert by step r, and so on for a note and for an ingest. */
  ghost predicate TriagedSince(steps: seq<Step>, b: nat, r: nat, n: nat, sid: nat) {
    && ReadAt(steps, b, r, n, sid)
    && TriagedFrom(Run(START, steps[..n]).sessions[sid], steps[r].does, Run(START, steps[..r]).db, steps[b].does.now)
  }

  ghost predicate NotedSince(steps: seq<Step>, b: nat, r: nat, n: nat, sid: nat) {
    && ReadAt(steps, b, r, n, sid)
    && NotedFrom(Run(START, steps[..n]).sessions[sid], steps[r].does, Run(START, steps[..r]).db, steps[b].does.now)
  }

  ghost predicate InsertedSince(steps: seq<Step>, b: nat, r: nat, n: nat, sid: nat) {
    && ReadAt(steps, b, r, n, sid)
    && InsertedFrom(Run(START, steps[..n]).sessions[sid], steps[r].does, steps[b].does.now)
  }

  lemma TriageGoesOn(steps: seq<Step>, b: nat, r: nat, n: nat, sid: nat)
    requires TriagedSince(steps, b, r, n, sid) && n < |steps| && sid in Run(START, steps[..n + 1]).sessions
    requires SameTriage(Run(START, steps[..n]).sessions[sid], Run(START, steps[..n + 1]).sessions[sid])
    ensures TriagedSince(steps, b, r, n + 1, sid)
  {
  }

  lemma TriageStarts(steps: seq<Step>, b: nat, n: nat, sid: nat)
    requires BeganAt(steps, b, n, sid) && n < |steps| && steps[n].By? && steps[n].sid == sid
    requires Run(START, steps[..n]).sessions[sid] == Begun(steps[b].does.now)
    requires sid in Run(START, steps[..n + 1]).sessions
    requires TriagedFrom(Run(START, steps[..n + 1]).sessions[sid], steps[n].does, Run(START, steps[..n]).db,
                         steps[b].does.now)
    ensures TriagedSince(steps, b, n, n + 1, sid)
  {
  }

  lemma {:induction false} TriageSource(steps: seq<Step>, n: nat, sid: nat) returns (b: nat, r: nat)
    requires n <= |steps| && sid in Run(START, steps[..n]).sessions && OfTriage(Run(START, steps[..n]).sessions[sid])
    ensures TriagedSince(steps, b, r, n, sid)
  {
    if n == 0 {
      assert false;
    } else {
      NextFollows(steps, n - 1, sid);
      FollowsCases(Run(START, steps[..n - 1]), steps[n - 1], sid, Run(START, steps[..n]).sessions[sid]);
      if OfTriage(Run(START, steps[..n - 1]).sessions[sid]) {
        b, r := TriageSource(steps, n - 1, sid);
        TriageGoesOn(steps, b, r, n - 1, sid);
      } else {
        r := n - 1;
        b := SessionBegan(steps, r, sid);
        TriageStarts(steps, b, r, sid);
      }
    }
  }

  lemma NoteGoesOn(steps: seq<Step>, b: nat, r: nat, n: nat, sid: nat)
    requires NotedSince(steps, b, r, n, sid) && n < |steps| && sid in Run(START, steps[..n + 1]).sessions
    requires SameNote(Run(START, steps[..n]).sessions[sid], Run(START, steps[..n + 1]).sessions[sid])
    ensures NotedSince(steps, b, r, n + 1, sid)
  {
  }

  lemma NoteStarts(steps: seq<Step>, b: nat, n: nat, sid: nat)
    requires BeganAt(steps, b, n, sid) && n < |steps| && steps[n].By? && steps[n].sid == sid
    requires Run(START, steps[..n]).sessions[sid] == Begun(steps[b].does.now)
    requires sid in Run(START, steps[..n + 1]).sessions
    requires NotedFrom(Run(START, steps[..n + 1]).sessions[sid], steps[n].does, Run(START, steps[..n]).db,
                       steps[b].does.now)
    ensures NotedSince(steps, b, n, n + 1, sid)
  {
  }

  lemma {:induction false} NoteSource(steps: seq<Step>, n: nat, sid: nat) returns (b: nat, r: nat)
    requires n <= |steps| && sid in Run(START, steps[..n]).sessions && OfNote(Run(START, steps[..n]).sessions[sid])
    ensures NotedSince(steps, b, r, n, sid)
  {
    if n == 0 {
      assert false;
    } else {
      NextFollows(steps, n - 1, sid);
      FollowsCases(Run(START, steps[..n - 1]), steps[n - 1], sid, Run(START, steps[..n]).sessions[sid]);
      if OfNote(Run(START, steps[..n - 1]).sessions[sid]) {
        b, r := NoteSource(steps, n - 1, sid);
        NoteGoesOn(steps, b, r, n - 1, sid);
      } else {
        r := n - 1;
        b := SessionBegan(steps, r, sid);
        NoteStarts(steps, b, r, sid);
      }
    }
  }

  lemma IngestGoesOn(steps: seq<Step>, b: nat, r: nat, n: nat, sid: nat)
    requires InsertedSince(steps, b, r, n, sid) && n < |steps| && sid in Run(START, steps[..n + 1]).sessions
    requires Run(START, steps[..n + 1]).sessions[sid] == Run(START, steps[..n]).sessions[sid]
    ensures InsertedSince(steps, b, r, n + 1, sid)
  {
  }

  lemma IngestStarts(steps: seq<Step>, b: nat, n: nat, sid: nat)
    requires BeganAt(steps, b, n, sid) && n < |steps| && steps[n].By? && steps[n].sid == sid
    requires Run(START, steps[..n]).sessions[sid] == Begun(steps[b].does.now)
    requires sid in Run(START, steps[..n + 1]).sessions
    requires InsertedFrom(Run(START, steps[..n + 1]).sessions[sid], steps[n].does, steps[b].does.now)
    ensures InsertedSince(steps, b, n, n + 1, sid)
  {
  }

  lemma {:induction false} IngestSource(steps: seq<Step>, n: nat, sid: nat) returns (b: nat, r: nat)
    requires n <= |steps| && sid in Run(START, steps[..n]).sessions && Run(START, steps[..n]).sessions[sid].Inserting?
    ensures InsertedSince(steps, b, r, n, sid)
  {
    if n == 0 {
      assert false;
    } else {
      NextFollows(steps, n - 1, sid);
      FollowsCases(Run(START, steps[..n - 1]), steps[n - 1], sid, Run(START, steps[..n]).sessions[sid]);
      if Run(START, steps[..n - 1]).sessions[sid].Inserting? {
        b, r := IngestSource(steps, n - 1, sid);
        IngestGoesOn(steps, b, r, n - 1, sid);
      } else {
        r := n - 1;
        b := SessionBegan(steps, r, sid);
        IngestStarts(steps, b, r, sid);
      }
    }
  }

  // ---------------------------------------------------------------- alerts

  /** Only triage changes a stored alert, and only these two columns. */
  predicate SameSent(a: Alert, a': Alert) {
    a' == a.(status := a'.status, assignedTo := a'.assignedTo)
  }

  lemma WrittenAlertFrom(db: Db, s: Session, id: nat)
    requires SessionOk(s, db) && id in Written(db, s).alerts
    ensures if id in db.alerts then SameSent(db.alerts[id], Written(db, s).alerts[id])
            else s.Inserting? && s.alert.id == id && Written(db, s).alerts[id] == s.alert
  {
  }

  lemma AlertFrom(w: World, step: Step, id: nat)
    requires AllOk(w) && id in Apply(w, step).db.alerts
    ensures if id in w.db.alerts then SameSent(w.db.alerts[id], Apply(w, step).db.alerts[id])
            else step.By? && step.does.Commit? && step.sid in w.sessions && w.sessions[step.sid].Inserting?
                 && w.sessions[step.sid].alert.id == id && Apply(w, step).db.alerts[id] == w.sessions[step.sid].alert
  {
    if step.By? && step.sid in w.sessions {
      StatementWrites(w, step.does, step.sid);
      assert SessionOk(w.sessions[step.sid], w.db);
      if step.does.Commit? && CanCommit(w.sessions[step.sid]) {
        WrittenAlertFrom(w.db, w.sessions[step.sid], id);
      }
    }
  }

  /** Whose COMMIT brought in the alert that is there after the next step, unless it was there before. */
  lemma NextAlert(steps: seq<Step>, n: nat, id: nat)
    requires n < |steps| && id in Run(START, steps[..n + 1]).db.alerts
    ensures var w, a := Run(START, steps[..n]), Run(START, steps[..n + 1]).db.alerts[id];
            if id in w.db.alerts then SameSent(w.db.alerts[id], a)
            else steps[n].By? && steps[n].does.Commit? && steps[n].sid in w.sessions
                 && w.sessions[steps[n].sid] == Inserting(a) && a.id == id
  {
    RunIsLocked(steps, n);
    RunStep(START, steps, n);
    AlertFrom(Run(START, steps[..n]), steps[n], id);
  }

  /** The columns that were sent, whatever has become of the alert since. */
  ghost predicate SentAs(row: Alert, id: nat, does: Statement, now: Micros) {
    row.id == id && does.InsertAlert?
    && HasColumns(None, row.(status := Open, assignedTo := None), does.fields, (0, 0, 0), now)
  }

  lemma SentStays(a: Alert, a': Alert, id: nat, does: Statement, now: Micros)
    requires SameSent(a, a') && SentAs(a, id, does, now)
    ensures SentAs(a', id, does, now)
  {
  }

  lemma SentNow(s: Session, does: Statement, now: Micros)
    requires InsertedFrom(s, does, now)
    ensures SentAs(s.alert, s.alert.id, does, now)
  {
    assert s.alert.(status := Open, assignedTo := None) == s.alert;
  }

  /** Over any interleaving, every alert was committed by one session `sid`, which began at step b, sent its
      INSERT at step r and committed at step c; the alert still has the columns that were sent, the time of that
      BEGIN, and the id it was given. */
  lemma {:induction false} AlertsAreOwned(steps: seq<Step>, n: nat, id: nat)
      returns (sid: nat, b: nat, r: nat, c: nat)
    requires n <= |steps| && id in Run(START, steps[..n]).db.alerts
    ensures c < n && steps[c] == By(sid, Commit) && id !in Run(START, steps[..c]).db.alerts
    ensures ReadAt(steps, b, r, c, sid)
    ensures SentAs(Run(START, steps[..n]).db.alerts[id], id, steps[r].does, steps[b].does.now)
  {
    if n == 0 {
      assert false;
    } else {
      NextAlert(steps, n - 1, id);
      if id in Run(START, steps[..n - 1]).db.alerts {
        sid, b, r, c := AlertsAreOwned(steps, n - 1, id);
        SentStays(Run(START, steps[..n - 1]).db.alerts[id], Run(START, steps[..n]).db.alerts[id], id, steps[r].does,
                  steps[b].does.now);
      } else {
        c, sid := n - 1, steps[n - 1].sid;
        b, r := IngestSource(steps, c, sid);
        SentNow(Run(START, steps[..c]).sessions[sid], steps[r].does, steps[b].does.now);
      }
    }
  }

  // ---------------------------------------------------------------- rows

  predicate WritesAudit(s: Session) {
    s.HasAudit? || s.NoteWritten?
  }

  /** A row of the audit log was there before, or comes in by the COMMIT of the session that drew its id. */
  lemma RowFrom(w: World, step: Step, k: nat)
    requires AllOk(w) && k < |Apply(w, step).db.audit| && Apply(w, step).db.audit[k].Some?
    ensures k < |w.db.audit|
    ensures w.db.audit[k] == Apply(w, step).db.audit[k]
            || (w.db.audit[k] == None && step.By? && step.does.Commit? && step.sid in w.sessions
                && WritesAudit(w.sessions[step.sid]) && w.sessions[step.sid].auditId == k
                && Apply(w, step).db == Written(w.db, w.sessions[step.sid]))
  {
    if step.By? && step.sid in w.sessions {
      StatementWrites(w, step.does, step.sid);
      assert SessionOk(w.sessions[step.sid], w.db);
    }
  }

  /** Step c is the COMMIT that brought this row into the audit log. */
  ghost predicate CommittedAt(steps: seq<Step>, c: nat, k: nat, row: AuditRow) {
    && c < |steps| && steps[c].By? && steps[c].does.Commit?
    && k < |Run(START, steps[..c]).db.audit| && Run(START, steps[..c]).db.audit[k] == None
    && k < |Run(START, steps[..c + 1]).db.audit| && Run(START, steps[..c + 1]).db.audit[k] == Some(row)
  }

  /** The session that commits there. */
  ghost predicate CommitsRow(w: World, sid: nat, k: nat) {
    sid in w.sessions && WritesAudit(w.sessions[sid]) && w.sessions[sid].auditId == k
  }

  lemma {:induction false} RowCommitted(steps: seq<Step>, n: nat, k: nat) returns (c: nat)
    requires n <= |steps| && k < |Run(START, steps[..n]).db.audit| && Run(START, steps[..n]).db.audit[k].Some?
    ensures c < n && CommittedAt(steps, c, k, Run(START, steps[..n]).db.audit[k].value)
    ensures CommitsRow(Run(START, steps[..c]), steps[c].sid, k)
    ensures Run(START, steps[..c + 1]).db
         == Written(Run(START, steps[..c]).db, Run(START, steps[..c]).sessions[steps[c].sid])
  {
    if n == 0 {
      assert false;
    } else {
      var w := Run(START, steps[..n - 1]);
      RunIsLocked(steps, n - 1);
      RunStep(START, steps, n - 1);
      RowFrom(w, steps[n - 1], k);
      if w.db.audit[k].Some? {
        c := RowCommitted(steps, n - 1, k);
      } else {
        c := n - 1;
      }
    }
  }

  lemma WrittenTriageSays(db: Db, s: Session, does: Statement, seen: Db, now: Micros)
    requires SessionOk(s, db) && s.HasAudit? && TimedRight(s) && TriagedFrom(s, does, seen, now)
    requires Sound(seen)
    ensures AuditSays(AuditRowOf(s), does.id, does.user, does.action, now)
    ensures ActionSays(ActionRowOf(s), does.id, does.analyst, does.action, now, seen.alerts[does.id].createdAt)
    ensures Written(db, s).audit[s.auditId] == Some(AuditRowOf(s))
    ensures Written(db, s).actions[s.actionId] == Some(ActionRowOf(s)) && db.actions[s.actionId] == None
  {
    ResponseIsNearest(s.seen.createdAt, s.triage.now);
  }

  lemma WrittenNoteSays(db: Db, s: Session, does: Statement, seen: Db, now: Micros)
    requires SessionOk(s, db) && s.NoteWritten? && NotedFrom(s, does, seen, now)
    ensures Written(db, s).audit[s.auditId] == Some(NoteRow(s))
    ensures NoteSays(NoteRow(s), does.id, does.user, seen.alerts[does.id].status, now)
    ensures NoteRow(s).note == Some(does.text)
  {
  }

  lemma RunIsSound(steps: seq<Step>, k: nat)
    requires k <= |steps|
    ensures Sound(Run(START, steps[..k]).db)
  {
    RunsKeepInv(START, steps[..k]);
  }

  /** Step c commits this row of the action log too, and the row is still there at the end. */
  ghost predicate PairedRow(steps: seq<Step>, c: nat, j: nat) {
    && c < |steps|
    && j < |Run(START, steps[..c]).db.actions| && Run(START, steps[..c]).db.actions[j] == None
    && j < |Run(START, steps[..c + 1]).db.actions| && Run(START, steps[..c + 1]).db.actions[j].Some?
    && j < |Run(START, steps).db.actions|
    && Run(START, steps).db.actions[j] == Run(START, steps[..c + 1]).db.actions[j]
  }

  /** Over any interleaving, every classification in the audit log was committed by one session `sid`, which
      began at step b, read the alert at step r and committed at step c; the row names the user of that SELECT,
      its action and the time of that BEGIN. A row in analyst_actions came with it and is there as well: it
      names the analyst and the action of the SELECT, and the time since the alert was created. */
  lemma TriageRowsAreOwned(steps: seq<Step>, k: nat) returns (sid: nat, b: nat, r: nat, c: nat, j: nat)
    requires k < |Run(START, steps).db.audit| && Run(START, steps).db.audit[k].Some?
    requires Run(START, steps).db.audit[k].value.action.Triage?
    ensures CommittedAt(steps, c, k, Run(START, steps).db.audit[k].value) && steps[c].sid == sid
    ensures ReadAt(steps, b, r, c, sid) && steps[r].does.ReadAlert? && PairedRow(steps, c, j)
    ensures steps[r].does.id in Run(START, steps[..r]).db.alerts
    ensures var sent, db := steps[r].does, Run(START, steps).db;
            && AuditSays(db.audit[k].value, sent.id, sent.user, sent.action, steps[b].does.now)
            && ActionSays(db.actions[j].value, sent.id, sent.analyst, sent.action, steps[b].does.now,
                          Run(START, steps[..r]).db.alerts[sent.id].createdAt)
  {
    assert steps[..|steps|] == steps;
    c := RowCommitted(steps, |steps|, k);
    sid := steps[c].sid;
    var w := Run(START, steps[..c]);
    var s := w.sessions[sid];
    RunIsLocked(steps, c);
    assert SessionOk(s, w.db);
    assert s.HasAudit?;
    b, r := TriageSource(steps, c, sid);
    RunsKeepTimedRight(steps, c, sid);
    RunIsSound(steps, r);
    WrittenTriageSays(w.db, s, steps[r].does, Run(START, steps[..r]).db, steps[b].does.now);
    j := s.actionId;
    RunsSettle(steps, c, |steps|, sid, s);
  }

  /** Likewise every note: its row names the user and the text of the SELECT, the status that the alert then
      had, and the time of the BEGIN. */
  lemma NoteRowsAreOwned(steps: seq<Step>, k: nat) returns (sid: nat, b: nat, r: nat, c: nat)
    requires k < |Run(START, steps).db.audit| && Run(START, steps).db.audit[k].Some?
    requires Run(START, steps).db.audit[k].value.action.NoteAdded?
    ensures CommittedAt(steps, c, k, Run(START, steps).db.audit[k].value) && steps[c].sid == sid
    ensures ReadAt(steps, b, r, c, sid) && steps[r].does.ReadForNote?
    ensures steps[r].does.id in Run(START, steps[..r]).db.alerts
    ensures var sent, row := steps[r].does, Run(START, steps).db.audit[k].value;
            && NoteSays(row, sent.id, sent.user, Run(START, steps[..r]).db.alerts[sent.id].status, steps[b].does.now)
            && row.note == Some(sent.text)
  {
    assert steps[..|steps|] == steps;
    c := RowCommitted(steps, |steps|, k);
    sid := steps[c].sid;
    var w := Run(START, steps[..c]);
    var s := w.sessions[sid];
    RunIsLocked(steps, c);
    assert SessionOk(s, w.db);
    assert s.NoteWritten?;
    b, r := NoteSource(steps, c, sid);
    WrittenNoteSays(w.db, s, steps[r].does, Run(START, steps[..r]).db, steps[b].does.now);
  }
}
