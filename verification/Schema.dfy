/** The four linked tables of `schema.sql` and the column domains its CHECK constraints give them. */
module Schema {
  import opened Common

  /** `alerts.severity`; the CHECK constraint admits the first four only. */
  datatype Severity = Critical | High | Medium | Low | Unlisted(text: string)

  /** `alerts.status`, with exactly the values its CHECK constraint admits. */
  datatype Status = Open | TruePositive | FalsePositive | Escalated

  /** The triage actions of `ACTION_TO_STATUS`. */
  datatype Action = ClassifyTp | ClassifyFp | Escalate

  function ToStatus(action: Action): Status {
    match action
    case ClassifyTp => TruePositive
    case ClassifyFp => FalsePositive
    case Escalate => Escalated
  }

  /** Instants and durations are whole microseconds, the resolution of TIMESTAMPTZ. */
  type Micros = int
  const SECOND: Micros := 1_000_000
  const DAY: Micros := 86_400 * SECOND

  datatype Alert = Alert(
    id: nat, title: string, category: string, severity: Severity, source: Option<string>,
    sourceIp: Option<string>, description: Option<string>, createdAt: Micros, status: Status,
    assignedTo: Option<string>, workflowRunId: Option<string>, runMetadata: Option<string>)

  datatype ActionRow = ActionRow(
    alertId: nat, analyst: string, action: Action, actedAt: Micros, responseSeconds: Option<int>)

  datatype AuditAction = Triage(action: Action) | NoteAdded

  datatype User = User(id: nat, name: string)

  datatype AuditRow = AuditRow(
    alertId: nat, user: User, action: AuditAction, fromStatus: Status, toStatus: Status,
    note: Option<string>, createdAt: Micros)

  datatype EmbeddingRow = EmbeddingRow(alertId: nat, embedding: string)

  /** A table with a SERIAL id: the row with id i stands in slot i. A slot is None from the INSERT that
      draws the id to its COMMIT, and again once the row is deleted; an id that is rolled back leaves it
      None for good. */
  type Slots<R> = seq<Option<R>>

  /** The committed contents of the database, and the ids drawn so far. `alerts` is keyed by its primary
      key, and `nextAlert` is the SERIAL counter behind it. */
  datatype Db = Db(
    alerts: map<nat, Alert>, actions: Slots<ActionRow>, audit: Slots<AuditRow>,
    embeddings: seq<EmbeddingRow>, nextAlert: nat)

  const EMPTY_DB := Db(map[], [], [], [], 0)

  /** `numeric::int` in PostgreSQL 14 and later: nearest integer, halves away from zero. */
  function RoundedSeconds(us: Micros): int {
    if us >= 0 then (us + SECOND / 2) / SECOND else -((-us + SECOND / 2) / SECOND)
  }

  predicate FitsInt4(n: int) {
    -0x8000_0000 <= n < 0x8000_0000
  }

  /** GREATEST(0, EXTRACT(EPOCH FROM (now() - created_at))::int); None when the cast overflows INT. */
  function ResponseTime(createdAt: Micros, now: Micros): Option<int> {
    var seconds := RoundedSeconds(now - createdAt);
    if !FitsInt4(seconds) then None else Some(if seconds < 0 then 0 else seconds)
  }
}

/** Selecting, adding and deleting the rows of a child table by its (nullable) foreign key. */
module Tables {
  import opened Common
  import opened Schema

  predicate Carries<R>(slot: Option<R>, key: R -> Option<nat>, id: nat) {
    slot.Some? && key(slot.value) == Some(id)
  }

  /** SELECT * FROM rows WHERE key = id ORDER BY id. */
  function RowsOf<R>(slots: Slots<R>, key: R -> Option<nat>, id: nat): seq<R> {
    if slots == [] then []
    else
      var last := slots[|slots| - 1];
      RowsOf(slots[..|slots| - 1], key, id) + if Carries(last, key, id) then [last.value] else []
  }

  lemma RowsOfAppend<R>(slots: Slots<R>, slot: Option<R>, key: R -> Option<nat>, id: nat)
    ensures RowsOf(slots + [slot], key, id)
         == RowsOf(slots, key, id) + if Carries(slot, key, id) then [slot.value] else []
  {
    assert (slots + [slot])[..|slots|] == slots;
  }

  lemma {:induction false} RowsOfAbsent<R>(slots: Slots<R>, key: R -> Option<nat>, id: nat)
    requires forall i :: 0 <= i < |slots| ==> !Carries(slots[i], key, id)
    ensures RowsOf(slots, key, id) == []
  {
    if slots == [] {
    } else {
      RowsOfAbsent(slots[..|slots| - 1], key, id);
    }
  }

  /** The rows selected are the rows of the table that carry the key. */
  lemma {:induction false} RowsOfMembers<R>(slots: Slots<R>, key: R -> Option<nat>, id: nat)
    ensures forall r :: r in RowsOf(slots, key, id) <==> Some(r) in slots && key(r) == Some(id)
  {
    if slots == [] {
    } else {
      RowsOfMembers(slots[..|slots| - 1], key, id);
      assert slots == slots[..|slots| - 1] + [slots[|slots| - 1]];
    }
  }

  /** An id that was drawn and is not in use, with no row of that parent under a later id. */
  ghost predicate Latest<R>(slots: Slots<R>, key: R -> Option<nat>, id: nat, k: nat) {
    && k < |slots| && slots[k] == None
    && forall j :: k < j < |slots| ==> !Carries(slots[j], key, id)
  }

  /** A row that takes up an id drawn earlier comes last among the rows of its parent when no later
      id of that parent is in use; the rows of other parents stay as they are. */
  lemma {:induction false} RowsOfFill<R>(slots: Slots<R>, k: nat, row: R, key: R -> Option<nat>, id: nat)
    requires k < |slots| && slots[k] == None
    requires key(row) == Some(id) ==> Latest(slots, key, id, k)
    ensures RowsOf(slots[k := Some(row)], key, id)
         == RowsOf(slots, key, id) + if key(row) == Some(id) then [row] else []
  {
    var n := |slots| - 1;
    var filled := slots[k := Some(row)];
    if k == n {
      assert filled[..n] == slots[..n];
    } else {
      RowsOfFill(slots[..n], k, row, key, id);
      assert filled[..n] == slots[..n][k := Some(row)];
      assert filled[n] == slots[n];
    }
  }

  /** Deleting the rows of the parents in `dead`, the effect of ON DELETE CASCADE. */
  function Cascade<R>(slots: Slots<R>, key: R -> Option<nat>, dead: set<nat>): Slots<R> {
    seq(|slots|, i requires 0 <= i < |slots| =>
      if slots[i].Some? && key(slots[i].value).Some? && key(slots[i].value).value in dead then None else slots[i])
  }

  /** Deleting the rows of other parents leaves a parent's own rows as they were, in order; `parent` is the
      foreign key, and `key` may select among the rows further. */
  lemma {:induction false} RowsOfCascade<R>(slots: Slots<R>, key: R -> Option<nat>, parent: R -> Option<nat>, id: nat,
                                            dead: set<nat>)
    requires id !in dead
    requires forall r :: key(r) == Some(id) ==> parent(r) == Some(id)
    ensures RowsOf(Cascade(slots, parent, dead), key, id) == RowsOf(slots, key, id)
  {
    if slots == [] {
    } else {
      var n := |slots| - 1;
      RowsOfCascade(slots[..n], key, parent, id, dead);
      assert Cascade(slots, parent, dead)[..n] == Cascade(slots[..n], parent, dead);
    }
  }
}
