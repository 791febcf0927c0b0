/** The Kafka poll loop and the ingest gate behind it. */
module KafkaConsumer {
  import opened Common
  import opened Schema
  import opened Transactions
  import opened Crypto
  import opened Effects
  import opened Bags
  import Lifecycle

  // ---------------------------------------------------------------- the ingest gate

  datatype Body = Body(title: Field, category: Field, severity: Field, source: Option<string>,
                       sourceIp: Option<string>, description: Option<string>,
                       workflowRunId: Option<string>, runMetadata: Option<string>)

  /** Membership in SEVERITY_RANK. */
  function ListedSeverity(text: string): Option<Severity> {
    if text == "CRITICAL" then Some(Critical)
    else if text == "HIGH" then Some(High)
    else if text == "MEDIUM" then Some(Medium)
    else if text == "LOW" then Some(Low)
    else None
  }

  /** `body.get(k) or None`. */
  function OrNone(value: Option<string>): Option<string> {
    if value == Some("") then None else value
  }

  /** What `_kafka_ingest` passes on to the INSERT; None when it raises. */
  function Gate(body: Body): Option<NewAlert> {
    var title, category, severity := Stripped(body.title), Stripped(body.category), Stripped(body.severity);
    if title == None || category == None || severity == None then None
    else
      var listed := ListedSeverity(Upper(severity.value));
      if title.value == "" || category.value == "" || listed == None then None
      else Some(NewAlert(title.value, category.value, listed.value, OrNone(body.source), OrNone(body.sourceIp),
                         OrNone(body.description), OrNone(body.workflowRunId), OrNone(body.runMetadata)))
  }

  /** The text is this name, in capitals or not. */
  ghost predicate Spells(text: string, name: string) {
    |text| == |name| && forall i :: 0 <= i < |name| ==> text[i] == name[i] || text[i] as int == name[i] as int + 32
  }

  lemma CharSpells(c: char, d: char)
    requires 'A' <= d <= 'Z'
    ensures UpperChar(c) == d <==> c == d || c as int == d as int + 32
  {
  }

  lemma UpperSpells(text: string, name: string)
    requires forall i :: 0 <= i < |name| ==> 'A' <= name[i] <= 'Z'
    ensures Upper(text) == name <==> Spells(text, name)
  {
    if |text| == |name| {
      forall i | 0 <= i < |name|
        ensures Upper(text)[i] == name[i] <==> text[i] == name[i] || text[i] as int == name[i] as int + 32
      {
        CharSpells(text[i], name[i]);
      }
      if Spells(text, name) {
        assert Upper(text) == name;
      }
    }
  }

  ghost predicate SpellsSeverity(text: string, severity: Severity) {
    || (severity == Critical && Spells(text, "CRITICAL")) || (severity == High && Spells(text, "HIGH"))
    || (severity == Medium && Spells(text, "MEDIUM")) || (severity == Low && Spells(text, "LOW"))
  }

  lemma ListedSpells(text: string)
    ensures forall s :: ListedSeverity(Upper(text)) == Some(s) <==> SpellsSeverity(text, s)
  {
    UpperSpells(text, "CRITICAL");
    UpperSpells(text, "HIGH");
    UpperSpells(text, "MEDIUM");
    UpperSpells(text, "LOW");
    assert |"CRITICAL"| == 8 && |"HIGH"| == 4 && |"MEDIUM"| == 6 && |"LOW"| == 3;
  }

  /** An optional field is passed on unless it is absent or empty. */
  ghost predicate PassedOn(sent: Option<string>, passed: Option<string>) {
    (sent == Some("") ==> passed == None) && (sent != Some("") ==> passed == sent)
  }

  /** The gate lets a body through exactly when title and category are text with something in it and the
      severity is one of the four names up to case and surrounding space. What passes is trimmed, and the other
      fields are passed on each under its own name. */
  lemma GateIff(body: Body)
    ensures Gate(body).Some? <==>
            && body.title.Given? && !Blank(body.title.text)
            && body.category.Given? && !Blank(body.category.text)
            && body.severity.Given? && exists s :: SpellsSeverity(Strip(body.severity.text), s)
    ensures Gate(body).Some? ==>
              var n := Gate(body).value;
              && n.title == Strip(body.title.text) && n.category == Strip(body.category.text)
              && SpellsSeverity(Strip(body.severity.text), n.severity) && !n.severity.Unlisted?
              && PassedOn(body.source, n.source) && PassedOn(body.sourceIp, n.sourceIp)
              && PassedOn(body.description, n.description)
              && PassedOn(body.workflowRunId, n.workflowRunId) && PassedOn(body.runMetadata, n.runMetadata)
  {
    if body.title.Given? { StripEmptyIffBlank(body.title.text); }
    if body.category.Given? { StripEmptyIffBlank(body.category.text); }
    if body.severity.Given? { ListedSpells(Strip(body.severity.text)); } else { ListedSpells(""); }
  }

  // ---------------------------------------------------------------- the loop

  /** What the except clause around `json.loads` does not catch: a null value has no `decode`, an integer
      literal may be too long to convert, and the nesting may exceed the recursion limit. */
  datatype Escape = NullValue | LongInteger | DeepNesting

  datatype Payload = Undecodable | NotADict | Dict(body: Body) | Escaping(cause: Escape)

  datatype Outcome = Nothing | PollError(partitionEof: bool) | Message(payload: Payload)

  /** One turn of the loop, with what the environment does during it: the clock, the database, the
      embedding model, and a call of `stop()`. */
  datatype Poll = Poll(outcome: Outcome, now: Micros, faultAt: nat, drew: bool, embedding: Lifecycle.Embedding,
                       embedFails: bool, nonces: (nat, nat, nat), stopped: bool)

  /** A message that raises out of `_handle`, which ends the thread. */
  predicate Escapes(p: Poll) {
    p.outcome.Message? && p.outcome.payload.Escaping?
  }

  /** The alert a poll asks to be ingested. */
  function Wanted(p: Poll): Option<NewAlert> {
    if p.outcome.Message? && p.outcome.payload.Dict? then Gate(p.outcome.payload.body) else None
  }

  /** Its INSERT parameters, encrypted under the configured key. */
  function Params(f: Option<Fernet>, p: Poll): NewAlert
    requires Wanted(p).Some?
  {
    Sealed(f, Wanted(p).value, p.nonces)
  }

  /** The polls up to and including the one during which the loop is stopped. */
  function UpToStop(polls: seq<Poll>): (n: nat)
    ensures n <= |polls| && (n < |polls| ==> n > 0 && polls[n - 1].stopped)
    ensures forall i :: 0 <= i < n - 1 ==> !polls[i].stopped
  {
    if polls == [] then 0 else if polls[0].stopped then 1 else 1 + UpToStop(polls[1..])
  }

  /** The polls from which the loop goes on, or ends because it was stopped. */
  function Handled(polls: seq<Poll>): (n: nat)
    ensures n <= |polls|
  {
    if polls == [] || Escapes(polls[0]) then 0
    else if polls[0].stopped then 1
    else 1 + Handled(polls[1..])
  }

  /** The transactions of `_insert_alert`, with their faults. */
  function StoreDb(db: Db, n: NewAlert, p: Poll): Db {
    if 1 <= p.faultAt <= 2 then Burn(db, Drawn(if p.faultAt == 1 && !p.drew then 0 else 1, 0, 0))
    else Lifecycle.StoredDb(db, n, p.now, p.embedding, p.embedFails)
  }

  /** What one poll does to the database. */
  function HandleDb(f: Option<Fernet>, db: Db, p: Poll): Db {
    if Wanted(p) == None then db else StoreDb(db, Params(f, p), p)
  }

  function ConsumeDb(f: Option<Fernet>, db: Db, polls: seq<Poll>): Db {
    if polls == [] then db else HandleDb(f, ConsumeDb(f, db, polls[..|polls| - 1]), polls[|polls| - 1])
  }

  /** The events that storing one message publishes: one, unless the INSERT or the embedding model fails. */
  function HandleEvents(f: Option<Fernet>, db: Db, p: Poll): seq<Lifecycle.Event> {
    if Wanted(p) == None || 1 <= p.faultAt <= 2 || p.embedding.Raises? then []
    else [Lifecycle.AlertEvent(Lifecycle.NewAlertEvent, db.nextAlert, Wanted(p).value.severity, Open)]
  }

  function ConsumeEvents(f: Option<Fernet>, db: Db, polls: seq<Poll>): seq<Lifecycle.Event> {
    if polls == [] then []
    else
      var before := polls[..|polls| - 1];
      ConsumeEvents(f, db, before) + HandleEvents(f, ConsumeDb(f, db, before), polls[|polls| - 1])
  }

  /** One poll more. */
  lemma NextPoll(f: Option<Fernet>, db: Db, polls: seq<Poll>, k: nat)
    requires k < |polls|
    ensures ConsumeDb(f, db, polls[..k + 1]) == HandleDb(f, ConsumeDb(f, db, polls[..k]), polls[k])
    ensures ConsumeEvents(f, db, polls[..k + 1])
         == ConsumeEvents(f, db, polls[..k]) + HandleEvents(f, ConsumeDb(f, db, polls[..k]), polls[k])
  {
    assert polls[..k + 1][..k] == polls[..k];
  }

  /** Where a run stands after so many polls. */
  ghost predicate Progress(polls: seq<Poll>, turns: nat, stopped: bool)
    requires turns <= |polls|
  {
    && Handled(polls) == turns + (if stopped then 0 else Handled(polls[turns..]))
    && UpToStop(polls) == turns + (if stopped then 0 else UpToStop(polls[turns..]))
  }

  lemma ProgressNext(polls: seq<Poll>, turns: nat)
    requires turns < |polls| && Progress(polls, turns, false)
    ensures Escapes(polls[turns]) ==> Handled(polls) == turns < UpToStop(polls)
    ensures !Escapes(polls[turns]) ==> Progress(polls, turns + 1, polls[turns].stopped)
  {
    assert polls[turns..][1..] == polls[turns + 1..];
  }

  class Consumer {
    var stop: bool
    const store: Lifecycle.AlertStore
    const fernet: Option<Fernet>

    constructor (store: Lifecycle.AlertStore, fernet: Option<Fernet>)
      ensures !stop && this.store == store && this.fernet == fernet
    {
      stop := false;
      this.store := store;
      this.fernet := fernet;
    }

    method Stop()
      modifies this
      ensures stop
    {
      stop := true;
    }

    /** An ingest may fail in any way, and the handler returns to the loop; an escaping message is raised. */
    method Handle(p: Poll) returns (raised: bool)
      requires p.outcome.Message? && store.Valid()
      modifies store
      ensures store.Valid() && raised == p.outcome.payload.Escaping?
      ensures store.Contents() == HandleDb(fernet, old(store.Contents()), p)
      ensures store.published == old(store.published) + HandleEvents(fernet, old(store.Contents()), p)
    {
      if p.outcome.payload.Escaping? {
        return true;
      }
      if p.outcome.payload == Undecodable {
        return false;
      }
      if p.outcome.payload == NotADict {
        return false;
      }
      var fields := Gate(p.outcome.payload.body);
      if fields == None {
        return false;
      }
      GateIff(p.outcome.payload.body);
      var reply := store.InsertAlert(fernet, fields.value, p.nonces, p.embedding, p.now, p.faultAt, p.drew,
                                     p.embedFails);
      return false;
    }

    /** The body of the loop: what came of one poll. */
    method Turn(p: Poll) returns (raised: bool)
      requires store.Valid()
      modifies this, store
      ensures store.Valid() && raised == Escapes(p) && stop == (old(stop) || p.stopped)
      ensures store.Contents() == HandleDb(fernet, old(store.Contents()), p)
      ensures store.published == old(store.published) + HandleEvents(fernet, old(store.Contents()), p)
    {
      if p.stopped {
        Stop();
      }
      if p.outcome.Nothing? {
        return false;
      }
      if p.outcome.PollError? {
        return false;
      }
      raised := Handle(p);
    }

    /** Handles the polls in order until it is stopped, or until a message raises. */
    method Run(polls: seq<Poll>) returns (turns: nat, raised: bool)
      requires store.Valid()
      modifies this, store
      ensures store.Valid()
      ensures turns == if old(stop) then 0 else Handled(polls)
      ensures raised <==> !old(stop) && Handled(polls) < UpToStop(polls)
      ensures store.Contents() == ConsumeDb(fernet, old(store.Contents()), polls[..turns])
      ensures store.published == old(store.published) + ConsumeEvents(fernet, old(store.Contents()), polls[..turns])
    {
      turns, raised := 0, false;
      if stop {
        return;
      }
      ghost var begun := store.Contents();
      assert polls[0..] == polls;
      while !stop && turns < |polls|
        invariant turns <= |polls| && Progress(polls, turns, stop)
        invariant store.Valid() && store.Contents() == ConsumeDb(fernet, begun, polls[..turns])
        invariant store.published == old(store.published) + ConsumeEvents(fernet, begun, polls[..turns])
      {
        NextPoll(fernet, begun, polls, turns);
        ProgressNext(polls, turns);
        raised := Turn(polls[turns]);
        if raised {
          return;
        }
        turns := turns + 1;
      }
    }
  }

  /** Every poll up to the stop is handled exactly when none of them escapes. */
  lemma {:induction false} HandledAllIff(polls: seq<Poll>)
    ensures Handled(polls) <= UpToStop(polls)
    ensures Handled(polls) == UpToStop(polls) <==> forall i :: 0 <= i < UpToStop(polls) ==> !Escapes(polls[i])
    ensures Handled(polls) < UpToStop(polls) ==> Escapes(polls[Handled(polls)])
  {
    if polls == [] {
    } else {
      HandledAllIff(polls[1..]);
      forall i | 1 <= i < UpToStop(polls) ensures Escapes(polls[i]) <==> Escapes(polls[1..][i - 1]) {
      }
      if Handled(polls) == UpToStop(polls) {
        forall i | 0 <= i < UpToStop(polls) ensures !Escapes(polls[i]) {
          assert i == 0 || Escapes(polls[i]) == Escapes(polls[1..][i - 1]);
        }
      } else if !Escapes(polls[0]) && !polls[0].stopped {
        assert polls[Handled(polls)] == polls[1..][Handled(polls[1..])];
      }
    }
  }

  /** The polls that bring a well-formed message, in order. */
  function Accepted(polls: seq<Poll>): seq<Poll> {
    if polls == [] then []
    else
      var last := polls[|polls| - 1];
      Accepted(polls[..|polls| - 1]) + if Wanted(last) == None then [] else [last]
  }

  /** A message that is an object which the gate lets through. */
  predicate Acceptable(p: Poll) {
    p.outcome.Message? && p.outcome.payload.Dict? && Gate(p.outcome.payload.body).Some?
  }

  lemma WantedIff(p: Poll)
    ensures Wanted(p).Some? <==> Acceptable(p)
    ensures Acceptable(p) ==> Wanted(p) == Gate(p.outcome.payload.body)
  {
  }

  /** These are the polls at these positions. */
  ghost predicate AreAt(polls: seq<Poll>, some: seq<Poll>, at: seq<nat>) {
    |at| == |some| && forall i :: 0 <= i < |at| ==> at[i] < |polls| && some[i] == polls[at[i]]
  }

  lemma AreAtNext(polls: seq<Poll>, some: seq<Poll>, at: seq<nat>, last: Poll)
    requires AreAt(polls, some, at)
    ensures AreAt(polls + [last], some, at) && AreAt(polls + [last], some + [last], at + [|polls|])
  {
  }

  lemma {:induction false} AcceptedInOrder(polls: seq<Poll>) returns (at: seq<nat>)
    ensures Positions(polls, Acceptable, at) && AreAt(polls, Accepted(polls), at)
  {
    if polls == [] {
      at := [];
    } else {
      var before, last := polls[..|polls| - 1], polls[|polls| - 1];
      assert polls == before + [last];
      at := AcceptedInOrder(before);
      PositionsNext(before, last, Acceptable, at);
      AreAtNext(before, Accepted(before), at, last);
      WantedIff(last);
      if Wanted(last).Some? {
        at := at + [|before|];
      }
    }
  }

  /** The row of an accepted message: its columns as the gate passed them on, open and unassigned, with the
      time it was handled. */
  ghost predicate RowOfPoll(f: Option<Fernet>, row: Alert, p: Poll) {
    Wanted(p).Some? && HasColumns(f, row, Wanted(p).value, p.nonces, p.now)
  }

  /** Under this id there is the row of this message. */
  ghost predicate RowUnder(f: Option<Fernet>, alerts: map<nat, Alert>, id: nat, p: Poll) {
    id in alerts && alerts[id].id == id && RowOfPoll(f, alerts[id], p)
  }

  ghost predicate RowsOfPolls(f: Option<Fernet>, alerts: map<nat, Alert>, first: nat, added: seq<Poll>) {
    forall i :: 0 <= i < |added| ==> RowUnder(f, alerts, first + i, added[i])
  }

  /** `after` is `before` with an alert for each of these messages, under consecutive ids, and no other change to
      the alerts. */
  ghost predicate Adds(f: Option<Fernet>, before: Db, after: Db, added: seq<Poll>) {
    && after.nextAlert == before.nextAlert + |added|
    && (forall id :: id in after.alerts <==> id in before.alerts || before.nextAlert <= id < after.nextAlert)
    && (forall id :: id in before.alerts ==> after.alerts[id] == before.alerts[id])
    && RowsOfPolls(f, after.alerts, before.nextAlert, added)
  }

  lemma PollRow(f: Option<Fernet>, db: Db, p: Poll)
    requires Wanted(p).Some?
    ensures var db' := InsertAlertDb(db, Params(f, p), p.now);
            && db'.nextAlert == db.nextAlert + 1 && db'.alerts == db.alerts[db.nextAlert := db'.alerts[db.nextAlert]]
            && db'.alerts[db.nextAlert].id == db.nextAlert && RowOfPoll(f, db'.alerts[db.nextAlert], p)
  {
    SealedColumns(f, Wanted(p).value, p.nonces, db.nextAlert, p.now);
  }

  /** One row more, under the next id. */
  lemma AddsOne(f: Option<Fernet>, before: Db, after: Db, added: seq<Poll>, p: Poll, db: Db)
    requires Adds(f, before, after, added) && forall id :: id in before.alerts ==> id < before.nextAlert
    requires db.nextAlert == after.nextAlert + 1 && after.nextAlert in db.alerts
    requires db.alerts == after.alerts[after.nextAlert := db.alerts[after.nextAlert]]
    requires db.alerts[after.nextAlert].id == after.nextAlert && RowOfPoll(f, db.alerts[after.nextAlert], p)
    ensures Adds(f, before, db, added + [p])
  {
    RowsNext(f, after.alerts, before.nextAlert, added, p, db.alerts);
  }

  lemma RowsNext(f: Option<Fernet>, alerts: map<nat, Alert>, first: nat, added: seq<Poll>, p: Poll,
                 alerts': map<nat, Alert>)
    requires RowsOfPolls(f, alerts, first, added)
    requires RowUnder(f, alerts', first + |added|, p)
    requires alerts' == alerts[first + |added| := alerts'[first + |added|]]
    ensures RowsOfPolls(f, alerts', first, added + [p])
  {
    var more := added + [p];
    forall i | 0 <= i < |more| ensures RowUnder(f, alerts', first + i, more[i]) {
      if i < |added| {
        assert more[i] == added[i] && RowUnder(f, alerts, first + i, added[i]);
      }
    }
  }

  lemma StoreAdds(f: Option<Fernet>, before: Db, after: Db, added: seq<Poll>, p: Poll)
    requires Adds(f, before, after, added) && forall id :: id in before.alerts ==> id < before.nextAlert
    requires !(1 <= p.faultAt <= 2) && Wanted(p).Some?
    ensures Adds(f, before, StoreDb(after, Params(f, p), p), added + [p])
  {
    GateIff(p.outcome.payload.body);
    PollRow(f, after, p);
    var inserted, stored := InsertAlertDb(after, Params(f, p), p.now), StoreDb(after, Params(f, p), p);
    assert stored.alerts == inserted.alerts && stored.nextAlert == inserted.nextAlert;
    AddsOne(f, before, after, added, p, stored);
  }

  /** One more poll handled. */
  lemma HandledAdds(f: Option<Fernet>, before: Db, after: Db, added: seq<Poll>, p: Poll)
    requires Adds(f, before, after, added) && forall id :: id in before.alerts ==> id < before.nextAlert
    requires !(1 <= p.faultAt <= 2)
    ensures Adds(f, before, HandleDb(f, after, p), added + if Wanted(p) == None then [] else [p])
  {
    if Wanted(p).Some? {
      StoreAdds(f, before, after, added, p);
    } else {
      assert added + [] == added;
    }
  }

  lemma {:induction false} ConsumedAdds(f: Option<Fernet>, db: Db, polls: seq<Poll>)
    requires forall id :: id in db.alerts ==> id < db.nextAlert
    requires forall i :: 0 <= i < |polls| ==> !(1 <= polls[i].faultAt <= 2)
    ensures Adds(f, db, ConsumeDb(f, db, polls), Accepted(polls))
  {
    if polls == [] {
      NothingAdded(f, db);
    } else {
      var before, last := polls[..|polls| - 1], polls[|polls| - 1];
      ConsumedAdds(f, db, before);
      HandledAdds(f, db, ConsumeDb(f, db, before), Accepted(before), last);
    }
  }

  lemma NothingAdded(f: Option<Fernet>, db: Db)
    ensures Adds(f, db, db, [])
  {
  }

  /** With a database that does not fail, and as long as no message escapes before the loop is stopped, the
      alerts it adds are exactly the well-formed messages up to the stop, in order. */
  lemma InsertsAccepted(f: Option<Fernet>, db: Db, polls: seq<Poll>)
    requires forall id :: id in db.alerts ==> id < db.nextAlert
    requires forall i :: 0 <= i < |polls| ==> !(1 <= polls[i].faultAt <= 2)
    requires forall i :: 0 <= i < UpToStop(polls) ==> !Escapes(polls[i])
    ensures Adds(f, db, ConsumeDb(f, db, polls[..Handled(polls)]), Accepted(polls[..UpToStop(polls)]))
  {
    HandledAllIff(polls);
    ConsumedAdds(f, db, polls[..UpToStop(polls)]);
  }

  /** One escaping message, whatever its cause, and the well-formed message after it is never inserted. */
  lemma EscapeLosesLater(f: Option<Fernet>, db: Db, bad: Poll, good: Poll)
    requires bad.outcome.Message? && bad.outcome.payload.Escaping? && !bad.stopped && Acceptable(good)
    ensures var polls := [bad, good];
            && Handled(polls) == 0 && UpToStop(polls) == 2
            && ConsumeDb(f, db, polls[..Handled(polls)]) == db
            && Accepted(polls) == [good]
  {
    var polls := [bad, good];
    assert polls[1..] == [good] && polls[1..][1..] == [];
    assert UpToStop(polls[1..][1..]) == 0 && UpToStop(polls[1..]) == 1;
    var one := [bad];
    assert polls[..1] == one && one[..0] == [];
    assert Accepted(one) == [];
  }

  /** Each of these messages has its event, under consecutive ids from `first`. */
  ghost predicate Announced(events: seq<Lifecycle.Event>, added: seq<Poll>, first: nat) {
    && |events| == |added|
    && forall i :: 0 <= i < |added| ==>
         && Wanted(added[i]).Some?
         && events[i] == Lifecycle.AlertEvent(Lifecycle.NewAlertEvent, first + i, Wanted(added[i]).value.severity, Open)
  }

  lemma AnnouncedNext(events: seq<Lifecycle.Event>, added: seq<Poll>, first: nat, e: Lifecycle.Event, p: Poll)
    requires Announced(events, added, first) && Wanted(p).Some?
    requires e == Lifecycle.AlertEvent(Lifecycle.NewAlertEvent, first + |added|, Wanted(p).value.severity, Open)
    ensures Announced(events + [e], added + [p], first)
  {
  }

  /** Each alert that the handled polls add is announced once, in the order they were added, under its id. */
  lemma {:induction false} AnnouncesAccepted(f: Option<Fernet>, db: Db, polls: seq<Poll>)
    requires forall id :: id in db.alerts ==> id < db.nextAlert
    requires forall i :: 0 <= i < |polls| ==> !(1 <= polls[i].faultAt <= 2) && !polls[i].embedding.Raises?
    ensures Announced(ConsumeEvents(f, db, polls), Accepted(polls), db.nextAlert)
  {
    if polls == [] {
    } else {
      var before := polls[..|polls| - 1];
      AnnouncesAccepted(f, db, before);
      ConsumedAdds(f, db, before);
      var events := HandleEvents(f, ConsumeDb(f, db, before), polls[|polls| - 1]);
      if events != [] {
        AnnouncedNext(ConsumeEvents(f, db, before), Accepted(before), db.nextAlert, events[0], polls[|polls| - 1]);
      }
    }
  }
}
