# SOC Dashboard: a verified model

SOC Dashboard triages security alerts: alerts are ingested over REST, gRPC or Kafka, analysts classify them, and a
dashboard shows the queue, the KPIs and live updates. This project models its logic in Dafny and proves what holds of it
for every input, every run and every interleaving.

| file | what it models |
|---|---|
| `Common.dfy`, `Schema.dfy` | None/NULL, JSON fields, `strip`, `upper`, rounded quotients, sequences as bags; the four tables with their serial ids and CHECK domains, the INT cast, rows by foreign key and cascades |
| `Transactions.dfy`, `Effects.dfy` | what each transaction writes, and the integrity every committed state has; the effect of each request column by column, in terms of what was sent |
| `Lifecycle.dfy` | the handlers as statement-by-statement transactions of a class, with a fault possible at any statement; runs of whole requests |
| `Interleaving.dfy` | ingest, classify, note and purge as sessions under READ COMMITTED, split at BEGIN and at every statement, with row locks, foreign-key locks, ids drawn at INSERT, and aborts |
| `Provenance.dfy` | where each row comes from over any interleaving: whose session committed it, and what that session sent |
| `Races.dfy` | the double triage that the missing re-check allows, and where the re-check belongs |
| `AuditTrail.dfy` | the audit trail as it is served, by time, and when it is an unbroken path |
| `Crypto.dfy` | field encryption over an abstract Fernet key, and the in-place decryption of a result row |
| `Filters.dfy`, `Paging.dfy`, `AlertList.dfy`, `AcrossEndpoints.dfy` | the list endpoints: compiling and binding the WHERE clause, ordering without a tiebreaker, paging, the response; what is found of an alert that another endpoint stored |
| `Grouping.dfy`, `Stats.dfy`, `Sla.dfy`, `Mttr.dfy`, `Navigator.dfy` | GROUP BY, the statistics, the SLA join and loop, the client's recombined MTTR and tallies, the ATT&CK layer |
| `Sse.dfy` | the in-process event fan-out, as objects and as an interleaving state machine |
| `KafkaConsumer.dfy`, `TraceParent.dfy`, `EscapeHtml.dfy` | the poll loop and ingest gate, the `traceparent` parser, HTML escaping |

Conventions. Time is whole microseconds. `::int` rounds half away from zero and fails outside 32 bits. A table with a
serial id is a sequence of slots, one for each id drawn; a slot is empty from the INSERT that draws the id to its COMMIT.
SQL ordering is a relation: any sequence of row positions the sort keys permit, possibly another one for each request.
GROUP BY is a relation too: its rows may come in any order. A `faultAt` parameter is the number of the statement the
server fails at, and `drew` says whether an INSERT that fails has drawn its id.

What turned out not to hold, with an input that shows it and the exact condition proved instead:

- `api_classify` reads the alert without locking it, so two analysts can both triage it (`Races.RaceTriagesTwice`). No
  alert is triaged twice exactly when each classification that commits finds the status still `open`
  (`Races.SingleTriageIff`), and exactly when each UPDATE that takes effect finds it so (`Races.RecheckAtUpdateIff`).
- The audit trail is served by created_at, which is the time of BEGIN (schema.sql:81), while a statement sees what had
  committed when it began. A note that begins after a classification but reads the alert before its COMMIT breaks the
  trail, even if the note commits first (`AuditTrail.NoteInsideBreaksPath`); so does one that begins before the
  classification but reads after its COMMIT (`AuditTrail.NoteReadLateBreaksPath`). A note that begins first and reads
  before that COMMIT does not, whether it commits first or last (`AuditTrail.NoteReadInsideKeepsPath`,
  `AuditTrail.NoteBeforeKeepsPath`). All trails are paths at all times exactly when no alert has two committed
  classifications, and each committed note began before a committed classification of its alert if and only if the
  note's SELECT preceded the classification's COMMIT (`AuditTrail.TrailPathsIff`).
- The Kafka handler does not return to the loop from every message: a null value, an integer literal that is too long and
  too deep a nesting escape its except clause and end the thread, against its docstring (kafka/consumer.py:72). One
  such message and no later one is inserted (`KafkaConsumer.EscapeLosesLater`); every poll up to the stop is handled
  exactly when none of them escapes (`KafkaConsumer.HandledAllIff`).
- `tests/test_pagination.py` expects two pages not to share alerts. With equal severities and timestamps they can
  (`Paging.TiedPagesRepeat`). Paging shows every alert once, whatever orderings the database picks, exactly when no tie
  straddles a page boundary (`Paging.PagesPartitionIff`).
- `by_source` loses an alert when one has no source and another the source `unknown` (`Stats.UnknownSourcesCollide`),
  and accounts for every alert exactly when NULL and that text do not both occur (`Stats.BySourceTotalIff`).
- A category `constructor` breaks the client's chart (`Stats.ConstructorIsMiscounted`). Its counts equal the server's
  exactly when no value is empty or names a property that every JavaScript object inherits (`Stats.ChartsAgreeIff`); for
  the sources, NULL and the text `unknown` must not both occur either (`Stats.SourceChartsAgreeIff`).
- Triage can take an alert out of breach (`Sla.TriageClearsExample`), and does so exactly when its age is within half a
  second past the target (`Sla.TriageClearsIff`).
- A legacy text that happens to be a token is read back as another text (`AlertList.LegacyTokenMisread`); a legacy row
  reads back unchanged exactly when it holds no such text (`AlertList.LegacyReadsBackIff`).
- `schema.sql` comments name the audit actions triage, escalate, reclassify and note_added; the code writes
  classify_tp, classify_fp, escalate and note_added, and the model follows the code.

## Model

| member | source | states |
|---|---|---|
| Interleaving.EveryInterleavingKeepsIntegrity | app.py:701-747 | After any interleaving of the statements, commits and aborts of ingests, classifications, notes and purges from empty tables: each alert's action rows and classification audit rows, in the order of the ids they drew at INSERT, are the same classifications in the same order, all from `open`; its status and assignee are the last one's, or open and none; notes are self-loops; no alert_id dangles and an alert has at most one embedding |
| Interleaving.NeverReopened | app.py:701-747 | Over any interleaving, an alert that is no longer open is never open again, and once purged its id names no other alert |
| Interleaving.AllOrNothing | app.py:701-747 | A classification that has written both its rows, followed through the rest of any run: at every later time the tables hold neither row or both, and while they hold both the alert is there and no longer open, whatever becomes of the session and the others |
| Provenance.TriageRowsAreOwned | app.py:701-747 | Over any interleaving, every classification in the audit log was committed by one session; its row names the logged-in user and the action of that session's request, from `open` to that action's verdict, with no note, at the time of its BEGIN; and the action row committed with it is there too and names the request's analyst, its action, that time, and the nearest whole second since the alert it read was created |
| Provenance.NoteRowsAreOwned | app.py:951-979 | Over any interleaving, every note was committed by one session, and its row names the user and the text of that session's request, the status its SELECT found, and the time of its BEGIN |
| Provenance.AlertsAreOwned | app.py:564-577 | Over any interleaving, every alert was committed by one ingest session and still has, under the id it drew, each column that session sent and the time of its BEGIN |
| Interleaving.LockIsStable | app.py:710-747 | From its UPDATE until its transaction ends, no one else changes the row or the classifications of the alert a session holds |
| Interleaving.UpdateRunsIff | app.py:710-718 | The UPDATE of a classification goes ahead if and only if no other classification has updated the alert without having ended and no purge has deleted it; notes do not hold it up |
| Interleaving.CheckKeyRunsIff | app.py:963-979 | The foreign-key check of a note goes ahead if and only if no purge has deleted the alert; classifications do not hold it up |
| Interleaving.DeleteRunsIff | app.py:326-330 | The DELETE of a purge goes ahead if and only if none of its alerts is updated by a classification, referred to by a note, or deleted by another purge that has not ended |
| Races.UpdateIsInvisible | app.py:710-747 | From before a classification's UPDATE until its transaction ends, the tables show its alert's row and classifications unchanged: none of the three writes is visible before COMMIT |
| Races.SingleTriageIff | app.py:702-707 | Over a whole run, no alert ever has two action rows if and only if every classification that commits finds its alert still open |
| Races.RecheckAtUpdateIff | app.py:710-718 | Over a whole run, no alert ever has two action rows if and only if every UPDATE of a classification that commits finds its alert open, so testing the status there is all that is missing |
| Races.RaceTriagesTwice | app.py:702-718 | Two sessions that both read `open` leave two action rows and two audit rows from `open`, and the second verdict as status |
| AuditTrail.TrailPathsIff | app.py:871-890 | Under a clock that advances from BEGIN to BEGIN, over a whole run: every alert's audit rows, as served by created_at, are at all times an unbroken path from `open` to its status if and only if, among the committed transactions of each alert, there is at most one classification, and each note began before it exactly when the note's SELECT came before the classification's COMMIT |
| AuditTrail.NoteInsideBreaksPath | app.py:880 | A note that begins after a classification, reads `open` and commits before it, is served after it and still says `open` |
| AuditTrail.NoteReadLateBreaksPath | app.py:951-979 | A note that begins before a classification and reads the alert after its COMMIT is served before it, although it says that the alert was closed |
| AuditTrail.NoteReadInsideKeepsPath | app.py:951-979 | A note that begins before a classification and reads and commits inside it is served before it, and the trail is a path |
| AuditTrail.NoteBeforeKeepsPath | app.py:951-979 | A note that begins before a classification, reads the alert before its COMMIT and itself commits after it, is served before it, and the trail is a path |
| AuditTrail.WholeRequestTrails | app.py:871-890 | Requests that do not overlap, under a clock that advances, leave every alert a served trail that is an unbroken path from `open` to its status |
| AuditTrail.SortedIsUnique | app.py:880 | When no two rows have the same time, ORDER BY created_at permits one order only |
| AuditTrail.NoteIsServed | app.py:886-889 | A note that AddNote stored is served in its alert's trail with the text as it was written, its user, and the status the alert had |
| Interleaving.RequestsAreInterleavings | app.py:701-747 | Every run of whole requests is one of the interleavings and ends in the same tables |
| Transactions.TriageHistory | app.py:709-747 | A classification whose ids no other one of its alert has overtaken appends exactly one action and one classification audit row to its alert, and leaves every other alert's row and history as they were |
| Transactions.NoteHistory | app.py:963-979 | A note adds exactly one row to its alert's audit log, changes no classification and no other alert's log |
| Transactions.PurgeHistory | app.py:326-330 | A purge removes exactly the alerts created before the cutoff; each survivor keeps its row, actions and audit rows in order |
| Transactions.UpsertRows | app.py:588-592 | The embedding upsert leaves exactly the new row for its alert and every other alert's row, still one per alert |
| Lifecycle.RunsAreSerial | app.py:701-747 | Every run of whole requests keeps integrity, and each surviving alert's audit rows, by id, form an unbroken path from `open` to its current status |
| Lifecycle.TriagedOnce | app.py:248-252 | In such a run an open alert has no action row and no assignee; any other has exactly one, whose action is the one its status stands for and whose analyst is its assignee |
| Lifecycle.TriagedIsFinal | app.py:706-707 | No later request of a run changes the row or the action rows of a triaged alert; it can only be purged, and its id never names another alert |
| Lifecycle.AlertStore.StoreAlert | app.py:570-580 | The INSERT and its COMMIT: one open, unassigned alert under the next id, with each column as sent and nothing else changed; or, when it fails or violates the CHECK, nothing but an id used up if it was drawn |
| Lifecycle.AlertStore.InsertAlert | app.py:564-607 | Stores each column that was sent under its own name, the sensitive three encrypted if there is a key, with the time of the request; upserts the embedding and publishes one event after COMMIT; replies with the row as it was sent; a failing embedding never undoes the alert, and an exception from the model leaves the alert stored but unpublished |
| Lifecycle.AlertStore.ClassifyAlert | app.py:688-757 | Which of 400, 404, 409, 500 or success is returned, for any analyst and action, text or not. On success exactly three row changes and one event: the alert's status and assignee become the verdict and the trimmed analyst; one action row with that analyst, the action, the time and the nearest second since the alert was created; one audit row with the logged-in user, the action, from `open` to the verdict, and no note. On any error or fault at any statement no row, with at most one id of each child table used up |
| Lifecycle.AlertStore.Triage | app.py:710-747 | The writes of a classification, with the same columns, take effect together, or not at all when a statement fails or the response time overflows INT |
| Lifecycle.AlertStore.AddNote | app.py:950-981 | Which reply is returned; on success exactly one audit row, with the user, the status the alert has on both sides, the time, and the trimmed note encrypted under the configured key; on any error or fault no row |
| Lifecycle.AlertStore.DeleteExpired | app.py:326-330 | Deletes the expired alerts with their child rows and reports how many alerts went |
| Lifecycle.AlertStore.PurgeOldAlerts | app.py:318-332 | No-op for non-positive days; otherwise exactly the alerts more than that many times 86,400,000,000 microseconds old are gone, with their child rows, and every other alert keeps its row and history; returns how many alerts went, or changes nothing on a fault |
| Lifecycle.StoreIsSerial | app.py:564-607 | Whatever sequence of handlers ran and wherever they failed, the tables are in a state some run of whole requests reaches, with its path and integrity properties |
| Effects.IngestHasEffect | app.py:549-592 | The ingest transaction, with its embedding, stores each column as sent or encrypted, under a new id, and changes no other row |
| Effects.ClassifyHasEffect | app.py:709-747 | The classification transaction changes two columns of one alert and adds one row to each log, with these columns |
| Effects.NoteHasEffect | app.py:963-979 | The note transaction adds one audit row with these columns |
| Effects.PurgeHasEffect | app.py:326-330 | The purge transaction removes exactly the alerts more than `days` days old and the rows that refer to them |
| Effects.ResponseIsNearest | app.py:721-731 | The response time is the nearest whole second, never negative; the INT cast fails exactly outside 32 bits |
| AcrossEndpoints.IngestedIsListedIff | app.py:340-364 | An ingested alert decrypts to the fields that were sent, and is in the open queue, and in the full list, if and only if each filter that is set names its severity or its source, no assignee is asked for, and it was not created before the bound |
| AcrossEndpoints.IngestedShowsByName | app.py:306-315 | The row dict of an ingested alert, decrypted in place, holds what was sent under each column name |
| AcrossEndpoints.ClassifiedIsListedIff | app.py:340-364 | A classified alert is not in the open queue; it is in the full list if and only if the assignee filter, trimmed, is blank or the trimmed analyst, and the other filters let it through as before |
| Filters.AlertFilters | app.py:340-364 | 400 exactly for a malformed bound; otherwise there is one placeholder per parameter, and the text, bound left to right, selects under three-valued logic exactly the rows meeting the endpoint's predicate, every non-blank trimmed filter and the age bound; with the page tail appended the last two parameters bind to LIMIT and OFFSET |
| Filters.JoinedBinds | app.py:363 | Binding the AND-joined clauses with their values gives back the conditions, whatever follows |
| Filters.SelectsWanted | app.py:348-362 | The compiled conditions are true of a row if and only if the row passes the pre-baked predicates, the trimmed non-blank filters and the bound |
| Paging.TotalPagesFit | app.py:495 | total_pages pages hold all the rows and the last one is not empty |
| Paging.LaterPagesEmpty | app.py:489-492 | Every page after total_pages is empty |
| Paging.KeysDetermined | app.py:368-377 | Any two orderings the ORDER BY permits have the same length and the same sort keys in the same places |
| Paging.PageKeysDetermined | app.py:483-492 | Hence the sort keys on each page are determined |
| Paging.OrderingExists | app.py:368-377 | Any set of rows has an ordering that the ORDER BY permits |
| Paging.PagesPartitionIff | app.py:477-503 | Pages 1..total_pages, each under its own permitted ordering, show every matching row on exactly one page for all choices of orderings if and only if no tie straddles a page boundary |
| Paging.TiedPagesRepeat | app.py:368-377 | Two tied rows on pages of one: both pages may show the same row, and the other never appears |
| Paging.DistinctKeysConcatenate | app.py:477-503 | When no two matching rows share a key, the pages concatenate to the whole result in order |
| AlertList.ParsePagination | app.py:456-474 | Refused exactly for a non-integer, a page below 1 or a size outside 1..500; otherwise the numbers sent, or 1 and 100 |
| AlertList.ListAlerts | app.py:477-503 | COUNT and SELECT, each bound from its own text and parameters and each over its own snapshot, range over the rows that meet the same conditions; the page shows as many of those rows as are left and fit, decrypted, CRITICAL before HIGH before MEDIUM before LOW and the newest first among equals; the total is what COUNT saw |
| AlertList.GetAlerts | app.py:456-526 | 400 exactly for bad paging or a malformed bound; otherwise the page shows as many of the wanted rows that SELECT saw as are left and fit, each once, decrypted, the most severe first and the newest first among equals, with the number of wanted rows that COUNT saw and the pages it fills |
| AlertList.PagesInOrder | app.py:368-377 | No alert on a later page is more severe, or newer at the same severity, than one on an earlier page, even if each page was fetched under its own ordering |
| AlertList.OpenQueueIsOpen | app.py:507-515 | The open queue is the open alerts among those the filters let through |
| AlertList.EncryptionIsTransparent | app.py:91-94 | On any mix of legacy and encrypted rows a list query permits the same orderings, and after decryption returns the same page and totals, as on the plaintext table |
| AlertList.LegacyReadsBackIff | crypto.py:43-55 | A legacy row reads back unchanged if and only if none of its three fields is a token for another text |
| AlertList.LegacyTokenMisread | crypto.py:43-55 | A legacy title that is a token for another text comes back as that text |
| Crypto.StoredAlertReadsBack | crypto.py:30-55 | Decrypting undoes storage for encrypted and legacy fields alike, with or without a key |
| Crypto.SealedReadsBack | app.py:549-561 | The row an ingest inserts is a stored form of the alert that was sent, and decrypts to it |
| Crypto.ResultRow.Decrypt | app.py:306-315 | In place: exactly the sensitive fields that are present are decrypted, once; keys and other fields stay |
| Crypto.DecryptsByName | app.py:306-315 | Decrypting the fields of a row dict by name gives the fields of the decrypted alert |
| Grouping.GroupByTotal | app.py:772-786 | The counts of a GROUP BY add up to the size of the table, in any order of its rows |
| Grouping.DictKeepsSumIff | app.py:775-787 | A dict built from positive counts keeps their sum if and only if no key repeats |
| Stats.ChartTotal | app.py:772-780 | by_category and by_severity each sum to total |
| Stats.CategoryCounts | app.py:772-780 | by_category has exactly the categories that occur, each with the number of its alerts |
| Stats.SeverityCounts | app.py:772-780 | by_severity has exactly the severities that occur, each under its name with the number of its alerts |
| Stats.BySourceTotalIff | app.py:783-787 | by_source sums to total if and only if NULL and the text `unknown` do not both occur |
| Stats.UnknownSourcesCollide | app.py:783-787 | With one NULL and one `unknown` source the chart counts fewer than the two alerts |
| Stats.ClosedIsTriaged | app.py:764-804 | total minus open is the number triaged, no more are escalated than triaged, and the escalation rate is a percentage |
| Stats.SlaCoversAlerts | app.py:833-850 | On a snapshot of any state the interleavings reach, the SLA loop considers every alert exactly once, breaches by severity sum to the breaches, and the rate is a percentage |
| Stats.SlaCountsBreaches | app.py:833-850 | Over any snapshot, whatever the order of the joined rows, the SLA breaches are the number of alerts in breach, and each entry of the severity map is the number of those of that severity |
| Stats.ReachableBreachIff | app.py:254-281 | In every state the interleavings reach, an open alert is in breach if and only if its age exceeds 15 minutes, 1 hour, 4 hours or 24 hours for CRITICAL, HIGH, MEDIUM or LOW; a triaged one, if and only if every response time recorded for it does |
| Stats.Tally | static/dashboard.js:284-291 | The loop's counts are the multiplicities of the labels, with empty and missing values as `unknown` and inherited names garbled |
| Stats.TallyAdds | static/dashboard.js:284-291 | The tally of two pages' rows, taken in any order, adds the tallies of the pages |
| Stats.TallyMatchesGroupByIff | static/dashboard.js:284-301 | Over the same rows the client's counts are the server's if and only if no value is empty or an inherited name |
| Stats.ConstructorIsMiscounted | static/dashboard.js:284-291 | For one alert of category `constructor` the client's chart differs from the server's |
| Stats.ChartsAgreeIff | static/dashboard.js:293-301 | With at most 500 alerts and no filter, whatever ordering the page has, the client's tally of a column equals the server's counts if and only if no alert's value is empty or an inherited name |
| Stats.SeverityChartAgrees | static/dashboard.js:293-301 | For severity it always does, in every state the interleavings reach |
| Stats.SourceTallyIff | static/dashboard.js:284-301 | Over the same rows the client's counts of the sources are the server's coalesced counts if and only if no source is empty, none has a label that is an inherited name, and NULL and the text `unknown` do not both occur |
| Stats.SourceChartsAgreeIff | static/dashboard.js:293-301 | The same for the whole table and the fetched page, with at most 500 alerts and no filter, whatever ordering the page has |
| Sla.MinResponseIsLeast | app.py:843-845 | min ignores NULLs: NULL exactly when there is no value, else an attained lower bound |
| Sla.JoinEqualsSubquery | app.py:833-848 | For any grouping of the actions, the LEFT JOIN yields row for row what the per-alert correlated subquery yields, alerts without actions and NULL response times included |
| Sla.RewriteKeepsMetrics | README.md:29 | In whatever order the rows of either query arrive, every SLA metric is the same |
| Sla.ComputeSla | app.py:264-288 | The loop's breaches and considered rows are the numbers of rows in breach and of rows with a listed severity; the map has exactly the severities with a row in breach, each with their number; the rate is that of breaches among considered |
| Sla.RateIsNearest | app.py:282 | The rate lies in 0..100 and is within half a tenth of a percent of the exact ratio |
| Sla.SlaTotals | app.py:272-281 | No more rows breach than are considered; every row is considered if and only if each severity is one of the four |
| Sla.BySeveritySums | app.py:279-281 | The breaches by severity sum to the breaches |
| Sla.SeverityOrdersBreaches | app.py:256-261 | Of two untriaged alerts of the same age the more severe one is in breach whenever the other is, and strictly earlier |
| Sla.TriageClearsIff | app.py:721-731 | Triage never creates a breach, and clears one if and only if the age is strictly between the target and half a second past it |
| Sla.TriageClearsExample | app.py:721-731 | A CRITICAL alert triaged 15 minutes and 0.3 seconds after it was created goes from in breach to not in breach |
| Sla.BreachPersistsIff | app.py:264-288 | In any run of whole requests, an alert in breach is still in breach later, for as long as it is kept, if and only if no request triaged it inside that window; one that did has ended the breach for good |
| Navigator.NavigatorLayer | app.py:1060-1079 | One entry per mapped category present, scored by its most severe alerts and counting exactly those; the total covers unmapped categories too |
| Navigator.LayerIsUnique | app.py:1060-1079 | Under the severity CHECK the layer is a function of the table, the same for every order of the grouped rows |
| Navigator.LayerShowsWorst | app.py:239-245 | No alert of an entry's category is more severe than the entry, which counts exactly the alerts of that severity and whose score is the legend's |
| Navigator.EntryIff | app.py:231-237 | There is an entry for a technique if and only if an alert of its category is present: T1110.001 for brute_force, T1046 for port_scan, T1059 for malware, T1566 for phishing, T1078 for anomaly |
| Mttr.MeanWithinHalfSecond | static/dashboard.js:269-271 | The client's count is the day's triages, and its weighted sum is within half a second per triage of the true sum |
| Mttr.MinutesWithinOne | static/dashboard.js:272 | The displayed minutes differ from the correctly rounded true mean by at most one, and only when that mean is within half a second of the half minute between them |
| Mttr.DashboardMttr | app.py:814-827 | From the action rows through the seven-day GROUP BY, the client's filter on today and its two sums: the count is today's timed triages exactly and the minutes are within one of their rounded mean |
| Mttr.TodaysTimes | app.py:814-827 | Today's triages are exactly the action rows of the current UTC day with a response time, in order, each with its analyst |
| Mttr.RunsRecordTimes | app.py:721-731 | After any interleaving every action row has a response time, and none is negative |
| Sse.EventQueue.PutNowait | app.py:176-180 | Full exactly at 100; otherwise the event goes last |
| Sse.Broadcaster.Subscribe | app.py:185-189 | A fresh empty queue joins the end of the list |
| Sse.Broadcaster.Unsubscribe | app.py:192-195 | Only that queue leaves, if it is listed; the others keep their order |
| Sse.Broadcaster.Publish | app.py:174-182 | Every queue with room gains the event and every full one keeps its items and leaves the list, the others in their order |
| Sse.QuietPublish | app.py:174-182 | The uninterrupted steps of the state machine do what Publish promises |
| Sse.QuietTake | app.py:1140 | A take hands over the oldest event in the queue, if there is one, and changes nothing else, as EventQueue.Get promises |
| Sse.QuietSubscribe | app.py:185-189 | A subscription puts a new subscriber with an empty queue at the end of the list and changes nothing else |
| Sse.QuietUnsubscribe | app.py:192-195 | Only that subscriber leaves the list; what it has received and what waits for it stays |
| Sse.ReceivedIsTaken | app.py:1136-1142 | Over any interleaving, a subscriber has received as many events as it made takes that found its queue not empty |
| Sse.LogIsPublished | app.py:174-182 | Over any interleaving, the log is the events of the publishes, in the order in which they got the lock |
| Sse.ExactDelivery | app.py:165-195 | After any interleaving of puts, takes, subscriptions and departures, whenever no publish is under way: a registered subscriber's received and queued events are exactly those published since it subscribed; an evicted or departed one's are exactly a block of them; queues stay within 100 and the list has no duplicates |
| Sse.DrainedReceivesAll | app.py:1136-1142 | From any state with no publish under way, as many takes as events wait leave the queue empty and everything received: exactly the events published since the subscription, up to where it left or was evicted if it did |
| Sse.EvictedExactlyIff | app.py:176-182 | Over a whole run, a subscription ended by eviction just before event number n if and only if a put that offered event n found its queue full |
| Sse.EvictedIff | app.py:176-182 | A subscriber is evicted if and only if some put found its queue full: one whose backlog is below 100 at each publish is never evicted |
| Sse.RoomKeepsSubscriber | app.py:176-182 | A subscriber with at most 99 events waiting whenever a publish begins is never evicted |
| Sse.DrainedIsNeverEvicted | app.py:176-182 | In particular one that is drained before each publish begins |
| TraceParent.AcceptedIff | internal/ingest/propagation.go:16-43 | The accepted strings are exactly: a hyphen-free version, 32 and 16 lower-case hexadecimal digits not all zero, and non-empty hexadecimal flags of value at most 255 |
| TraceParent.ParseJoined | internal/ingest/propagation.go:21-37 | Each accepted string yields the values of its three fields |
| TraceParent.OtherSegmentsRejected | internal/ingest/propagation.go:17-20 | A string without exactly three hyphens leaves the context unchanged |
| TraceParent.ExtractIff | internal/ingest/propagation.go:16-43 | A header in the accepted form replaces the context by its three values; any other, whatever its hyphens, leaves the context unchanged |
| TraceParent.DigitsAre | internal/ingest/propagation.go:21-37 | The hexadecimal digits are 0-9 and a-f, in flags A-F too, worth 0 to 15 |
| TraceParent.RenderedParses | internal/ingest/propagation.go:16-43 | Every non-zero trace id and span id and every flag byte survive rendering as version 00 (section 3.2.2 of W3C Trace Context) |
| KafkaConsumer.GateIff | app.py:610-621 | A body passes exactly when title and category are text with content and the severity spells one of the four names, in capitals or not, inside surrounding space; what passes is trimmed, has that severity, and has source, address, description and the two run fields each under its own name, empty text as none |
| KafkaConsumer.Consumer.Handle | kafka/consumer.py:71-90 | An ingest may fail in any way and the handler returns, with at most that message's own effect on the tables and events; it raises exactly for the messages that escape its except clause |
| KafkaConsumer.Consumer.Run | kafka/consumer.py:59-69 | The loop handles the polls in order until it is stopped or a message escapes, and it raises if and only if one escapes before the stop |
| KafkaConsumer.HandledAllIff | kafka/consumer.py:59-90 | Every poll up to the stop is handled if and only if none of them escapes |
| KafkaConsumer.EscapeLosesLater | kafka/consumer.py:71-75 | After a null value, an over-long integer or too deep a nesting, a well-formed message is never inserted |
| KafkaConsumer.InsertsAccepted | kafka/consumer.py:59-90 | When the database does not fail and no message escapes before the stop, the alerts added are exactly the well-formed messages up to the stop in order, under consecutive ids, open and unassigned, with the columns the gate passed on, and no earlier alert is changed |
| KafkaConsumer.AcceptedInOrder | kafka/consumer.py:71-90 | The well-formed messages are exactly those that are objects which the gate lets through, in the order polled |
| KafkaConsumer.AnnouncesAccepted | app.py:600-606 | When nothing fails, each alert added is announced exactly once, in order, under its own id |
| EscapeHtml.UnescapeEscape | static/dashboard.js:365-369 | Decoding the five entities of an escaped string gives the string back |
| EscapeHtml.EscapeInjective | static/dashboard.js:365-369 | Different strings escape differently |
| EscapeHtml.EscapeFixesIff | static/dashboard.js:365-369 | A string is left as it is if and only if it holds none of the five characters |
| EscapeHtml.EscapedIsInert | static/dashboard.js:365-369 | Escaped text contains no angle bracket or quote |
| EscapeHtml.AmpersandsBeginEntities | static/dashboard.js:365-369 | Every ampersand in escaped text begins one of the five entities |

## Left out

- Interleaving.EveryInterleavingKeepsIntegrity: a DELETE takes all its row locks at once, so deadlocks appear as aborts only; the upsert of an embedding is one step.
- AuditTrail.TrailPathsIff: no two transactions begin in the same microsecond; rows at equal times may be served in either order.
- Lifecycle.AlertStore.PurgeOldAlerts: a day of the session's time zone has 24 hours.
- Lifecycle.AlertStore.ClassifyAlert: a non-empty JSON body that is no object raises like an analyst that is not text; `strip` is ASCII.
- Lifecycle.AlertStore.AddNote: a non-empty JSON body that is no object raises like a note that is not text; `strip` is ASCII.
- AlertList.GetAlerts: COUNT and SELECT have separate snapshots; that the total fits the page is proved for one snapshot.
- Paging.PagesPartitionIff: the rows do not change between the requests for the pages.
- Filters.AlertFilters: `created_after` is an already parsed instant, LIMIT and OFFSET are unbounded integers, and `strip` is ASCII.
- Sla.ComputeSla: the percentage is rounded on the exact ratio, ties upward; Python rounds the nearest binary floating-point value, ties to even.
- Mttr.MinutesWithinOne: averages and quotients are exact, without binary floating point; days are UTC days.
- Stats.Tally: assigning to the key `__proto__` leaves no entry in a JavaScript object; the model shows it as garbled.
- KafkaConsumer.GateIff: `strip` and `upper` are ASCII; Unicode white space and case mappings are not modelled. Optional fields are text or absent.
- The `users` table, authentication, sessions, CSRF, roles and page templates.
- Redis pub/sub, the Conductor approval gate, gRPC and REST transport, tracing set-up and deployment files.
- Fernet, AES, HMAC and SHA-256 themselves; the Go service derives its key differently, so its rows are outside the encryption results.
- The embedding model and vector distance; only the upsert, its failure and the cascade are modelled.
- Go ingest (internal/ingest/service.go) is another ingest step of the lifecycle; its own validation adds only easy properties.
- Snapshot drift between the statements of one statistics request: the statistics are stated on one snapshot.
- `seed.py` and `manage.py`: seeded closed alerts have no audit rows, so runs start from empty tables.
