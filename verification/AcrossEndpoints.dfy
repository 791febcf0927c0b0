/** What one endpoint stores and another one finds: the effect of an ingest or a classification, as the list
    endpoints' filters see it. */
module AcrossEndpoints {
  import opened Common
  import opened Schema
  import opened Transactions
  import opened Crypto
  import opened Effects
  import Filters
  import AlertList

  /** A query parameter that is absent or blank, and so asks for nothing. */
  predicate Unset(filter: Option<string>) {
    filter == None || Blank(filter.value)
  }

  predicate NameOf(severity: Severity, text: string) {
    || (severity == Critical && text == "CRITICAL") || (severity == High && text == "HIGH")
    || (severity == Medium && text == "MEDIUM") || (severity == Low && text == "LOW")
  }

  lemma NamesAreTexts(severity: Severity, text: string)
    requires !severity.Unlisted?
    ensures NameOf(severity, text) <==> text == Filters.SeverityText(severity)
  {
  }

  function Predicates(openOnly: bool): seq<(Filters.Column, Filters.Value)> {
    if openOnly then AlertList.OPEN_ONLY else []
  }

  lemma QueueWants(openOnly: bool, args: Filters.Args, row: Alert)
    ensures Filters.Wanted(Predicates(openOnly), args, row)
       <==> (openOnly ==> row.status == Open) && Filters.Wanted([], args, row)
  {
    AlertList.OpenQueueIsOpen(args, row);
  }

  /** An alert that was ingested is stored so that it reads back as it was sent, and it is in either list
      exactly when each filter that is set names what was sent, no assignee is asked for, and it was not
      created before the bound. */
  lemma IngestedIsListedIff(f: Option<Fernet>, before: Db, after: Db, sent: NewAlert, nonces: (nat, nat, nat),
                            now: Micros, vector: Option<string>, openOnly: bool, args: Filters.Args)
    requires IngestEffect(f, before, after, sent, nonces, now, vector) && !sent.severity.Unlisted?
    ensures var row := after.alerts[before.nextAlert];
            && ((f.Some? ==> Lawful(f.value)) ==> ShowsSent(DecryptAlert(f, row), sent))
            && (Filters.Wanted(Predicates(openOnly), args, row) <==>
                  && (Unset(args.severity) || NameOf(sent.severity, Strip(args.severity.value)))
                  && (Unset(args.source) || sent.source == Some(Strip(args.source.value)))
                  && Unset(args.assignedTo)
                  && (args.createdAfter.After? ==> args.createdAfter.at <= now))
  {
    var row := after.alerts[before.nextAlert];
    if f.Some? ==> Lawful(f.value) {
      ColumnsReadBack(f, row, sent, nonces, now);
    }
    QueueWants(openOnly, args, row);
    if !Unset(args.severity) {
      NamesAreTexts(sent.severity, Strip(args.severity.value));
    }
  }

  /** A classified alert has left the open queue; in the other list it is found under the name of its analyst,
      trimmed on both sides, and under what it was found before. */
  lemma ClassifiedIsListedIff(before: Db, after: Db, id: nat, analyst: string, action: Action, user: User, now: Micros,
                              args: Filters.Args)
    requires ClassifyEffect(before, after, id, Strip(analyst), action, user, now)
    ensures !Filters.Wanted(Predicates(true), args, after.alerts[id])
    ensures Filters.Wanted(Predicates(false), args, after.alerts[id]) <==>
              && (Unset(args.assignedTo) || Strip(args.assignedTo.value) == Strip(analyst))
              && Filters.Wanted(Predicates(false), args.(assignedTo := None), before.alerts[id])
  {
    QueueWants(true, args, after.alerts[id]);
  }

  /** The row dict of an ingested alert, decrypted in place field by field, has what was sent under each name. */
  lemma IngestedShowsByName(f: Option<Fernet>, before: Db, after: Db, sent: NewAlert, nonces: (nat, nat, nat),
                            now: Micros, vector: Option<string>)
    requires (f.Some? ==> Lawful(f.value)) && IngestEffect(f, before, after, sent, nonces, now, vector)
    ensures Decrypted(f, TextFields(after.alerts[before.nextAlert])) ==
            map["title" := Some(sent.title), "category" := Some(sent.category), "source" := sent.source,
                "source_ip" := sent.sourceIp, "description" := sent.description, "assigned_to" := None,
                "workflow_run_id" := sent.workflowRunId, "run_metadata" := sent.runMetadata]
  {
    var row := after.alerts[before.nextAlert];
    ColumnsReadBack(f, row, sent, nonces, now);
    DecryptsByName(f, row);
  }
}
