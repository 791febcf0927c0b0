/** The two list endpoints from request to response, and what encryption at rest leaves of it. */
module AlertList {
  import opened Common
  import opened Schema
  import opened Crypto
  import opened Filters
  import opened Paging
  import Rounding

  datatype Envelope = Envelope(alerts: seq<Alert>, page: nat, perPage: nat, total: nat, totalPages: nat)

  datatype Reply = BadQuery | Listed(envelope: Envelope)

  /** A query-string number: absent, not an integer, or parsed by `int`. */
  datatype IntArg = Missing | NotAnInteger | Integer(n: int)

  function ParsePagination(page: IntArg, perPage: IntArg): (r: Option<(nat, nat)>)
    ensures r == None <==> page.NotAnInteger? || perPage.NotAnInteger? || (page.Integer? && page.n < 1)
                           || (perPage.Integer? && !(1 <= perPage.n <= 500))
    ensures r.Some? ==> r.value.0 >= 1 && 1 <= r.value.1 <= 500
    ensures r.Some? ==> (page.Integer? ==> r.value.0 == page.n) && (perPage.Integer? ==> r.value.1 == perPage.n)
    ensures r.Some? ==> (page.Missing? ==> r.value.0 == 1) && (perPage.Missing? ==> r.value.1 == 100)
  {
    if page.NotAnInteger? || perPage.NotAnInteger? then None
    else
      var p := if page.Missing? then 1 else page.n;
      var n := if perPage.Missing? then 100 else perPage.n;
      if p < 1 || n < 1 || n > 500 then None else Some((p, n))
  }

  /** Positions of the rows a WHERE clause keeps. */
  function Matching(table: seq<Alert>, conds: seq<Cond>): set<nat> {
    set i: nat | i < |table| && Selected(conds, table[i])
  }

  ghost function WantedRows(table: seq<Alert>, extra: seq<(Column, Value)>, args: Args): set<nat> {
    set i: nat | i < |table| && Wanted(extra, args, table[i])
  }

  /** The rows at given positions, decrypted for the client. */
  function Rows(f: Option<Fernet>, table: seq<Alert>, positions: seq<nat>): seq<Alert>
    requires forall i :: 0 <= i < |positions| ==> positions[i] < |table|
  {
    seq(|positions|, i requires 0 <= i < |positions| => DecryptAlert(f, table[positions[i]]))
  }

  /** The ordering the database happens to choose for a query's conditions. */
  ghost predicate Honest(table: seq<Alert>, plan: seq<Cond> -> seq<nat>) {
    forall conds :: Permitted(KeysOf(table), Matching(table, conds), plan(conds))
  }

  /** A page of the ordered rows of one snapshot, with the total that COUNT took on its own. */
  function Respond(f: Option<Fernet>, table: seq<Alert>, order: seq<nat>, total: nat, page: nat, perPage: nat): Envelope
    requires page >= 1 && perPage >= 1 && forall i :: 0 <= i < |order| ==> order[i] < |table|
  {
    Envelope(Rows(f, table, Page(order, page, perPage)), page, perPage, total, TotalPages(total, perPage))
  }

  /** The text binds to the conditions alone, and to the conditions and a page with the tail appended. */
  ghost predicate BindsTo(sql: Compiled, conds: seq<Cond>, limit: nat, offset: nat)
    requires sql.Sql?
  {
    && Bind(sql.text, sql.params) == Some(Query(conds, None, None))
    && Bind(sql.text + PAGE_TAIL, sql.params + [Number(limit), Number(offset)])
       == Some(Query(conds, Some(Number(limit)), Some(Number(offset))))
  }

  lemma CompiledServes(extra: seq<(Column, Value)>, args: Args, sql: Compiled, conds: seq<Cond>, limit: nat,
                       offset: nat)
    requires sql.Sql? && Compiles(extra, args, sql, conds)
    ensures BindsTo(sql, conds, limit, offset)
    ensures forall table :: Matching(table, conds) == WantedRows(table, extra, args)
  {
  }

  /** LIMIT and OFFSET applied to the ordered positions, and each row decrypted. */
  method Fetch(f: Option<Fernet>, table: seq<Alert>, order: seq<nat>, limit: nat, offset: nat)
      returns (alerts: seq<Alert>)
    requires forall i :: 0 <= i < |order| ==> order[i] < |table|
    ensures alerts == Rows(f, table, Slice(order, offset, limit))
  {
    alerts := [];
    var start := Min(offset, |order|);
    for i := start to Min(offset + limit, |order|)
      invariant alerts == Rows(f, table, order[start..i])
    {
      assert order[start..i + 1] == order[start..i] + [order[i]];
      alerts := alerts + [DecryptAlert(f, table[order[i]])];
    }
  }

  method CountAlerts(table: seq<Alert>, text: seq<Token>, params: seq<Value>, ghost conds: seq<Cond>)
      returns (total: nat)
    requires Bind(text, params) == Some(Query(conds, None, None))
    ensures total == |Matching(table, conds)|
  {
    return |Matching(table, Bind(text, params).value.conds)|;
  }

  method SelectAlerts(f: Option<Fernet>, table: seq<Alert>, plan: seq<Cond> -> seq<nat>, text: seq<Token>,
                      params: seq<Value>, ghost conds: seq<Cond>, ghost limit: nat, ghost offset: nat)
      returns (alerts: seq<Alert>)
    requires Bind(text, params) == Some(Query(conds, Some(Number(limit)), Some(Number(offset))))
    requires forall i :: 0 <= i < |plan(conds)| ==> plan(conds)[i] < |table|
    ensures alerts == Rows(f, table, Slice(plan(conds), offset, limit))
  {
    var query := Bind(text, params).value;
    alerts := Fetch(f, table, plan(query.conds), query.limit.value.n, query.offset.value.n);
  }

  /** COUNT and SELECT are sent as text with their own parameter lists, and each sees its own snapshot of
      the table; the page is whatever LIMIT and OFFSET then bind to. */
  method ListAlerts(f: Option<Fernet>, counted: seq<Alert>, table: seq<Alert>, plan: seq<Cond> -> seq<nat>,
                    sql: Compiled, page: nat, perPage: nat, ghost conds: seq<Cond>)
      returns (r: Envelope)
    requires page >= 1 && perPage >= 1 && Honest(table, plan)
    requires sql.Sql? && BindsTo(sql, conds, perPage, (page - 1) * perPage)
    ensures Permitted(KeysOf(table), Matching(table, conds), plan(conds))
    ensures r == Respond(f, table, plan(conds), |Matching(counted, conds)|, page, perPage)
    ensures ShowsPage(f, Matching(counted, conds), table, Matching(table, conds), page, perPage, r)
  {
    var offset := (page - 1) * perPage;
    var total := CountAlerts(counted, sql.text, sql.params, conds);
    var alerts := SelectAlerts(f, table, plan, sql.text + PAGE_TAIL, sql.params + [Number(perPage), Number(offset)],
                               conds, perPage, offset);
    RespondsWithPage(f, table, Matching(table, conds), plan(conds), total, page, perPage);
    TotalPagesFit(total, perPage);
    r := Envelope(alerts, page, perPage, total, if total != 0 then (total + perPage - 1) / perPage else 0);
  }

  /** The compiled WHERE clause, with the conditions it stands for. */
  method CompileQuery(extra: seq<(Column, Value)>, args: Args, ghost limit: nat, ghost offset: nat)
      returns (sql: Compiled, ghost conds: seq<Cond>)
    ensures sql == BadRequest <==> args.createdAfter == Malformed
    ensures sql.Sql? ==>
              && BindsTo(sql, conds, limit, offset)
              && forall table :: Matching(table, conds) == WantedRows(table, extra, args)
  {
    sql := AlertFilters(extra, args);
    conds := [];
    if sql.Sql? {
      conds :| Compiles(extra, args, sql, conds);
      CompiledServes(extra, args, sql, conds, limit, offset);
    }
  }

  // ---------------------------------------------------------------- what a page shows

  /** `a` may be listed ahead of `b`: CRITICAL before HIGH before MEDIUM before LOW, then the newest first. */
  ghost predicate MayPrecede(a: Alert, b: Alert) {
    && (b.severity == Critical ==> a.severity == Critical)
    && (b.severity == High ==> a.severity == Critical || a.severity == High)
    && (b.severity == Medium ==> a.severity == Critical || a.severity == High || a.severity == Medium)
    && (b.severity == Low ==> !a.severity.Unlisted?)
    && (a.severity == b.severity ==> a.createdAt >= b.createdAt)
  }

  lemma KeysPrecede(a: Alert, b: Alert)
    requires !Before(KeyOf(b), KeyOf(a))
    ensures MayPrecede(a, b)
  {
  }

  /** Of two alerts on one page, the earlier may precede the later. */
  lemma PageInOrder(f: Option<Fernet>, table: seq<Alert>, chosen: set<nat>, order: seq<nat>, total: nat, page: nat,
                    perPage: nat)
    requires Permitted(KeysOf(table), chosen, order) && page >= 1 && perPage >= 1
    ensures var alerts := Respond(f, table, order, total, page, perPage).alerts;
            forall i, j :: 0 <= i < j < |alerts| ==> MayPrecede(alerts[i], alerts[j])
  {
    var alerts := Respond(f, table, order, total, page, perPage).alerts;
    forall i, j | 0 <= i < j < |alerts| ensures MayPrecede(alerts[i], alerts[j]) {
      var x, y := PageAt(order, page, perPage, i), PageAt(order, page, perPage, j);
      KeysPrecede(table[order[x]], table[order[y]]);
    }
  }

  lemma EarlierPage(a: seq<nat>, b: seq<nat>, first: nat, later: nat, perPage: nat, i: nat, j: nat)
    requires 1 <= first < later && i < |Page(a, first, perPage)| && j < |Page(b, later, perPage)|
    ensures PageAt(a, first, perPage, i) < PageAt(b, later, perPage, j)
  {
    Rounding.Products(first, later - 1, perPage);
    assert first * perPage == (first - 1) * perPage + perPage;
  }

  /** What stands ahead in one permitted ordering may precede what stands later in another. */
  lemma AcrossOrderings(table: seq<Alert>, chosen: set<nat>, a: seq<nat>, b: seq<nat>, x: nat, y: nat)
    requires Permitted(KeysOf(table), chosen, a) && Permitted(KeysOf(table), chosen, b) && x < y < |b| && x < |a|
    ensures MayPrecede(table[a[x]], table[b[y]])
  {
    KeysDetermined(KeysOf(table), chosen, a, b);
    assert KeysOf(table)[a[x]] == KeysOf(table)[b[x]];
    KeysPrecede(table[a[x]], table[b[y]]);
  }

  /** So it is across pages, even if each was fetched under its own ordering. */
  lemma PagesInOrder(f: Option<Fernet>, table: seq<Alert>, chosen: set<nat>, a: seq<nat>, b: seq<nat>, total: nat,
                     first: nat, later: nat, perPage: nat)
    requires Permitted(KeysOf(table), chosen, a) && Permitted(KeysOf(table), chosen, b)
    requires 1 <= first < later && perPage >= 1
    ensures var before, after := Respond(f, table, a, total, first, perPage).alerts,
                                 Respond(f, table, b, total, later, perPage).alerts;
            forall i, j :: 0 <= i < |before| && 0 <= j < |after| ==> MayPrecede(before[i], after[j])
  {
    var before, after := Respond(f, table, a, total, first, perPage).alerts,
                         Respond(f, table, b, total, later, perPage).alerts;
    forall i, j | 0 <= i < |before| && 0 <= j < |after| ensures MayPrecede(before[i], after[j]) {
      EarlierPage(a, b, first, later, perPage, i, j);
      AcrossOrderings(table, chosen, a, b, PageAt(a, first, perPage, i), PageAt(b, later, perPage, j));
    }
  }

  /** The alerts are those of different rows among the wanted ones, each decrypted. */
  ghost predicate ShowsRows(f: Option<Fernet>, table: seq<Alert>, wanted: set<nat>, alerts: seq<Alert>, at: seq<nat>) {
    && |at| == |alerts| && (forall i, j :: 0 <= i < j < |at| ==> at[i] != at[j])
    && forall i :: 0 <= i < |at| ==> at[i] in wanted && at[i] < |table| && alerts[i] == DecryptAlert(f, table[at[i]])
  }

  /** What a page holds when `wanted` rows match: as many of them as are left and fit, in order. */
  ghost predicate IsPageOf(f: Option<Fernet>, table: seq<Alert>, wanted: set<nat>, alerts: seq<Alert>, page: nat,
                           perPage: nat)
    requires page >= 1
  {
    var skipped := (page - 1) * perPage;
    && (|wanted| <= skipped ==> |alerts| == 0)
    && (skipped < |wanted| <= skipped + perPage ==> |alerts| == |wanted| - skipped)
    && (skipped + perPage < |wanted| ==> |alerts| == perPage)
    && (exists at :: ShowsRows(f, table, wanted, alerts, at))
    && forall i, j :: 0 <= i < j < |alerts| ==> MayPrecede(alerts[i], alerts[j])
  }

  lemma PageShowsRows(f: Option<Fernet>, table: seq<Alert>, wanted: set<nat>, order: seq<nat>, page: nat, perPage: nat)
    requires Permitted(KeysOf(table), wanted, order) && page >= 1
    ensures ShowsRows(f, table, wanted, Rows(f, table, Page(order, page, perPage)), Page(order, page, perPage))
  {
    var at := Page(order, page, perPage);
    forall i | 0 <= i < |at| ensures at[i] in wanted && at[i] < |table| {
      assert order[PageAt(order, page, perPage, i)] in order;
    }
    forall i, j | 0 <= i < j < |at| ensures at[i] != at[j] {
      assert PageAt(order, page, perPage, i) < PageAt(order, page, perPage, j);
    }
  }

  lemma SliceLength(order: seq<nat>, skipped: nat, limit: nat)
    ensures |order| <= skipped ==> |Slice(order, skipped, limit)| == 0
    ensures skipped < |order| <= skipped + limit ==> |Slice(order, skipped, limit)| == |order| - skipped
    ensures skipped + limit < |order| ==> |Slice(order, skipped, limit)| == limit
  {
  }

  lemma RespondsWithPage(f: Option<Fernet>, table: seq<Alert>, wanted: set<nat>, order: seq<nat>, total: nat, page: nat,
                         perPage: nat)
    requires Permitted(KeysOf(table), wanted, order) && page >= 1 && perPage >= 1
    ensures IsPageOf(f, table, wanted, Respond(f, table, order, total, page, perPage).alerts, page, perPage)
  {
    PermittedLength(KeysOf(table), wanted, order);
    SliceLength(order, (page - 1) * perPage, perPage);
    PageShowsRows(f, table, wanted, order, page, perPage);
    PageInOrder(f, table, wanted, order, total, page, perPage);
  }

  /** total_pages pages of this size hold the total, and one fewer do not. */
  ghost predicate PagesFor(total: nat, perPage: nat, pages: nat) {
    && pages * perPage >= total
    && (total == 0 ==> pages == 0)
    && (total > 0 ==> pages >= 1 && (pages - 1) * perPage < total)
  }

  /** The reply shows this page of the wanted rows, and counts the rows that were counted. */
  ghost predicate ShowsPage(f: Option<Fernet>, counted: set<nat>, table: seq<Alert>, wanted: set<nat>, page: nat,
                            perPage: nat, r: Envelope)
    requires page >= 1
  {
    && r.page == page && r.perPage == perPage && r.total == |counted| && PagesFor(r.total, perPage, r.totalPages)
    && IsPageOf(f, table, wanted, r.alerts, page, perPage)
  }

  const OPEN_ONLY: seq<(Column, Value)> := [(StatusColumn, Text("open"))]

  /** GET /api/alerts (`openOnly`) and GET /api/alerts/all. A listed page shows the wanted rows that SELECT
      saw, the most severe first and among equals the newest, with the number of wanted rows that COUNT saw. */
  method GetAlerts(f: Option<Fernet>, counted: seq<Alert>, table: seq<Alert>, plan: seq<Cond> -> seq<nat>,
                   openOnly: bool, args: Args, page: IntArg, perPage: IntArg)
      returns (r: Reply)
    requires Honest(table, plan)
    ensures r == BadQuery <==> ParsePagination(page, perPage) == None || args.createdAfter == Malformed
    ensures r.Listed? ==>
              var extra := if openOnly then OPEN_ONLY else [];
              exists order :: Permitted(KeysOf(table), WantedRows(table, extra, args), order)
                && r.envelope == Respond(f, table, order, |WantedRows(counted, extra, args)|,
                                         ParsePagination(page, perPage).value.0, ParsePagination(page, perPage).value.1)
    ensures r.Listed? ==>
              var extra, (p, n) := if openOnly then OPEN_ONLY else [], ParsePagination(page, perPage).value;
              ShowsPage(f, WantedRows(counted, extra, args), table, WantedRows(table, extra, args), p, n, r.envelope)
  {
    var paging := ParsePagination(page, perPage);
    if paging == None {
      return BadQuery;
    }
    var extra := if openOnly then OPEN_ONLY else [];
    var (pageNumber, size) := paging.value;
    var sql, conds := CompileQuery(extra, args, size, (pageNumber - 1) * size);
    if sql == BadRequest {
      return BadQuery;
    }
    var envelope := ListAlerts(f, counted, table, plan, sql, pageNumber, size, conds);
    assert Matching(table, conds) == WantedRows(table, extra, args);
    assert Matching(counted, conds) == WantedRows(counted, extra, args);
    return Listed(envelope);
  }

  /** The queue's own predicate keeps exactly the open alerts. */
  lemma OpenQueueIsOpen(args: Args, row: Alert)
    ensures Wanted(OPEN_ONLY, args, row) <==> row.status == Open && Wanted([], args, row)
  {
    assert OPEN_ONLY[0] == (StatusColumn, Text("open"));
    assert |"open"| == 4 && |"true_positive"| == 13 && |"false_positive"| == 14 && |"escalated"| == 9;
    assert |StatusText(row.status)| == 4 <==> row.status == Open;
  }

  // ---------------------------------------------------------------- encryption is transparent

  ghost predicate StoredTable(f: Option<Fernet>, plain: seq<Alert>, stored: seq<Alert>) {
    |plain| == |stored| && forall i :: 0 <= i < |plain| ==> StoredAlert(f, plain[i], stored[i])
  }

  lemma {:induction false} SelectionIgnoresEncryption(f: Option<Fernet>, plain: Alert, stored: Alert, conds: seq<Cond>)
    requires StoredAlert(f, plain, stored)
    ensures WhereTruth(conds, stored) == WhereTruth(conds, plain)
  {
    if conds == [] {
    } else {
      SelectionIgnoresEncryption(f, plain, stored, conds[1..]);
      assert Cell(stored, conds[0].column) == Cell(plain, conds[0].column);
    }
  }

  lemma RowsAgree(f: Option<Fernet>, plain: seq<Alert>, stored: seq<Alert>, positions: seq<nat>)
    requires |plain| == |stored| && forall i :: 0 <= i < |positions| ==> positions[i] < |plain|
    requires forall i :: 0 <= i < |plain| ==> DecryptAlert(f, stored[i]) == plain[i]
    ensures Rows(f, stored, positions) == Rows(None, plain, positions)
  {
    assert forall a: Alert :: DecryptAlert(None, a) == a;
  }

  /** Encryption hides nothing that a query looks at. */
  lemma QueryIgnoresEncryption(f: Option<Fernet>, plain: seq<Alert>, stored: seq<Alert>, conds: seq<Cond>)
    requires StoredTable(f, plain, stored)
    ensures KeysOf(stored) == KeysOf(plain) && Matching(stored, conds) == Matching(plain, conds)
  {
    forall i | 0 <= i < |plain|
      ensures WhereTruth(conds, stored[i]) == WhereTruth(conds, plain[i])
      ensures KeyOf(stored[i]) == KeyOf(plain[i])
    {
      SelectionIgnoresEncryption(f, plain[i], stored[i], conds);
    }
  }

  /** On any mix of encrypted and legacy rows, a list query permits the same orderings, and after decryption
      returns the same page and totals as on the plaintext table, for either statement's snapshot. */
  lemma EncryptionIsTransparent(f: Option<Fernet>, plainCount: seq<Alert>, storedCount: seq<Alert>,
                                plain: seq<Alert>, stored: seq<Alert>, conds: seq<Cond>,
                                order: seq<nat>, page: nat, perPage: nat)
    requires f.Some? ==> Lawful(f.value)
    requires StoredTable(f, plainCount, storedCount) && StoredTable(f, plain, stored) && page >= 1 && perPage >= 1
    ensures Permitted(KeysOf(stored), Matching(stored, conds), order)
       <==> Permitted(KeysOf(plain), Matching(plain, conds), order)
    ensures Permitted(KeysOf(stored), Matching(stored, conds), order) ==>
              Respond(f, stored, order, |Matching(storedCount, conds)|, page, perPage)
              == Respond(None, plain, order, |Matching(plainCount, conds)|, page, perPage)
  {
    QueryIgnoresEncryption(f, plainCount, storedCount, conds);
    QueryIgnoresEncryption(f, plain, stored, conds);
    forall i | 0 <= i < |plain| ensures DecryptAlert(f, stored[i]) == plain[i] {
      StoredAlertReadsBack(f, plain[i], stored[i]);
    }
    if Permitted(KeysOf(stored), Matching(stored, conds), order) {
      RowsAgree(f, plain, stored, Page(order, page, perPage));
    }
  }

  /** A legacy row is read back as it was written exactly when none of its three fields happens to be a
      token for some other text. */
  lemma LegacyReadsBackIff(f: Fernet, plain: Alert)
    ensures DecryptAlert(Some(f), plain) == plain <==>
            forall v :: v in {Some(plain.title), plain.sourceIp, plain.description} && v.Some?
              ==> f.decrypt(v.value) == None || f.decrypt(v.value) == v
  {
    assert DecryptAlert(Some(f), plain) == plain <==>
      && DecryptField(Some(f), Some(plain.title)) == Some(plain.title)
      && DecryptField(Some(f), plain.sourceIp) == plain.sourceIp
      && DecryptField(Some(f), plain.description) == plain.description;
  }

  /** A legacy title that happens to be a token for another text comes back as that text. */
  lemma LegacyTokenMisread(f: Fernet, plain: Alert, text: string)
    requires f.decrypt(plain.title) == Some(text) && text != plain.title
    ensures DecryptAlert(Some(f), plain).title == text && DecryptAlert(Some(f), plain) != plain
  {
    assert DecryptField(Some(f), Some(plain.title)) == Some(text);
  }
}
