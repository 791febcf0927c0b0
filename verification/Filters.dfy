/** The WHERE clause of the list endpoints: compiled to SQL text with placeholders, then bound left to
    right and evaluated under three-valued logic. */
module Filters {
  import opened Common
  import opened Schema

  datatype Column = StatusColumn | SeverityColumn | SourceColumn | AssignedToColumn | CreatedAtColumn
  datatype Value = Text(text: string) | Instant(at: Micros) | Number(n: int)
  datatype Op = Equal | AtLeast

  /** One comparison with its bound value. */
  datatype Cond = Cond(column: Column, op: Op, value: Value)

  /** The words the statement text is built from. */
  datatype Token =
    | Where | And | Name(column: Column) | Operator(op: Op) | Placeholder | OrderBySeverity | Limit | Offset

  function StatusText(s: Status): string {
    match s
    case Open => "open"
    case TruePositive => "true_positive"
    case FalsePositive => "false_positive"
    case Escalated => "escalated"
  }

  function SeverityText(s: Severity): string {
    match s
    case Critical => "CRITICAL"
    case High => "HIGH"
    case Medium => "MEDIUM"
    case Low => "LOW"
    case Unlisted(text) => text
  }

  /** A column of a row; None is NULL. */
  function Cell(row: Alert, c: Column): Option<Value> {
    match c
    case StatusColumn => Some(Text(StatusText(row.status)))
    case SeverityColumn => Some(Text(SeverityText(row.severity)))
    case SourceColumn => if row.source == None then None else Some(Text(row.source.value))
    case AssignedToColumn => if row.assignedTo == None then None else Some(Text(row.assignedTo.value))
    case CreatedAtColumn => Some(Instant(row.createdAt))
  }

  // ---------------------------------------------------------------- evaluating a statement

  datatype Truth = True | False | Unknown

  function Compare(op: Op, cell: Option<Value>, value: Value): Truth {
    if cell == None then Unknown
    else match op
      case Equal => if cell.value == value then True else False
      case AtLeast =>
        if cell.value.Instant? && value.Instant?
        then (if cell.value.at >= value.at then True else False) else Unknown
  }

  function Both(a: Truth, b: Truth): Truth {
    if a == False || b == False then False else if a == True && b == True then True else Unknown
  }

  function WhereTruth(conds: seq<Cond>, row: Alert): Truth {
    if conds == [] then True
    else Both(Compare(conds[0].op, Cell(row, conds[0].column), conds[0].value), WhereTruth(conds[1..], row))
  }

  /** WHERE keeps a row only when its condition is true, not when it is unknown. */
  predicate Selected(conds: seq<Cond>, row: Alert) {
    WhereTruth(conds, row) == True
  }

  datatype Query = Query(conds: seq<Cond>, limit: Option<Value>, offset: Option<Value>)

  /** Reads `col op %s AND ..`, giving each placeholder the next parameter. */
  function BindConds(sql: seq<Token>, params: seq<Value>): Option<(seq<Cond>, seq<Token>, seq<Value>)> {
    if |sql| < 3 || !sql[0].Name? || !sql[1].Operator? || sql[2] != Placeholder || params == [] then None
    else
      var cond := Cond(sql[0].column, sql[1].op, params[0]);
      if |sql| > 3 && sql[3] == And then
        var rest := BindConds(sql[4..], params[1..]);
        if rest == None then None else Some(([cond] + rest.value.0, rest.value.1, rest.value.2))
      else Some(([cond], sql[3..], params[1..]))
  }

  /** What follows the WHERE clause; a parameter too many or too few is the driver's error. */
  function BindTail(conds: seq<Cond>, sql: seq<Token>, params: seq<Value>): Option<Query> {
    if sql == [] && params == [] then Some(Query(conds, None, None))
    else if sql == [OrderBySeverity, Limit, Placeholder, Offset, Placeholder] && |params| == 2
    then Some(Query(conds, Some(params[0]), Some(params[1])))
    else None
  }

  function Bind(sql: seq<Token>, params: seq<Value>): Option<Query> {
    if sql != [] && sql[0] == Where then
      var clause := BindConds(sql[1..], params);
      if clause == None then None else BindTail(clause.value.0, clause.value.1, clause.value.2)
    else BindTail([], sql, params)
  }

  // ---------------------------------------------------------------- compiling the request

  /** A stripped `created_after` argument, its text parsed by `datetime.fromisoformat`. */
  datatype CreatedAfter = NoBound | Malformed | After(at: Micros)

  datatype Args = Args(severity: Option<string>, source: Option<string>, assignedTo: Option<string>,
                       createdAfter: CreatedAfter)

  const FILTER_COLUMNS := [SeverityColumn, SourceColumn, AssignedToColumn]

  /** `(request.args.get(param) or "").strip()`. */
  function Argument(args: Args, c: Column): string {
    var raw := match c
      case SeverityColumn => args.severity
      case SourceColumn => args.source
      case AssignedToColumn => args.assignedTo
      case _ => None;
    if raw == None then "" else Strip(raw.value)
  }

  function Clause(c: Cond): seq<Token> {
    [Name(c.column), Operator(c.op), Placeholder]
  }

  /** `" AND ".join(..)`. */
  function JoinAnd(clauses: seq<seq<Token>>): seq<Token> {
    if clauses == [] then []
    else if |clauses| == 1 then clauses[0]
    else clauses[0] + [And] + JoinAnd(clauses[1..])
  }

  datatype Compiled = BadRequest | Sql(text: seq<Token>, params: seq<Value>)

  /** The rows a request asks for: the endpoint's own predicates, every filter that is not blank, and
      the lower bound on age. A NULL column never equals a filter. */
  ghost predicate Wanted(extra: seq<(Column, Value)>, args: Args, row: Alert) {
    && (forall i :: 0 <= i < |extra| ==> Cell(row, extra[i].0) == Some(extra[i].1))
    && Passes(args.severity, Some(SeverityText(row.severity)))
    && Passes(args.source, row.source)
    && Passes(args.assignedTo, row.assignedTo)
    && (args.createdAfter.After? ==> row.createdAt >= args.createdAfter.at)
  }

  /** A filter that is absent or blank lets every row through; any other wants its trimmed text. */
  predicate Passes(filter: Option<string>, cell: Option<string>) {
    filter == None || Blank(filter.value) || cell == Some(Strip(filter.value))
  }

  const PAGE_TAIL := [OrderBySeverity, Limit, Placeholder, Offset, Placeholder]

  function Conds(extra: seq<(Column, Value)>): seq<Cond> {
    seq(|extra|, i requires 0 <= i < |extra| => Cond(extra[i].0, Equal, extra[i].1))
  }

  /** The conditions contributed by the first `n` filter columns. */
  function FilterConds(args: Args, n: nat): seq<Cond>
    requires n <= 3
  {
    if n == 0 then []
    else
      var value := Argument(args, FILTER_COLUMNS[n - 1]);
      FilterConds(args, n - 1) + if value == "" then [] else [Cond(FILTER_COLUMNS[n - 1], Equal, Text(value))]
  }

  function AgeConds(args: Args): seq<Cond> {
    if args.createdAfter.After? then [Cond(CreatedAtColumn, AtLeast, Instant(args.createdAfter.at))] else []
  }

  function Clauses(conds: seq<Cond>): seq<seq<Token>> {
    seq(|conds|, i requires 0 <= i < |conds| => Clause(conds[i]))
  }

  function Values(conds: seq<Cond>): seq<Value> {
    seq(|conds|, i requires 0 <= i < |conds| => conds[i].value)
  }

  /** The text has one placeholder for each parameter; bound as the driver binds it, alone for COUNT or
      with LIMIT and OFFSET appended for SELECT, it selects exactly the wanted rows and leaves the last
      two parameters to the page. */
  ghost predicate Compiles(extra: seq<(Column, Value)>, args: Args, sql: Compiled, conds: seq<Cond>)
    requires sql.Sql?
  {
    && Placeholders(sql.text) == |sql.params|
    && Bind(sql.text, sql.params) == Some(Query(conds, None, None))
    && (forall perPage, offset ::
          Bind(sql.text + PAGE_TAIL, sql.params + [Number(perPage), Number(offset)])
          == Some(Query(conds, Some(Number(perPage)), Some(Number(offset)))))
    && (forall row :: Selected(conds, row) <==> Wanted(extra, args, row))
  }

  /** Builds the text and the parameter list side by side. */
  method AlertFilters(extra: seq<(Column, Value)>, args: Args) returns (r: Compiled)
    ensures r == BadRequest <==> args.createdAfter == Malformed
    ensures r.Sql? ==> exists conds :: Compiles(extra, args, r, conds)
  {
    var where: seq<seq<Token>>, params: seq<Value> := [], [];
    for i := 0 to |extra|
      invariant where == Clauses(Conds(extra[..i])) && params == Values(Conds(extra[..i]))
    {
      assert Conds(extra[..i + 1]) == Conds(extra[..i]) + [Cond(extra[i].0, Equal, extra[i].1)];
      AppendClause(Conds(extra[..i]), Cond(extra[i].0, Equal, extra[i].1));
      where := where + [[Name(extra[i].0), Operator(Equal), Placeholder]];
      params := params + [extra[i].1];
    }
    assert extra[..|extra|] == extra;
    ghost var conds := Conds(extra);
    assert conds + FilterConds(args, 0) == conds;
    for i := 0 to |FILTER_COLUMNS|
      invariant conds == Conds(extra) + FilterConds(args, i)
      invariant where == Clauses(conds) && params == Values(conds)
    {
      var value := Argument(args, FILTER_COLUMNS[i]);
      if value != "" {
        AppendClause(conds, Cond(FILTER_COLUMNS[i], Equal, Text(value)));
        where := where + [[Name(FILTER_COLUMNS[i]), Operator(Equal), Placeholder]];
        params := params + [Text(value)];
        conds := conds + [Cond(FILTER_COLUMNS[i], Equal, Text(value))];
      }
    }
    if args.createdAfter == Malformed {
      return BadRequest;
    }
    if args.createdAfter.After? {
      AppendClause(conds, Cond(CreatedAtColumn, AtLeast, Instant(args.createdAfter.at)));
      where := where + [[Name(CreatedAtColumn), Operator(AtLeast), Placeholder]];
      params := params + [Instant(args.createdAfter.at)];
    } else {
      assert conds + AgeConds(args) == conds;
    }
    conds := conds + AgeConds(args);
    assert where == Clauses(conds) && params == Values(conds);
    var text := if where != [] then [Where] + JoinAnd(where) else [];
    r := Sql(text, params);
    CompilesConds(extra, args, r);
  }

  lemma AppendClause(conds: seq<Cond>, c: Cond)
    ensures Clauses(conds + [c]) == Clauses(conds) + [Clause(c)]
    ensures Values(conds + [c]) == Values(conds) + [c.value]
  {
  }

  lemma CompilesConds(extra: seq<(Column, Value)>, args: Args, sql: Compiled)
    requires sql.Sql?
    requires var conds := Conds(extra) + FilterConds(args, 3) + AgeConds(args);
             && sql.params == Values(conds)
             && sql.text == if Clauses(conds) != [] then [Where] + JoinAnd(Clauses(conds)) else []
    ensures Compiles(extra, args, sql, Conds(extra) + FilterConds(args, 3) + AgeConds(args))
  {
    var conds := Conds(extra) + FilterConds(args, 3) + AgeConds(args);
    CompiledBinds(conds, [], []);
    assert sql.text + [] == sql.text && sql.params + [] == sql.params;
    forall perPage, offset
      ensures Bind(sql.text + PAGE_TAIL, sql.params + [Number(perPage), Number(offset)])
           == Some(Query(conds, Some(Number(perPage)), Some(Number(offset))))
    {
      CompiledBinds(conds, PAGE_TAIL, [Number(perPage), Number(offset)]);
    }
    forall row ensures Selected(conds, row) <==> Wanted(extra, args, row) {
      SelectsWanted(extra, args, row);
    }
    JoinPlaceholders(conds);
  }

  function Placeholders(sql: seq<Token>): nat {
    if sql == [] then 0 else Placeholders(sql[..|sql| - 1]) + if sql[|sql| - 1] == Placeholder then 1 else 0
  }

  lemma {:induction false} PlaceholdersAppend(a: seq<Token>, b: seq<Token>)
    ensures Placeholders(a + b) == Placeholders(a) + Placeholders(b)
  {
    if b == [] {
      assert a + b == a;
    } else {
      PlaceholdersAppend(a, b[..|b| - 1]);
      assert (a + b)[..|a + b| - 1] == a + b[..|b| - 1];
    }
  }

  lemma ClausePlaceholders(c: Cond)
    ensures Placeholders(Clause(c)) == 1
  {
    var two := Clause(c)[..2];
    assert two == [Name(c.column), Operator(c.op)] && two[..1] == [Name(c.column)] && two[..1][..0] == [];
    assert Placeholders(two[..1]) == 0;
    assert Placeholders(two) == 0;
  }

  lemma {:induction false} JoinPlaceholders(conds: seq<Cond>)
    ensures Placeholders(JoinAnd(Clauses(conds))) == |conds|
    ensures Placeholders([Where] + JoinAnd(Clauses(conds))) == |conds|
  {
    if conds == [] {
    } else {
      var head := Clause(conds[0]);
      ClausePlaceholders(conds[0]);
      if |conds| > 1 {
        JoinPlaceholders(conds[1..]);
        assert Clauses(conds)[1..] == Clauses(conds[1..]);
        PlaceholdersAppend(head, [And]);
        PlaceholdersAppend(head + [And], JoinAnd(Clauses(conds[1..])));
      }
    }
    PlaceholdersAppend([Where], JoinAnd(Clauses(conds)));
  }

  /** Binding undoes compiling, whatever text that is not another AND follows. */
  lemma {:induction false} JoinedBinds(conds: seq<Cond>, rest: seq<Token>, more: seq<Value>)
    requires conds != [] && (rest != [] ==> rest[0] != And)
    ensures BindConds(JoinAnd(Clauses(conds)) + rest, Values(conds) + more) == Some((conds, rest, more))
  {
    var sql, params := JoinAnd(Clauses(conds)) + rest, Values(conds) + more;
    if |conds| == 1 {
      assert sql[3..] == rest && params[1..] == more && conds == [conds[0]];
    } else {
      JoinedBinds(conds[1..], rest, more);
      assert Clauses(conds)[1..] == Clauses(conds[1..]);
      assert sql[4..] == JoinAnd(Clauses(conds[1..])) + rest && params[1..] == Values(conds[1..]) + more;
      assert [conds[0]] + conds[1..] == conds;
    }
  }

  lemma CompiledBinds(conds: seq<Cond>, rest: seq<Token>, more: seq<Value>)
    requires (rest == [] && more == []) || (rest == PAGE_TAIL && |more| == 2)
    ensures var text := if Clauses(conds) != [] then [Where] + JoinAnd(Clauses(conds)) else [];
            Bind(text + rest, Values(conds) + more) ==
            Some(if rest == [] then Query(conds, None, None) else Query(conds, Some(more[0]), Some(more[1])))
  {
    if conds == [] {
      assert [] + rest == rest && Values(conds) + more == more;
    } else {
      JoinedBinds(conds, rest, more);
      assert ([Where] + JoinAnd(Clauses(conds)) + rest)[1..] == JoinAnd(Clauses(conds)) + rest;
    }
  }

  lemma {:induction false} SelectedIffAll(conds: seq<Cond>, row: Alert)
    ensures Selected(conds, row) <==>
            forall i :: 0 <= i < |conds| ==> Compare(conds[i].op, Cell(row, conds[i].column), conds[i].value) == True
  {
    if conds == [] {
    } else {
      SelectedIffAll(conds[1..], row);
      if Selected(conds, row) {
        forall i | 0 <= i < |conds| ensures Compare(conds[i].op, Cell(row, conds[i].column), conds[i].value) == True {
          if i > 0 {
            assert conds[i] == conds[1..][i - 1];
          }
        }
      }
    }
  }

  lemma SelectedAppend(a: seq<Cond>, b: seq<Cond>, row: Alert)
    ensures Selected(a + b, row) <==> Selected(a, row) && Selected(b, row)
  {
    SelectedIffAll(a, row);
    SelectedIffAll(b, row);
    SelectedIffAll(a + b, row);
    if Selected(a + b, row) {
      assert forall i :: 0 <= i < |a| ==> a[i] == (a + b)[i];
      assert forall i :: 0 <= i < |b| ==> b[i] == (a + b)[|a| + i];
    }
  }

  /** A filter that is set wants its text in the column. */
  ghost predicate Fits(args: Args, c: Column, row: Alert) {
    Argument(args, c) != "" ==> Cell(row, c) == Some(Text(Argument(args, c)))
  }

  lemma OneFilterSelects(args: Args, c: Column, row: Alert)
    ensures Selected(if Argument(args, c) == "" then [] else [Cond(c, Equal, Text(Argument(args, c)))], row)
       <==> Fits(args, c, row)
  {
    SelectedIffAll([Cond(c, Equal, Text(Argument(args, c)))], row);
  }

  /** The first `n` filters, each on its own. */
  lemma {:induction false} FiltersSelect(args: Args, n: nat, row: Alert)
    requires n <= 3
    ensures Selected(FilterConds(args, n), row) <==> forall i :: 0 <= i < n ==> Fits(args, FILTER_COLUMNS[i], row)
  {
    if n == 0 {
    } else {
      var c := FILTER_COLUMNS[n - 1];
      FiltersSelect(args, n - 1, row);
      OneFilterSelects(args, c, row);
      SelectedAppend(FilterConds(args, n - 1),
                     if Argument(args, c) == "" then [] else [Cond(c, Equal, Text(Argument(args, c)))], row);
    }
  }

  /** A filter column's condition, if there is one, is the filter's own test. */
  lemma FilterPasses(filter: Option<string>, cell: Option<string>)
    ensures Passes(filter, cell) <==>
            var value := if filter == None then "" else Strip(filter.value); value == "" || cell == Some(value)
  {
    if filter.Some? { StripEmptyIffBlank(filter.value); }
  }

  lemma FiltersWanted(args: Args, row: Alert)
    ensures Selected(FilterConds(args, 3), row) <==>
            Passes(args.severity, Some(SeverityText(row.severity))) && Passes(args.source, row.source)
            && Passes(args.assignedTo, row.assignedTo)
  {
    FiltersSelect(args, 3, row);
    FilterPasses(args.severity, Some(SeverityText(row.severity)));
    FilterPasses(args.source, row.source);
    FilterPasses(args.assignedTo, row.assignedTo);
    assert FILTER_COLUMNS[0] == SeverityColumn && FILTER_COLUMNS[1] == SourceColumn
           && FILTER_COLUMNS[2] == AssignedToColumn;
  }

  lemma ExtraWanted(extra: seq<(Column, Value)>, row: Alert)
    ensures Selected(Conds(extra), row) <==> forall i :: 0 <= i < |extra| ==> Cell(row, extra[i].0) == Some(extra[i].1)
  {
    SelectedIffAll(Conds(extra), row);
    assert forall i :: 0 <= i < |extra| ==>
      (Compare(Conds(extra)[i].op, Cell(row, Conds(extra)[i].column), Conds(extra)[i].value) == True
       <==> Cell(row, extra[i].0) == Some(extra[i].1));
  }

  lemma SelectsWanted(extra: seq<(Column, Value)>, args: Args, row: Alert)
    ensures Selected(Conds(extra) + FilterConds(args, 3) + AgeConds(args), row) <==> Wanted(extra, args, row)
  {
    SelectedAppend(Conds(extra) + FilterConds(args, 3), AgeConds(args), row);
    SelectedAppend(Conds(extra), FilterConds(args, 3), row);
    SelectedIffAll(AgeConds(args), row);
    FiltersWanted(args, row);
    ExtraWanted(extra, row);
  }
}
