/** Running the composed statement: what the text and its arguments select, and how truncation is told. */
module SelectExecution {
  import opened Wrappers
  import opened Sequences
  import opened DynamicSelect
  import opened SelectMeaning

  type Row = map<string, Value>

  type Relations = map<(string, string), seq<Row>>

  // ---------------------------------------------------------------- what the statement selects

  /** column = $n, or column IN ($n, ...). */
  predicate Satisfies(row: Row, c: Compared, args: seq<Value>) {
    && c.column in row && 1 <= c.first && c.first - 1 + c.count <= |args|
    && row[c.column] in args[c.first - 1..c.first - 1 + c.count]
  }

  predicate SatisfiesAll(row: Row, cs: seq<Compared>, args: seq<Value>) {
    cs == [] || (Satisfies(row, cs[0], args) && SatisfiesAll(row, cs[1..], args))
  }

  function Selected(rows: seq<Row>, cs: seq<Compared>, args: seq<Value>): seq<Row> {
    if rows == [] then []
    else (if SatisfiesAll(rows[0], cs, args) then [rows[0]] else []) + Selected(rows[1..], cs, args)
  }

  function Project(rows: seq<Row>, columns: seq<string>): (out: seq<Row>)
    ensures |out| == |rows|
  {
    seq(|rows|, i requires 0 <= i < |rows| => map c | c in columns && c in rows[i] :: rows[i][c])
  }

  function Min(a: nat, b: nat): nat {
    if a < b then a else b
  }

  /** Some of the rows, in any order: all of them, or as many as the limit allows. */
  ghost predicate Takes(rows: seq<Row>, limit: nat, answer: seq<Row>) {
    |answer| == Min(limit, |rows|) && multiset(answer) <= multiset(rows)
  }

  /** What the database may answer to a statement text with arguments. */
  ghost predicate Answers(db: Relations, sql: string, args: seq<Value>, answer: seq<Row>) {
    match ReadSelect(sql)
    case None => false
    case Some(r) =>
      && (r.schema, r.table) in db
      && Takes(Project(Selected(db[(r.schema, r.table)], r.compared, args), r.columns), r.limit, answer)
  }

  // ---------------------------------------------------------------- what was asked for

  predicate Wanted(row: Row, filters: seq<Filter>) {
    forall i :: 0 <= i < |filters| ==> filters[i].column in row && row[filters[i].column] in filters[i].values
  }

  function WantedRows(rows: seq<Row>, filters: seq<Filter>): seq<Row> {
    if rows == [] then []
    else (if Wanted(rows[0], filters) then [rows[0]] else []) + WantedRows(rows[1..], filters)
  }

  lemma {:induction false} WantedSplits(row: Row, f: Filter, rest: seq<Filter>)
    ensures Wanted(row, [f] + rest) <==> (f.column in row && row[f.column] in f.values) && Wanted(row, rest)
  {
    var all := [f] + rest;
    assert all[0] == f && forall i :: 0 <= i < |rest| ==> all[i + 1] == rest[i];
  }

  lemma {:induction false} SatisfiesSplits(row: Row, c: Compared, rest: seq<Compared>, args: seq<Value>)
    ensures SatisfiesAll(row, [c] + rest, args) <==> Satisfies(row, c, args) && SatisfiesAll(row, rest, args)
  {
    assert ([c] + rest)[1..] == rest;
  }

  lemma {:induction false} OwnValues(row: Row, column: string, values: seq<Value>, before: seq<Value>, after: seq<Value>)
    ensures Satisfies(row, Compared(column, |before| + 1, |values|), (before + values) + after)
            <==> column in row && row[column] in values
  {
    var args := (before + values) + after;
    assert args[|before|..|before| + |values|] == values;
  }

  lemma {:induction false} BindsStep(row: Row, f: Filter, rest: seq<Filter>, cs: seq<Compared>, before: seq<Value>, after: seq<Value>)
    requires SatisfiesAll(row, cs, (before + f.values) + after) <==> Wanted(row, rest)
    ensures SatisfiesAll(row, [Compared(f.column, |before| + 1, |f.values|)] + cs, before + (f.values + after))
            <==> Wanted(row, [f] + rest)
  {
    Regroup(before, f.values, after);
    OwnValues(row, f.column, f.values, before, after);
    SatisfiesSplits(row, Compared(f.column, |before| + 1, |f.values|), cs, (before + f.values) + after);
    WantedSplits(row, f, rest);
  }

  lemma {:induction false} ComparisonsNext(f: Filter, rest: seq<Filter>, n: nat)
    ensures Comparisons([f] + rest, n) == [Compared(f.column, n, |f.values|)] + Comparisons(rest, n + |f.values|)
    ensures Args([f] + rest) == f.values + Args(rest)
  {
    assert ([f] + rest)[1..] == rest;
  }

  /** Each filter's placeholders bind exactly its own values. */
  lemma {:induction false} BindsOwnValues(row: Row, filters: seq<Filter>, before: seq<Value>)
    ensures SatisfiesAll(row, Comparisons(filters, |before| + 1), before + Args(filters)) <==> Wanted(row, filters)
  {
    if filters != [] {
      var f, rest := filters[0], filters[1..];
      var next := before + f.values;
      BindsOwnValues(row, rest, next);
      BindsStep(row, f, rest, Comparisons(rest, |next| + 1), before, Args(rest));
      ComparisonsNext(f, rest, |before| + 1);
      assert filters == [f] + rest;
    }
  }

  lemma {:induction false} SelectsSame(rows: seq<Row>, cs: seq<Compared>, args: seq<Value>, filters: seq<Filter>)
    requires forall row :: SatisfiesAll(row, cs, args) <==> Wanted(row, filters)
    ensures Selected(rows, cs, args) == WantedRows(rows, filters)
  {
    if rows != [] {
      SelectsSame(rows[1..], cs, args, filters);
    }
  }

  lemma {:induction false} SelectsWanted(rows: seq<Row>, filters: seq<Filter>)
    ensures Selected(rows, Comparisons(filters, 1), Args(filters)) == WantedRows(rows, filters)
  {
    forall row
      ensures SatisfiesAll(row, Comparisons(filters, 1), Args(filters)) <==> Wanted(row, filters)
    {
      BindsOwnValues(row, filters, []);
      assert [] + Args(filters) == Args(filters);
    }
    SelectsSame(rows, Comparisons(filters, 1), Args(filters), filters);
  }

  /** The statement built for q answers with wanted rows, one more than the limit if there are that many. */
  lemma {:induction false} StatementSelectsWanted(q: Select, db: Relations, answer: seq<Row>)
    requires Buildable(q) && Answers(db, SelectText(q), Args(q.filters), answer)
    ensures (q.schema, q.table) in db
    ensures Takes(Project(WantedRows(db[(q.schema, q.table)], q.filters), q.columns), Clamped(q.limit) + 1, answer)
  {
    StatementReadsBack(q);
    SelectsWanted(db[(q.schema, q.table)], q.filters);
  }

  // ---------------------------------------------------------------- the query

  datatype QueryResult = QueryResult(rows: seq<Row>, truncated: bool)

  /** answer is what the database gives back for the statement. */
  method QueryDynamicSelect(q: Select, db: Relations, answer: seq<Row>) returns (r: Result<QueryResult, SelectError>)
    requires Buildable(q) ==> Answers(db, SelectText(q), Args(q.filters), answer)
    ensures r.Ok? <==> Buildable(q)
    ensures r.Ok? ==>
              && (q.schema, q.table) in db
              && var wanted := Project(WantedRows(db[(q.schema, q.table)], q.filters), q.columns);
                 && (r.value.truncated <==> |wanted| > Clamped(q.limit))
                 && (r.value.truncated ==> |answer| > Clamped(q.limit))
                 && Takes(wanted, Clamped(q.limit), r.value.rows)
                 && (!r.value.truncated ==> multiset(r.value.rows) == multiset(wanted))
    ensures r.Ok? ==> r.value.rows == if r.value.truncated then answer[..Clamped(q.limit)] else answer
    ensures r.Err? ==>
              match r.error
              case UnsafeIdentifier(name) => FirstUnsafeIn(Names(q), name)
              case NoColumns => AllSafe(q) && q.columns == []
              case NoValues(column) => AllSafe(q) && q.columns != [] && FirstEmptyIn(q.filters, column)
  {
    var statement :- BuildDynamicSelect(q);
    StatementSelectsWanted(q, db, answer);
    ghost var wanted := Project(WantedRows(db[(q.schema, q.table)], q.filters), q.columns);
    var out, truncated := answer, false;
    if |out| > statement.limit {
      out := out[..statement.limit];
      truncated := true;
      PrefixTaken(wanted, answer, statement.limit);
    } else {
      AllTaken(wanted, answer);
    }
    r := Ok(QueryResult(out, truncated));
  }

  lemma PrefixTaken(rows: seq<Row>, answer: seq<Row>, n: nat)
    requires multiset(answer) <= multiset(rows) && n <= |answer|
    ensures multiset(answer[..n]) <= multiset(rows)
  {
    assert answer == answer[..n] + answer[n..];
  }

  lemma AllTaken(rows: seq<Row>, answer: seq<Row>)
    requires multiset(answer) <= multiset(rows)
    ensures |answer| == |rows| ==> multiset(answer) == multiset(rows)
  {
    assert multiset(rows) == multiset(answer) + (multiset(rows) - multiset(answer));
    assert |multiset(rows)| == |multiset(answer)| + |multiset(rows) - multiset(answer)|;
  }
}
