/** The one SELECT statement composed at run time: its text, its parameters, and what the text means. */
module DynamicSelect {
  import opened Wrappers
  import opened Sequences
  import opened DecimalText

  const DEFAULT_LIMIT := 200
  const MAX_LIMIT := 2000

  datatype Value = Text(text: string) | Flag(flag: bool) | Number(digits: string) | Other(tag: nat)

  datatype Filter = Filter(column: string, values: seq<Value>)

  datatype Select = Select(schema: string, table: string, columns: seq<string>, filters: seq<Filter>, limit: int)

  datatype SelectError = UnsafeIdentifier(name: string) | NoColumns | NoValues(column: string)

  datatype Statement = Statement(sql: string, args: seq<Value>, limit: nat)

  /** [a-z][a-z0-9_]{0,62} */
  predicate SafeName(s: string) {
    && 1 <= |s| <= 63
    && 'a' <= s[0] <= 'z'
    && forall i :: 0 <= i < |s| ==> 'a' <= s[i] <= 'z' || '0' <= s[i] <= '9' || s[i] == '_'
  }

  function Clamped(limit: int): (n: nat)
    ensures 1 <= n <= MAX_LIMIT
    ensures n == limit <==> 1 <= limit <= MAX_LIMIT
    ensures limit <= 0 ==> n == DEFAULT_LIMIT
    ensures limit > MAX_LIMIT ==> n == MAX_LIMIT
  {
    if limit <= 0 then DEFAULT_LIMIT else if limit > MAX_LIMIT then MAX_LIMIT else limit
  }

  // ---------------------------------------------------------------- the text

  /** Double quotes doubled, NULs dropped. */
  function Escape(part: string): string {
    if part == "" then ""
    else (if part[0] == '"' then "\"\"" else if part[0] == '\0' then "" else [part[0]]) + Escape(part[1..])
  }

  /** pgx.Identifier{part}.Sanitize() */
  function Sanitize(part: string): string {
    "\"" + (Escape(part) + "\"")
  }

  function ColumnsText(columns: seq<string>): string
    requires columns != []
  {
    if |columns| == 1 then Sanitize(columns[0])
    else Sanitize(columns[0]) + (", " + ColumnsText(columns[1..]))
  }

  function Placeholder(n: nat): string {
    "$" + Print(n)
  }

  /** $n, $n+1, ... : count of them. */
  function Placeholders(n: nat, count: nat): string
    decreases count
  {
    if count == 0 then "" else if count == 1 then Placeholder(n) else Placeholder(n) + (", " + Placeholders(n + 1, count - 1))
  }

  function PredicateText(f: Filter, n: nat): string {
    if |f.values| == 1 then Sanitize(f.column) + (" = " + Placeholder(n))
    else Sanitize(f.column) + (" IN (" + (Placeholders(n, |f.values|) + ")"))
  }

  predicate AllHaveValues(filters: seq<Filter>) {
    forall i :: 0 <= i < |filters| ==> filters[i].values != []
  }

  function FiltersText(filters: seq<Filter>, lead: string, n: nat): string {
    if filters == [] then ""
    else lead + (PredicateText(filters[0], n) + FiltersText(filters[1..], " AND ", n + |filters[0].values|))
  }

  function Args(filters: seq<Filter>): seq<Value> {
    if filters == [] then [] else filters[0].values + Args(filters[1..])
  }

  predicate AllSafe(q: Select) {
    && SafeName(q.schema) && SafeName(q.table)
    && (forall i :: 0 <= i < |q.columns| ==> SafeName(q.columns[i]))
    && (forall i :: 0 <= i < |q.filters| ==> SafeName(q.filters[i].column))
  }

  predicate Buildable(q: Select) {
    AllSafe(q) && q.columns != [] && AllHaveValues(q.filters)
  }

  function SelectText(q: Select): string
    requires Buildable(q)
  {
    "SELECT " + (ColumnsText(q.columns) + (" FROM " + (Sanitize(q.schema) + ("." + (Sanitize(q.table) +
    (FiltersText(q.filters, " WHERE ", 1) + (" LIMIT " + Print(Clamped(q.limit) + 1))))))))
  }

  // ---------------------------------------------------------------- composing it

  method BuildDynamicSelect(q: Select) returns (r: Result<Statement, SelectError>)
    ensures r.Ok? <==> Buildable(q)
    ensures r.Ok? ==> r.value == Statement(SelectText(q), Args(q.filters), Clamped(q.limit))
    ensures r.Err? ==>
              match r.error
              case UnsafeIdentifier(name) => FirstUnsafeIn(Names(q), name)
              case NoColumns => AllSafe(q) && q.columns == []
              case NoValues(column) => AllSafe(q) && q.columns != [] && FirstEmptyIn(q.filters, column)
  {
    var unsafe := FirstUnsafe(q);
    if unsafe.Some? {
      return Err(UnsafeIdentifier(unsafe.value));
    }
    if |q.columns| == 0 {
      return Err(NoColumns);
    }
    var columns := WriteColumns(q.columns);
    var filters :- WriteFilters(q.filters);
    var sb := "SELECT " + (columns + (" FROM " + (Sanitize(q.schema) + ("." + (Sanitize(q.table) + filters.0)))));
    var limit := Clamped(q.limit);
    TailRegroups(columns, q, filters.0, " LIMIT " + Print(limit + 1));
    r := Ok(Statement(sb + (" LIMIT " + Print(limit + 1)), filters.1, limit));
  }

  lemma TailRegroups(columns: string, q: Select, filters: string, tail: string)
    ensures ("SELECT " + (columns + (" FROM " + (Sanitize(q.schema) + ("." + (Sanitize(q.table) + filters)))))) + tail
         == "SELECT " + (columns + (" FROM " + (Sanitize(q.schema) + ("." + (Sanitize(q.table) + (filters + tail))))))
  {
  }

  /** Every identifier of the statement, in the order the gate looks at them. */
  function Names(q: Select): seq<string> {
    [q.schema, q.table] + q.columns + FilterColumns(q.filters)
  }

  function FilterColumns(filters: seq<Filter>): (names: seq<string>)
    ensures |names| == |filters| && forall i :: 0 <= i < |filters| ==> names[i] == filters[i].column
  {
    seq(|filters|, i requires 0 <= i < |filters| => filters[i].column)
  }

  ghost predicate FirstUnsafeIn(names: seq<string>, name: string) {
    exists k :: 0 <= k < |names| && names[k] == name && !SafeName(name) && forall j :: 0 <= j < k ==> SafeName(names[j])
  }

  ghost predicate FirstEmptyIn(filters: seq<Filter>, column: string) {
    exists k :: 0 <= k < |filters| && filters[k] == Filter(column, []) && forall j :: 0 <= j < k ==> filters[j].values != []
  }

  lemma {:induction false} NamesAreSafe(q: Select)
    ensures AllSafe(q) <==> forall k :: 0 <= k < |Names(q)| ==> SafeName(Names(q)[k])
  {
    var names := Names(q);
    assert names[0] == q.schema && names[1] == q.table;
    assert forall k :: 0 <= k < |q.columns| ==> names[2 + k] == q.columns[k];
    assert forall k :: 0 <= k < |q.filters| ==> names[2 + |q.columns| + k] == q.filters[k].column;
    forall k | 0 <= k < |names| && AllSafe(q)
      ensures SafeName(names[k])
    {
      assert k >= 2 + |q.columns| ==> names[k] == q.filters[k - 2 - |q.columns|].column;
      assert 2 <= k < 2 + |q.columns| ==> names[k] == q.columns[k - 2];
    }
  }

  method FirstUnsafe(q: Select) returns (name: Option<string>)
    ensures name.None? <==> AllSafe(q)
    ensures name.Some? ==> FirstUnsafeIn(Names(q), name.value)
  {
    var names := [q.schema, q.table] + q.columns;
    for i := 0 to |q.filters|
      invariant names == [q.schema, q.table] + q.columns + FilterColumns(q.filters)[..i]
    {
      names := names + [q.filters[i].column];
    }
    assert names == Names(q);
    NamesAreSafe(q);
    for i := 0 to |names|
      invariant forall k :: 0 <= k < i ==> SafeName(names[k])
    {
      if !SafeName(names[i]) {
        return Some(names[i]);
      }
    }
    name := None;
  }

  /** Appending the next piece of what is still to be written. */
  lemma Append<T>(done: seq<T>, next: seq<T>, rest: seq<T>, left: seq<T>, whole: seq<T>)
    requires done + left == whole && left == next + rest
    ensures (done + next) + rest == whole
  {
  }

  method WriteColumns(columns: seq<string>) returns (sb: string)
    requires columns != []
    ensures sb == ColumnsText(columns)
  {
    sb := "";
    for i := 0 to |columns|
      invariant sb + RestOfColumns(columns, i) == ColumnsText(columns)
    {
      var written := (if i > 0 then ", " else "") + Sanitize(columns[i]);
      ColumnStep(columns, i);
      Regroup(sb, written, RestOfColumns(columns, i + 1));
      sb := sb + written;
    }
    assert sb + "" == sb;
  }

  /** What is still to be written when i columns have been. */
  ghost function RestOfColumns(columns: seq<string>, i: nat): string
    requires i <= |columns|
  {
    if i == |columns| then "" else (if i > 0 then ", " else "") + ColumnsText(columns[i..])
  }

  lemma {:induction false} ColumnStep(columns: seq<string>, i: nat)
    requires i < |columns|
    ensures ((if i > 0 then ", " else "") + Sanitize(columns[i])) + RestOfColumns(columns, i + 1) == RestOfColumns(columns, i)
  {
    assert columns[i..][1..] == columns[i + 1..];
    Regroup(if i > 0 then ", " else "", Sanitize(columns[i]), RestOfColumns(columns, i + 1));
  }

  method WriteFilters(filters: seq<Filter>) returns (r: Result<(string, seq<Value>), SelectError>)
    ensures r.Ok? <==> AllHaveValues(filters)
    ensures r.Ok? ==> r.value.0 == FiltersText(filters, " WHERE ", 1) && r.value.1 == Args(filters)
    ensures r.Err? ==> r.error.NoValues? && FirstEmptyIn(filters, r.error.column)
  {
    var sb, args := "", [];
    assert filters[0..] == filters;
    for i := 0 to |filters|
      invariant forall k :: 0 <= k < i ==> filters[k].values != []
      invariant TextWritten(filters, i, sb, |args| + 1)
      invariant ArgsWritten(filters, i, args)
    {
      var f := filters[i];
      if |f.values| == 0 {
        return Err(NoValues(f.column));
      }
      var next, more := WriteFilter(f, i == 0, args);
      TextStep(filters, i, sb, |args| + 1, next);
      ArgsWrittenStep(filters, i, args);
      sb, args := sb + next, more;
    }
    AllWritten(filters, sb, args);
    r := Ok((sb, args));
  }

  /** The text of the first i filters is written, and n is the next parameter. */
  ghost predicate TextWritten(filters: seq<Filter>, i: nat, sb: string, n: nat)
    requires i <= |filters|
  {
    sb + RestOfFilters(filters, i, n) == FiltersText(filters, " WHERE ", 1)
  }

  ghost predicate ArgsWritten(filters: seq<Filter>, i: nat, args: seq<Value>)
    requires i <= |filters|
  {
    args + Args(filters[i..]) == Args(filters)
  }

  lemma {:induction false} TextStep(filters: seq<Filter>, i: nat, sb: string, n: nat, next: string)
    requires i < |filters| && TextWritten(filters, i, sb, n)
    requires next == (if i == 0 then " WHERE " else " AND ") + PredicateText(filters[i], n)
    ensures TextWritten(filters, i + 1, sb + next, n + |filters[i].values|)
  {
    var rest, left := RestOfFilters(filters, i + 1, n + |filters[i].values|), RestOfFilters(filters, i, n);
    FilterStep(filters, i, n);
    Append(sb, next, rest, left, FiltersText(filters, " WHERE ", 1));
  }

  lemma {:induction false} ArgsWrittenStep(filters: seq<Filter>, i: nat, args: seq<Value>)
    requires i < |filters| && ArgsWritten(filters, i, args)
    ensures ArgsWritten(filters, i + 1, args + filters[i].values)
  {
    ArgsStep(filters, i);
    Append(args, filters[i].values, Args(filters[i + 1..]), Args(filters[i..]), Args(filters));
  }

  lemma {:induction false} AllWritten(filters: seq<Filter>, sb: string, args: seq<Value>)
    requires TextWritten(filters, |filters|, sb, |args| + 1) && ArgsWritten(filters, |filters|, args)
    ensures sb == FiltersText(filters, " WHERE ", 1) && args == Args(filters)
  {
    assert sb + "" == sb;
    assert args + [] == args;
  }

  method WriteFilter(f: Filter, first: bool, before: seq<Value>) returns (next: string, args: seq<Value>)
    requires f.values != []
    ensures next == (if first then " WHERE " else " AND ") + PredicateText(f, |before| + 1)
    ensures args == before + f.values
  {
    next, args := WritePredicate(f, before);
    next := (if first then " WHERE " else " AND ") + next;
  }

  lemma {:induction false} ArgsStep(filters: seq<Filter>, i: nat)
    requires i < |filters|
    ensures Args(filters[i..]) == filters[i].values + Args(filters[i + 1..])
  {
    assert filters[i..][1..] == filters[i + 1..];
  }

  /** What is still to be written from filter i on; n is the next parameter. */
  ghost function RestOfFilters(filters: seq<Filter>, i: nat, n: nat): string
    requires i <= |filters|
  {
    FiltersText(filters[i..], if i == 0 then " WHERE " else " AND ", n)
  }

  lemma {:induction false} FilterStep(filters: seq<Filter>, i: nat, n: nat)
    requires i < |filters|
    ensures ((if i == 0 then " WHERE " else " AND ") + PredicateText(filters[i], n))
      + RestOfFilters(filters, i + 1, n + |filters[i].values|) == RestOfFilters(filters, i, n)
  {
    assert filters[i..][1..] == filters[i + 1..];
    Regroup(if i == 0 then " WHERE " else " AND ", PredicateText(filters[i], n),
            RestOfFilters(filters, i + 1, n + |filters[i].values|));
  }

  /** One predicate; every value appended to the arguments before its placeholder is written. */
  method WritePredicate(f: Filter, before: seq<Value>) returns (written: string, args: seq<Value>)
    requires f.values != []
    ensures written == PredicateText(f, |before| + 1)
    ensures args == before + f.values
  {
    var ident := Sanitize(f.column);
    if |f.values| == 1 {
      args := before + [f.values[0]];
      written := ident + (" = " + Placeholder(|args|));
    } else {
      var joined;
      joined, args := WritePlaceholders(f.values, before);
      written := ident + (" IN (" + (joined + ")"));
    }
  }

  method WritePlaceholders(values: seq<Value>, before: seq<Value>) returns (joined: string, args: seq<Value>)
    requires values != []
    ensures joined == Placeholders(|before| + 1, |values|)
    ensures args == before + values
  {
    args := before;
    joined := "";
    ghost var n := |before| + 1;
    ghost var text := RestOfPlaceholders(n, |values|, 0);
    ghost var whole := text;
    for j := 0 to |values|
      invariant args == before + values[..j]
      invariant text == RestOfPlaceholders(n, |values|, j) && joined + text == whole
    {
      args := args + [values[j]];
      PlaceholderStep(n, |values|, j);
      var next := (if j > 0 then ", " else "") + Placeholder(|args|);
      Append(joined, next, RestOfPlaceholders(n, |values|, j + 1), text, whole);
      joined := joined + next;
      text := RestOfPlaceholders(n, |values|, j + 1);
    }
    assert joined + "" == joined;
  }

  ghost function RestOfPlaceholders(n: nat, count: nat, j: nat): string
    requires j <= count
  {
    if j == count then "" else (if j > 0 then ", " else "") + Placeholders(n + j, count - j)
  }

  lemma {:induction false} PlaceholderStep(n: nat, count: nat, j: nat)
    requires j < count
    ensures ((if j > 0 then ", " else "") + Placeholder(n + j)) + RestOfPlaceholders(n, count, j + 1)
      == RestOfPlaceholders(n, count, j)
  {
    Regroup(if j > 0 then ", " else "", Placeholder(n + j), RestOfPlaceholders(n, count, j + 1));
  }
}
