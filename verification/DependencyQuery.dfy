/** The structured read builder: calls checked one by one, the first error kept. */
module DependencyQuery {
  import opened Wrappers
  import opened TextOrder
  import D = DynamicSelect
  import E = SelectExecution

  const MAX_COLUMNS := 64
  const MAX_FILTERS := 16
  const MAX_IN_VALUES := 200

  datatype Operand = Scalar(value: D.Value) | Values(values: seq<D.Value>)

  datatype BuildError =
    | Dependency
    | BadTable
    | BadColumn(column: string)
    | TooManyColumns
    | NotScalar(column: string)
    | NoValues(column: string)
    | TooManyValues(column: string)
    | Duplicate(column: string)
    | TooManyFilters(column: string)

  datatype Call =
    | Columns(columns: seq<string>)
    | Where(column: string, value: D.Value)
    | WhereIn(column: string, values: seq<D.Value>)
    | Limit(limit: int)

  datatype Builder = Builder(columns: seq<string>, filters: map<string, Operand>, limit: int, err: Option<BuildError>)

  // ---------------------------------------------------------------- one call

  predicate IsScalar(v: D.Value) {
    v.Text? || v.Flag? || v.Number?
  }

  predicate AllSafe(names: seq<string>) {
    forall i :: 0 <= i < |names| ==> D.SafeName(names[i])
  }

  predicate AllScalar(values: seq<D.Value>) {
    forall i :: 0 <= i < |values| ==> IsScalar(values[i])
  }

  /** The first name that is not an identifier. */
  function FirstBad(names: seq<string>): Option<string> {
    if names == [] then None else if !D.SafeName(names[0]) then Some(names[0]) else FirstBad(names[1..])
  }

  function FilterError(b: Builder, column: string): Option<BuildError> {
    if !D.SafeName(column) then Some(BadColumn(column))
    else if column in b.filters then Some(Duplicate(column))
    else if |b.filters| >= MAX_FILTERS then Some(TooManyFilters(column))
    else None
  }

  function CallError(b: Builder, call: Call): Option<BuildError> {
    match call
    case Columns(columns) =>
      if FirstBad(columns).Some? then Some(BadColumn(FirstBad(columns).value))
      else if |b.columns| + |columns| > MAX_COLUMNS then Some(TooManyColumns)
      else None
    case Where(column, value) =>
      if !IsScalar(value) then Some(NotScalar(column)) else FilterError(b, column)
    case WhereIn(column, values) =>
      if values == [] then Some(NoValues(column))
      else if |values| > MAX_IN_VALUES then Some(TooManyValues(column))
      else if !AllScalar(values) then Some(NotScalar(column))
      else FilterError(b, column)
    case Limit(_) => None
  }

  function Effect(b: Builder, call: Call): Builder {
    match call
    case Columns(columns) => b.(columns := b.columns + columns)
    case Where(column, value) => b.(filters := b.filters[column := Scalar(value)])
    case WhereIn(column, values) => b.(filters := b.filters[column := Values(values)])
    case Limit(n) => b.(limit := n)
  }

  /** A failed builder ignores every later call. */
  function After(b: Builder, call: Call): Builder {
    if b.err.Some? then b
    else if CallError(b, call).Some? then b.(err := CallError(b, call))
    else Effect(b, call)
  }

  function Started(dependencyFailed: bool, table: string): Builder {
    Builder([], map[], 0, if dependencyFailed then Some(Dependency) else if !D.SafeName(table) then Some(BadTable) else None)
  }

  function Built(b: Builder, calls: seq<Call>): Builder
    decreases |calls|
  {
    if calls == [] then b else After(Built(b, calls[..|calls| - 1]), calls[|calls| - 1])
  }

  // ---------------------------------------------------------------- the builder object

  class Query {
    const table: string
    var columns: seq<string>
    var filters: map<string, Operand>
    var limit: int
    var err: Option<BuildError>

    constructor (dependencyFailed: bool, table: string)
      ensures this.table == table && View() == Started(dependencyFailed, table)
    {
      this.table := table;
      columns, filters, limit := [], map[], 0;
      err := if dependencyFailed then Some(Dependency) else if !D.SafeName(table) then Some(BadTable) else None;
    }

    function View(): Builder
      reads this
    {
      Builder(columns, filters, limit, err)
    }

    method SetErr(e: BuildError)
      modifies this`err
      ensures err == if old(err).None? then Some(e) else old(err)
    {
      if err.None? {
        err := Some(e);
      }
    }

    method AddColumns(cols: seq<string>)
      modifies this
      ensures View() == After(old(View()), Columns(cols))
    {
      if err.Some? {
        return;
      }
      for i := 0 to |cols|
        invariant View() == old(View())
        invariant FirstBad(cols) == FirstBad(cols[i..])
      {
        if !D.SafeName(cols[i]) {
          SetErr(BadColumn(cols[i]));
          return;
        }
        assert cols[i..][1..] == cols[i + 1..];
      }
      if |columns| + |cols| > MAX_COLUMNS {
        SetErr(TooManyColumns);
        return;
      }
      columns := columns + cols;
    }

    method Where(column: string, value: D.Value)
      modifies this
      ensures View() == After(old(View()), Call.Where(column, value))
    {
      if err.Some? {
        return;
      }
      if !IsScalar(value) {
        SetErr(NotScalar(column));
        return;
      }
      AddFilter(column, Scalar(value));
    }

    method WhereIn(column: string, values: seq<D.Value>)
      modifies this
      ensures View() == After(old(View()), Call.WhereIn(column, values))
    {
      if err.Some? {
        return;
      }
      if |values| == 0 {
        SetErr(NoValues(column));
        return;
      }
      if |values| > MAX_IN_VALUES {
        SetErr(TooManyValues(column));
        return;
      }
      for i := 0 to |values|
        invariant View() == old(View())
        invariant AllScalar(values[..i])
      {
        if !IsScalar(values[i]) {
          SetErr(NotScalar(column));
          return;
        }
        assert values[..i + 1] == values[..i] + [values[i]];
      }
      assert values[..|values|] == values;
      AddFilter(column, Values(values));
    }

    method AddFilter(column: string, operand: Operand)
      requires err.None?
      modifies this
      ensures View() == if FilterError(old(View()), column).Some? then old(View()).(err := FilterError(old(View()), column))
                        else old(View()).(filters := old(filters)[column := operand])
    {
      if !D.SafeName(column) {
        SetErr(BadColumn(column));
        return;
      }
      if column in filters {
        SetErr(Duplicate(column));
        return;
      }
      if |filters| >= MAX_FILTERS {
        SetErr(TooManyFilters(column));
        return;
      }
      filters := filters[column := operand];
    }

    method SetLimit(n: int)
      modifies this
      ensures View() == After(old(View()), Limit(n))
    {
      if err.Some? {
        return;
      }
      limit := n;
    }
  }

  // ---------------------------------------------------------------- what a sequence of calls amounts to

  datatype Declared = Declared(column: string, operand: Operand)

  function ColumnsOf(call: Call): seq<string> {
    if call.Columns? then call.columns else []
  }

  function FiltersOf(call: Call): seq<Declared> {
    match call
    case Where(column, value) => [Declared(column, Scalar(value))]
    case WhereIn(column, values) => [Declared(column, Values(values))]
    case _ => []
  }

  function AllColumns(calls: seq<Call>): seq<string> {
    if calls == [] then [] else AllColumns(calls[..|calls| - 1]) + ColumnsOf(calls[|calls| - 1])
  }

  function AllFilters(calls: seq<Call>): seq<Declared> {
    if calls == [] then [] else AllFilters(calls[..|calls| - 1]) + FiltersOf(calls[|calls| - 1])
  }

  function LastLimit(calls: seq<Call>): int {
    if calls == [] then 0
    else if calls[|calls| - 1].Limit? then calls[|calls| - 1].limit else LastLimit(calls[..|calls| - 1])
  }

  predicate WellFormed(f: Declared) {
    && D.SafeName(f.column)
    && match f.operand
       case Scalar(v) => IsScalar(v)
       case Values(vs) => 1 <= |vs| <= MAX_IN_VALUES && AllScalar(vs)
  }

  ghost predicate AllWellFormed(fs: seq<Declared>) {
    forall i :: 0 <= i < |fs| ==> WellFormed(fs[i])
  }

  ghost predicate DistinctColumns(fs: seq<Declared>) {
    forall i, j :: 0 <= i < j < |fs| ==> fs[i].column != fs[j].column
  }

  /** The calls taken together stay within every bound. */
  ghost predicate Admissible(calls: seq<Call>) {
    && AllSafe(AllColumns(calls)) && |AllColumns(calls)| <= MAX_COLUMNS
    && AllWellFormed(AllFilters(calls)) && DistinctColumns(AllFilters(calls)) && |AllFilters(calls)| <= MAX_FILTERS
  }

  function FilterMap(fs: seq<Declared>): map<string, Operand> {
    if fs == [] then map[] else FilterMap(fs[..|fs| - 1])[fs[|fs| - 1].column := fs[|fs| - 1].operand]
  }

  ghost predicate Declares(fs: seq<Declared>, c: string) {
    exists i :: 0 <= i < |fs| && fs[i].column == c
  }

  lemma {:induction false} DeclaresSplits(front: seq<Declared>, last: Declared, c: string)
    ensures Declares(front + [last], c) <==> Declares(front, c) || last.column == c
  {
    var fs := front + [last];
    assert fs[|front|] == last;
    if Declares(front, c) {
      var i :| 0 <= i < |front| && front[i].column == c;
      assert fs[i].column == c;
    }
  }

  lemma {:induction false} FilterMapKeys(fs: seq<Declared>, c: string)
    ensures c in FilterMap(fs) <==> Declares(fs, c)
  {
    if fs != [] {
      var front, last := fs[..|fs| - 1], fs[|fs| - 1];
      FilterMapKeys(front, c);
      DeclaresSplits(front, last, c);
      assert fs == front + [last];
    }
  }

  lemma {:induction false} DistinctExtends(front: seq<Declared>, last: Declared)
    requires DistinctColumns(front)
    ensures DistinctColumns(front + [last]) <==> !Declares(front, last.column)
  {
    var fs := front + [last];
    assert fs[|front|] == last && forall i :: 0 <= i < |front| ==> fs[i] == front[i];
    if Declares(front, last.column) {
      var i :| 0 <= i < |front| && front[i].column == last.column;
      assert fs[i].column == fs[|front|].column;
    }
  }

  lemma {:induction false} FilterMapSize(fs: seq<Declared>)
    requires DistinctColumns(fs)
    ensures |FilterMap(fs)| == |fs|
  {
    if fs != [] {
      var front, last := fs[..|fs| - 1], fs[|fs| - 1];
      FilterMapSize(front);
      assert fs == front + [last];
      DistinctExtends(front, last);
      FilterMapKeys(front, last.column);
    }
  }

  lemma {:induction false} FilterMapValue(fs: seq<Declared>, i: nat)
    requires DistinctColumns(fs) && i < |fs|
    ensures fs[i].column in FilterMap(fs) && FilterMap(fs)[fs[i].column] == fs[i].operand
  {
    if i < |fs| - 1 {
      FilterMapValue(fs[..|fs| - 1], i);
    }
  }

  lemma {:induction false} FilterMapHolds(fs: seq<Declared>)
    requires DistinctColumns(fs)
    ensures forall c :: c in FilterMap(fs) <==> Declares(fs, c)
    ensures forall i :: 0 <= i < |fs| ==> fs[i].column in FilterMap(fs) && FilterMap(fs)[fs[i].column] == fs[i].operand
  {
    forall c
      ensures c in FilterMap(fs) <==> Declares(fs, c)
    {
      FilterMapKeys(fs, c);
    }
    forall i | 0 <= i < |fs|
      ensures fs[i].column in FilterMap(fs) && FilterMap(fs)[fs[i].column] == fs[i].operand
    {
      FilterMapValue(fs, i);
    }
  }

  /** The builder these calls leave while there is no error. */
  ghost predicate Holds(b: Builder, calls: seq<Call>) {
    && b.err.None?
    && b.columns == AllColumns(calls)
    && b.filters == FilterMap(AllFilters(calls))
    && b.limit == LastLimit(calls)
  }

  lemma {:induction false} FirstBadIs(names: seq<string>)
    ensures FirstBad(names).None? <==> AllSafe(names)
  {
    if names != [] {
      FirstBadIs(names[1..]);
      assert forall i :: 1 <= i < |names| ==> names[i] == names[1..][i - 1];
    }
  }

  lemma {:induction false} ColumnsAccepted(b: Builder, before: seq<string>, added: seq<string>)
    requires b.columns == before && AllSafe(before)
    ensures CallError(b, Columns(added)).None? <==> AllSafe(before + added) && |before + added| <= MAX_COLUMNS
  {
    FirstBadIs(added);
    var all := before + added;
    assert forall i :: 0 <= i < |added| ==> all[|before| + i] == added[i];
  }

  lemma {:induction false} FilterAccepted(b: Builder, before: seq<Declared>, f: Declared)
    requires b.filters == FilterMap(before) && AllWellFormed(before) && DistinctColumns(before) && |before| <= MAX_FILTERS
    ensures FilterError(b, f.column).None? <==>
              D.SafeName(f.column) && DistinctColumns(before + [f]) && |before + [f]| <= MAX_FILTERS
    ensures FilterMap(before + [f]) == FilterMap(before)[f.column := f.operand]
  {
    FilterMapKeys(before, f.column);
    FilterMapSize(before);
    DistinctExtends(before, f);
    var all := before + [f];
    assert all[..|before|] == before && all[|before|] == f;
  }

  lemma {:induction false} WellFormedExtends(before: seq<Declared>, f: Declared)
    requires AllWellFormed(before)
    ensures AllWellFormed(before + [f]) <==> WellFormed(f)
  {
    assert (before + [f])[|before|] == f;
  }

  lemma {:induction false} OneMore(calls: seq<Call>, call: Call)
    ensures AllColumns(calls + [call]) == AllColumns(calls) + ColumnsOf(call)
    ensures AllFilters(calls + [call]) == AllFilters(calls) + FiltersOf(call)
    ensures LastLimit(calls + [call]) == if call.Limit? then call.limit else LastLimit(calls)
  {
    var all := calls + [call];
    assert all[..|calls|] == calls && all[|calls|] == call;
  }

  lemma {:induction false} ColumnsCall(b: Builder, calls: seq<Call>, call: Call)
    requires Holds(b, calls) && Admissible(calls) && FiltersOf(call) == []
    ensures CallError(b, call).None? <==> Admissible(calls + [call])
    ensures CallError(b, call).None? ==> Holds(Effect(b, call), calls + [call])
  {
    OneMore(calls, call);
    assert AllFilters(calls) + [] == AllFilters(calls);
    if call.Columns? {
      ColumnsAccepted(b, AllColumns(calls), call.columns);
    } else {
      assert AllColumns(calls) + [] == AllColumns(calls);
    }
  }

  lemma {:induction false} FilterCallError(b: Builder, call: Call, f: Declared)
    requires FiltersOf(call) == [f]
    ensures CallError(b, call).None? <==> WellFormed(f) && FilterError(b, f.column).None?
    ensures Effect(b, call) == b.(filters := b.filters[f.column := f.operand])
  {
    assert f == FiltersOf(call)[0];
  }

  lemma {:induction false} FilterCall(b: Builder, calls: seq<Call>, call: Call, f: Declared)
    requires Holds(b, calls) && Admissible(calls) && FiltersOf(call) == [f]
    ensures CallError(b, call).None? <==> Admissible(calls + [call])
    ensures CallError(b, call).None? ==> Holds(Effect(b, call), calls + [call])
  {
    OneMore(calls, call);
    assert AllColumns(calls) + [] == AllColumns(calls);
    FilterCallError(b, call, f);
    FilterAccepted(b, AllFilters(calls), f);
    WellFormedExtends(AllFilters(calls), f);
  }

  /** One more call: it is refused exactly when the whole sequence is no longer admissible. */
  lemma {:induction false} CallAccepted(b: Builder, calls: seq<Call>, call: Call)
    requires Holds(b, calls) && Admissible(calls)
    ensures CallError(b, call).None? <==> Admissible(calls + [call])
    ensures CallError(b, call).None? ==> Holds(Effect(b, call), calls + [call])
  {
    if FiltersOf(call) == [] {
      ColumnsCall(b, calls, call);
    } else {
      FilterCall(b, calls, call, FiltersOf(call)[0]);
    }
  }

  /** Nothing that comes later makes an inadmissible sequence admissible. */
  lemma {:induction false} AdmissiblePrefix(calls: seq<Call>, call: Call)
    requires Admissible(calls + [call])
    ensures Admissible(calls)
  {
    var all := calls + [call];
    assert all[..|calls|] == calls && all[|calls|] == call;
    assert AllColumns(all)[..|AllColumns(calls)|] == AllColumns(calls);
    assert AllFilters(all)[..|AllFilters(calls)|] == AllFilters(calls);
    assert forall i :: 0 <= i < |AllColumns(calls)| ==> AllColumns(all)[i] == AllColumns(calls)[i];
    assert forall i :: 0 <= i < |AllFilters(calls)| ==> AllFilters(all)[i] == AllFilters(calls)[i];
  }

  /** The builder is without error exactly when table and calls are admissible, and then holds exactly what they say. */
  lemma {:induction false} BuiltExactly(dependencyFailed: bool, table: string, calls: seq<Call>)
    ensures var b := Built(Started(dependencyFailed, table), calls);
            && (b.err.None? <==> !dependencyFailed && D.SafeName(table) && Admissible(calls))
            && (b.err.None? ==> Holds(b, calls))
  {
    if calls != [] {
      var front, call := calls[..|calls| - 1], calls[|calls| - 1];
      assert calls == front + [call];
      BuiltExactly(dependencyFailed, table, front);
      var b := Built(Started(dependencyFailed, table), front);
      if b.err.None? {
        CallAccepted(b, front, call);
      } else if Admissible(calls) {
        AdmissiblePrefix(front, call);
      }
    }
  }

  /** The error kept is that of the first refused call. */
  lemma {:induction false} FirstErrorStays(b: Builder, calls: seq<Call>, more: seq<Call>)
    requires Built(b, calls).err.Some?
    ensures Built(b, calls + more) == Built(b, calls)
    decreases |more|
  {
    if more == [] {
      assert calls + more == calls;
    } else {
      var front := more[..|more| - 1];
      FirstErrorStays(b, calls, front);
      assert (calls + more)[..|calls + more| - 1] == calls + front;
    }
  }

  // ---------------------------------------------------------------- the statement's filters

  function ValuesOf(o: Operand): seq<D.Value> {
    match o case Scalar(v) => [v] case Values(vs) => vs
  }

  function Listed(filters: map<string, Operand>, columns: seq<string>): (fs: seq<D.Filter>)
    requires forall c :: c in columns ==> c in filters
    ensures |fs| == |columns|
    ensures forall i :: 0 <= i < |fs| ==> fs[i] == D.Filter(columns[i], ValuesOf(filters[columns[i]]))
  {
    seq(|columns|, i requires 0 <= i < |columns| => D.Filter(columns[i], ValuesOf(filters[columns[i]])))
  }

  /** In column order, whatever order the map gives its keys in. */
  method FiltersToSelect(filters: map<string, Operand>) returns (out: seq<D.Filter>)
    ensures out == Listed(filters, SortedList(filters.Keys))
  {
    var cols: seq<string> := [];
    var keys := filters.Keys;
    while keys != {}
      invariant keys <= filters.Keys
      invariant forall k :: k in cols <==> k in filters && k !in keys
      invariant forall i, j :: 0 <= i < j < |cols| ==> cols[i] != cols[j]
      decreases |keys|
    {
      var k :| k in keys;
      cols, keys := cols + [k], keys - {k};
    }
    SortLists(cols, filters.Keys);
    ListUnique(Sort(cols), SortedList(filters.Keys), filters.Keys);
    cols := Sort(cols);
    out := [];
    for i := 0 to |cols|
      invariant out == Listed(filters, cols[..i])
    {
      out := out + [D.Filter(cols[i], ValuesOf(filters[cols[i]]))];
    }
    assert cols[..|cols|] == cols;
  }

  /** The listed filters say of a row exactly what the calls asked for. */
  lemma {:induction false} ListedMeansCalls(row: E.Row, calls: seq<Call>)
    requires Admissible(calls)
    ensures var filters := FilterMap(AllFilters(calls));
            E.Wanted(row, Listed(filters, SortedList(filters.Keys))) <==>
              forall i :: 0 <= i < |AllFilters(calls)| ==>
                var f := AllFilters(calls)[i]; f.column in row && row[f.column] in ValuesOf(f.operand)
  {
    var fs := AllFilters(calls);
    var filters := FilterMap(fs);
    var cols := SortedList(filters.Keys);
    var listed := Listed(filters, cols);
    FilterMapHolds(fs);
    if E.Wanted(row, listed) {
      forall i | 0 <= i < |fs|
        ensures fs[i].column in row && row[fs[i].column] in ValuesOf(fs[i].operand)
      {
        assert fs[i].column in cols;
        var k :| 0 <= k < |cols| && cols[k] == fs[i].column;
        assert listed[k].column == fs[i].column;
      }
    }
    if forall i :: 0 <= i < |fs| ==> fs[i].column in row && row[fs[i].column] in ValuesOf(fs[i].operand) {
      forall k | 0 <= k < |listed|
        ensures listed[k].column in row && row[listed[k].column] in listed[k].values
      {
        assert cols[k] in filters;
        assert Declares(fs, cols[k]);
        var i :| 0 <= i < |fs| && fs[i].column == cols[k];
      }
    }
  }

  lemma {:induction false} ListedIsSafe(fs: seq<Declared>)
    requires AllWellFormed(fs) && DistinctColumns(fs)
    ensures var listed := Listed(FilterMap(fs), SortedList(FilterMap(fs).Keys));
            D.AllHaveValues(listed) && forall k :: 0 <= k < |listed| ==> D.SafeName(listed[k].column)
  {
    var filters := FilterMap(fs);
    var cols := SortedList(filters.Keys);
    FilterMapHolds(fs);
    forall k | 0 <= k < |cols|
      ensures D.SafeName(cols[k]) && ValuesOf(filters[cols[k]]) != []
    {
      assert cols[k] in filters && Declares(fs, cols[k]);
      var i :| 0 <= i < |fs| && fs[i].column == cols[k];
      assert WellFormed(fs[i]);
    }
  }

  /** A builder without error and with a column never fails to become a statement on a well-named relation. */
  lemma {:induction false} AcceptedIsBuildable(dependencyFailed: bool, table: string, calls: seq<Call>, schema: string, physical: string)
    requires Built(Started(dependencyFailed, table), calls).err.None?
    requires D.SafeName(schema) && D.SafeName(physical)
    ensures var b := Built(Started(dependencyFailed, table), calls);
            D.Buildable(D.Select(schema, physical, b.columns, Listed(b.filters, SortedList(b.filters.Keys)), b.limit))
            <==> AllColumns(calls) != []
  {
    BuiltExactly(dependencyFailed, table, calls);
    ListedIsSafe(AllFilters(calls));
  }
}
