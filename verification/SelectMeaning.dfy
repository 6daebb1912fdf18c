/** Reading the composed statement back, and what executing it returns. */
module SelectMeaning {
  import opened Wrappers
  import opened Sequences
  import opened DecimalText
  import opened DynamicSelect

  /** A predicate as it reads: a column compared with count parameters, numbered from first on. */
  datatype Compared = Compared(column: string, first: nat, count: nat)

  datatype Reading = Reading(schema: string, table: string, columns: seq<string>, compared: seq<Compared>, limit: nat)

  // ---------------------------------------------------------------- the reader

  function Eat(prefix: string, t: string): Option<string> {
    if prefix <= t then Some(t[|prefix|..]) else None
  }

  function UntilQuote(t: string): (n: nat)
    ensures n <= |t|
  {
    if t == "" || t[0] == '"' then 0 else 1 + UntilQuote(t[1..])
  }

  function ReadName(t: string): (r: Option<(string, string)>)
    ensures r.Some? ==> |r.value.1| < |t|
  {
    if t == "" || t[0] != '"' then None
    else
      var n := UntilQuote(t[1..]);
      if 1 + n == |t| then None else Some((t[1..1 + n], t[2 + n..]))
  }

  function ReadNames(t: string): Option<(seq<string>, string)>
    decreases |t|
  {
    var (name, rest) :- ReadName(t);
    match Eat(", ", rest)
    case None => Some(([name], rest))
    case Some(more) =>
      var (names, last) :- ReadNames(more);
      Some(([name] + names, last))
  }

  function DigitRun(t: string): (n: nat)
    ensures n <= |t| && AllDigits(t[..n])
  {
    if t == "" || !IsDigit(t[0]) then 0
    else
      var n := 1 + DigitRun(t[1..]);
      assert t[..n] == [t[0]] + t[1..][..n - 1];
      n
  }

  function ReadNumber(t: string): (r: Option<(nat, string)>)
    ensures r.Some? ==> |r.value.1| < |t|
  {
    var n := DigitRun(t);
    if n == 0 then None else Some((DecimalText.Value(t[..n]), t[n..]))
  }

  /** "$n", for exactly the next n. */
  function ReadPlaceholder(t: string, n: nat): (r: Option<string>)
    ensures r.Some? ==> |r.value| < |t|
  {
    var rest :- Eat("$", t);
    var (k, more) :- ReadNumber(rest);
    if k == n then Some(more) else None
  }

  function ReadPlaceholders(t: string, n: nat): (r: Option<(nat, string)>)
    ensures r.Some? ==> |r.value.1| < |t|
    decreases |t|
  {
    var rest :- ReadPlaceholder(t, n);
    match Eat(", ", rest)
    case None => Some((1, rest))
    case Some(more) =>
      var (count, last) :- ReadPlaceholders(more, n + 1);
      Some((1 + count, last))
  }

  /** One predicate. The detour through ReadAfter keeps proofs from unfolding it unasked; see ReadPredicateIs. */
  function ReadPredicate(t: string, n: nat): (r: Option<(Compared, string)>)
    ensures r.Some? ==> |r.value.1| < |t|
  {
    ReadAfter(t, n, |t| + 2)
  }

  function ReadAfter(t: string, n: nat, steps: nat): (r: Option<(Compared, string)>)
    ensures r.Some? ==> |r.value.1| < |t|
    decreases steps
  {
    if steps > 0 then ReadAfter(t, n, steps - 1) else ReadOne(t, n)
  }

  lemma {:induction false} ReadPredicateIs(t: string, n: nat, steps: nat)
    ensures ReadAfter(t, n, steps) == ReadOne(t, n)
    decreases steps
  {
    if steps > 0 {
      ReadPredicateIs(t, n, steps - 1);
    }
  }

  function ReadOne(t: string, n: nat): (r: Option<(Compared, string)>)
    ensures r.Some? ==> |r.value.1| < |t|
  {
    var (column, rest) :- ReadName(t);
    match Eat(" = ", rest)
    case Some(more) =>
      var last :- ReadPlaceholder(more, n);
      Some((Compared(column, n, 1), last))
    case None =>
      var more :- Eat(" IN (", rest);
      var (count, close) :- ReadPlaceholders(more, n);
      var last :- Eat(")", close);
      Some((Compared(column, n, count), last))
  }

  function ReadPredicates(t: string, lead: string, n: nat): Option<(seq<Compared>, string)>
    decreases |t|
  {
    match Eat(lead, t)
    case None => Some(([], t))
    case Some(rest) =>
      var (c, more) :- ReadPredicate(rest, n);
      var (cs, last) :- ReadPredicates(more, " AND ", n + c.count);
      Some(([c] + cs, last))
  }

  function ReadLimit(t: string): Option<nat> {
    var rest :- Eat(" LIMIT ", t);
    var (limit, last) :- ReadNumber(rest);
    if last == "" then Some(limit) else None
  }

  function ReadWhere(t: string): Option<(seq<Compared>, nat)> {
    var (compared, rest) :- ReadPredicates(t, " WHERE ", 1);
    var limit :- ReadLimit(rest);
    Some((compared, limit))
  }

  function ReadTable(t: string): Option<(string, (seq<Compared>, nat))> {
    var (table, rest) :- ReadName(t);
    var (compared, limit) :- ReadWhere(rest);
    Some((table, (compared, limit)))
  }

  function ReadRelation(t: string): Option<(string, string, (seq<Compared>, nat))> {
    var (schema, rest) :- ReadName(t);
    var more :- Eat(".", rest);
    var (table, conditions) :- ReadTable(more);
    Some((schema, table, conditions))
  }

  function ReadSelect(t: string): Option<Reading> {
    var t1 :- Eat("SELECT ", t);
    var (columns, t2) :- ReadNames(t1);
    var t3 :- Eat(" FROM ", t2);
    var (schema, table, conditions) :- ReadRelation(t3);
    Some(Reading(schema, table, columns, conditions.0, conditions.1))
  }

  // ---------------------------------------------------------------- pieces read back

  lemma EatsPrefix(prefix: string, rest: string)
    ensures Eat(prefix, prefix + rest) == Some(rest)
  {
  }

  lemma EatDiffers(prefix: string, t: string, k: nat)
    requires k < |prefix| && k < |t| && prefix[k] != t[k]
    ensures Eat(prefix, t) == None
  {
  }

  lemma {:induction false} SafeSanitized(name: string)
    requires forall i :: 0 <= i < |name| ==> name[i] != '"' && name[i] != '\0'
    ensures Escape(name) == name
  {
    if name != "" {
      SafeSanitized(name[1..]);
    }
  }

  lemma {:induction false} UntilQuoteStops(name: string, rest: string)
    requires forall i :: 0 <= i < |name| ==> name[i] != '"'
    ensures UntilQuote(name + ("\"" + rest)) == |name|
  {
    if name == "" {
      assert name + ("\"" + rest) == "\"" + rest;
    } else {
      assert (name + ("\"" + rest))[1..] == name[1..] + ("\"" + rest);
      UntilQuoteStops(name[1..], rest);
    }
  }

  lemma {:induction false} NameReads(name: string, rest: string)
    requires SafeName(name)
    ensures ReadName(Sanitize(name) + rest) == Some((name, rest))
  {
    SafeSanitized(name);
    var t := Sanitize(name) + rest;
    assert t == "\"" + (name + ("\"" + rest));
    var u := name + ("\"" + rest);
    assert t[1..] == u;
    UntilQuoteStops(name, rest);
    assert u[..|name|] == name && u[|name| + 1..] == rest;
    assert t[1..1 + |name|] == u[..|name|] && t[2 + |name|..] == u[|name| + 1..];
  }

  /** Text that does not continue a list. */
  predicate NoComma(t: string) {
    t == "" || t[0] != ','
  }

  lemma {:induction false} NamesRead(names: seq<string>, rest: string)
    requires names != [] && (forall i :: 0 <= i < |names| ==> SafeName(names[i])) && NoComma(rest)
    ensures ReadNames(ColumnsText(names) + rest) == Some((names, rest))
  {
    if |names| == 1 {
      NameReads(names[0], rest);
      NoCommaStops(rest);
      assert names == [names[0]];
    } else {
      var more := ColumnsText(names[1..]) + rest;
      assert ColumnsText(names) + rest == Sanitize(names[0]) + (", " + more);
      NameReads(names[0], ", " + more);
      EatsPrefix(", ", more);
      NamesRead(names[1..], rest);
      assert names == [names[0]] + names[1..];
    }
  }

  lemma NoCommaStops(rest: string)
    requires NoComma(rest)
    ensures Eat(", ", rest) == None
  {
    if rest != "" {
      EatDiffers(", ", rest, 0);
    }
  }

  predicate NoDigit(t: string) {
    t == "" || !IsDigit(t[0])
  }

  lemma {:induction false} DigitRunStops(digits: string, rest: string)
    requires AllDigits(digits) && NoDigit(rest)
    ensures DigitRun(digits + rest) == |digits|
  {
    if digits == "" {
      assert digits + rest == rest;
    } else {
      assert (digits + rest)[1..] == digits[1..] + rest;
      DigitRunStops(digits[1..], rest);
    }
  }

  lemma {:induction false} NumberReads(n: nat, rest: string)
    requires NoDigit(rest)
    ensures ReadNumber(Print(n) + rest) == Some((n, rest))
  {
    DigitRunStops(Print(n), rest);
    PrintDenotes(n);
    assert (Print(n) + rest)[..|Print(n)|] == Print(n);
  }

  lemma {:induction false} PlaceholderReads(n: nat, rest: string)
    requires NoDigit(rest)
    ensures ReadPlaceholder(Placeholder(n) + rest, n) == Some(rest)
  {
    assert Placeholder(n) + rest == "$" + (Print(n) + rest);
    EatsPrefix("$", Print(n) + rest);
    NumberReads(n, rest);
  }

  lemma {:induction false} PlaceholdersSplit(n: nat, count: nat, rest: string)
    requires count > 1
    ensures Placeholders(n, count) + rest == Placeholder(n) + (", " + (Placeholders(n + 1, count - 1) + rest))
  {
    Regroup(Placeholder(n), ", " + Placeholders(n + 1, count - 1), rest);
    Regroup(", ", Placeholders(n + 1, count - 1), rest);
  }

  lemma {:induction false} PlaceholderThenMore(t: string, n: nat, rest: string, more: string, count: nat, last: string)
    requires ReadPlaceholder(t, n) == Some(rest) && Eat(", ", rest) == Some(more)
    requires ReadPlaceholders(more, n + 1) == Some((count, last))
    ensures ReadPlaceholders(t, n) == Some((1 + count, last))
  {
  }

  lemma {:induction false} LastPlaceholder(t: string, n: nat, rest: string)
    requires ReadPlaceholder(t, n) == Some(rest) && Eat(", ", rest).None?
    ensures ReadPlaceholders(t, n) == Some((1, rest))
  {
  }

  lemma {:induction false} PlaceholdersRead(n: nat, count: nat, rest: string)
    requires count > 0 && NoDigit(rest) && NoComma(rest)
    ensures ReadPlaceholders(Placeholders(n, count) + rest, n) == Some((count, rest))
    decreases count
  {
    if count == 1 {
      PlaceholderReads(n, rest);
      NoCommaStops(rest);
      LastPlaceholder(Placeholder(n) + rest, n, rest);
    } else {
      var more := Placeholders(n + 1, count - 1) + rest;
      PlaceholdersSplit(n, count, rest);
      PlaceholderReads(n, ", " + more);
      EatsPrefix(", ", more);
      PlaceholdersRead(n + 1, count - 1, rest);
      PlaceholderThenMore(Placeholder(n) + (", " + more), n, ", " + more, more, count - 1, rest);
    }
  }

  lemma {:induction false} PredicateReads(f: Filter, n: nat, rest: string)
    requires SafeName(f.column) && f.values != [] && NoDigit(rest)
    ensures ReadPredicate(PredicateText(f, n) + rest, n) == Some((Compared(f.column, n, |f.values|), rest))
  {
    ReadPredicateIs(PredicateText(f, n) + rest, n, |PredicateText(f, n) + rest| + 2);
    if |f.values| == 1 {
      EqualityReads(f.column, n, rest);
    } else {
      InReads(f.column, n, |f.values|, rest);
    }
  }

  lemma {:induction false} EqualityReads(column: string, n: nat, rest: string)
    requires SafeName(column) && NoDigit(rest)
    ensures ReadOne((Sanitize(column) + (" = " + Placeholder(n))) + rest, n) == Some((Compared(column, n, 1), rest))
  {
    var more := Placeholder(n) + rest;
    assert (Sanitize(column) + (" = " + Placeholder(n))) + rest == Sanitize(column) + (" = " + more);
    NameReads(column, " = " + more);
    EatsPrefix(" = ", more);
    PlaceholderReads(n, rest);
  }

  lemma {:induction false} InReads(column: string, n: nat, count: nat, rest: string)
    requires SafeName(column) && count > 0
    ensures ReadOne((Sanitize(column) + (" IN (" + (Placeholders(n, count) + ")"))) + rest, n)
            == Some((Compared(column, n, count), rest))
  {
    var close := ")" + rest;
    var more := Placeholders(n, count) + close;
    assert (Sanitize(column) + (" IN (" + (Placeholders(n, count) + ")"))) + rest == Sanitize(column) + (" IN (" + more);
    NameReads(column, " IN (" + more);
    EatDiffers(" = ", " IN (" + more, 1);
    EatsPrefix(" IN (", more);
    PlaceholdersRead(n, count, close);
    EatsPrefix(")", rest);
  }

  /** The predicates of a filter list whose first parameter is number first. */
  function Comparisons(filters: seq<Filter>, first: nat): seq<Compared> {
    if filters == [] then []
    else [Compared(filters[0].column, first, |filters[0].values|)] + Comparisons(filters[1..], first + |filters[0].values|)
  }

  /** " WHERE " and " AND " are told from " LIMIT " by their second character. */
  predicate IsLead(lead: string) {
    |lead| > 1 && lead[0] == ' ' && lead[1] != 'L'
  }

  predicate IsTail(rest: string) {
    |rest| > 1 && rest[0] == ' ' && rest[1] == 'L'
  }

  lemma {:induction false} FiltersSplit(filters: seq<Filter>, lead: string, n: nat, rest: string)
    requires filters != []
    ensures FiltersText(filters, lead, n) + rest ==
              lead + (PredicateText(filters[0], n) + (FiltersText(filters[1..], " AND ", n + |filters[0].values|) + rest))
  {
    var more := FiltersText(filters[1..], " AND ", n + |filters[0].values|);
    Regroup(lead, PredicateText(filters[0], n) + more, rest);
    Regroup(PredicateText(filters[0], n), more, rest);
  }

  lemma {:induction false} PredicateThenMore(t: string, lead: string, n: nat, rest: string, c: Compared, more: string,
                                             cs: seq<Compared>, last: string)
    requires Eat(lead, t) == Some(rest) && ReadPredicate(rest, n) == Some((c, more))
    requires ReadPredicates(more, " AND ", n + c.count) == Some((cs, last))
    ensures ReadPredicates(t, lead, n) == Some(([c] + cs, last))
  {
  }

  /** What follows a predicate starts with a space. */
  lemma {:induction false} FiltersFront(filters: seq<Filter>, n: nat, rest: string)
    requires IsTail(rest)
    ensures var t := FiltersText(filters, " AND ", n) + rest; t != "" && t[0] == ' '
  {
    if filters != [] {
      FiltersSplit(filters, " AND ", n, rest);
    }
  }

  lemma {:induction false} NoPredicates(lead: string, n: nat, rest: string)
    requires IsLead(lead) && IsTail(rest)
    ensures ReadPredicates("" + rest, lead, n) == Some(([], rest))
  {
    assert "" + rest == rest;
    EatDiffers(lead, rest, 1);
  }

  lemma {:induction false} PredicatesRead(filters: seq<Filter>, lead: string, n: nat, rest: string)
    requires IsLead(lead) && IsTail(rest)
    requires AllHaveValues(filters) && (forall i :: 0 <= i < |filters| ==> SafeName(filters[i].column))
    ensures ReadPredicates(FiltersText(filters, lead, n) + rest, lead, n) == Some((Comparisons(filters, n), rest))
  {
    if filters == [] {
      NoPredicates(lead, n, rest);
    } else {
      var f := filters[0];
      var next := n + |f.values|;
      PredicatesRead(filters[1..], " AND ", next, rest);
      FiltersFront(filters[1..], next, rest);
      PredicateStep(f, lead, n, FiltersText(filters[1..], " AND ", next) + rest, Comparisons(filters[1..], next), rest);
      FiltersSplit(filters, lead, n, rest);
    }
  }

  lemma {:induction false} PredicateStep(f: Filter, lead: string, n: nat, more: string, cs: seq<Compared>, rest: string)
    requires SafeName(f.column) && f.values != [] && NoDigit(more)
    requires ReadPredicates(more, " AND ", n + |f.values|) == Some((cs, rest))
    ensures ReadPredicates(lead + (PredicateText(f, n) + more), lead, n) == Some(([Compared(f.column, n, |f.values|)] + cs, rest))
  {
    PredicateReads(f, n, more);
    OnePredicateReads(PredicateText(f, n), Compared(f.column, n, |f.values|), lead, n, more, cs, rest);
  }

  lemma {:induction false} OnePredicateReads(text: string, c: Compared, lead: string, n: nat, more: string,
                                             cs: seq<Compared>, rest: string)
    requires ReadPredicate(text + more, n) == Some((c, more))
    requires ReadPredicates(more, " AND ", n + c.count) == Some((cs, rest))
    ensures ReadPredicates(lead + (text + more), lead, n) == Some(([c] + cs, rest))
  {
    EatsPrefix(lead, text + more);
    PredicateThenMore(lead + (text + more), lead, n, text + more, c, more, cs, rest);
  }

  lemma {:induction false} LimitReads(n: nat)
    ensures ReadLimit(" LIMIT " + Print(n)) == Some(n)
  {
    EatsPrefix(" LIMIT ", Print(n));
    NumberReads(n, "");
    assert Print(n) + "" == Print(n);
  }

  lemma {:induction false} WhereReads(filters: seq<Filter>, tail: string, limit: nat)
    requires AllHaveValues(filters) && (forall i :: 0 <= i < |filters| ==> SafeName(filters[i].column))
    requires IsTail(tail) && ReadLimit(tail) == Some(limit)
    ensures ReadWhere(FiltersText(filters, " WHERE ", 1) + tail) == Some((Comparisons(filters, 1), limit))
  {
    PredicatesRead(filters, " WHERE ", 1, tail);
  }

  lemma {:induction false} TableReads(table: string, rest: string, conditions: (seq<Compared>, nat))
    requires SafeName(table) && ReadWhere(rest) == Some(conditions)
    ensures ReadTable(Sanitize(table) + rest) == Some((table, conditions))
  {
    NameReads(table, rest);
  }

  lemma {:induction false} RelationReads(schema: string, table: string, rest: string, conditions: (seq<Compared>, nat))
    requires SafeName(schema) && ReadTable(rest) == Some((table, conditions))
    ensures ReadRelation(Sanitize(schema) + ("." + rest)) == Some((schema, table, conditions))
  {
    NameReads(schema, "." + rest);
    EatsPrefix(".", rest);
  }

  lemma {:induction false} SelectReads(columns: seq<string>, rest: string, schema: string, table: string, conditions: (seq<Compared>, nat))
    requires columns != [] && (forall i :: 0 <= i < |columns| ==> SafeName(columns[i]))
    requires ReadRelation(rest) == Some((schema, table, conditions))
    ensures ReadSelect("SELECT " + (ColumnsText(columns) + (" FROM " + rest)))
            == Some(Reading(schema, table, columns, conditions.0, conditions.1))
  {
    EatsPrefix("SELECT ", ColumnsText(columns) + (" FROM " + rest));
    NamesRead(columns, " FROM " + rest);
    EatsPrefix(" FROM ", rest);
  }

  /** The composed text reads back as exactly what was asked, with one row more than the limit. */
  lemma {:induction false} StatementReadsBack(q: Select)
    requires Buildable(q)
    ensures ReadSelect(SelectText(q))
            == Some(Reading(q.schema, q.table, q.columns, Comparisons(q.filters, 1), Clamped(q.limit) + 1))
  {
    var limit := Clamped(q.limit) + 1;
    var conditions := (Comparisons(q.filters, 1), limit);
    var t7 := " LIMIT " + Print(limit);
    var t6 := FiltersText(q.filters, " WHERE ", 1) + t7;
    LimitReads(limit);
    WhereReads(q.filters, t7, limit);
    TableReads(q.table, t6, conditions);
    RelationReads(q.schema, q.table, Sanitize(q.table) + t6, conditions);
    SelectReads(q.columns, Sanitize(q.schema) + ("." + (Sanitize(q.table) + t6)), q.schema, q.table, conditions);
  }
}
