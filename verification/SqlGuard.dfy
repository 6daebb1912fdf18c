/** checkCrossModuleSQL: the two identifier patterns, FindAll's leftmost non-overlapping search, and the verdict. */
module SqlGuard {
  import opened Wrappers
  import opened SqlScanner
  import opened SqlPlaceholder

  // ---------------------------------------------------------------- (?i) character classes

  predicate IsHexFold(c: char) {
    '0' <= c <= '9' || 'a' <= c <= 'f' || 'A' <= c <= 'F'
  }

  /** [a-z0-9] under (?i); Unicode folds the long s and the Kelvin sign into it. */
  predicate IsAlnumFold(c: char) {
    'a' <= c <= 'z' || 'A' <= c <= 'Z' || '0' <= c <= '9' || c == '\U{017F}' || c == '\U{212A}'
  }

  predicate IsWordFold(c: char) {
    IsAlnumFold(c) || c == '_'
  }

  predicate IsLetter(c: char, lower: char)
    requires 'a' <= lower <= 'z'
  {
    c == lower || c as int == lower as int - 32
  }

  /** strings.ToLower on the ASCII text a match captures. */
  function Lower(s: string): (t: string)
    ensures |t| == |s|
  {
    seq(|s|, i requires 0 <= i < |s| => if 'A' <= s[i] <= 'Z' then (s[i] as int + 32) as char else s[i])
  }

  /** m[0-9a-f]{32} at the front. */
  predicate MintedFold(t: string) {
    |t| >= 33 && IsLetter(t[0], 'm') && forall i :: 1 <= i < 33 ==> IsHexFold(t[i])
  }

  // ---------------------------------------------------------------- the patterns

  datatype Pattern = Table | Schema

  /** The captured part of a pattern at the front of t, with what must follow it. */
  predicate Body(p: Pattern, t: string) {
    match p
    case Table => MintedFold(t) && |t| > 33 && t[33] == '_'
    case Schema =>
      && |t| >= 37
      && IsLetter(t[0], 'm') && IsLetter(t[1], 'o') && IsLetter(t[2], 'd') && t[3] == '_'
      && MintedFold(t[4..])
      && (|t| == 37 || !IsWordFold(t[37]))
  }

  /** Where the module ID starts inside the captured part. */
  function IdOffset(p: Pattern): nat {
    match p case Table => 0 case Schema => 4
  }

  /** What may stand before: the start of the text, or a character outside the pattern's class. */
  predicate Boundary(p: Pattern, before: Option<char>) {
    before.None? || (match p case Table => !IsAlnumFold(before.value) case Schema => !IsWordFold(before.value))
  }

  function Preceding(t: string, q: nat): Option<char>
    requires q <= |t|
  {
    if q == 0 then None else Some(t[q - 1])
  }

  /** The pattern occurs with its captured part at q. */
  predicate At(p: Pattern, t: string, q: nat) {
    q <= |t| && Boundary(p, Preceding(t, q)) && Body(p, t[q..])
  }

  function WordRun(t: string): (n: nat)
    ensures n <= |t|
  {
    if t == "" || !IsWordFold(t[0]) then 0 else 1 + WordRun(t[1..])
  }

  /** The end of the match whose captured part is at q: a table name is taken whole, a schema takes one character more. */
  function MatchEnd(p: Pattern, t: string, q: nat): (end: nat)
    requires q <= |t| && Body(p, t[q..])
    ensures q < end <= |t|
  {
    match p
    case Table => q + 33 + WordRun(t[q + 33..])
    case Schema => if |t| == q + 37 then |t| else q + 38
  }

  /** Leftmost match starting at or after from: the text's start is tried before a guard character. */
  function Find(p: Pattern, t: string, from: nat): (q: Option<nat>)
    requires from <= |t|
    ensures q.Some? ==> At(p, t, q.value) && from <= q.value <= |t|
    decreases |t| - from
  {
    if from == 0 && Body(p, t[0..]) then Some(0)
    else if from == |t| then None
    else if Boundary(p, Some(t[from])) && Body(p, t[from + 1..]) then Some(from + 1)
    else Find(p, t, from + 1)
  }

  /** FindAllStringSubmatch: where the captured parts of successive matches start. */
  function FindAll(p: Pattern, t: string, from: nat): seq<nat>
    requires from <= |t|
    decreases |t| - from
  {
    match Find(p, t, from)
    case None => []
    case Some(q) => [q] + FindAll(p, t, MatchEnd(p, t, q))
  }

  function ModuleAt(p: Pattern, t: string, q: nat): string
    requires q + IdOffset(p) + 33 <= |t|
  {
    Lower(t[q + IdOffset(p)..q + IdOffset(p) + 33])
  }

  lemma {:induction false} FoundAreMatches(p: Pattern, t: string, from: nat, k: nat)
    requires from <= |t| && k < |FindAll(p, t, from)|
    ensures At(p, t, FindAll(p, t, from)[k])
    decreases |t| - from
  {
    var q := Find(p, t, from).value;
    if k > 0 {
      FoundAreMatches(p, t, MatchEnd(p, t, q), k - 1);
    }
  }

  /** Every match FindAll reports names the module's own ID. */
  ghost predicate AllOwn(p: Pattern, own: string, t: string) {
    forall k :: 0 <= k < |FindAll(p, t, 0)| ==> IsOwn(p, own, t, FindAll(p, t, 0)[k])
  }

  predicate IsOwn(p: Pattern, own: string, t: string, q: nat) {
    At(p, t, q) && ModuleAt(p, t, q) == own
  }

  ghost predicate Accepts(own: string, sql: string) {
    AllOwn(Table, own, Strip(sql)) && AllOwn(Schema, own, Strip(sql))
  }

  // ---------------------------------------------------------------- names, in any letter case

  /** A letter or digit, in either case, or one of the two characters Unicode folds into them. */
  predicate FoldsToAlnum(c: char) {
    c == '\U{017F}' || c == '\U{212A}' || Lower([c])[0] in "abcdefghijklmnopqrstuvwxyz0123456789"
  }

  lemma AlnumIs(c: char)
    ensures IsAlnumFold(c) <==> FoldsToAlnum(c)
  {
  }

  lemma {:induction false} MintedIsFolded(t: string)
    ensures MintedFold(t) <==> |t| >= 33 && Minted(Lower(t[..33]))
  {
    if |t| >= 33 {
      var id := Lower(t[..33]);
      forall i | 0 <= i < 33
        ensures id[i] == Lower(t)[i] && (IsHexFold(t[i]) <==> IsLowerHex(id[i])) && (IsLetter(t[i], 'm') <==> id[i] == 'm')
      {
      }
    }
  }

  /** A table name: a minted ID in any letter case and an underscore, not right after a letter or digit. */
  lemma {:induction false} TableAtExactly(t: string, q: nat)
    ensures At(Table, t, q) <==>
              && q + 34 <= |t| && Minted(Lower(t[q..q + 33])) && t[q + 33] == '_'
              && (q == 0 || !FoldsToAlnum(t[q - 1]))
  {
    if q <= |t| {
      MintedIsFolded(t[q..]);
      assert q + 33 <= |t| ==> t[q..][..33] == t[q..q + 33];
    }
    if q > 0 && q <= |t| {
      AlnumIs(t[q - 1]);
    }
  }

  lemma {:induction false} ModIsFolded(t: string)
    requires |t| >= 4
    ensures Lower(t[..4]) == "mod_" <==> IsLetter(t[0], 'm') && IsLetter(t[1], 'o') && IsLetter(t[2], 'd') && t[3] == '_'
  {
    var w := Lower(t[..4]);
    assert w == "mod_" <==> w[0] == 'm' && w[1] == 'o' && w[2] == 'd' && w[3] == '_';
  }

  /** A schema name: mod_ and a minted ID in any letter case, with no word character on either side. */
  lemma {:induction false} SchemaAtExactly(t: string, q: nat)
    ensures At(Schema, t, q) <==>
              && q + 37 <= |t| && Lower(t[q..q + 4]) == "mod_" && Minted(Lower(t[q + 4..q + 37]))
              && (q == 0 || !(FoldsToAlnum(t[q - 1]) || t[q - 1] == '_'))
              && (q + 37 == |t| || !(FoldsToAlnum(t[q + 37]) || t[q + 37] == '_'))
  {
    if q + 37 <= |t| {
      var u := t[q..];
      ModIsFolded(u);
      MintedIsFolded(u[4..]);
      assert u[..4] == t[q..q + 4] && u[4..][..33] == t[q + 4..q + 37];
      if q + 37 < |t| {
        assert u[37] == t[q + 37];
        AlnumIs(t[q + 37]);
      }
      if q > 0 {
        AlnumIs(t[q - 1]);
      }
    }
  }

  lemma {:induction false} LowerTwice(s: string)
    ensures Lower(Lower(s)) == Lower(s)
  {
  }

  lemma {:induction false} LowerSlice(t: string, a: nat, b: nat)
    requires a <= b <= |t|
    ensures Lower(t)[a..b] == Lower(t[a..b])
  {
  }

  lemma FoldKeepsKind(c: char)
    ensures var d := Lower([c])[0]; (FoldsToAlnum(d) <==> FoldsToAlnum(c)) && (d == '_' <==> c == '_')
  {
  }

  /** Letter case makes no difference to where a pattern occurs, nor to the module it names there. */
  lemma {:induction false} CaseIsIgnored(p: Pattern, t: string, q: nat)
    ensures At(p, Lower(t), q) <==> At(p, t, q)
    ensures At(p, t, q) ==> q + IdOffset(p) + 33 <= |t| && ModuleAt(p, Lower(t), q) == ModuleAt(p, t, q)
  {
    if q + IdOffset(p) + 33 <= |t| {
      LowerSlice(t, q + IdOffset(p), q + IdOffset(p) + 33);
      LowerTwice(t[q + IdOffset(p)..q + IdOffset(p) + 33]);
      LowerSlice(t, q, q + 4);
      LowerTwice(t[q..q + 4]);
    }
    match p
    case Table =>
      TableAtExactly(t, q);
      TableAtExactly(Lower(t), q);
      CharCase(t, q + 33);
      CharCase(t, q - 1);
    case Schema =>
      SchemaAtExactly(t, q);
      SchemaAtExactly(Lower(t), q);
      CharCase(t, q + 37);
      CharCase(t, q - 1);
  }

  lemma CharCase(t: string, i: int)
    ensures 0 <= i < |t| ==> (FoldsToAlnum(Lower(t)[i]) <==> FoldsToAlnum(t[i])) && (Lower(t)[i] == '_' <==> t[i] == '_')
  {
    if 0 <= i < |t| {
      FoldKeepsKind(t[i]);
    }
  }

  // ---------------------------------------------------------------- no match at all

  /** An empty result means the pattern occurs nowhere. */
  lemma {:induction false} NothingFound(p: Pattern, t: string, from: nat, q: nat)
    requires from <= |t| && Find(p, t, from).None? && (from < q || (from == 0 && q == 0))
    ensures !At(p, t, q)
    decreases |t| - from
  {
    if At(p, t, q) {
      assert t[0..] == t;
      if q > from + 1 {
        NothingFound(p, t, from + 1, q);
      }
    }
  }

  // ---------------------------------------------------------------- what FindAll finds, declaratively

  /** The leftmost non-overlapping occurrences: the guard character must lie past every earlier match. */
  ghost predicate Taken(p: Pattern, t: string, q: nat)
    decreases q
  {
    At(p, t, q) && forall q0: nat :: q0 < q && Taken(p, t, q0) ==> MatchEnd(p, t, q0) < q
  }

  lemma {:induction false} FindIsLeftmost(p: Pattern, t: string, from: nat, q: nat)
    requires from <= |t|
    requires At(p, t, q) && (from < q || (from == 0 && q == 0))
    ensures Find(p, t, from).Some? && Find(p, t, from).value <= q
    decreases |t| - from
  {
    if Find(p, t, from).None? {
      NothingFound(p, t, from, q);
    } else {
      NotBefore(p, t, from, q);
    }
  }

  lemma {:induction false} NotBefore(p: Pattern, t: string, from: nat, q: nat)
    requires from <= |t| && Find(p, t, from).Some?
    requires At(p, t, q) && (from < q || (from == 0 && q == 0))
    ensures Find(p, t, from).value <= q
    decreases |t| - from
  {
    assert t[0..] == t;
    if from + 1 < q && !(from == 0 && Body(p, t[0..])) && !(Boundary(p, Some(t[from])) && Body(p, t[from + 1..])) {
      NotBefore(p, t, from + 1, q);
    }
  }

  lemma {:induction false} FindStartsPast(p: Pattern, t: string, from: nat)
    requires from <= |t| && Find(p, t, from).Some?
    ensures var q := Find(p, t, from).value; from < q || (from == 0 && q == 0)
    decreases |t| - from
  {
    if !(from == 0 && Body(p, t[0..])) && from < |t| && !(Boundary(p, Some(t[from])) && Body(p, t[from + 1..])) {
      FindStartsPast(p, t, from + 1);
    }
  }

  /** From a point past every earlier match, FindAll reports exactly the occurrences taken from there on. */
  lemma {:induction false} FoundIsTaken(p: Pattern, t: string, from: nat, q: nat)
    requires from <= |t|
    requires forall q0: nat :: Taken(p, t, q0) && q0 < from ==> MatchEnd(p, t, q0) <= from
    requires forall q0: nat :: Taken(p, t, q0) && q0 == from ==> from == 0
    requires from < q || (from == 0 && q == 0)
    ensures q in FindAll(p, t, from) <==> Taken(p, t, q)
    decreases |t| - from
  {
    match Find(p, t, from)
    case None =>
      NothingFound(p, t, from, q);
    case Some(f) =>
      FindStartsPast(p, t, from);
      FrontIsTaken(p, t, from);
      var end := MatchEnd(p, t, f);
      if q < f {
        if At(p, t, q) {
          FindIsLeftmost(p, t, from, q);
        }
        FoundLater(p, t, end, q);
      } else if q > f {
        if q <= end {
          FoundLater(p, t, end, q);
        } else {
          NextTaken(p, t, from);
          FoundIsTaken(p, t, end, q);
        }
      }
  }

  lemma FrontIsTaken(p: Pattern, t: string, from: nat)
    requires from <= |t| && Find(p, t, from).Some?
    requires forall q0: nat :: Taken(p, t, q0) && q0 < from ==> MatchEnd(p, t, q0) <= from
    requires forall q0: nat :: Taken(p, t, q0) && q0 == from ==> from == 0
    ensures Taken(p, t, Find(p, t, from).value)
  {
    var f := Find(p, t, from).value;
    FindStartsPast(p, t, from);
    forall q0: nat | q0 < f && Taken(p, t, q0)
      ensures MatchEnd(p, t, q0) < f
    {
      if from < q0 || (from == 0 && q0 == 0) {
        FindIsLeftmost(p, t, from, q0);
      }
    }
  }

  /** After the match at the front, the next search point is again past every earlier match. */
  lemma NextTaken(p: Pattern, t: string, from: nat)
    requires from <= |t| && Find(p, t, from).Some? && Taken(p, t, Find(p, t, from).value)
    ensures var end := MatchEnd(p, t, Find(p, t, from).value);
            && (forall q0: nat :: Taken(p, t, q0) && q0 < end ==> MatchEnd(p, t, q0) <= end)
            && (forall q0: nat :: Taken(p, t, q0) ==> q0 != end)
  {
    var f := Find(p, t, from).value;
    var end := MatchEnd(p, t, f);
    forall q0: nat | Taken(p, t, q0)
      ensures q0 < end ==> MatchEnd(p, t, q0) <= end
      ensures q0 != end
    {
      if f < q0 {
        assert end < q0;
      }
    }
  }

  lemma {:induction false} FoundLater(p: Pattern, t: string, from: nat, q: nat)
    requires 0 < from <= |t| && q <= from
    ensures q !in FindAll(p, t, from)
    decreases |t| - from
  {
    if Find(p, t, from).Some? {
      FindStartsPast(p, t, from);
      var f := Find(p, t, from).value;
      FoundLater(p, t, MatchEnd(p, t, f), q);
    }
  }

  /** FindAll reports exactly the leftmost non-overlapping occurrences. */
  lemma FindAllIsTaken(p: Pattern, t: string, q: nat)
    ensures q in FindAll(p, t, 0) <==> Taken(p, t, q)
  {
    FoundIsTaken(p, t, 0, q);
  }

  lemma AllOwnIsTaken(p: Pattern, own: string, t: string)
    ensures AllOwn(p, own, t) <==> forall q: nat :: Taken(p, t, q) ==> IsOwn(p, own, t, q)
  {
    var found := FindAll(p, t, 0);
    if AllOwn(p, own, t) {
      forall q: nat | Taken(p, t, q)
        ensures IsOwn(p, own, t, q)
      {
        FindAllIsTaken(p, t, q);
        assert exists k :: 0 <= k < |found| && found[k] == q;
      }
    }
    if forall q: nat :: Taken(p, t, q) ==> IsOwn(p, own, t, q) {
      forall k | 0 <= k < |found|
        ensures IsOwn(p, own, t, found[k])
      {
        FindAllIsTaken(p, t, found[k]);
      }
    }
  }

  // ---------------------------------------------------------------- the check

  lemma {:induction false} FoundInOrder(p: Pattern, t: string, from: nat, j: nat, k: nat)
    requires from <= |t| && j < k < |FindAll(p, t, from)|
    ensures FindAll(p, t, from)[j] < FindAll(p, t, from)[k]
    decreases |t| - from
  {
    var q := Find(p, t, from).value;
    var end := MatchEnd(p, t, q);
    FindAllNext(p, t, from);
    if j > 0 {
      FoundInOrder(p, t, end, j - 1, k - 1);
    } else {
      FoundPast(p, t, end, k - 1);
    }
  }

  lemma {:induction false} FindAllNext(p: Pattern, t: string, from: nat)
    requires from <= |t| && FindAll(p, t, from) != []
    ensures Find(p, t, from).Some?
    ensures var q := Find(p, t, from).value;
            FindAll(p, t, from) == [q] + FindAll(p, t, MatchEnd(p, t, q))
  {
  }

  lemma {:induction false} FoundPast(p: Pattern, t: string, from: nat, k: nat)
    requires 0 < from <= |t| && k < |FindAll(p, t, from)|
    ensures FindAll(p, t, from)[k] > from
  {
    if FindAll(p, t, from)[k] <= from {
      FoundLater(p, t, from, FindAll(p, t, from)[k]);
    }
  }

  /** The first match of a pattern that names another module. */
  ghost predicate FirstForeign(p: Pattern, own: string, t: string, q: nat) {
    Taken(p, t, q) && !IsOwn(p, own, t, q) && forall q0: nat :: q0 < q && Taken(p, t, q0) ==> IsOwn(p, own, t, q0)
  }

  ghost predicate NamesFirstForeign(p: Pattern, own: string, t: string, id: string) {
    exists q: nat :: FirstForeign(p, own, t, q) && id == ModuleAt(p, t, q)
  }

  lemma {:induction false} FoundFirst(p: Pattern, own: string, t: string, k: nat)
    requires k < |FindAll(p, t, 0)| && !IsOwn(p, own, t, FindAll(p, t, 0)[k])
    requires forall j :: 0 <= j < k ==> IsOwn(p, own, t, FindAll(p, t, 0)[j])
    ensures FirstForeign(p, own, t, FindAll(p, t, 0)[k])
  {
    var found := FindAll(p, t, 0);
    FindAllIsTaken(p, t, found[k]);
    forall q0: nat | q0 < found[k] && Taken(p, t, q0)
      ensures IsOwn(p, own, t, q0)
    {
      FindAllIsTaken(p, t, q0);
      var j :| 0 <= j < |found| && found[j] == q0;
      if k < j {
        FoundInOrder(p, t, 0, k, j);
      }
    }
  }

  /** Tables before schemas; the error names the module of the first foreign match. */
  method CheckCrossModuleSQL(own: string, sql: string) returns (foreign: Option<string>)
    ensures foreign.None? <==> Accepts(own, sql)
    ensures foreign.Some? ==>
              var t := Strip(sql);
              || NamesFirstForeign(Table, own, t, foreign.value)
              || (AllOwn(Table, own, t) && NamesFirstForeign(Schema, own, t, foreign.value))
  {
    var stripped := StripSQLNoise(sql);
    foreign := CheckPattern(Table, own, stripped);
    if foreign.None? {
      foreign := CheckPattern(Schema, own, stripped);
    }
  }

  method CheckPattern(p: Pattern, own: string, stripped: string) returns (foreign: Option<string>)
    ensures foreign.None? <==> AllOwn(p, own, stripped)
    ensures foreign.Some? ==> NamesFirstForeign(p, own, stripped, foreign.value)
  {
    var matches := FindAll(p, stripped, 0);
    for k := 0 to |matches|
      invariant forall j :: 0 <= j < k ==> IsOwn(p, own, stripped, matches[j])
    {
      FoundAreMatches(p, stripped, 0, k);
      var id := ModuleAt(p, stripped, matches[k]);
      if id != own {
        FoundFirst(p, own, stripped, k);
        return Some(id);
      }
    }
    foreign := None;
  }

  // ---------------------------------------------------------------- which occurrences the guard looks at

  ghost predicate SameWord(t: string, a: nat, b: nat)
    requires a <= b < |t|
  {
    forall i :: a <= i <= b ==> IsWordFold(t[i])
  }

  /** A table name that no earlier table name of the same word swallows. */
  ghost predicate LeadsWord(t: string, q: nat) {
    At(Table, t, q) && forall q0: nat :: q0 < q && At(Table, t, q0) ==> !SameWord(t, q0, q)
  }

  lemma {:induction false} WordRunIsMaximal(t: string)
    ensures forall i :: 0 <= i < WordRun(t) ==> IsWordFold(t[i])
    ensures WordRun(t) < |t| ==> !IsWordFold(t[WordRun(t)])
  {
    if t != "" && IsWordFold(t[0]) {
      var rest := t[1..];
      WordRunIsMaximal(rest);
      forall i | 0 <= i < WordRun(t)
        ensures IsWordFold(t[i])
      {
        if i > 0 {
          assert t[i] == rest[i - 1];
        }
      }
    }
  }

  /** A table match is taken to the end of its word. */
  lemma TableMatchIsWord(t: string, q: nat)
    requires At(Table, t, q)
    ensures var end := MatchEnd(Table, t, q);
            SameWord(t, q, end - 1) && (end < |t| ==> !IsWordFold(t[end]))
  {
    var tail := t[q + 33..];
    WordRunIsMaximal(tail);
    assert MintedFold(t[q..]);
    forall i | q <= i < MatchEnd(Table, t, q)
      ensures IsWordFold(t[i])
    {
      if i < q + 33 {
        assert t[q..][i - q] == t[i];
      } else {
        assert tail[i - (q + 33)] == t[i];
      }
    }
  }

  /** Exactly the table names that lead their word are looked at. */
  lemma {:induction false} TablesLookedAt(t: string, q: nat)
    ensures Taken(Table, t, q) <==> LeadsWord(t, q)
    decreases q
  {
    if At(Table, t, q) {
      forall q0: nat | q0 < q && At(Table, t, q0)
        ensures Taken(Table, t, q0) <==> LeadsWord(t, q0)
        ensures SameWord(t, q0, q) <==> q <= MatchEnd(Table, t, q0)
      {
        TablesLookedAt(t, q0);
        TableMatchIsWord(t, q0);
        assert IsWordFold(t[q]) by {
          assert t[q..][0] == t[q];
        }
      }
      forall q0: nat | q0 < q && At(Table, t, q0) && SameWord(t, q0, q)
        ensures Taken(Table, t, Leader(t, q0)) && q <= MatchEnd(Table, t, Leader(t, q0))
      {
        assert SameWord(t, Leader(t, q0), q);
      }
    }
  }

  /** The table name leading the word of an occurrence. */
  ghost function Leader(t: string, q: nat): (lead: nat)
    requires At(Table, t, q)
    ensures lead <= q && LeadsWord(t, lead) && SameWord(t, lead, q)
    decreases q
  {
    assert t[q..][0] == t[q];
    if q0: nat :| q0 < q && At(Table, t, q0) && SameWord(t, q0, q) then Leader(t, q0) else q
  }

  /** A schema match takes one separator with it, so it hides a schema name exactly one separator later. */
  ghost predicate Visible(t: string, q: nat)
    decreases q
  {
    At(Schema, t, q) && !(q >= 38 && Visible(t, q - 38))
  }

  lemma SchemasStandApart(t: string, q0: nat, q: nat)
    requires At(Schema, t, q0) && At(Schema, t, q) && q0 < q
    ensures q0 + 38 <= q && MatchEnd(Schema, t, q0) == q0 + 38
  {
    var front := t[q0..];
    forall i | q0 <= i < q0 + 37
      ensures IsWordFold(t[i])
    {
      assert t[i] == front[i - q0];
      assert i - q0 >= 4 ==> front[i - q0] == front[4..][i - q0 - 4];
    }
  }

  /** Exactly the visible schema names are looked at. */
  lemma {:induction false} SchemasLookedAt(t: string, q: nat)
    ensures Taken(Schema, t, q) <==> Visible(t, q)
    decreases q
  {
    if At(Schema, t, q) {
      forall q0: nat | q0 < q && At(Schema, t, q0)
        ensures q0 + 38 <= q && MatchEnd(Schema, t, q0) == q0 + 38
      {
        SchemasStandApart(t, q0, q);
      }
      if q >= 38 {
        SchemasLookedAt(t, q - 38);
      }
    }
  }

  ghost predicate LeadersOwn(own: string, t: string) {
    forall q: nat :: LeadsWord(t, q) ==> IsOwn(Table, own, t, q)
  }

  ghost predicate VisibleOwn(own: string, t: string) {
    forall q: nat :: Visible(t, q) ==> IsOwn(Schema, own, t, q)
  }

  /** The guard's verdict: every leading table name and every visible schema name is the module's own. */
  lemma AcceptsExactly(own: string, sql: string)
    ensures Accepts(own, sql) <==> LeadersOwn(own, Strip(sql)) && VisibleOwn(own, Strip(sql))
  {
    TablesAccepted(own, Strip(sql));
    SchemasAccepted(own, Strip(sql));
  }

  lemma TablesAccepted(own: string, t: string)
    ensures AllOwn(Table, own, t) <==> LeadersOwn(own, t)
  {
    AllOwnIsTaken(Table, own, t);
    forall q: nat
      ensures Taken(Table, t, q) <==> LeadsWord(t, q)
    {
      TablesLookedAt(t, q);
    }
    if LeadersOwn(own, t) {
      assert forall q: nat :: Taken(Table, t, q) ==> IsOwn(Table, own, t, q);
    }
  }

  lemma SchemasAccepted(own: string, t: string)
    ensures AllOwn(Schema, own, t) <==> VisibleOwn(own, t)
  {
    AllOwnIsTaken(Schema, own, t);
    forall q: nat
      ensures Taken(Schema, t, q) <==> Visible(t, q)
    {
      SchemasLookedAt(t, q);
    }
    if VisibleOwn(own, t) {
      assert forall q: nat :: Taken(Schema, t, q) ==> IsOwn(Schema, own, t, q);
    }
  }

  lemma {:induction false} SameWordCase(t: string, a: nat, b: nat)
    requires a <= b < |t|
    ensures SameWord(Lower(t), a, b) <==> SameWord(t, a, b)
  {
    forall i | a <= i <= b
      ensures IsWordFold(Lower(t)[i]) <==> IsWordFold(t[i])
    {
      CharCase(t, i);
      AlnumIs(t[i]);
      AlnumIs(Lower(t)[i]);
    }
  }

  lemma {:induction false} LeadsInAnyCase(t: string, q: nat)
    ensures LeadsWord(Lower(t), q) <==> LeadsWord(t, q)
  {
    CaseIsIgnored(Table, t, q);
    forall q0: nat | q0 < q < |t|
      ensures At(Table, Lower(t), q0) <==> At(Table, t, q0)
      ensures SameWord(Lower(t), q0, q) <==> SameWord(t, q0, q)
    {
      CaseIsIgnored(Table, t, q0);
      SameWordCase(t, q0, q);
    }
  }

  lemma {:induction false} VisibleInAnyCase(t: string, q: nat)
    ensures Visible(Lower(t), q) <==> Visible(t, q)
    decreases q
  {
    CaseIsIgnored(Schema, t, q);
    if q >= 38 {
      VisibleInAnyCase(t, q - 38);
    }
  }

  /** Letter case makes no difference to what is found, and so none to the verdict on a stripped statement. */
  lemma {:induction false} VerdictIgnoresCase(p: Pattern, own: string, t: string)
    ensures AllOwn(p, own, Lower(t)) <==> AllOwn(p, own, t)
  {
    AllOwnIsTaken(p, own, t);
    AllOwnIsTaken(p, own, Lower(t));
    forall q: nat
      ensures Taken(p, Lower(t), q) <==> Taken(p, t, q)
      ensures Taken(p, t, q) ==> (IsOwn(p, own, Lower(t), q) <==> IsOwn(p, own, t, q))
    {
      TakenInAnyCase(p, t, q);
      CaseIsIgnored(p, t, q);
    }
  }

  lemma {:induction false} TakenInAnyCase(p: Pattern, t: string, q: nat)
    ensures Taken(p, Lower(t), q) <==> Taken(p, t, q)
  {
    match p
    case Table =>
      TablesLookedAt(t, q);
      TablesLookedAt(Lower(t), q);
      LeadsInAnyCase(t, q);
    case Schema =>
      SchemasLookedAt(t, q);
      SchemasLookedAt(Lower(t), q);
      VisibleInAnyCase(t, q);
  }

  /** Another module's ID in any letter case, as a table name that leads its word or a schema name not hidden, is rejected. */
  lemma {:induction false} ForeignIsRejected(p: Pattern, own: string, t: string, q: nat)
    requires q + IdOffset(p) + 33 <= |t| && Minted(Lower(t[q + IdOffset(p)..q + IdOffset(p) + 33]))
    requires Lower(t[q + IdOffset(p)..q + IdOffset(p) + 33]) != own
    requires match p
             case Table =>
               && q + 33 < |t| && t[q + 33] == '_' && (q == 0 || !FoldsToAlnum(t[q - 1]))
               && forall q0: nat :: q0 < q && At(Table, t, q0) ==> !SameWord(t, q0, q)
             case Schema =>
               && Lower(t[q..q + 4]) == "mod_"
               && (q == 0 || !(FoldsToAlnum(t[q - 1]) || t[q - 1] == '_'))
               && (q + 37 == |t| || !(FoldsToAlnum(t[q + 37]) || t[q + 37] == '_'))
               && !(q >= 38 && Visible(t, q - 38))
    ensures !AllOwn(p, own, t)
  {
    AllOwnIsTaken(p, own, t);
    match p
    case Table =>
      TableAtExactly(t, q);
      TablesLookedAt(t, q);
    case Schema =>
      SchemaAtExactly(t, q);
      SchemasLookedAt(t, q);
  }

  /** Every schema name in the text is the module's own. */
  ghost predicate AllSchemasOwn(own: string, t: string) {
    forall q: nat :: At(Schema, t, q) ==> IsOwn(Schema, own, t, q)
  }

  /** No schema name stands one separator after a schema name that was looked at. */
  ghost predicate NoneHidden(t: string) {
    forall q: nat :: At(Schema, t, q) ==> Visible(t, q)
  }

  /** Where no schema name is hidden, the schema check rejects exactly the texts that hold a foreign one. */
  lemma SchemasCheckedUnlessHidden(own: string, t: string)
    requires NoneHidden(t)
    ensures AllOwn(Schema, own, t) <==> AllSchemasOwn(own, t)
  {
    SchemasAccepted(own, t);
  }

  /** The check misses a foreign schema name exactly when all it looked at are own and a hidden one is not. */
  lemma SchemasMissedExactly(own: string, t: string)
    ensures AllOwn(Schema, own, t) && !AllSchemasOwn(own, t) <==>
              && VisibleOwn(own, t)
              && (exists q: nat :: At(Schema, t, q) && q >= 38 && Visible(t, q - 38) && !IsOwn(Schema, own, t, q))
  {
    SchemasAccepted(own, t);
  }

  function SchemaName(id: string): string {
    "mod_" + id
  }

  lemma SchemaNameAt(id: string, before: string, after: string)
    requires Minted(id)
    requires before == "" || !IsWordFold(before[|before| - 1])
    requires after == "" || !IsWordFold(after[0])
    ensures var t := before + SchemaName(id) + after;
            At(Schema, t, |before|) && ModuleAt(Schema, t, |before|) == id
  {
    var t := before + SchemaName(id) + after;
    var name := t[|before|..];
    assert name == SchemaName(id) + after;
    assert name[4..] == id + after;
    assert t[|before| + 4..|before| + 37] == id;
    LowerMinted(id);
    assert after != "" ==> name[37] == after[0];
    assert before != "" ==> t[|before| - 1] == before[|before| - 1];
  }

  lemma LowerMinted(id: string)
    requires Minted(id)
    ensures Lower(id) == id
  {
  }

  /** A foreign schema one separator after the module's own passes the check. */
  lemma OwnSchemaHidesForeign(own: string, foreign: string)
    requires Minted(own) && Minted(foreign) && own != foreign
    ensures var t := SchemaName(own) + "," + SchemaName(foreign);
            AllOwn(Schema, own, t) && !AllSchemasOwn(own, t)
  {
    var t := SchemaName(own) + "," + SchemaName(foreign);
    assert t == "" + SchemaName(own) + ("," + SchemaName(foreign));
    SchemaNameAt(own, "", "," + SchemaName(foreign));
    assert t == (SchemaName(own) + ",") + SchemaName(foreign) + "";
    SchemaNameAt(foreign, SchemaName(own) + ",", "");
    SchemasMissedExactly(own, t);
    assert Visible(t, 0) && At(Schema, t, 38) && !IsOwn(Schema, own, t, 38);
    forall q: nat | Visible(t, q)
      ensures q == 0
    {
      if 0 < q {
        SchemasStandApart(t, 0, q);
      }
    }
  }

  /** The error names one module only, another's: the ID in the first match looked at that is not the module's own. */
  lemma {:induction false} NamedIsForeign(p: Pattern, own: string, t: string, a: string, b: string)
    requires NamesFirstForeign(p, own, t, a)
    ensures a != own && Minted(a) && (NamesFirstForeign(p, own, t, b) ==> a == b)
    ensures var offset := if p.Table? then 0 else 4;
            exists q: nat :: Taken(p, t, q) && q + offset + 33 <= |t| && a == Lower(t[q + offset..q + offset + 33])
  {
    var q: nat :| FirstForeign(p, own, t, q) && a == ModuleAt(p, t, q);
    MatchIsMinted(p, t, q);
    if NamesFirstForeign(p, own, t, b) {
      var q': nat :| FirstForeign(p, own, t, q') && b == ModuleAt(p, t, q');
      OneFirstForeign(p, own, t, q, q');
    }
  }

  lemma {:induction false} MatchIsMinted(p: Pattern, t: string, q: nat)
    requires At(p, t, q)
    ensures q + IdOffset(p) + 33 <= |t| && Minted(ModuleAt(p, t, q))
  {
    match p
    case Table => TableAtExactly(t, q);
    case Schema => SchemaAtExactly(t, q);
  }

  lemma {:induction false} OneFirstForeign(p: Pattern, own: string, t: string, q: nat, q': nat)
    requires FirstForeign(p, own, t, q) && FirstForeign(p, own, t, q')
    ensures q == q'
  {
    assert Taken(p, t, q) && Taken(p, t, q');
  }
}
