/**
 The guard scans a statement before the placeholder in it is substituted. When
 that order is safe, and exactly when the guard would judge the substituted
 statement differently.
 */
module SqlOrder {
  import opened Wrappers
  import opened Sequences
  import opened SqlScanner
  import opened SqlPlaceholder
  import opened SqlSubstitution
  import opened SqlGuard
  import opened SqlPieces
  import opened SqlVerdicts

  /** strings.Contains, then strings.ReplaceAll */
  method ResolveStatement(sql: string, id: string) returns (resolved: string)
    ensures resolved == Resolve(sql, TOKEN, id)
    ensures Index(sql, TOKEN).None? ==> resolved == sql
  {
    var found := Index(sql, TOKEN);
    if found.None? {
      NothingToResolve(sql, TOKEN, id);
      return sql;
    }
    resolved := "";
    var i := 0;
    while i < |sql|
      invariant 0 <= i <= |sql|
      invariant resolved + Resolve(sql[i..], TOKEN, id) == Resolve(sql, TOKEN, id)
    {
      var rest := sql[i..];
      if |TOKEN| <= |rest| && rest[..|TOKEN|] == TOKEN {
        assert rest[|TOKEN|..] == sql[i + |TOKEN|..];
        Regroup(resolved, id, Resolve(sql[i + |TOKEN|..], TOKEN, id));
        resolved := resolved + id;
        i := i + |TOKEN|;
      } else {
        assert rest[1..] == sql[i + 1..];
        Regroup(resolved, [sql[i]], Resolve(sql[i + 1..], TOKEN, id));
        resolved := resolved + [sql[i]];
        i := i + 1;
      }
    }
    assert resolved + "" == resolved;
  }

  lemma {:induction false} NothingToResolve(s: string, token: string, id: string)
    requires token != "" && Index(s, token).None?
    ensures Resolve(s, token, id) == s
  {
    if s != "" {
      NothingToResolve(s[1..], token, id);
    }
  }

  // ---------------------------------------------------------------- no own ID before, none after stripping

  /** The ID stands nowhere in s, in any letter case. */
  ghost predicate NowhereFolded(own: string, s: string) {
    forall w: string, k: nat :: k <= |s| && Lower(w) == own ==> !(w <= s[k..])
  }

  /** Word text anywhere in a stripped statement stood in the statement. */
  lemma {:induction false} WordsComeFromStatement(w: string, s: string, q: nat) returns (k: nat)
    requires Words(w) && w != "" && q <= |Strip(s)| && w <= Strip(s)[q..]
    ensures k <= |s| && w <= s[k..]
    decreases |s|
  {
    if q == 0 {
      assert Strip(s)[0..] == Strip(s);
      WordsSurvive(w, s);
      assert s[0..] == s;
      k := 0;
    } else {
      var mark := Remains(First(s));
      var n := |TextOf(First(s))|;
      var rest := s[n..];
      assert Strip(s) == mark + Strip(rest);
      assert Strip(s)[q..] == Strip(rest)[q - |mark|..];
      var j := WordsComeFromStatement(w, rest, q - |mark|);
      k := n + j;
      assert s[k..] == rest[j..];
    }
  }

  lemma FoldedIsWords(w: string, own: string)
    requires Minted(own) && Lower(w) == own
    ensures Words(w)
  {
    forall i | 0 <= i < |w|
      ensures IsTagChar(w[i])
    {
      assert Lower(w)[i] == own[i];
    }
  }

  lemma StrippedKeepsOwnOut(own: string, s: string)
    requires Minted(own) && NowhereFolded(own, s)
    ensures NowhereFolded(own, Strip(s))
  {
    forall w: string, q: nat | q <= |Strip(s)| && Lower(w) == own
      ensures !(w <= Strip(s)[q..])
    {
      FoldedIsWords(w, own);
      if w <= Strip(s)[q..] {
        var k := WordsComeFromStatement(w, s, q);
      }
    }
  }

  lemma NowhereIsAbsent(own: string, s: string)
    requires Minted(own) && NowhereFolded(own, s)
    ensures Absent(own, s)
  {
    LowerMinted(own);
  }

  lemma OwnStandsSomewhere(p: Pattern, own: string, t: string, q: nat)
    requires IsOwn(p, own, t, q)
    ensures !NowhereFolded(own, t)
  {
    var k := q + IdOffset(p);
    var w := t[k..k + 33];
    assert w <= t[k..];
    assert Lower(w) == own;
  }

  /** Where the own ID stands nowhere, an accepted text holds no occurrence at all. */
  lemma AcceptedMeansNone(p: Pattern, own: string, t: string, q: nat)
    requires NowhereFolded(own, t) && AllOwn(p, own, t)
    ensures !At(p, t, q)
  {
    var found := FindAll(p, t, 0);
    if found != [] {
      OwnStandsSomewhere(p, own, t, found[0]);
    }
    NothingFound(p, t, 0, q);
  }

  // ---------------------------------------------------------------- where names come from

  /** Every occurrence in substituted text is the module's own, or stood there before with the same ID. */
  lemma {:induction false} Origin(p: Pattern, own: string, t: string, at: nat) returns (q: nat)
    requires Minted(own) && At(p, Resolve(t, TOKEN, own), at)
    ensures IsOwn(p, own, Resolve(t, TOKEN, own), at) ||
            (At(p, t, q) && ModuleAt(p, t, q) == ModuleAt(p, Resolve(t, TOKEN, own), at))
  {
    var ps := Pieces(t);
    PiecesRender(t, own);
    var k := NamePiece(p, ps, own, at);
    q := Pos(ps, TOKEN, k);
    NamesStay(p, ps, k);
    if Made(p, ps, k) {
      OwnIs(p, own, ps, own, k);
    } else {
      NamedIs(p, ps, TOKEN, k);
      SameModule(p, own, ps, k);
    }
  }

  lemma {:induction false} SameModule(p: Pattern, own: string, ps: seq<Piece>, k: nat)
    requires Minted(own) && Named(p, ps, false, k)
    ensures At(p, Render(ps, TOKEN), Pos(ps, TOKEN, k)) && Pos(ps, own, k) + IdOffset(p) + 33 <= |Render(ps, own)|
    ensures ModuleAt(p, Render(ps, TOKEN), Pos(ps, TOKEN, k)) == ModuleAt(p, Render(ps, own), Pos(ps, own, k))
  {
    NamedIs(p, ps, TOKEN, k);
    NamesHoldIds(p, ps, false, k);
    ModuleText(p, own, ps, TOKEN, k);
    ModuleText(p, own, ps, own, k);
  }

  // ---------------------------------------------------------------- the order is safe

  /** Every name in the text, looked at or not, is the module's own. */
  ghost predicate AllNamesOwn(own: string, t: string) {
    forall p: Pattern, q: nat :: At(p, t, q) ==> IsOwn(p, own, t, q)
  }

  lemma {:induction false} OwnNamesAccepted(own: string, t: string)
    requires AllNamesOwn(own, t)
    ensures AllOwn(Table, own, t) && AllOwn(Schema, own, t)
  {
    AllOwnIsTaken(Table, own, t);
    AllOwnIsTaken(Schema, own, t);
  }

  /** A statement all of whose names are the module's own is accepted, before substitution and after. */
  lemma {:induction false} AllOwnStaysAccepted(own: string, sql: string)
    requires Minted(own) && TagsApart(sql, TOKEN, own) && AllNamesOwn(own, Strip(sql))
    ensures Accepts(own, sql) && Accepts(own, Resolve(sql, TOKEN, own))
  {
    var t := Strip(sql);
    var r := Resolve(t, TOKEN, own);
    OwnNamesAccepted(own, t);
    StripCommutes(sql, TOKEN, own);
    forall p: Pattern, at: nat | At(p, r, at)
      ensures IsOwn(p, own, r, at)
    {
      var q := Origin(p, own, t, at);
    }
    OwnNamesAccepted(own, r);
  }

  ghost predicate NoNames(t: string) {
    forall p: Pattern, q: nat :: !At(p, t, q)
  }

  lemma {:induction false} AllOwnMeansNone(own: string, t: string)
    requires NowhereFolded(own, t) && AllOwn(Table, own, t) && AllOwn(Schema, own, t)
    ensures NoNames(t)
  {
    forall p: Pattern, q: nat
      ensures !At(p, t, q)
    {
      AcceptedMeansNone(p, own, t, q);
    }
  }

  lemma {:induction false} AcceptedHasNoNames(own: string, sql: string)
    requires Minted(own) && NowhereFolded(own, sql) && Accepts(own, sql)
    ensures NoNames(Strip(sql))
  {
    StrippedKeepsOwnOut(own, sql);
    AllOwnMeansNone(own, Strip(sql));
  }

  /**
   A statement that nowhere holds the module's own ID, and that the guard
   accepts with its placeholders in it, is accepted with them substituted:
   scanning first loses nothing.
   */
  lemma {:induction false} AcceptedStaysAccepted(own: string, sql: string)
    requires Minted(own) && NowhereFolded(own, sql)
    requires Accepts(own, sql)
    ensures Accepts(own, Resolve(sql, TOKEN, own))
  {
    NowhereIsAbsent(own, sql);
    AbsentIsApart(sql, TOKEN, own);
    AcceptedHasNoNames(own, sql);
    AllOwnStaysAccepted(own, sql);
  }

  // ---------------------------------------------------------------- when a verdict changes

  /** A table name that stays a table name, in a word that no name made from a placeholder leads. */
  predicate TableSurvives(ps: seq<Piece>, k: nat) {
    && Named(Table, ps, false, k)
    && Untouched(ps, k)
    && forall j :: 0 <= j < k && Made(Table, ps, j) ==> !WordPieces(ps, j, k)
  }

  /** A schema name with an even number of names in the row before it, counting those made from placeholders. */
  ghost predicate SchemaSurvives(ps: seq<Piece>, k: nat) {
    Named(Schema, ps, false, k) && Behind(ps, true, k) % 2 == 0
  }

  ghost predicate SomeSurvives(ps: seq<Piece>) {
    (exists k: nat :: TableSurvives(ps, k)) || (exists k: nat :: SchemaSurvives(ps, k))
  }

  /** Where the own ID stands nowhere, a literal ID is another module's. */
  lemma {:induction false} LiteralsAreForeign(own: string, t: string, k: nat)
    requires NowhereFolded(own, t) && Literal(Pieces(t), k)
    ensures Lower(IdText(Pieces(t), k)) != own
  {
    var ps := Pieces(t);
    PiecesRender(t, own);
    LiteralText(ps, TOKEN, k);
    var q := Pos(ps, TOKEN, k);
    assert IdText(ps, k) <= t[q..];
  }

  /** The first table name in the word of a table name. */
  lemma {:induction false} LeadOf(ps: seq<Piece>, after: bool, k: nat) returns (j: nat)
    requires Named(Table, ps, after, k)
    ensures j <= k && k < |ps| && Leads(ps, after, j) && WordPieces(ps, j, k)
    decreases k
  {
    if Leads(ps, after, k) {
      j := k;
    } else {
      var i :| 0 <= i < k && Named(Table, ps, after, i) && WordPieces(ps, i, k);
      j := LeadOf(ps, after, i);
    }
  }

  /** In the word of a surviving name, a literal name leads. */
  lemma {:induction false} SurvivorIsLed(ps: seq<Piece>, k: nat) returns (j: nat)
    requires TableSurvives(ps, k)
    ensures Leads(ps, true, j) && Literal(ps, j)
  {
    NamesStay(Table, ps, k);
    j := LeadOf(ps, true, k);
    NamesStay(Table, ps, j);
  }

  lemma {:induction false} LookedSurvives(p: Pattern, own: string, ps: seq<Piece>, k: nat)
    requires Looked(p, ps, true, k) && Foreign(p, own, ps, k)
    ensures Named(p, ps, false, k)
    ensures match p case Table => TableSurvives(ps, k) case Schema => SchemaSurvives(ps, k)
  {
    NamesStay(p, ps, k);
    if p.Schema? {
      SeenIsEven(ps, true, k);
    }
  }

  lemma {:induction false} TableSurvivorSeen(own: string, t: string, k: nat)
    requires NowhereFolded(own, t) && TableSurvives(Pieces(t), k)
    ensures !NothingForeign(own, Pieces(t), true)
  {
    var j := SurvivorIsLed(Pieces(t), k);
    LiteralsAreForeign(own, t, j);
    assert Looked(Table, Pieces(t), true, j) && Foreign(Table, own, Pieces(t), j);
  }

  lemma {:induction false} SchemaSurvivorSeen(own: string, t: string, k: nat)
    requires NowhereFolded(own, t) && SchemaSurvives(Pieces(t), k)
    ensures !NothingForeign(own, Pieces(t), true)
  {
    NamesStay(Schema, Pieces(t), k);
    SeenIsEven(Pieces(t), true, k);
    LiteralsAreForeign(own, t, k + 4);
    assert Looked(Schema, Pieces(t), true, k) && Foreign(Schema, own, Pieces(t), k);
  }

  lemma {:induction false} SurvivesExactly(own: string, t: string)
    requires NowhereFolded(own, t)
    ensures !NothingForeign(own, Pieces(t), true) <==> SomeSurvives(Pieces(t))
  {
    var ps := Pieces(t);
    forall k: nat
      ensures TableSurvives(ps, k) || SchemaSurvives(ps, k) ==> !NothingForeign(own, ps, true)
    {
      if TableSurvives(ps, k) {
        TableSurvivorSeen(own, t, k);
      } else if SchemaSurvives(ps, k) {
        SchemaSurvivorSeen(own, t, k);
      }
    }
    if !NothingForeign(own, ps, true) {
      var p, k := ForeignName(own, ps, true);
      LookedSurvives(p, own, ps, k);
    }
  }

  lemma {:induction false} ForeignName(own: string, ps: seq<Piece>, after: bool) returns (p: Pattern, k: nat)
    requires !NothingForeign(own, ps, after)
    ensures Looked(p, ps, after, k) && Foreign(p, own, ps, k)
  {
    p, k :| Looked(p, ps, after, k) && Foreign(p, own, ps, k);
  }

  /**
   For a statement that nowhere holds the module's own ID, the guard's verdict
   is the one it would give after substitution exactly when the statement names
   no module at all, or one of the names in it survives substitution.
   */
  lemma {:induction false} VerdictKeptExactly(own: string, sql: string)
    requires Minted(own) && NowhereFolded(own, sql)
    ensures (Accepts(own, sql) <==> Accepts(own, Resolve(sql, TOKEN, own))) <==>
            NoNames(Strip(sql)) || SomeSurvives(Pieces(Strip(sql)))
  {
    NowhereIsAbsent(own, sql);
    AbsentIsApart(sql, TOKEN, own);
    StrippedKeepsOwnOut(own, sql);
    VerdictAfter(own, sql);
    SurvivesExactly(own, Strip(sql));
    if Accepts(own, sql) {
      AcceptedHasNoNames(own, sql);
      AcceptedStaysAccepted(own, sql);
    } else if NoNames(Strip(sql)) {
      OwnNamesAccepted(own, Strip(sql));
    }
  }

  /** A foreign table name that comes to lead its word: it stays a name, and every name before it in the word does not. */
  predicate LosesLeader(own: string, ps: seq<Piece>, k: nat) {
    && Foreign(Table, own, ps, k)
    && TableSurvives(ps, k)
    && forall j :: 0 <= j < k && Named(Table, ps, false, j) && WordPieces(ps, j, k) ==> !Untouched(ps, j)
  }

  /** A foreign schema name hidden before substitution, with names made from placeholders changing the parity of its row. */
  ghost predicate LosesCover(own: string, ps: seq<Piece>, k: nat) {
    Foreign(Schema, own, ps, k) && Named(Schema, ps, false, k) && Behind(ps, false, k) % 2 == 1 && Behind(ps, true, k) % 2 == 0
  }

  lemma {:induction false} LeaderLost(own: string, ps: seq<Piece>, k: nat)
    ensures LosesLeader(own, ps, k) <==> Leads(ps, true, k) && Foreign(Table, own, ps, k)
  {
    NamesStay(Table, ps, k);
    forall j: nat | j < k
      ensures Named(Table, ps, true, j) <==> Made(Table, ps, j) || (Named(Table, ps, false, j) && Untouched(ps, j))
    {
      NamesStay(Table, ps, j);
    }
  }

  lemma {:induction false} CoverLost(own: string, ps: seq<Piece>, k: nat)
    ensures LosesCover(own, ps, k) <==> Seen(ps, true, k) && !Seen(ps, false, k) && Foreign(Schema, own, ps, k)
  {
    NamesStay(Schema, ps, k);
    if Named(Schema, ps, false, k) {
      SeenIsEven(ps, false, k);
      SeenIsEven(ps, true, k);
    }
  }

  lemma {:induction false} LostIsLooked(own: string, ps: seq<Piece>, k: nat)
    requires NothingForeign(own, ps, false)
    ensures LosesLeader(own, ps, k) <==> Looked(Table, ps, true, k) && Foreign(Table, own, ps, k)
    ensures LosesCover(own, ps, k) <==> Looked(Schema, ps, true, k) && Foreign(Schema, own, ps, k)
  {
    LeaderLost(own, ps, k);
    CoverLost(own, ps, k);
    assert Looked(Schema, ps, false, k) ==> !Foreign(Schema, own, ps, k);
  }

  ghost predicate NothingLost(own: string, ps: seq<Piece>) {
    forall k: nat :: !LosesLeader(own, ps, k) && !LosesCover(own, ps, k)
  }

  lemma {:induction false} LostExactly(own: string, ps: seq<Piece>)
    requires NothingForeign(own, ps, false)
    ensures NothingForeign(own, ps, true) <==> NothingLost(own, ps)
  {
    if NothingForeign(own, ps, true) {
      forall k: nat
        ensures !LosesLeader(own, ps, k) && !LosesCover(own, ps, k)
      {
        LostIsLooked(own, ps, k);
      }
    } else {
      var p, k := ForeignName(own, ps, true);
      LostIsLooked(own, ps, k);
    }
  }

  /**
   An accepted statement stays accepted exactly when substitution neither takes
   the leader away from a foreign table name nor uncovers a foreign schema name.
   */
  lemma {:induction false} AcceptedStaysExactly(own: string, sql: string)
    requires Minted(own) && TagsApart(sql, TOKEN, own) && Accepts(own, sql)
    ensures Accepts(own, Resolve(sql, TOKEN, own)) <==> NothingLost(own, Pieces(Strip(sql)))
  {
    VerdictBefore(own, sql);
    VerdictAfter(own, sql);
    LostExactly(own, Pieces(Strip(sql)));
  }

  /** The leader a foreign table name of an accepted statement loses is an own name that a placeholder touches. */
  lemma {:induction false} LostLeaderWasOwn(own: string, sql: string, k: nat) returns (j: nat)
    requires Minted(own) && Accepts(own, sql) && LosesLeader(own, Pieces(Strip(sql)), k)
    ensures var ps := Pieces(Strip(sql));
            && j < k < |ps| && WordPieces(ps, j, k) && Leads(ps, false, j)
            && !Foreign(Table, own, ps, j) && !Untouched(ps, j)
  {
    var ps := Pieces(Strip(sql));
    VerdictBefore(own, sql);
    j := LeadOf(ps, false, k);
    assert Looked(Table, ps, false, j);
  }

  // ---------------------------------------------------------------- statements whose verdict changes

  predicate Quiet(s: string) {
    forall i :: 0 <= i < |s| ==> s[i] != '\'' && s[i] != '-' && s[i] != '/' && s[i] != '$'
  }

  lemma {:induction false} QuietIsKept(s: string)
    requires Quiet(s)
    ensures Strip(s) == s
  {
    if s != "" {
      FirstIs(s);
      QuietIsKept(s[1..]);
      assert s == [s[0]] + s[1..];
    }
  }

  predicate NoTwins(s: string) {
    forall i, j :: 0 <= i < |s| && 0 <= j < |s| && j == i + 1 ==> !(s[i] == '_' && s[j] == '_')
  }

  function Copies(s: string): (ps: seq<Piece>)
    ensures |ps| == |s| && forall i :: 0 <= i < |s| ==> ps[i] == Copy(s[i])
  {
    seq(|s|, i requires 0 <= i < |s| => Copy(s[i]))
  }

  /** A statement around one placeholder. */
  function Around(a: string, b: string): string {
    a + (TOKEN + b)
  }

  function AroundPieces(a: string, b: string): seq<Piece> {
    Copies(a) + ([Placeholder] + Copies(b))
  }

  lemma {:induction false} PiecesPast(c: char, rest: string)
    requires !(TOKEN <= [c] + rest)
    ensures Pieces([c] + rest) == [Copy(c)] + Pieces(rest)
  {
    assert ([c] + rest)[1..] == rest;
  }

  lemma {:induction false} CopiesNext(c: char, rest: string)
    ensures Copies([c] + rest) == [Copy(c)] + Copies(rest)
  {
  }

  lemma {:induction false} NoTwinsNext(s: string)
    requires NoTwins(s) && s != ""
    ensures NoTwins(s[1..])
  {
    assert forall i :: 0 < i < |s| - 1 ==> s[1..][i - 1] == s[i] && s[1..][i] == s[i + 1];
  }

  lemma {:induction false} PlainPieces(s: string)
    requires NoTwins(s)
    ensures Pieces(s) == Copies(s)
  {
    if s != "" {
      assert |s| >= |TOKEN| ==> s[0] != TOKEN[0] || s[1] != TOKEN[1];
      assert s == [s[0]] + s[1..];
      NoTwinsNext(s);
      PlainPieces(s[1..]);
      PiecesPast(s[0], s[1..]);
      CopiesNext(s[0], s[1..]);
    }
  }

  lemma {:induction false} NotYet(a: string, b: string)
    requires a != "" && NoTwins(a)
    ensures !(TOKEN <= Around(a, b))
  {
    var s := Around(a, b);
    if |a| == 1 {
      assert s[1] == TOKEN[0] && s[2] == TOKEN[1];
      assert s[2] != TOKEN[2];
    } else {
      assert s[0] == a[0] && s[1] == a[1];
      assert s[0] != TOKEN[0] || s[1] != TOKEN[1];
    }
  }

  lemma {:induction false} PiecesAround(a: string, b: string)
    requires NoTwins(a) && NoTwins(b)
    ensures Pieces(Around(a, b)) == AroundPieces(a, b)
  {
    if a == "" {
      PlainPieces(b);
      assert Around(a, b) == TOKEN + b && (TOKEN + b)[|TOKEN|..] == b;
      assert AroundPieces(a, b) == [Placeholder] + Copies(b);
    } else {
      var c, rest := a[0], a[1..];
      assert a == [c] + rest;
      NotYet(a, b);
      NoTwinsNext(a);
      PiecesAround(rest, b);
      Regroup([c], rest, TOKEN + b);
      PiecesPast(c, Around(rest, b));
      CopiesNext(c, rest);
      Regroup([Copy(c)], Copies(rest), [Placeholder] + Copies(b));
    }
  }

  /** Both verdicts on a statement around one placeholder, from its pieces. */
  lemma {:induction false} AroundVerdicts(own: string, a: string, b: string)
    requires Minted(own) && Quiet(a) && Quiet(b) && NoTwins(a) && NoTwins(b)
    ensures var sql, ps := Around(a, b), AroundPieces(a, b);
            && (Accepts(own, sql) <==> NothingForeign(own, ps, false))
            && (Accepts(own, Resolve(sql, TOKEN, own)) <==> NothingForeign(own, ps, true))
  {
    var sql := Around(a, b);
    QuietIsKept(sql);
    PiecesAround(a, b);
    NoDollarIsApart(sql, TOKEN, own);
    VerdictBefore(own, sql);
    VerdictAfter(own, sql);
  }

  /** Both verdicts are as they are because of a foreign name that is looked at, or because there is none. */
  lemma {:induction false} ForeignIsLooked(p: Pattern, own: string, foreign: string, ps: seq<Piece>, after: bool, k: nat)
    requires Minted(foreign) && own != foreign && Looked(p, ps, after, k)
    requires Literal(ps, k + IdOffset(p)) && IdText(ps, k + IdOffset(p)) == foreign
    ensures !NothingForeign(own, ps, after)
  {
    LowerMinted(foreign);
    assert Foreign(p, own, ps, k);
  }

  /** A text too short for a schema name, in which no underscore ends a table name. */
  lemma {:induction false} NothingNamed(own: string, ps: seq<Piece>, m: nat)
    requires m < |ps| < 37 && ps[m] == Placeholder && forall i :: 0 <= i < |ps| && ps[i] == Placeholder ==> i == m
    requires forall i :: 0 <= i < |ps| && ps[i] == Copy('_') ==> i == m + 34
    ensures NothingForeign(own, ps, true)
  {
    forall p: Pattern, k: nat
      ensures !Named(p, ps, true, k)
    {
      assert m + 1 < |ps| ==> ps[m + 1] != Copy('_');
    }
  }

  lemma {:induction false} IdThen(id: string, after: string)
    requires Minted(id)
    ensures Literal(Copies(id + after), 0) && IdText(Copies(id + after), 0) == id
    ensures Quiet(after) ==> Quiet(id + after)
    ensures forall i :: 0 <= i < 33 ==> (id + after)[i] != '_'
  {
    MintedWords(id);
  }

  /** A literal ID keeps its place under what comes before. */
  lemma {:induction false} IdLater(front: seq<Piece>, rest: seq<Piece>, k: nat)
    requires Literal(rest, k)
    ensures Literal(front + rest, |front| + k) && IdText(front + rest, |front| + k) == IdText(rest, k)
  {
    var ps := front + rest;
    assert forall i :: |front| + k <= i < |front| + k + 33 ==> ps[i] == rest[i - |front|];
    assert IdText(ps, |front| + k) == IdText(rest, k);
  }

  lemma {:induction false} AroundNothing(b: string)
    ensures AroundPieces("", b) == [Placeholder] + Copies(b)
  {
  }

  lemma {:induction false} JoinedPieces(foreign: string)
    requires Minted(foreign)
    ensures var b := foreign + "_x"; Quiet(b) && NoTwins(b) && |b| == 35
    ensures var ps := [Placeholder] + Copies(foreign + "_x");
            && Literal(ps, 1) && IdText(ps, 1) == foreign && ps[34] == Copy('_')
            && (forall i :: 0 <= i < 36 && ps[i] == Placeholder ==> i == 0)
            && (forall i :: 0 <= i < 36 && ps[i] == Copy('_') ==> i == 34)
  {
    var b := foreign + "_x";
    IdThen(foreign, "_x");
    IdLater([Placeholder], Copies(b), 0);
    var ps := [Placeholder] + Copies(b);
    assert forall i :: 0 < i < 36 ==> ps[i] == Copy(b[i - 1]);
  }

  lemma {:induction false} JoinedVerdicts(own: string, foreign: string, ps: seq<Piece>)
    requires Minted(foreign) && own != foreign
    requires |ps| == 36 && ps[0] == Placeholder && Literal(ps, 1) && IdText(ps, 1) == foreign && ps[34] == Copy('_')
    requires forall i :: 0 <= i < 36 && ps[i] == Placeholder ==> i == 0
    requires forall i :: 0 <= i < 36 && ps[i] == Copy('_') ==> i == 34
    ensures !NothingForeign(own, ps, false) && NothingForeign(own, ps, true)
  {
    assert Named(Table, ps, false, 1);
    ForeignIsLooked(Table, own, foreign, ps, false, 1);
    NothingNamed(own, ps, 0);
  }

  /** A foreign table name right after a placeholder is one before substitution, and part of a longer word after. */
  lemma {:induction false} RejectedMayBecomeAccepted(own: string, foreign: string)
    requires Minted(own) && Minted(foreign) && own != foreign
    ensures var sql := Around("", foreign + "_x");
            !Accepts(own, sql) && Accepts(own, Resolve(sql, TOKEN, own))
  {
    var b := foreign + "_x";
    JoinedPieces(foreign);
    AroundNothing(b);
    AroundVerdicts(own, "", b);
    JoinedVerdicts(own, foreign, [Placeholder] + Copies(b));
  }

  lemma {:induction false} EndedPieces(foreign: string)
    requires Minted(foreign)
    ensures Quiet(foreign) && NoTwins(foreign)
    ensures var ps := AroundPieces(foreign, "");
            && |ps| == 34 && ps[33] == Placeholder && Literal(ps, 0) && IdText(ps, 0) == foreign
            && forall i :: 0 <= i < 33 ==> ps[i].Copy? && ps[i] != Copy('_')
  {
    IdThen(foreign, "");
    assert foreign + "" == foreign;
    var ps := AroundPieces(foreign, "");
    assert forall i :: 0 <= i < 33 ==> ps[i] == Copy(foreign[i]);
    assert IdText(ps, 0) == foreign;
  }

  /** So is a foreign ID right before a placeholder: the token supplies the underscore and the ID takes it away. */
  lemma {:induction false} PlaceholderEndsName(own: string, foreign: string)
    requires Minted(own) && Minted(foreign) && own != foreign
    ensures var sql := Around(foreign, "");
            !Accepts(own, sql) && Accepts(own, Resolve(sql, TOKEN, own))
  {
    var ps := AroundPieces(foreign, "");
    EndedPieces(foreign);
    AroundVerdicts(own, foreign, "");
    assert Named(Table, ps, false, 0);
    ForeignIsLooked(Table, own, foreign, ps, false, 0);
    NothingNamed(own, ps, 33);
  }

  /** "mod_" and a placeholder, a comma, and a literal schema name. */
  predicate MadeThenNamed(ps: seq<Piece>) {
    && |ps| >= 43
    && ModPrefix(ps, 0) && ps[4] == Placeholder && ps[5] == Copy(',') && ModPrefix(ps, 6) && Literal(ps, 10) && Ends(ps, 43)
  }

  /** The literal name is seen before substitution, and hidden by the made one after. */
  lemma {:induction false} FirstTwo(ps: seq<Piece>)
    requires MadeThenNamed(ps)
    ensures Seen(ps, false, 6) && Seen(ps, true, 0) && !Seen(ps, true, 6)
  {
    assert forall j :: 0 < j < 6 ==> !Named(Schema, ps, false, j);
    assert !Named(Schema, ps, false, 0);
    SeenHides(ps, true, 0, 6);
  }

  lemma {:induction false} OnlyTwo(ps: seq<Piece>, p: Pattern, k: nat)
    requires MadeThenNamed(ps) && |ps| == 43 && Named(p, ps, true, k)
    ensures p.Schema? && (k == 0 || k == 6)
  {
  }

  lemma {:induction false} MadeHides(own: string, ps: seq<Piece>)
    requires MadeThenNamed(ps) && |ps| == 43
    ensures NothingForeign(own, ps, true)
  {
    FirstTwo(ps);
    forall p: Pattern, k: nat | Looked(p, ps, true, k)
      ensures !Foreign(p, own, ps, k)
    {
      OnlyTwo(ps, p, k);
    }
  }

  /** ",mod_" and an ID. */
  function CommaName(id: string): string {
    "," + SchemaName(id)
  }

  lemma {:induction false} CommaNameText(id: string, after: string)
    requires Minted(id) && Quiet(after) && NoTwins(after) && (after == "" || after[0] == ',')
    ensures var b := CommaName(id) + after;
            && Quiet(b) && NoTwins(b) && b == ",mod_" + (id + after)
            && b[0] == ',' && b[1] == 'm' && b[2] == 'o' && b[3] == 'd' && b[4] == '_'
  {
    var b := CommaName(id) + after;
    IdThen(id, after);
    assert b[..5] == ",mod_" && b[5..] == id + after;
    NameChars(id, after, b);
  }

  lemma {:induction false} TenThenId(id: string, after: string)
    ensures AroundPieces("mod_", ",mod_" + (id + after)) == AroundPieces("mod_", ",mod_") + Copies(id + after)
  {
  }

  lemma {:induction false} FirstTen()
    ensures var ps := AroundPieces("mod_", ",mod_");
            && |ps| == 10 && ModPrefix(ps, 0) && ps[4] == Placeholder && ps[5] == Copy(',') && ModPrefix(ps, 6)
  {
    var ps := AroundPieces("mod_", ",mod_");
    assert ps[0] == Copy('m') && ps[1] == Copy('o') && ps[2] == Copy('d') && ps[3] == Copy('_') && ps[4] == Placeholder;
    assert ps[5] == Copy(',') && ps[6] == Copy('m') && ps[7] == Copy('o') && ps[8] == Copy('d') && ps[9] == Copy('_');
  }

  lemma {:induction false} CommaNamePieces(id: string, after: string)
    requires Minted(id) && (after == "" || after[0] == ',')
    ensures var ps := AroundPieces("mod_", ",mod_" + (id + after));
            && MadeThenNamed(ps) && IdText(ps, 10) == id && |ps| == 43 + |after| && ps[43..] == Copies(after)
  {
    TenThenId(id, after);
    FirstTen();
    IdThen(id, after);
    assert Copies(id + after)[33..] == Copies(after);
    TenAndRest(AroundPieces("mod_", ",mod_"), Copies(id + after), after);
  }

  lemma {:induction false} TenAndRest(front: seq<Piece>, rest: seq<Piece>, after: string)
    requires |front| == 10 && ModPrefix(front, 0) && front[4] == Placeholder && front[5] == Copy(',') && ModPrefix(front, 6)
    requires Literal(rest, 0) && rest[33..] == Copies(after) && (after == "" || after[0] == ',')
    ensures var ps := front + rest;
            MadeThenNamed(ps) && IdText(ps, 10) == IdText(rest, 0) && |ps| == 43 + |after| && ps[43..] == Copies(after)
  {
    var ps := front + rest;
    IdLater(front, rest, 0);
    PrefixStays(front, rest, 0);
    PrefixStays(front, rest, 6);
    assert ps[43..] == rest[33..];
    assert after != "" ==> ps[43] == ps[43..][0];
  }

  lemma {:induction false} PrefixStays(front: seq<Piece>, rest: seq<Piece>, k: nat)
    requires ModPrefix(front, k)
    ensures ModPrefix(front + rest, k)
  {
  }

  lemma {:induction false} NameChars(id: string, after: string, b: string)
    requires Minted(id) && Quiet(id + after) && NoTwins(after) && (after == "" || after[0] == ',')
    requires |b| == 38 + |after| && b[..5] == ",mod_" && b[5..] == id + after
    ensures Quiet(b) && NoTwins(b)
    ensures b[0] == ',' && b[1] == 'm' && b[2] == 'o' && b[3] == 'd' && b[4] == '_'
  {
    assert forall i :: 0 <= i < 5 ==> b[i] == ",mod_"[i];
    assert forall i :: 5 <= i < |b| ==> b[i] == (id + after)[i - 5];
  }

  /** And so is a foreign schema name right after one made from a placeholder, which hides it. */
  lemma {:induction false} MadeNameHidesForeign(own: string, foreign: string)
    requires Minted(own) && Minted(foreign) && own != foreign
    ensures var sql := Around("mod_", CommaName(foreign));
            !Accepts(own, sql) && Accepts(own, Resolve(sql, TOKEN, own))
  {
    assert CommaName(foreign) + "" == CommaName(foreign);
    CommaNameText(foreign, "");
    CommaNamePieces(foreign, "");
    HiddenCase(own, foreign, CommaName(foreign), AroundPieces("mod_", CommaName(foreign)));
  }

  lemma {:induction false} HiddenCase(own: string, foreign: string, b: string, ps: seq<Piece>)
    requires Minted(own) && Minted(foreign) && own != foreign && Quiet(b) && NoTwins(b) && ps == AroundPieces("mod_", b)
    requires MadeThenNamed(ps) && |ps| == 43 && IdText(ps, 10) == foreign
    ensures !Accepts(own, Around("mod_", b)) && Accepts(own, Resolve(Around("mod_", b), TOKEN, own))
  {
    AroundVerdicts(own, "mod_", b);
    FirstTwo(ps);
    ForeignIsLooked(Schema, own, foreign, ps, false, 6);
    MadeHides(own, ps);
  }

  // ---------------------------------------------------------------- accepted, then rejected

  /** Another literal schema name after those two. */
  predicate MadeThenTwo(ps: seq<Piece>) {
    MadeThenNamed(ps) && |ps| == 81 && ps[43] == Copy(',') && ModPrefix(ps, 44) && Literal(ps, 48)
  }

  lemma {:induction false} OnlyThree(ps: seq<Piece>, p: Pattern, after: bool, k: nat)
    requires MadeThenTwo(ps) && Named(p, ps, after, k)
    ensures p.Schema? && ((after && k == 0) || k == 6 || k == 44)
  {
  }

  lemma {:induction false} ThirdHidden(ps: seq<Piece>)
    requires MadeThenTwo(ps)
    ensures Seen(ps, false, 6) && !Seen(ps, false, 44)
  {
    FirstTwo(ps);
    SeenHides(ps, false, 6, 44);
  }

  lemma {:induction false} ThirdUncovered(ps: seq<Piece>)
    requires MadeThenTwo(ps)
    ensures Seen(ps, true, 44)
  {
    FirstTwo(ps);
    assert Named(Schema, ps, true, 44);
    forall j: nat | j < 44 && Seen(ps, true, j)
      ensures j + Span(ps, j) + 1 != 44
    {
      OnlyThree(ps, Schema, true, j);
    }
  }

  lemma {:induction false} CoverVerdicts(own: string, foreign: string, ps: seq<Piece>)
    requires Minted(own) && Minted(foreign) && own != foreign
    requires MadeThenTwo(ps) && IdText(ps, 10) == own && IdText(ps, 48) == foreign
    ensures NothingForeign(own, ps, false) && !NothingForeign(own, ps, true)
  {
    ThirdHidden(ps);
    LowerMinted(own);
    forall p: Pattern, k: nat | Looked(p, ps, false, k)
      ensures !Foreign(p, own, ps, k)
    {
      OnlyThree(ps, p, false, k);
    }
    ThirdUncovered(ps);
    ForeignIsLooked(Schema, own, foreign, ps, true, 44);
  }

  lemma {:induction false} CoverCase(own: string, foreign: string, b: string, ps: seq<Piece>)
    requires Minted(own) && Minted(foreign) && own != foreign && Quiet(b) && NoTwins(b) && ps == AroundPieces("mod_", b)
    requires MadeThenTwo(ps) && IdText(ps, 10) == own && IdText(ps, 48) == foreign
    ensures Accepts(own, Around("mod_", b)) && !Accepts(own, Resolve(Around("mod_", b), TOKEN, own))
  {
    AroundVerdicts(own, "mod_", b);
    CoverVerdicts(own, foreign, ps);
  }

  lemma {:induction false} CommaNameCopies(id: string, ps: seq<Piece>)
    requires Minted(id) && |ps| == 81 && ps[43..] == Copies(CommaName(id))
    ensures ps[43] == Copy(',') && ModPrefix(ps, 44) && Literal(ps, 48) && IdText(ps, 48) == id
  {
    assert CommaName(id) == ",mod_" + id;
    assert id + "" == id;
    IdThen(id, "");
    forall i | 43 <= i < 48
      ensures ps[i] == Copy(",mod_"[i - 43])
    {
      assert ps[43..][i - 43] == ps[i];
    }
    assert ps[44] == Copy('m') && ps[45] == Copy('o') && ps[46] == Copy('d') && ps[47] == Copy('_');
    assert ps[48..] == Copies(id);
    assert ps == ps[..48] + Copies(id);
    IdLater(ps[..48], Copies(id), 0);
  }

  lemma {:induction false} CoverPieces(own: string, foreign: string, b: string, ps: seq<Piece>)
    requires Minted(own) && Minted(foreign) && b == CommaName(own) + CommaName(foreign) && ps == AroundPieces("mod_", b)
    ensures Quiet(b) && NoTwins(b) && MadeThenTwo(ps) && IdText(ps, 10) == own && IdText(ps, 48) == foreign
  {
    assert CommaName(foreign) + "" == CommaName(foreign);
    CommaNameText(foreign, "");
    CommaNameText(own, CommaName(foreign));
    CommaNamePieces(own, CommaName(foreign));
    CommaNameCopies(foreign, ps);
  }

  lemma {:induction false} CoverStatement(own: string, foreign: string, b: string, ps: seq<Piece>)
    requires Minted(own) && Minted(foreign) && own != foreign && b == CommaName(own) + CommaName(foreign)
    requires ps == AroundPieces("mod_", b)
    ensures Accepts(own, Around("mod_", b)) && !Accepts(own, Resolve(Around("mod_", b), TOKEN, own))
  {
    CoverPieces(own, foreign, b, ps);
    CoverCase(own, foreign, b, ps);
  }

  /**
   With a literal own ID in the statement the order matters: the own schema
   name hides the foreign one before substitution, and no longer hides it after.
   */
  lemma {:induction false} LiteralOwnIdMatters(own: string, foreign: string)
    requires Minted(own) && Minted(foreign) && own != foreign
    ensures var sql := Around("mod_", CommaName(own) + CommaName(foreign));
            Accepts(own, sql) && !Accepts(own, Resolve(sql, TOKEN, own))
  {
    var b := CommaName(own) + CommaName(foreign);
    CoverStatement(own, foreign, b, AroundPieces("mod_", b));
  }

  /** The own table name and a foreign one, in one word with a placeholder before them. */
  function TwoTables(own: string, foreign: string): string {
    own + ("_" + (foreign + "_x"))
  }

  predicate TwoNamed(ps: seq<Piece>) {
    && |ps| == 70 && ps[0] == Placeholder
    && Literal(ps, 1) && ps[34] == Copy('_') && Literal(ps, 35) && ps[68] == Copy('_') && ps[69] == Copy('x')
  }

  lemma {:induction false} OnlyTables(ps: seq<Piece>, p: Pattern, after: bool, k: nat)
    requires TwoNamed(ps) && Named(p, ps, after, k)
    ensures p.Table? && ((!after && k == 1) || k == 35)
  {
  }

  lemma {:induction false} TableVerdicts(own: string, foreign: string, ps: seq<Piece>)
    requires Minted(own) && Minted(foreign) && own != foreign
    requires TwoNamed(ps) && IdText(ps, 1) == own && IdText(ps, 35) == foreign
    ensures NothingForeign(own, ps, false) && !NothingForeign(own, ps, true)
  {
    LowerMinted(own);
    SecondSwallowed(ps);
    forall p: Pattern, k: nat | Looked(p, ps, false, k)
      ensures !Foreign(p, own, ps, k)
    {
      OnlyTables(ps, p, false, k);
    }
    assert Named(Table, ps, true, 35);
    forall j: nat | j < 35
      ensures !Named(Table, ps, true, j)
    {
      if Named(Table, ps, true, j) {
        OnlyTables(ps, Table, true, j);
      }
    }
    ForeignIsLooked(Table, own, foreign, ps, true, 35);
  }

  lemma {:induction false} SecondSwallowed(ps: seq<Piece>)
    requires TwoNamed(ps)
    ensures !Leads(ps, false, 35)
  {
    assert Named(Table, ps, false, 1);
    assert WordPieces(ps, 1, 35);
  }

  lemma {:induction false} TwoTablesText(own: string, foreign: string)
    requires Minted(own) && Minted(foreign)
    ensures var b := TwoTables(own, foreign);
            Quiet(b) && NoTwins(b) && |b| == 69 && b[33] == '_' && b[67] == '_' && b[68] == 'x'
  {
    IdThen(foreign, "_x");
    IdThen(own, "_" + (foreign + "_x"));
    var b := TwoTables(own, foreign);
    assert b[34..] == foreign + "_x";
    assert forall i :: 34 <= i < 69 ==> b[i] == b[34..][i - 34];
  }

  lemma {:induction false} TwoTablesPieces(own: string, foreign: string)
    requires Minted(own) && Minted(foreign)
    ensures var ps := AroundPieces("", TwoTables(own, foreign));
            TwoNamed(ps) && IdText(ps, 1) == own && IdText(ps, 35) == foreign
  {
    var b := TwoTables(own, foreign);
    AroundNothing(b);
    TwoTablesText(own, foreign);
    IdThen(own, "_" + (foreign + "_x"));
    IdLater([Placeholder], Copies(b), 0);
    SecondTable(foreign, own + "_");
    Regroup([Placeholder], Copies(own + "_"), Copies(foreign + "_x"));
    CopiesSplit(own + "_", foreign + "_x");
    assert own + ("_" + (foreign + "_x")) == (own + "_") + (foreign + "_x");
  }

  lemma {:induction false} CopiesSplit(a: string, b: string)
    ensures Copies(a + b) == Copies(a) + Copies(b)
  {
  }

  lemma {:induction false} SecondTable(foreign: string, front: string)
    requires Minted(foreign) && |front| == 34
    ensures var ps := [Placeholder] + Copies(front) + Copies(foreign + "_x");
            |ps| == 70 && Literal(ps, 35) && IdText(ps, 35) == foreign
  {
    IdThen(foreign, "_x");
    IdLater([Placeholder] + Copies(front), Copies(foreign + "_x"), 0);
  }

  /** A foreign table name behind the own one in its word is uncovered when the own one ceases to be a name. */
  lemma {:induction false} LiteralOwnTableMatters(own: string, foreign: string)
    requires Minted(own) && Minted(foreign) && own != foreign
    ensures var sql := Around("", TwoTables(own, foreign));
            Accepts(own, sql) && !Accepts(own, Resolve(sql, TOKEN, own))
  {
    TwoTablesText(own, foreign);
    TwoTablesPieces(own, foreign);
    AroundVerdicts(own, "", TwoTables(own, foreign));
    TableVerdicts(own, foreign, AroundPieces("", TwoTables(own, foreign)));
  }
}
