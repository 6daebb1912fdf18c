/**
 The guard's verdict before and after substitution, both read off the pieces of
 the stripped statement: when the two agree, and when they do not.
 */
module SqlVerdicts {
  import opened Wrappers
  import opened SqlScanner
  import opened SqlPlaceholder
  import opened SqlSubstitution
  import opened SqlGuard
  import opened SqlPieces

  // ---------------------------------------------------------------- what the guard looks at, on pieces

  predicate IsWordPiece(piece: Piece) {
    match piece case Copy(c) => IsWordFold(c) case Placeholder => true
  }

  predicate WordPieces(ps: seq<Piece>, a: nat, b: nat)
    requires a <= b < |ps|
  {
    forall i :: a <= i <= b ==> IsWordPiece(ps[i])
  }

  /** A table name that no earlier table name of the same word swallows. */
  predicate Leads(ps: seq<Piece>, after: bool, k: nat) {
    Named(Table, ps, after, k) && forall j :: 0 <= j < k && Named(Table, ps, after, j) ==> !WordPieces(ps, j, k)
  }

  /** How many pieces the schema name at k is made of: a placeholder is one piece, a literal ID is 33. */
  function Span(ps: seq<Piece>, k: nat): nat {
    if k + 4 < |ps| && ps[k + 4] == Placeholder then 5 else 37
  }

  /** A schema name that no visible one just before it hides. */
  predicate Seen(ps: seq<Piece>, after: bool, k: nat)
    decreases k
  {
    Named(Schema, ps, after, k) && forall j :: 0 <= j < k && Seen(ps, after, j) ==> j + Span(ps, j) + 1 != k
  }

  predicate Looked(p: Pattern, ps: seq<Piece>, after: bool, k: nat) {
    match p case Table => Leads(ps, after, k) case Schema => Seen(ps, after, k)
  }

  function IdText(ps: seq<Piece>, k: nat): string
    requires Literal(ps, k)
  {
    seq(33, i requires 0 <= i < 33 => ps[k + i].c)
  }

  /** A name made with a literal ID that is not the module's own. */
  predicate Foreign(p: Pattern, own: string, ps: seq<Piece>, k: nat) {
    Literal(ps, k + IdOffset(p)) && Lower(IdText(ps, k + IdOffset(p))) != own
  }

  // ---------------------------------------------------------------- the same, on text

  lemma {:induction false} SliceIs(t: string, q: nat, x: string)
    requires q + |x| <= |t| && forall i :: 0 <= i < |x| ==> t[q + i] == x[i]
    ensures t[q..q + |x|] == x
  {
  }

  lemma {:induction false} CopyText(ps: seq<Piece>, w: string, k: nat, i: nat)
    requires Stands(w) && Literal(ps, k) && i < 33
    ensures Pos(ps, w, k) + i < |Render(ps, w)| && Render(ps, w)[Pos(ps, w, k) + i] == IdText(ps, k)[i]
  {
    CopiesPos(ps, w, k, i);
    CharOf(ps, w, k + i, 0);
  }

  lemma {:induction false} LiteralText(ps: seq<Piece>, w: string, k: nat)
    requires Stands(w) && Literal(ps, k)
    ensures var t, q := Render(ps, w), Pos(ps, w, k); q + 33 <= |t| && t[q..q + 33] == IdText(ps, k)
  {
    CopyText(ps, w, k, 32);
    forall i | 0 <= i < 33
      ensures Render(ps, w)[Pos(ps, w, k) + i] == IdText(ps, k)[i]
    {
      CopyText(ps, w, k, i);
    }
    SliceIs(Render(ps, w), Pos(ps, w, k), IdText(ps, k));
  }

  lemma {:induction false} MadeText(ps: seq<Piece>, w: string, k: nat)
    requires Minted(w) && k < |ps| && ps[k] == Placeholder
    ensures var t, q := Render(ps, w), Pos(ps, w, k); q + 33 <= |t| && t[q..q + 33] == w
  {
    CharOf(ps, w, k, 32);
    forall i | 0 <= i < 33
      ensures Render(ps, w)[Pos(ps, w, k) + i] == w[i]
    {
      CharOf(ps, w, k, i);
    }
    SliceIs(Render(ps, w), Pos(ps, w, k), w);
  }

  function IdOf(own: string, ps: seq<Piece>, k: nat): string {
    if Literal(ps, k) then IdText(ps, k) else own
  }

  lemma {:induction false} IdIs(own: string, ps: seq<Piece>, w: string, k: nat)
    requires Stands(w) && Minted(own) && (Minted(w) ==> w == own) && k < |ps|
    requires Literal(ps, k) || (Minted(w) && ps[k] == Placeholder)
    ensures var t, q := Render(ps, w), Pos(ps, w, k); q + 33 <= |t| && t[q..q + 33] == IdOf(own, ps, k)
  {
    if Literal(ps, k) {
      LiteralText(ps, w, k);
    } else {
      MadeText(ps, w, k);
    }
  }

  lemma {:induction false} ForeignIs(p: Pattern, own: string, ps: seq<Piece>, k: nat)
    requires Minted(own)
    ensures Lower(IdOf(own, ps, k + IdOffset(p))) == own <==> !Foreign(p, own, ps, k)
  {
    LowerMinted(own);
  }

  /** The pieces before a name's ID are copies, and the ID is literal or made. */
  predicate HoldsId(p: Pattern, ps: seq<Piece>, after: bool, k: nat) {
    && k + IdOffset(p) < |ps|
    && (forall i :: k <= i < k + IdOffset(p) ==> ps[i].Copy?)
    && (Literal(ps, k + IdOffset(p)) || (after && ps[k + IdOffset(p)] == Placeholder))
  }

  lemma {:induction false} NamesHoldIds(p: Pattern, ps: seq<Piece>, after: bool, k: nat)
    requires Named(p, ps, after, k)
    ensures HoldsId(p, ps, after, k)
  {
  }

  lemma {:induction false} ModuleText(p: Pattern, own: string, ps: seq<Piece>, w: string, k: nat)
    requires Stands(w) && Minted(own) && (Minted(w) ==> w == own) && HoldsId(p, ps, Minted(w), k)
    ensures var t, q := Render(ps, w), Pos(ps, w, k);
            q + IdOffset(p) + 33 <= |t| && ModuleAt(p, t, q) == Lower(IdOf(own, ps, k + IdOffset(p)))
  {
    IdPos(p, ps, w, k);
    IdIs(own, ps, w, k + IdOffset(p));
  }

  /** A name's ID, in text and on pieces. */
  lemma {:induction false} ModuleIs(p: Pattern, own: string, ps: seq<Piece>, w: string, k: nat)
    requires Stands(w) && Minted(own) && (Minted(w) ==> w == own) && HoldsId(p, ps, Minted(w), k)
    ensures var t, q := Render(ps, w), Pos(ps, w, k);
            q + IdOffset(p) + 33 <= |t| && (ModuleAt(p, t, q) == own <==> !Foreign(p, own, ps, k))
  {
    ModuleText(p, own, ps, w, k);
    ForeignIs(p, own, ps, k);
  }

  lemma {:induction false} IdPos(p: Pattern, ps: seq<Piece>, w: string, k: nat)
    requires Stands(w) && HoldsId(p, ps, Minted(w), k)
    ensures Pos(ps, w, k + IdOffset(p)) == Pos(ps, w, k) + IdOffset(p)
  {
    CopiesPos(ps, w, k, IdOffset(p));
  }

  lemma {:induction false} OwnIs(p: Pattern, own: string, ps: seq<Piece>, w: string, k: nat)
    requires Stands(w) && Minted(own) && (Minted(w) ==> w == own) && Named(p, ps, Minted(w), k)
    ensures IsOwn(p, own, Render(ps, w), Pos(ps, w, k)) <==> !Foreign(p, own, ps, k)
  {
    NamedIs(p, ps, w, k);
    NamesHoldIds(p, ps, Minted(w), k);
    ModuleIs(p, own, ps, w, k);
  }

  lemma {:induction false} FirstOfPiece(ps: seq<Piece>, w: string, k: nat)
    requires Stands(w) && k < |ps|
    ensures Pos(ps, w, k) < |Render(ps, w)| && (IsWordFold(Render(ps, w)[Pos(ps, w, k)]) <==> IsWordPiece(ps[k]))
  {
    StandsIsWords(w);
    CharOf(ps, w, k, 0);
  }

  lemma {:induction false} InOrder(ps: seq<Piece>, w: string, j: nat, k: nat)
    requires Stands(w) && j <= |ps| && k <= |ps|
    ensures j < k <==> Pos(ps, w, j) < Pos(ps, w, k)
  {
    if j < k {
      PosGrows(ps, w, j, k);
    } else if k < j {
      PosGrows(ps, w, k, j);
    }
  }

  lemma {:induction false} CharInWord(ps: seq<Piece>, w: string, a: nat, b: nat, x: nat)
    requires Stands(w) && a <= b < |ps| && WordPieces(ps, a, b) && Pos(ps, w, a) <= x <= Pos(ps, w, b) < |Render(ps, w)|
    ensures IsWordFold(Render(ps, w)[x])
  {
    var k := PieceAt(ps, w, x);
    InOrder(ps, w, k, a);
    InOrder(ps, w, b, k);
    if k < a {
      PosNext(ps, w, k);
      InOrder(ps, w, a, k + 1);
      assert false;
    }
    StandsIsWords(w);
    CharOf(ps, w, k, x - Pos(ps, w, k));
  }

  lemma {:induction false} SameWordIs(ps: seq<Piece>, w: string, a: nat, b: nat)
    requires Stands(w) && a <= b < |ps|
    ensures Pos(ps, w, a) <= Pos(ps, w, b) < |Render(ps, w)|
    ensures SameWord(Render(ps, w), Pos(ps, w, a), Pos(ps, w, b)) <==> WordPieces(ps, a, b)
  {
    InOrder(ps, w, b, a);
    FirstOfPiece(ps, w, b);
    if WordPieces(ps, a, b) {
      forall x | Pos(ps, w, a) <= x <= Pos(ps, w, b)
        ensures IsWordFold(Render(ps, w)[x])
      {
        CharInWord(ps, w, a, b, x);
      }
    }
    if SameWord(Render(ps, w), Pos(ps, w, a), Pos(ps, w, b)) {
      forall i | a <= i <= b
        ensures IsWordPiece(ps[i])
      {
        InOrder(ps, w, i, a);
        InOrder(ps, w, b, i);
        FirstOfPiece(ps, w, i);
      }
    }
  }

  lemma {:induction false} LeadsIs(ps: seq<Piece>, w: string, k: nat)
    requires Stands(w) && k <= |ps|
    ensures LeadsWord(Render(ps, w), Pos(ps, w, k)) <==> Leads(ps, Minted(w), k)
  {
    var t, q := Render(ps, w), Pos(ps, w, k);
    NamedIs(Table, ps, w, k);
    if LeadsWord(t, q) {
      forall j: nat | j < k && Named(Table, ps, Minted(w), j)
        ensures !WordPieces(ps, j, k)
      {
        NamedIs(Table, ps, w, j);
        InOrder(ps, w, j, k);
        SameWordIs(ps, w, j, k);
      }
    }
    if Leads(ps, Minted(w), k) {
      forall q0: nat | q0 < q && At(Table, t, q0)
        ensures !SameWord(t, q0, q)
      {
        var j := NamePiece(Table, ps, w, q0);
        InOrder(ps, w, j, k);
        SameWordIs(ps, w, j, k);
      }
    }
  }

  /** A schema name is 37 characters however it is made, and a separator is one piece. */
  lemma {:induction false} SpanIs(ps: seq<Piece>, w: string, j: nat)
    requires Stands(w) && Named(Schema, ps, Minted(w), j)
    ensures j + Span(ps, j) <= |ps| && Pos(ps, w, j + Span(ps, j)) == Pos(ps, w, j) + 37
    ensures j + Span(ps, j) < |ps| ==> Pos(ps, w, j + Span(ps, j) + 1) == Pos(ps, w, j) + 38
  {
    CopiesPos(ps, w, j, 4);
    if Literal(ps, j + 4) {
      CopiesPos(ps, w, j + 4, 33);
    } else {
      PosNext(ps, w, j + 4);
    }
    if j + Span(ps, j) < |ps| {
      PosNext(ps, w, j + Span(ps, j));
    }
  }

  lemma {:induction false} CopiesPos(ps: seq<Piece>, w: string, k: nat, n: nat)
    requires k + n <= |ps| && forall i :: k <= i < k + n ==> ps[i].Copy?
    ensures Pos(ps, w, k + n) == Pos(ps, w, k) + n
  {
    if n > 0 {
      CopiesPos(ps, w, k, n - 1);
      PosNext(ps, w, k + n - 1);
    }
  }

  lemma {:induction false} HiddenOnText(ps: seq<Piece>, w: string, j: nat, k: nat)
    requires Stands(w) && Named(Schema, ps, Minted(w), j) && j + Span(ps, j) + 1 == k <= |ps|
    requires Visible(Render(ps, w), Pos(ps, w, j))
    ensures Pos(ps, w, k) >= 38 && Visible(Render(ps, w), Pos(ps, w, k) - 38)
  {
    SpanIs(ps, w, j);
  }

  /** A schema name that is not seen has a seen one just before it. */
  lemma {:induction false} HidingName(ps: seq<Piece>, after: bool, k: nat) returns (j: nat)
    requires Named(Schema, ps, after, k) && !Seen(ps, after, k)
    ensures j < k && Seen(ps, after, j) && j + Span(ps, j) + 1 == k
  {
    j :| 0 <= j < k && Seen(ps, after, j) && j + Span(ps, j) + 1 == k;
  }

  lemma {:induction false} SeenHides(ps: seq<Piece>, after: bool, j: nat, k: nat)
    requires Seen(ps, after, j) && j + Span(ps, j) + 1 == k
    ensures !Seen(ps, after, k)
  {
  }

  lemma {:induction false} VisibleStep(t: string, q: nat)
    requires At(Schema, t, q)
    ensures Visible(t, q) <==> !(q >= 38 && Visible(t, q - 38))
  {
  }

  lemma {:induction false} SeenIs(ps: seq<Piece>, w: string, k: nat)
    requires Stands(w) && k <= |ps|
    ensures Visible(Render(ps, w), Pos(ps, w, k)) <==> Seen(ps, Minted(w), k)
    decreases k
  {
    var t, q := Render(ps, w), Pos(ps, w, k);
    NamedIs(Schema, ps, w, k);
    if At(Schema, t, q) {
      VisibleStep(t, q);
      if Visible(t, q) {
        VisibleIsSeen(ps, w, k, t, q);
      } else {
        var j := NamePiece(Schema, ps, w, q - 38);
        InOrder(ps, w, j, k);
        SeenIs(ps, w, j);
        HiddenBy(ps, w, j, k);
        SeenHides(ps, Minted(w), j, k);
      }
    }
  }

  lemma {:induction false} VisibleIsSeen(ps: seq<Piece>, w: string, k: nat, t: string, q: nat)
    requires Stands(w) && k <= |ps| && t == Render(ps, w) && q == Pos(ps, w, k)
    requires Named(Schema, ps, Minted(w), k) && !(q >= 38 && Visible(t, q - 38))
    ensures Seen(ps, Minted(w), k)
    decreases k, 0
  {
    if !Seen(ps, Minted(w), k) {
      var j := HidingName(ps, Minted(w), k);
      SeenIs(ps, w, j);
      HiddenOnText(ps, w, j, k);
    }
  }

  lemma {:induction false} HiddenBy(ps: seq<Piece>, w: string, j: nat, k: nat)
    requires Stands(w) && k <= |ps| && Named(Schema, ps, Minted(w), j) && Pos(ps, w, j) + 38 == Pos(ps, w, k)
    ensures j + Span(ps, j) + 1 == k
  {
    SpanIs(ps, w, j);
    InOrder(ps, w, j + Span(ps, j), k);
    InOrder(ps, w, j + Span(ps, j) + 1, k);
    InOrder(ps, w, k, j + Span(ps, j) + 1);
  }

  lemma {:induction false} LookedIs(p: Pattern, ps: seq<Piece>, w: string, k: nat)
    requires Stands(w) && k <= |ps|
    ensures Taken(p, Render(ps, w), Pos(ps, w, k)) <==> Looked(p, ps, Minted(w), k)
  {
    match p
    case Table =>
      LeadsIs(ps, w, k);
      TablesLookedAt(Render(ps, w), Pos(ps, w, k));
    case Schema =>
      SeenIs(ps, w, k);
      SchemasLookedAt(Render(ps, w), Pos(ps, w, k));
  }

  /** No name the guard looks at is a foreign one. */
  ghost predicate NothingForeign(own: string, ps: seq<Piece>, after: bool) {
    forall p: Pattern, k: nat :: Looked(p, ps, after, k) ==> !Foreign(p, own, ps, k)
  }

  lemma {:induction false} PatternVerdict(p: Pattern, own: string, ps: seq<Piece>, w: string)
    requires Stands(w) && Minted(own) && (Minted(w) ==> w == own)
    ensures AllOwn(p, own, Render(ps, w)) <==> forall k: nat :: Looked(p, ps, Minted(w), k) ==> !Foreign(p, own, ps, k)
  {
    var t := Render(ps, w);
    AllOwnIsTaken(p, own, t);
    if AllOwn(p, own, t) {
      forall k: nat | Looked(p, ps, Minted(w), k)
        ensures !Foreign(p, own, ps, k)
      {
        LookedIs(p, ps, w, k);
        OwnIs(p, own, ps, w, k);
      }
    }
    if forall k: nat :: Looked(p, ps, Minted(w), k) ==> !Foreign(p, own, ps, k) {
      forall q: nat | Taken(p, t, q)
        ensures IsOwn(p, own, t, q)
      {
        var k := NamePiece(p, ps, w, q);
        LookedIs(p, ps, w, k);
        OwnIs(p, own, ps, w, k);
      }
    }
  }

  lemma {:induction false} Verdict(own: string, ps: seq<Piece>, w: string)
    requires Stands(w) && Minted(own) && (Minted(w) ==> w == own)
    ensures AllOwn(Table, own, Render(ps, w)) && AllOwn(Schema, own, Render(ps, w)) <==> NothingForeign(own, ps, Minted(w))
  {
    PatternVerdict(Table, own, ps, w);
    PatternVerdict(Schema, own, ps, w);
  }

  /** The verdict on the statement as the guard sees it. */
  lemma {:induction false} VerdictBefore(own: string, sql: string)
    requires Minted(own)
    ensures Accepts(own, sql) <==> NothingForeign(own, Pieces(Strip(sql)), false)
  {
    PiecesRender(Strip(sql), own);
    Verdict(own, Pieces(Strip(sql)), TOKEN);
  }

  /** The verdict there would be on the statement that is executed. */
  lemma {:induction false} VerdictAfter(own: string, sql: string)
    requires Minted(own) && TagsApart(sql, TOKEN, own)
    ensures Accepts(own, Resolve(sql, TOKEN, own)) <==> NothingForeign(own, Pieces(Strip(sql)), true)
  {
    StripCommutes(sql, TOKEN, own);
    PiecesRender(Strip(sql), own);
    Verdict(own, Pieces(Strip(sql)), own);
  }

  // ---------------------------------------------------------------- what substitution does to a name

  /** No placeholder stands right before or right after the ID. */
  predicate Untouched(ps: seq<Piece>, k: nat) {
    (k == 0 || k > |ps| || ps[k - 1] != Placeholder) && (k + 33 >= |ps| || ps[k + 33] != Placeholder)
  }

  /** A name that substitution makes out of a placeholder. */
  predicate Made(p: Pattern, ps: seq<Piece>, k: nat) {
    Named(p, ps, true, k) && k + IdOffset(p) < |ps| && ps[k + IdOffset(p)] == Placeholder
  }

  /** A table name stays one exactly when no placeholder touches it; a schema name always stays one. */
  lemma {:induction false} NamesStay(p: Pattern, ps: seq<Piece>, k: nat)
    ensures Named(p, ps, true, k) <==> Made(p, ps, k) || (Named(p, ps, false, k) && (p.Table? ==> Untouched(ps, k)))
    ensures Named(p, ps, false, k) ==> Literal(ps, k + IdOffset(p))
  {
  }

  /** The schema name one separator before k. */
  ghost function NameBefore(ps: seq<Piece>, after: bool, k: nat): (j: Option<nat>)
    ensures j.Some? ==> j.value < k && Named(Schema, ps, after, j.value) && j.value + Span(ps, j.value) + 1 == k
    ensures j.None? ==> forall i: nat :: i < k && Named(Schema, ps, after, i) ==> i + Span(ps, i) + 1 != k
  {
    if j: nat :| j < k && Named(Schema, ps, after, j) && j + Span(ps, j) + 1 == k then Some(j) else None
  }

  /** How many schema names stand in an unbroken row, one separator apart, before k. */
  ghost function Behind(ps: seq<Piece>, after: bool, k: nat): nat {
    match NameBefore(ps, after, k)
    case None => 0
    case Some(j) => 1 + Behind(ps, after, j)
  }

  lemma {:induction false} BehindNext(ps: seq<Piece>, after: bool, j: nat, k: nat)
    requires NameBefore(ps, after, k) == Some(j)
    ensures Behind(ps, after, k) == 1 + Behind(ps, after, j)
  {
  }

  /** Every second name of a row is seen. */
  lemma {:induction false} SeenIsEven(ps: seq<Piece>, after: bool, k: nat)
    requires Named(Schema, ps, after, k)
    ensures Seen(ps, after, k) <==> Behind(ps, after, k) % 2 == 0
    decreases k
  {
    match NameBefore(ps, after, k)
    case None => FirstIsSeen(ps, after, k);
    case Some(j) => NextIsSeen(ps, after, j, k);
  }

  lemma {:induction false} FirstIsSeen(ps: seq<Piece>, after: bool, k: nat)
    requires Named(Schema, ps, after, k) && NameBefore(ps, after, k).None?
    ensures Seen(ps, after, k) && Behind(ps, after, k) == 0
  {
    if !Seen(ps, after, k) {
      var j := HidingName(ps, after, k);
    }
  }

  lemma {:induction false} NextIsSeen(ps: seq<Piece>, after: bool, j: nat, k: nat)
    requires Named(Schema, ps, after, k) && NameBefore(ps, after, k) == Some(j)
    ensures Seen(ps, after, k) <==> Behind(ps, after, k) % 2 == 0
    decreases k, 0
  {
    SeenIsEven(ps, after, j);
    AlternatesWith(ps, after, j, k);
    BehindNext(ps, after, j, k);
    Alternating(Behind(ps, after, j));
  }

  lemma Alternating(n: nat)
    ensures (1 + n) % 2 == 0 <==> n % 2 != 0
  {
  }

  lemma {:induction false} AlternatesWith(ps: seq<Piece>, after: bool, j: nat, k: nat)
    requires Named(Schema, ps, after, j) && Named(Schema, ps, after, k) && j + Span(ps, j) + 1 == k
    ensures Seen(ps, after, k) <==> !Seen(ps, after, j)
  {
    if Seen(ps, after, j) {
      SeenHides(ps, after, j, k);
    } else if !Seen(ps, after, k) {
      var i := HidingName(ps, after, k);
      OneBefore(ps, after, i, j);
    }
  }

  /** Two schema names that end at the same place are the same. */
  lemma {:induction false} OneBefore(ps: seq<Piece>, after: bool, i: nat, j: nat)
    requires Named(Schema, ps, after, i) && Named(Schema, ps, after, j) && i + Span(ps, i) == j + Span(ps, j)
    ensures i == j
  {
    if i < j {
      InsideName(ps, after, i, j);
    } else if j < i {
      InsideName(ps, after, j, i);
    }
  }

  /** No schema name starts inside another. */
  lemma {:induction false} InsideName(ps: seq<Piece>, after: bool, i: nat, j: nat)
    requires Named(Schema, ps, after, i) && i < j < i + Span(ps, i)
    ensures !Named(Schema, ps, after, j)
  {
  }
}
