/**
 A text as the pieces substitution sees: placeholders and everything else,
 character by character. Where the guard's patterns occur, before and after
 substitution, can then be read off the pieces.
 */
module SqlPieces {
  import opened Wrappers
  import opened SqlScanner
  import opened SqlPlaceholder
  import opened SqlGuard

  const TOKEN := "__MODULE_ID__"

  datatype Piece = Copy(c: char) | Placeholder

  function Pieces(t: string): seq<Piece> {
    if t == "" then []
    else if TOKEN <= t then [Placeholder] + Pieces(t[|TOKEN|..])
    else [Copy(t[0])] + Pieces(t[1..])
  }

  function Letters(piece: Piece, w: string): string {
    match piece case Copy(c) => [c] case Placeholder => w
  }

  function Render(ps: seq<Piece>, w: string): string {
    if ps == [] then "" else Letters(ps[0], w) + Render(ps[1..], w)
  }

  lemma {:induction false} PiecesRender(t: string, id: string)
    ensures Render(Pieces(t), TOKEN) == t
    ensures Render(Pieces(t), id) == Resolve(t, TOKEN, id)
  {
    if t != "" {
      if TOKEN <= t {
        PiecesRender(t[|TOKEN|..], id);
        assert t == TOKEN + t[|TOKEN|..];
        RenderCons(Placeholder, Pieces(t[|TOKEN|..]), TOKEN);
        RenderCons(Placeholder, Pieces(t[|TOKEN|..]), id);
      } else {
        PiecesRender(t[1..], id);
        assert t == [t[0]] + t[1..];
        RenderCons(Copy(t[0]), Pieces(t[1..]), TOKEN);
        RenderCons(Copy(t[0]), Pieces(t[1..]), id);
      }
    }
  }

  lemma {:induction false} RenderCons(piece: Piece, rest: seq<Piece>, w: string)
    ensures Render([piece] + rest, w) == Letters(piece, w) + Render(rest, w)
  {
    assert ([piece] + rest)[1..] == rest;
  }

  /** Whether w is a word that can stand for a placeholder. */
  predicate Stands(w: string) {
    w == TOKEN || Minted(w)
  }

  lemma StandsIsWords(w: string)
    requires Stands(w)
    ensures Words(w) && |w| > 1 && IsWordFold(w[0])
  {
    if Minted(w) {
      MintedWords(w);
    }
  }

  // ---------------------------------------------------------------- where pieces stand

  function Pos(ps: seq<Piece>, w: string, k: nat): nat
    requires k <= |ps|
  {
    if k == 0 then 0 else |Letters(ps[0], w)| + Pos(ps[1..], w, k - 1)
  }

  lemma {:induction false} RenderFrom(ps: seq<Piece>, w: string, k: nat)
    requires k <= |ps|
    ensures Pos(ps, w, k) <= |Render(ps, w)| && Render(ps, w)[Pos(ps, w, k)..] == Render(ps[k..], w)
  {
    if k > 0 {
      RenderFrom(ps[1..], w, k - 1);
      assert ps[1..][k - 1..] == ps[k..];
      var n := |Letters(ps[0], w)|;
      assert Render(ps, w)[n..] == Render(ps[1..], w);
      assert Render(ps, w)[n..][Pos(ps[1..], w, k - 1)..] == Render(ps, w)[Pos(ps, w, k)..];
    } else {
      assert ps[0..] == ps;
    }
  }

  lemma {:induction false} PosNext(ps: seq<Piece>, w: string, k: nat)
    requires k < |ps|
    ensures Pos(ps, w, k + 1) == Pos(ps, w, k) + |Letters(ps[k], w)|
  {
    if k > 0 {
      PosNext(ps[1..], w, k - 1);
    } else {
      assert Pos(ps[1..], w, 0) == 0;
    }
  }

  lemma {:induction false} PosGrows(ps: seq<Piece>, w: string, j: nat, k: nat)
    requires Stands(w) && j < k <= |ps|
    ensures Pos(ps, w, j) < Pos(ps, w, k)
    decreases k
  {
    PosNext(ps, w, k - 1);
    if j < k - 1 {
      PosGrows(ps, w, j, k - 1);
    }
  }

  /** The piece that a position lies at the start of, or inside. */
  lemma {:induction false} PieceAt(ps: seq<Piece>, w: string, q: nat) returns (k: nat)
    requires Stands(w) && q <= |Render(ps, w)|
    ensures k <= |ps| && Pos(ps, w, k) <= q
    ensures Pos(ps, w, k) == q || (k < |ps| && ps[k] == Placeholder && q < Pos(ps, w, k) + |w|)
    decreases |ps|
  {
    if q == 0 || ps == [] {
      k := 0;
    } else {
      var n := |Letters(ps[0], w)|;
      if q < n {
        k := 0;
      } else {
        var j := PieceAt(ps[1..], w, q - n);
        k := j + 1;
      }
    }
  }

  /** The character just before a piece. */
  function Before(ps: seq<Piece>, w: string, k: nat): Option<char>
    requires k <= |ps| && w != ""
  {
    if k == 0 then None else Some(match ps[k - 1] case Copy(c) => c case Placeholder => w[|w| - 1])
  }

  lemma {:induction false} CharOf(ps: seq<Piece>, w: string, k: nat, i: nat)
    requires Stands(w) && k < |ps| && i < |Letters(ps[k], w)|
    ensures Pos(ps, w, k) + i < |Render(ps, w)| && Render(ps, w)[Pos(ps, w, k) + i] == Letters(ps[k], w)[i]
  {
    RenderFrom(ps, w, k);
    var rest := ps[k..];
    assert rest[0] == ps[k];
    assert Render(ps, w)[Pos(ps, w, k)..][i] == Letters(ps[k], w)[i];
  }

  lemma LettersAre(piece: Piece, w: string)
    requires w != ""
    ensures Letters(piece, w) == match piece case Copy(c) => [c] case Placeholder => w
    ensures |Letters(piece, w)| > 0
  {
  }

  lemma {:induction false} PriorIsBefore(ps: seq<Piece>, w: string, k: nat)
    requires k <= |ps| && Stands(w)
    ensures Pos(ps, w, k) <= |Render(ps, w)| && Preceding(Render(ps, w), Pos(ps, w, k)) == Before(ps, w, k)
  {
    RenderFrom(ps, w, k);
    if k > 0 {
      PosNext(ps, w, k - 1);
      LettersAre(ps[k - 1], w);
      CharOf(ps, w, k - 1, |Letters(ps[k - 1], w)| - 1);
    }
  }

  // ---------------------------------------------------------------- names at the front

  /** A literal ID from piece k. */
  predicate Literal(ps: seq<Piece>, k: nat) {
    && k + 33 <= |ps|
    && (forall i :: k <= i < k + 33 ==> ps[i].Copy?)
    && IsLetter(ps[k].c, 'm')
    && (forall i :: k < i < k + 33 ==> IsHexFold(ps[i].c))
  }

  /** "mod_" from piece k. */
  predicate ModPrefix(ps: seq<Piece>, k: nat) {
    && k + 4 <= |ps|
    && (forall i :: k <= i < k + 4 ==> ps[i].Copy?)
    && IsLetter(ps[k].c, 'm') && IsLetter(ps[k + 1].c, 'o') && IsLetter(ps[k + 2].c, 'd') && ps[k + 3].c == '_'
  }

  predicate Ends(ps: seq<Piece>, k: nat) {
    k < |ps| ==> ps[k].Copy? && !IsWordFold(ps[k].c)
  }

  /** A pattern's captured part from piece k, before or after substitution. */
  predicate Name(p: Pattern, ps: seq<Piece>, k: nat, after: bool) {
    match p
    case Table =>
      || (Literal(ps, k) && k + 33 < |ps| && (ps[k + 33] == Copy('_') || (!after && ps[k + 33] == Placeholder)))
      || (after && k + 1 < |ps| && ps[k] == Placeholder && ps[k + 1] == Copy('_'))
    case Schema =>
      && ModPrefix(ps, k)
      && (|| (Literal(ps, k + 4) && Ends(ps, k + 37))
          || (after && k + 4 < |ps| && ps[k + 4] == Placeholder && Ends(ps, k + 5)))
  }

  lemma {:induction false} RenderedHead(ps: seq<Piece>, w: string)
    requires Stands(w)
    ensures Render(ps, w) == "" <==> ps == []
    ensures ps != [] ==> Render(ps, w)[0] == if ps[0].Copy? then ps[0].c else w[0]
    ensures ps != [] && ps[0].Copy? ==> Render(ps, w)[1..] == Render(ps[1..], w)
    ensures ps != [] && ps[0] == Placeholder ==> |Render(ps, w)| > 1 && Render(ps, w)[1] == w[1]
  {
  }

  /** Characters that do not begin w are copies. */
  lemma {:induction false} CopiesFront(ps: seq<Piece>, w: string, n: nat)
    requires Stands(w) && n <= |Render(ps, w)|
    requires forall i :: 0 <= i < n ==> Render(ps, w)[i] != w[0]
    ensures n <= |ps| && Render(ps, w)[n..] == Render(ps[n..], w)
    ensures forall i :: 0 <= i < n ==> ps[i] == Copy(Render(ps, w)[i])
    decreases n
  {
    if n == 0 {
      assert ps[0..] == ps;
    } else {
      RenderedHead(ps, w);
      var t, more := Render(ps, w), ps[1..];
      assert t[1..] == Render(more, w);
      assert forall i :: 0 <= i < n - 1 ==> t[1..][i] == t[i + 1];
      CopiesFront(more, w, n - 1);
      assert more[n - 1..] == ps[n..] && t[1..][n - 1..] == t[n..];
      assert forall i :: 0 < i < n ==> ps[i] == more[i - 1];
    }
  }

  lemma {:induction false} FrontCopies(ps: seq<Piece>, w: string, n: nat)
    requires n <= |ps| && forall i :: 0 <= i < n ==> ps[i].Copy?
    ensures n <= |Render(ps, w)| && Render(ps, w)[n..] == Render(ps[n..], w)
    ensures forall i :: 0 <= i < n ==> Render(ps, w)[i] == ps[i].c
    decreases n
  {
    if n == 0 {
      assert ps[0..] == ps;
    } else {
      var t, more := Render(ps, w), ps[1..];
      assert t == [ps[0].c] + Render(more, w);
      assert t[1..] == Render(more, w);
      FrontCopies(more, w, n - 1);
      assert more[n - 1..] == ps[n..] && t[1..][n - 1..] == t[n..];
      assert forall i :: 0 < i < n ==> t[i] == t[1..][i - 1] && ps[i] == more[i - 1];
    }
  }

  /** An ID at the front of the text is a literal one, or a substituted placeholder. */
  lemma {:induction false} MintedIs(ps: seq<Piece>, w: string)
    requires Stands(w)
    ensures MintedFold(Render(ps, w)) <==> Literal(ps, 0) || (Minted(w) && ps != [] && ps[0] == Placeholder)
  {
    if Literal(ps, 0) {
      FrontCopies(ps, w, 33);
    } else if ps != [] && ps[0] == Placeholder {
      assert Render(ps, w)[0] == w[0] && Render(ps, w)[1] == w[1];
      assert Minted(w) ==> forall i :: 1 <= i < 33 ==> Render(ps, w)[i] == w[i];
    } else if MintedFold(Render(ps, w)) {
      LiteralIs(ps, w);
    }
  }

  lemma {:induction false} LiteralIs(ps: seq<Piece>, w: string)
    requires Stands(w) && ps != [] && ps[0].Copy? && MintedFold(Render(ps, w))
    ensures Literal(ps, 0)
  {
    var t, more := Render(ps, w), ps[1..];
    RenderedHead(ps, w);
    assert forall i :: 0 <= i < 32 ==> t[1..][i] == t[i + 1];
    CopiesFront(more, w, 32);
    assert forall i :: 1 <= i < 33 ==> ps[i] == more[i - 1];
  }

  lemma {:induction false} LiteralRest(ps: seq<Piece>, w: string)
    requires Literal(ps, 0)
    ensures |Render(ps, w)| >= 33 && Render(ps, w)[33..] == Render(ps[33..], w)
  {
    FrontCopies(ps, w, 33);
  }

  lemma {:induction false} PlaceholderRest(ps: seq<Piece>, w: string)
    requires ps != [] && ps[0] == Placeholder
    ensures |Render(ps, w)| >= |w| && Render(ps, w)[|w|..] == Render(ps[1..], w)
  {
  }

  lemma {:induction false} UnderscoreIs(ps: seq<Piece>, w: string)
    requires Stands(w)
    ensures Render(ps, w) != "" && Render(ps, w)[0] == '_' <==>
              ps != [] && (ps[0] == Copy('_') || (w == TOKEN && ps[0] == Placeholder))
  {
    RenderedHead(ps, w);
  }

  lemma {:induction false} EndsIs(ps: seq<Piece>, w: string)
    requires Stands(w)
    ensures (Render(ps, w) == "" || !IsWordFold(Render(ps, w)[0])) <==> Ends(ps, 0)
  {
    StandsIsWords(w);
    RenderedHead(ps, w);
  }

  lemma {:induction false} TableNameIs(ps: seq<Piece>, w: string)
    requires Stands(w)
    ensures Body(Table, Render(ps, w)) <==> Name(Table, ps, 0, Minted(w))
  {
    var t := Render(ps, w);
    MintedIs(ps, w);
    if Literal(ps, 0) {
      LiteralRest(ps, w);
      UnderscoreIs(ps[33..], w);
      assert |t| > 33 ==> t[33] == t[33..][0];
    } else if MintedFold(t) {
      PlaceholderRest(ps, w);
      UnderscoreIs(ps[1..], w);
      assert |t| > 33 ==> t[33] == t[33..][0];
    }
  }

  /** "mod_" before an ID is never part of a placeholder's word. */
  lemma {:induction false} SchemaFrontIs(ps: seq<Piece>, w: string)
    requires Stands(w) && Body(Schema, Render(ps, w))
    ensures ModPrefix(ps, 0)
  {
    var t, more := Render(ps, w), ps[1..];
    RenderedHead(ps, w);
    assert t[1..][0] == t[1] && t[1..][1] == t[2];
    CopiesFront(more, w, 2);
    assert more[2..] == ps[3..] && t[1..][2..] == t[3..];
    UnderscoreBeforeId(ps[3..], w, t[3..]);
    assert ps[1] == more[0] && ps[2] == more[1] && ps[3] == ps[3..][0];
  }

  lemma {:induction false} UnderscoreBeforeId(ps: seq<Piece>, w: string, t: string)
    requires Stands(w) && t == Render(ps, w) && |t| > 1 && t[0] == '_' && IsLetter(t[1], 'm')
    ensures ps != [] && ps[0] == Copy('_')
  {
    RenderedHead(ps, w);
  }

  lemma {:induction false} SchemaNameIs(ps: seq<Piece>, w: string)
    requires Stands(w)
    ensures Body(Schema, Render(ps, w)) <==> Name(Schema, ps, 0, Minted(w))
  {
    var t := Render(ps, w);
    if Body(Schema, t) {
      SchemaFrontIs(ps, w);
    }
    if ModPrefix(ps, 0) {
      FrontCopies(ps, w, 4);
      var rest := ps[4..];
      MintedIs(rest, w);
      if Literal(rest, 0) {
        LiteralRest(rest, w);
        assert rest[33..] == ps[37..];
        SchemaEnd(t, ps[37..], w);
      } else if MintedFold(t[4..]) {
        PlaceholderRest(rest, w);
        assert rest[1..] == ps[5..];
        SchemaEnd(t, ps[5..], w);
      }
    }
  }

  lemma {:induction false} SchemaEnd(t: string, rest: seq<Piece>, w: string)
    requires Stands(w) && |t| >= 37 && t[4..][33..] == Render(rest, w)
    ensures (|t| == 37 || !IsWordFold(t[37])) <==> Ends(rest, 0)
  {
    EndsIs(rest, w);
    assert t[4..][33..] == t[37..];
  }

  lemma {:induction false} NameIs(p: Pattern, ps: seq<Piece>, w: string)
    requires Stands(w)
    ensures Body(p, Render(ps, w)) <==> Name(p, ps, 0, Minted(w))
  {
    match p
    case Table => TableNameIs(ps, w);
    case Schema => SchemaNameIs(ps, w);
  }

  // ---------------------------------------------------------------- names anywhere

  /** A name may start at a piece: a placeholder bounds a table name only while its token ends in an underscore. */
  predicate Bounded(p: Pattern, ps: seq<Piece>, after: bool, k: nat)
    requires k <= |ps|
  {
    k == 0 || match ps[k - 1] case Copy(c) => Boundary(p, Some(c)) case Placeholder => p.Table? && !after
  }

  /** The pattern occurs with its captured part starting at piece k. */
  predicate Named(p: Pattern, ps: seq<Piece>, after: bool, k: nat) {
    k <= |ps| && Bounded(p, ps, after, k) && Name(p, ps, k, after)
  }

  lemma {:induction false} BoundedIs(p: Pattern, ps: seq<Piece>, w: string, k: nat)
    requires Stands(w) && k <= |ps|
    ensures Boundary(p, Before(ps, w, k)) <==> Bounded(p, ps, Minted(w), k)
  {
    if Minted(w) {
      assert IsLowerHex(w[32]);
    }
  }

  lemma {:induction false} LiteralFrom(ps: seq<Piece>, k: nat, o: nat)
    requires k <= |ps|
    ensures Literal(ps[k..], o) <==> Literal(ps, k + o)
  {
    var rest := ps[k..];
    if Literal(rest, o) {
      assert forall i :: k + o <= i < k + o + 33 ==> ps[i] == rest[i - k];
    }
    if Literal(ps, k + o) {
      assert forall i :: o <= i < o + 33 ==> rest[i] == ps[k + i];
    }
  }

  lemma {:induction false} NameFrom(p: Pattern, ps: seq<Piece>, k: nat, after: bool)
    requires k <= |ps|
    ensures Name(p, ps[k..], 0, after) <==> Name(p, ps, k, after)
  {
    var rest := ps[k..];
    LiteralFrom(ps, k, 0);
    LiteralFrom(ps, k, 4);
    assert forall i :: 0 <= i < 6 && i < |rest| ==> rest[i] == ps[k + i];
    assert |rest| > 33 ==> rest[33] == ps[k + 33];
    assert |rest| > 37 ==> rest[37] == ps[k + 37];
  }

  lemma {:induction false} NamedIs(p: Pattern, ps: seq<Piece>, w: string, k: nat)
    requires Stands(w) && k <= |ps|
    ensures At(p, Render(ps, w), Pos(ps, w, k)) <==> Named(p, ps, Minted(w), k)
  {
    RenderFrom(ps, w, k);
    PriorIsBefore(ps, w, k);
    BoundedIs(p, ps, w, k);
    NameIs(p, ps[k..], w);
    NameFrom(p, ps, k, Minted(w));
  }

  /** No name starts inside a placeholder's word. */
  lemma {:induction false} NotInside(p: Pattern, ps: seq<Piece>, w: string, k: nat, q: nat)
    requires Stands(w) && k < |ps| && ps[k] == Placeholder && Pos(ps, w, k) < q < Pos(ps, w, k) + |w|
    ensures !At(p, Render(ps, w), q)
  {
    var at := Pos(ps, w, k);
    forall i | q - at <= i < |w|
      ensures at + i < |Render(ps, w)| && Render(ps, w)[at + i] == w[i]
    {
      CharOf(ps, w, k, i);
    }
    CharOf(ps, w, k, |w| - 1);
    InsideWord(p, w, q - at, Render(ps, w)[q..]);
  }

  lemma {:induction false} InsideWord(p: Pattern, w: string, o: nat, u: string)
    requires Stands(w) && 0 < o < |w| && |w| - o <= |u| && forall i :: o <= i < |w| ==> u[i - o] == w[i]
    ensures !Body(p, u)
  {
    assert u[0] == w[o];
    if w == TOKEN && o == 2 {
      assert u[3 - 2] == w[3] && u[4 - 2] == w[4] && u[5 - 2] == w[5];
    }
  }

  /** Names start at pieces. */
  lemma {:induction false} NamePiece(p: Pattern, ps: seq<Piece>, w: string, q: nat) returns (k: nat)
    requires Stands(w) && At(p, Render(ps, w), q)
    ensures k <= |ps| && Pos(ps, w, k) == q && Named(p, ps, Minted(w), k)
  {
    k := PieceAt(ps, w, q);
    if Pos(ps, w, k) != q {
      NotInside(p, ps, w, k, q);
    }
    NamedIs(p, ps, w, k);
  }
}
