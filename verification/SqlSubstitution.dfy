/** Why stripping commutes with substitution: regions keep their kind and extent, and words survive. */
module SqlSubstitution {
  import opened Wrappers
  import opened Sequences
  import opened SqlScanner
  import opened SqlPlaceholder

  // ---------------------------------------------------------------- dollar quotes

  lemma FirstReflects(w: string, u: string, token: string, id: string)
    requires IsToken(token) && Minted(id)
    requires w != "" && w[0] != 'm' && w <= Resolve(u, token, id)
    ensures u != "" && !(token <= u) && u[0] == w[0]
    ensures w[1..] <= Resolve(u[1..], token, id)
    ensures Resolve(u, token, id) == [u[0]] + Resolve(u[1..], token, id)
  {
    ResolvedEmpty(u, token, id);
    ResolvedHead(u, token, id);
    assert w[0] == Resolve(u, token, id)[0];
    assert u == [u[0]] + u[1..];
    ResolveChar(u[0], u[1..], token, id);
    assert w == [w[0]] + w[1..];
    SameFrontPrefix([w[0]], w[1..], Resolve(u[1..], token, id));
  }

  lemma {:induction false} HexReflects(w: string, u: string, token: string, id: string)
    requires IsToken(token) && Minted(id)
    requires w <= Resolve(u, token, id) && forall i :: 0 <= i < |w| ==> w[i] != 'm' && w[i] != 'M'
    ensures w <= u && Resolve(u, token, id) == w + Resolve(u[|w|..], token, id)
    decreases |w|
  {
    if w == "" {
      assert u[0..] == u;
    } else {
      FirstReflects(w, u, token, id);
      HexReflects(w[1..], u[1..], token, id);
      assert w == [w[0]] + w[1..] && u == [u[0]] + u[1..];
      assert u[|w|..] == u[1..][|w| - 1..];
      Regroup([w[0]], w[1..], Resolve(u[|w|..], token, id));
    }
  }

  lemma LiteralId(u: string, token: string, id: string)
    requires IsToken(token) && Minted(id)
    requires id <= Resolve(u, token, id) && !(token <= u)
    ensures id <= u
  {
    ResolvedHead(u, token, id);
    var more := u[1..];
    assert u == [u[0]] + more;
    ResolveChar(u[0], more, token, id);
    assert id[1..] <= Resolve(more, token, id) by {
      assert Resolve(u, token, id)[1..] == Resolve(more, token, id);
    }
    HexReflects(id[1..], more, token, id);
    assert id == [u[0]] + id[1..];
  }

  /** If the ID is absent from a text, substituted text starts with it only where the token stood. */
  lemma IdMeansToken(u: string, token: string, id: string)
    requires IsToken(token) && Minted(id) && Absent(id, u)
    requires id <= Resolve(u, token, id)
    ensures token <= u
  {
    assert u[0..] == u;
    if !(token <= u) {
      LiteralId(u, token, id);
    }
  }

  /** Substitution reflects prefixes that end outside a word, when the ID appears in neither text. */
  lemma {:induction false} PrefixReflects(a: string, u: string, token: string, id: string)
    requires IsToken(token) && Minted(id) && Absent(id, a) && Absent(id, u)
    requires a != "" ==> !IsTagChar(a[|a| - 1])
    requires Resolve(a, token, id) <= Resolve(u, token, id)
    ensures a <= u
    decreases |a|
  {
    if a != "" {
      ResolvedHead(a, token, id);
      ResolvedEmpty(u, token, id);
      if token <= a {
        var b := a[|token|..];
        assert id <= Resolve(u, token, id);
        IdMeansToken(u, token, id);
        var v := u[|token|..];
        AbsentSuffix(id, a, |token|);
        AbsentSuffix(id, u, |token|);
        SameFrontPrefix(id, Resolve(b, token, id), Resolve(v, token, id));
        PrefixReflects(b, v, token, id);
        assert a == token + b && u == token + v;
      } else {
        PrefixReflectsChar(a, u, token, id);
        ResolvedHead(u, token, id);
        var b, v := a[1..], u[1..];
        AbsentSuffix(id, a, 1);
        AbsentSuffix(id, u, 1);
        SameFrontPrefix([a[0]], Resolve(b, token, id), Resolve(v, token, id));
        PrefixReflects(b, v, token, id);
        assert a == [a[0]] + b && u == [u[0]] + v;
      }
    }
  }

  lemma SameFrontPrefix(c: string, x: string, y: string)
    requires c + x <= c + y
    ensures x <= y
  {
    assert x == (c + x)[|c|..] && y == (c + y)[|c|..];
  }

  /** A text that ends outside a word and lacks the ID does not begin where a token was replaced. */
  lemma PrefixReflectsChar(a: string, u: string, token: string, id: string)
    requires IsToken(token) && Minted(id) && Absent(id, a) && a != "" && u != "" && !IsTagChar(a[|a| - 1]) && !(token <= a)
    requires Resolve(a, token, id) <= Resolve(u, token, id)
    ensures !(token <= u) && a[0] == u[0]
  {
    ResolvedHead(a, token, id);
    ResolvedHead(u, token, id);
    assert Resolve(a, token, id)[0] == Resolve(u, token, id)[0];
    var r := Resolve(a, token, id);
    LastChar(a, token, id);
    MintedWords(id);
    if token <= u {
      if |r| <= |id| {
        LastOfPrefix(r, id, Resolve(u[|token|..], token, id));
      } else {
        assert id <= r;
        IdMeansToken(a, token, id);
      }
    }
  }

  lemma LastOfPrefix(r: string, w: string, x: string)
    requires r <= w + x && 0 < |r| <= |w|
    ensures r[|r| - 1] == w[|r| - 1]
  {
    assert r[|r| - 1] == (w + x)[|r| - 1];
  }

  lemma {:induction false} LastChar(a: string, token: string, id: string)
    requires IsToken(token) && Minted(id) && a != "" && !IsTagChar(a[|a| - 1])
    ensures Resolve(a, token, id) != "" && Resolve(a, token, id)[|Resolve(a, token, id)| - 1] == a[|a| - 1]
  {
    var front, last := a[..|a| - 1], [a[|a| - 1]];
    assert a == front + last;
    ResolveSplits(front, last, token, id);
    ResolvedHead(last, token, id);
    assert last[1..] == "";
  }

  lemma {:induction false} IndexSkips(w: string, t: string, d: string)
    requires Words(w) && d != "" && d[0] == '$'
    ensures Index(w + t, d) == Shifted(Index(t, d), |w|)
  {
    if w != "" {
      var more := w[1..] + t;
      assert w + t == [w[0]] + more;
      FrontDiffers(w[0], more, d);
      IndexPast(w[0], more, d);
      IndexSkips(w[1..], t, d);
    } else {
      assert w + t == t;
    }
  }

  lemma FrontDiffers(c: char, more: string, d: string)
    requires d != "" && d[0] != c
    ensures !(d <= [c] + more)
  {
    assert ([c] + more)[0] == c;
  }

  predicate IsDelimiter(d: string) {
    |d| >= 2 && d[0] == '$' && d[|d| - 1] == '$'
  }

  /** No text but d itself turns into the substituted d: the ID stands in neither text, or not even in the substituted d. */
  ghost predicate Apart(d: string, u: string, token: string, id: string)
    requires token != ""
  {
    (Absent(id, d) && Absent(id, u)) || Absent(id, Resolve(d, token, id))
  }

  lemma {:induction false} ApartSuffix(d: string, u: string, n: nat, token: string, id: string)
    requires token != "" && n <= |u| && Apart(d, u, token, id)
    ensures Apart(d, u[n..], token, id)
  {
    if Absent(id, u) {
      AbsentSuffix(id, u, n);
    }
  }

  /** A text that holds no ID and ends outside a word is reflected as it stands. */
  lemma {:induction false} PlainReflects(a: string, u: string, token: string, id: string)
    requires IsToken(token) && Minted(id) && Absent(id, a) && (a != "" ==> !IsTagChar(a[|a| - 1]))
    requires a <= Resolve(u, token, id)
    ensures a <= u
    decreases |a|
  {
    if a != "" {
      ResolvedEmpty(u, token, id);
      ResolvedHead(u, token, id);
      NotUnderId(a, u, token, id);
      var b, v := a[1..], u[1..];
      assert a == [a[0]] + b && u == [u[0]] + v;
      ResolveChar(u[0], v, token, id);
      assert a[0] == Resolve(u, token, id)[0];
      AbsentSuffix(id, a, 1);
      SameFrontPrefix([a[0]], b, Resolve(v, token, id));
      PlainReflects(b, v, token, id);
    }
  }

  lemma {:induction false} NotUnderId(a: string, u: string, token: string, id: string)
    requires IsToken(token) && Minted(id) && Absent(id, a) && a != "" && !IsTagChar(a[|a| - 1])
    requires a <= Resolve(u, token, id)
    ensures !(token <= u)
  {
    MintedWords(id);
    assert a[0..] == a;
    if token <= u {
      var x := Resolve(u[|token|..], token, id);
      if |a| <= |id| {
        LastOfPrefix(a, id, x);
      } else {
        LongerPrefix(a, id, x);
      }
    }
  }

  lemma {:induction false} LongerPrefix(a: string, w: string, x: string)
    requires a <= w + x && |w| <= |a|
    ensures w <= a
  {
    assert a == (w + x)[..|a|];
  }

  lemma {:induction false} UntouchedByToken(d: string, token: string, id: string)
    requires token != "" && Absent(id, Resolve(d, token, id))
    ensures Resolve(d, token, id) == d
  {
    if d != "" {
      var r := Resolve(d, token, id);
      assert r[0..] == r;
      var more := d[1..];
      assert d == [d[0]] + more;
      if !(token <= d) {
        AbsentSuffix(id, r, 1);
        assert r[1..] == Resolve(more, token, id);
        UntouchedByToken(more, token, id);
      }
    }
  }

  lemma {:induction false} DelimiterReflects(d: string, u: string, token: string, id: string)
    requires IsToken(token) && Minted(id) && IsDelimiter(d) && Apart(d, u, token, id)
    ensures Resolve(d, token, id) <= Resolve(u, token, id) <==> d <= u
    ensures Resolve(d, token, id) != "" && Resolve(d, token, id)[0] == '$'
  {
    ResolvedHead(d, token, id);
    if d <= u {
      assert u == d + u[|d|..];
      ResolveSplits(d, u[|d|..], token, id);
    }
    if Resolve(d, token, id) <= Resolve(u, token, id) {
      if Absent(id, Resolve(d, token, id)) {
        UntouchedByToken(d, token, id);
        PlainReflects(d, u, token, id);
      } else {
        PrefixReflects(d, u, token, id);
      }
    }
  }

  /** Where a search of the substituted text lands, given where the search of the text landed. */
  function Landing(i: Option<nat>, u: string, token: string, id: string): Option<nat>
    requires token != "" && (i.Some? ==> i.value <= |u|)
  {
    match i
    case None => None
    case Some(k) => Some(|Resolve(u[..k], token, id)|)
  }

  function Shifted(i: Option<nat>, n: nat): Option<nat> {
    match i
    case None => None
    case Some(k) => Some(n + k)
  }

  /** Searching substituted text for a substituted delimiter finds the place the original search finds. */
  lemma {:induction false} IndexResolves(u: string, d: string, token: string, id: string)
    requires IsToken(token) && Minted(id) && IsDelimiter(d) && Apart(d, u, token, id)
    ensures Index(Resolve(u, token, id), Resolve(d, token, id)) == Landing(Index(u, d), u, token, id)
    decreases |u|
  {
    DelimiterReflects(d, u, token, id);
    var r := Resolve(d, token, id);
    if d <= u {
      assert u[..0] == "";
    } else if u == "" {
    } else if token <= u {
      var more := u[|token|..];
      assert u == token + more;
      ApartSuffix(d, u, |token|, token, id);
      IndexResolves(more, d, token, id);
      MintedWords(id);
      ResolveToken(more, token, id);
      IndexSkips(token, more, d);
      IndexSkips(id, Resolve(more, token, id), r);
      LandingToken(Index(more, d), more, token, id);
    } else {
      var more := u[1..];
      assert u == [u[0]] + more;
      ApartSuffix(d, u, 1, token, id);
      IndexResolves(more, d, token, id);
      ResolveChar(u[0], more, token, id);
      IndexPast(u[0], more, d);
      IndexPast(u[0], Resolve(more, token, id), r);
      LandingChar(Index(more, d), u[0], more, token, id);
    }
  }

  lemma LandingToken(i: Option<nat>, more: string, token: string, id: string)
    requires token != "" && (i.Some? ==> i.value <= |more|)
    ensures Landing(Shifted(i, |token|), token + more, token, id) == Shifted(Landing(i, more, token, id), |id|)
  {
    if i.Some? {
      assert (token + more)[..|token| + i.value] == token + more[..i.value];
      ResolveToken(more[..i.value], token, id);
    }
  }

  lemma LandingChar(i: Option<nat>, c: char, more: string, token: string, id: string)
    requires token != "" && !(token <= [c] + more) && (i.Some? ==> i.value <= |more|)
    ensures Landing(Shifted(i, 1), [c] + more, token, id) == Shifted(Landing(i, more, token, id), 1)
  {
    if i.Some? {
      assert ([c] + more)[..1 + i.value] == [c] + more[..i.value];
      NotTokenPrefix([c] + more, token, 1 + i.value);
      ResolveChar(c, more[..i.value], token, id);
    }
  }

  lemma IndexPast(c: char, more: string, d: string)
    requires !(d <= [c] + more)
    ensures Index([c] + more, d) == Shifted(Index(more, d), 1)
  {
    assert ([c] + more)[1..] == more;
  }

  // ---------------------------------------------------------------- regions

  /** The same kind of region over another text. */
  function Retext(r: Region, text: string): Region
    requires !r.Plain?
  {
    match r
    case Quoted(_) => Quoted(text)
    case LineComment(_) => LineComment(text)
    case BlockComment(_) => BlockComment(text)
    case DollarQuoted(_) => DollarQuoted(text)
  }

  /** s, whose front region is r, keeps it through substitution, with the region's own text substituted. */
  ghost predicate KeepsRegion(s: string, token: string, id: string)
    requires token != "" && s != ""
  {
    var r, n := FirstRegion(s), |TextOf(FirstRegion(s))|;
    var t := Resolve(s, token, id);
    && t != ""
    && !r.Plain?
    && FirstRegion(t) == Retext(r, Resolve(s[..n], token, id))
    && t == Resolve(s[..n], token, id) + Resolve(s[n..], token, id)
  }

  lemma QuotedFront(u: string)
    ensures FirstRegion(['\''] + u) == Quoted((['\''] + u)[..1 + QuotedLength(u)])
  {
    assert (['\''] + u)[1..] == u;
  }

  lemma LineFront(u: string)
    ensures FirstRegion(['-'] + (['-'] + u)) == LineComment((['-'] + (['-'] + u))[..2 + LineLength(u)])
  {
    var s := ['-'] + (['-'] + u);
    assert s[2..] == u;
    assert s[0] == '-' && s[1] == '-';
  }

  lemma BlockFront(u: string)
    ensures FirstRegion(['/'] + (['*'] + u)) == BlockComment((['/'] + (['*'] + u))[..2 + BlockLength(u, 1)])
  {
    assert (['/'] + (['*'] + u))[2..] == u;
  }

  lemma MeasuredPrefix(s: string, n: nat, m: nat, token: string, id: string)
    requires token != "" && Measures(s, n, m, token, id)
    ensures m <= |Resolve(s, token, id)| && Resolve(s, token, id)[..m] == Resolve(s[..n], token, id)
  {
  }

  lemma KeepsQuoted(u: string, token: string, id: string)
    requires IsToken(token) && Minted(id)
    ensures KeepsRegion(['\''] + u, token, id)
  {
    QuotedMeasures(u, token, id);
    var n, m := QuotedLength(u), QuotedLength(Resolve(u, token, id));
    NotTokenAt('\'', u, token);
    MeasuresChar('\'', u, n, m, token, id);
    ResolveChar('\'', u, token, id);
    MeasuredPrefix(['\''] + u, 1 + n, 1 + m, token, id);
    QuotedFront(u);
    QuotedFront(Resolve(u, token, id));
  }

  lemma KeepsLine(u: string, token: string, id: string)
    requires IsToken(token) && Minted(id)
    ensures KeepsRegion(['-'] + (['-'] + u), token, id)
  {
    LineMeasures(u, token, id);
    var n, m := LineLength(u), LineLength(Resolve(u, token, id));
    MeasuresTwo('-', '-', u, n, m, token, id);
    MeasuredPrefix(['-'] + (['-'] + u), 2 + n, 2 + m, token, id);
    LineFront(u);
    LineFront(Resolve(u, token, id));
  }

  lemma KeepsBlock(u: string, token: string, id: string)
    requires IsToken(token) && Minted(id)
    ensures KeepsRegion(['/'] + (['*'] + u), token, id)
  {
    BlockMeasures(u, 1, token, id);
    var n, m := BlockLength(u, 1), BlockLength(Resolve(u, token, id), 1);
    MeasuresTwo('/', '*', u, n, m, token, id);
    MeasuredPrefix(['/'] + (['*'] + u), 2 + n, 2 + m, token, id);
    BlockFront(u);
    BlockFront(Resolve(u, token, id));
  }

  lemma TagLengthIs(u: string)
    ensures TagLength(u) == if u != "" && IsTagStart(u[0]) then TagRun(u) else 0
  {
  }

  lemma TagLengthMeasures(u: string, token: string, id: string)
    requires IsToken(token) && Minted(id)
    ensures Measures(u, TagLength(u), TagLength(Resolve(u, token, id)), token, id)
  {
    var r := Resolve(u, token, id);
    TagLengthIs(u);
    TagLengthIs(r);
    ResolvedEmpty(u, token, id);
    if u != "" {
      ResolvedHead(u, token, id);
    }
    if u != "" && IsTagStart(u[0]) {
      TagMeasures(u, token, id);
    } else {
      MeasuresNothing(u, token, id);
    }
  }

  /** "$", then tag, then rest: the delimiter is there exactly when rest starts with "$". */
  lemma DelimiterOf(tag: string, rest: string)
    requires TagLength(tag + rest) == |tag|
    ensures Delimiter(['$'] + (tag + rest)) == if rest != "" && rest[0] == '$' then Some(['$'] + (tag + ['$'])) else None
  {
    var s := ['$'] + (tag + rest);
    assert s[1..] == tag + rest;
    if rest != "" {
      assert s[1 + |tag|] == rest[0];
      assert s[..2 + |tag|] == ['$'] + (tag + [rest[0]]);
    }
  }

  lemma ResolveDelimiter(tag: string, token: string, id: string)
    requires IsToken(token) && Minted(id)
    ensures Resolve(['$'] + (tag + ['$']), token, id) == ['$'] + (Resolve(tag, token, id) + ['$'])
  {
    NotTokenAt('$', tag + ['$'], token);
    ResolveChar('$', tag + ['$'], token, id);
    ResolveSplits(tag, ['$'], token, id);
    assert Resolve(['$'], token, id) == ['$'] by {
      ResolvedHead(['$'], token, id);
      assert ['$'][1..] == "";
    }
  }

  lemma DelimiterResolves(u: string, token: string, id: string)
    requires IsToken(token) && Minted(id)
    ensures var s := ['$'] + u;
            && Resolve(s, token, id) == ['$'] + Resolve(u, token, id)
            && Delimiter(Resolve(s, token, id)) ==
                 match Delimiter(s) case None => None case Some(d) => Some(Resolve(d, token, id))
  {
    NotTokenAt('$', u, token);
    ResolveChar('$', u, token, id);
    TagLengthMeasures(u, token, id);
    var n := TagLength(u);
    var tag, rest := u[..n], u[n..];
    assert u == tag + rest;
    DelimiterOf(tag, rest);
    DelimiterOf(Resolve(tag, token, id), Resolve(rest, token, id));
    ResolvedEmpty(rest, token, id);
    if rest != "" {
      ResolvedHead(rest, token, id);
    }
    ResolveDelimiter(tag, token, id);
  }

  lemma OpenDollarLength(d: string, u: string)
    requires d != "" && Index(u, d).None?
    ensures DollarLength(d + u, d) == |d + u|
  {
    assert (d + u)[|d|..] == u;
  }

  lemma ClosedDollarLength(d: string, u: string, k: nat)
    requires d != "" && Index(u, d) == Some(k)
    ensures DollarLength(d + u, d) == |d| + k + |d|
  {
    assert (d + u)[|d|..] == u;
  }

  lemma MeasuresSplit(a: string, b: string, token: string, id: string)
    requires IsToken(token) && (a == "" || b == "" || !IsTagChar(a[|a| - 1]) || !IsTagChar(b[0]))
    ensures Measures(a + b, |a|, |Resolve(a, token, id)|, token, id)
  {
    ResolveSplits(a, b, token, id);
    assert (a + b)[..|a|] == a && (a + b)[|a|..] == b;
  }

  lemma ClosedText(d: string, body: string, token: string, id: string)
    requires IsToken(token) && IsDelimiter(d)
    ensures |Resolve(d + (body + d), token, id)| ==
              |Resolve(d, token, id)| + |Resolve(body, token, id)| + |Resolve(d, token, id)|
  {
    ResolveSplits(d, body + d, token, id);
    ResolveSplits(body, d, token, id);
  }

  lemma ClosedRegroups(d: string, body: string, rest: string)
    ensures d + (body + (d + rest)) == (d + (body + d)) + rest
    ensures d != "" ==> (d + (body + d))[|d| + |body| + |d| - 1] == d[|d| - 1]
  {
    Regroup(body, d, rest);
    Regroup(d, body + d, rest);
  }

  lemma ClosedMeasures(d: string, body: string, rest: string, token: string, id: string)
    requires IsToken(token) && IsDelimiter(d)
    ensures Measures(d + (body + (d + rest)), |d| + |body| + |d|,
                     |Resolve(d, token, id)| + |Resolve(body, token, id)| + |Resolve(d, token, id)|, token, id)
  {
    ClosedRegroups(d, body, rest);
    MeasuresSplit(d + (body + d), rest, token, id);
    ClosedText(d, body, token, id);
  }

  ghost predicate DollarMeasured(d: string, u: string, token: string, id: string)
    requires token != "" && Resolve(d, token, id) != "" && d != ""
  {
    Measures(d + u, DollarLength(d + u, d), DollarLength(Resolve(d, token, id) + Resolve(u, token, id), Resolve(d, token, id)), token, id)
  }

  lemma OpenDollarMeasures(d: string, u: string, token: string, id: string)
    requires IsToken(token) && d != "" && Resolve(d, token, id) != ""
    requires Resolve(d + u, token, id) == Resolve(d, token, id) + Resolve(u, token, id)
    requires Index(u, d).None? && Index(Resolve(u, token, id), Resolve(d, token, id)).None?
    ensures DollarMeasured(d, u, token, id)
  {
    OpenDollarLength(d, u);
    OpenDollarLength(Resolve(d, token, id), Resolve(u, token, id));
    MeasuresSplit(d + u, "", token, id);
    assert (d + u) + "" == d + u;
  }

  lemma IndexCuts(u: string, d: string, k: nat)
    requires Index(u, d) == Some(k)
    ensures k + |d| <= |u| && u == u[..k] + (d + u[k + |d|..])
  {
    SliceCuts(u, d, k);
  }

  lemma SliceCuts(u: string, d: string, k: nat)
    requires k + |d| <= |u| && u[k..k + |d|] == d
    ensures u == u[..k] + (d + u[k + |d|..])
  {
    assert u == u[..k] + (u[k..k + |d|] + u[k + |d|..]);
  }

  lemma ClosedDollarMeasures(d: string, body: string, rest: string, token: string, id: string)
    requires IsToken(token) && IsDelimiter(d) && Resolve(d, token, id) != ""
    requires Index(body + (d + rest), d) == Some(|body|)
    requires Index(Resolve(body + (d + rest), token, id), Resolve(d, token, id)) == Some(|Resolve(body, token, id)|)
    ensures DollarMeasured(d, body + (d + rest), token, id)
  {
    var u := body + (d + rest);
    ClosedDollarLength(d, u, |body|);
    ClosedDollarLength(Resolve(d, token, id), Resolve(u, token, id), |Resolve(body, token, id)|);
    ClosedMeasures(d, body, rest, token, id);
  }

  /** A dollar-quoted region d body d, or d body to the end, measured before and after. */
  lemma DollarMeasures(d: string, u: string, token: string, id: string)
    requires IsToken(token) && Minted(id) && IsDelimiter(d) && Apart(d, u, token, id)
    ensures Resolve(d, token, id) != ""
    ensures Resolve(d + u, token, id) == Resolve(d, token, id) + Resolve(u, token, id)
    ensures DollarMeasured(d, u, token, id)
  {
    ResolvedEmpty(d, token, id);
    ResolveSplits(d, u, token, id);
    IndexResolves(u, d, token, id);
    if Index(u, d).None? {
      OpenDollarMeasures(d, u, token, id);
    } else {
      var k := Index(u, d).value;
      IndexCuts(u, d, k);
      ClosedDollarMeasures(d, u[..k], u[k + |d|..], token, id);
    }
  }

  /** The delimiter of a dollar-quoted region at the front is apart from the text that follows it. */
  ghost predicate FrontApart(s: string, token: string, id: string)
    requires token != "" && s != ""
  {
    FirstRegion(s).DollarQuoted? ==> Apart(Delimiter(s).value, s[|Delimiter(s).value|..], token, id)
  }

  lemma KeepsDollar(s: string, token: string, id: string)
    requires IsToken(token) && Minted(id) && s != "" && s[0] == '$' && Delimiter(s).Some? && FrontApart(s, token, id)
    ensures KeepsRegion(s, token, id)
  {
    var d := Delimiter(s).value;
    DelimiterKept(s, token, id);
    DelimiterShape(s);
    assert s == d + s[|d|..];
    KeepsDelimited(d, s[|d|..], token, id);
  }

  lemma {:induction false} DelimiterKept(s: string, token: string, id: string)
    requires IsToken(token) && Minted(id) && s != "" && s[0] == '$' && Delimiter(s).Some?
    ensures var t := Resolve(s, token, id);
            t != "" && t[0] == '$' && Delimiter(t) == Some(Resolve(Delimiter(s).value, token, id))
  {
    assert s == ['$'] + s[1..];
    DelimiterResolves(s[1..], token, id);
  }

  lemma {:induction false} KeepsDelimited(d: string, u: string, token: string, id: string)
    requires IsToken(token) && Minted(id) && IsDelimiter(d) && Apart(d, u, token, id) && Delimiter(d + u) == Some(d)
    requires var t := Resolve(d + u, token, id); t != "" && t[0] == '$' && Delimiter(t) == Some(Resolve(d, token, id))
    ensures KeepsRegion(d + u, token, id)
  {
    DollarMeasures(d, u, token, id);
    KeepsDollarText(d + u, d, token, id);
  }

  lemma DelimiterShape(s: string)
    requires s != "" && s[0] == '$' && Delimiter(s).Some?
    ensures IsDelimiter(Delimiter(s).value) && s[..|Delimiter(s).value|] == Delimiter(s).value
  {
  }

  lemma KeepsDollarText(s: string, d: string, token: string, id: string)
    requires IsToken(token) && s != "" && s[0] == '$' && Delimiter(s) == Some(d) && d <= s && d != ""
    requires var t, r := Resolve(s, token, id), Resolve(d, token, id);
             && t != "" && t[0] == '$' && Delimiter(t) == Some(r) && r != ""
             && Measures(s, DollarLength(s, d), DollarLength(t, r), token, id)
    ensures KeepsRegion(s, token, id)
  {
    var t, r := Resolve(s, token, id), Resolve(d, token, id);
    MeasuredPrefix(s, DollarLength(s, d), DollarLength(t, r), token, id);
    DollarRegion(s, d, DollarLength(s, d));
    DollarRegion(t, r, DollarLength(t, r));
  }

  lemma RegionIsKept(s: string, token: string, id: string)
    requires IsToken(token) && Minted(id) && s != "" && !FirstRegion(s).Plain? && FrontApart(s, token, id)
    ensures KeepsRegion(s, token, id)
  {
    match FirstRegion(s)
    case Quoted(_) =>
      assert s == ['\''] + s[1..];
      KeepsQuoted(s[1..], token, id);
    case LineComment(_) =>
      assert s == ['-'] + (['-'] + s[2..]);
      KeepsLine(s[2..], token, id);
    case BlockComment(_) =>
      assert s == ['/'] + (['*'] + s[2..]);
      KeepsBlock(s[2..], token, id);
    case DollarQuoted(_) => KeepsDollar(s, token, id);
  }

  /** A plain character that starts no token stays plain. */
  lemma PlainIsKept(s: string, token: string, id: string)
    requires IsToken(token) && Minted(id) && s != "" && FirstRegion(s).Plain? && !(token <= s)
    ensures Resolve(s, token, id) != "" && FirstRegion(Resolve(s, token, id)) == Plain(s[0])
  {
    ResolvedHead(s, token, id);
    FrontDelimiter(s, token, id);
    if s[0] == '$' {
      assert s == ['$'] + s[1..];
      DelimiterResolves(s[1..], token, id);
    }
  }

  // ---------------------------------------------------------------- stripping

  lemma PlainWord(c: char, rest: string)
    requires IsTagChar(c)
    ensures Strip([c] + rest) == [c] + Strip(rest)
  {
    FirstIs([c] + rest);
    assert ([c] + rest)[1..] == rest;
  }

  lemma {:induction false} StripWords(w: string, rest: string)
    requires Words(w)
    ensures Strip(w + rest) == w + Strip(rest)
  {
    if w == "" {
      assert w + rest == rest;
    } else {
      assert w == [w[0]] + w[1..];
      Regroup([w[0]], w[1..], rest);
      PlainWord(w[0], w[1..] + rest);
      StripWords(w[1..], rest);
      Regroup([w[0]], w[1..], Strip(rest));
    }
  }

  /** Word text at the front of what is left was at the front of the statement: regions leave breaks behind. */
  lemma {:induction false} WordsSurvive(w: string, s: string)
    requires Words(w) && w <= Strip(s)
    ensures w <= s
    decreases |w|
  {
    if w != "" {
      var r := First(s);
      var rest := s[|TextOf(r)|..];
      FirstIs(s);
      if r.LineComment? {
        LineLeavesBreak(s);
      }
      assert Strip(s)[0] == w[0];
      assert Strip(s)[1..] == Strip(rest);
      assert w[1..] <= Strip(rest);
      WordsSurvive(w[1..], rest);
      assert w == [w[0]] + w[1..] && s == [s[0]] + rest;
    }
  }

  /** What follows a line comment, if anything, is a newline. */
  lemma LineLeavesBreak(s: string)
    requires s != "" && FirstRegion(s).LineComment?
    ensures var rest := s[|FirstRegion(s).text|..];
            (rest == "" && Strip(rest) == "") || (Strip(rest) != "" && Strip(rest)[0] == '\n')
  {
    var n := 2 + LineLength(s[2..]);
    var rest := s[n..];
    LineStops(s[2..]);
    if rest != "" {
      assert rest[0] == '\n';
      NewlineStays(rest);
    }
  }

  lemma NewlineStays(s: string)
    requires s != "" && s[0] == '\n'
    ensures Strip(s) != "" && Strip(s)[0] == '\n'
  {
    FirstIs(s);
  }

  lemma {:induction false} LineStops(t: string)
    ensures LineLength(t) == |t| || t[LineLength(t)] == '\n'
  {
    if t != "" && t[0] != '\n' {
      LineStops(t[1..]);
    }
  }

  /** Every dollar-quoted region the scanner takes has a delimiter apart from what follows it. */
  ghost predicate TagsApart(s: string, token: string, id: string)
    requires token != ""
    decreases |s|
  {
    s == "" || (FrontApart(s, token, id) && TagsApart(s[|TextOf(First(s))|..], token, id))
  }

  lemma {:induction false} TagsApartPastWords(w: string, rest: string, token: string, id: string)
    requires token != "" && Words(w) && TagsApart(w + rest, token, id)
    ensures TagsApart(rest, token, id)
  {
    if w == "" {
      assert w + rest == rest;
    } else {
      assert w == [w[0]] + w[1..];
      Regroup([w[0]], w[1..], rest);
      TagsApartPastPlain(w[0], w[1..] + rest, token, id);
      TagsApartPastWords(w[1..], rest, token, id);
    }
  }

  lemma {:induction false} TagsApartPastPlain(c: char, rest: string, token: string, id: string)
    requires token != "" && IsTagChar(c) && TagsApart([c] + rest, token, id)
    ensures TagsApart(rest, token, id)
  {
    PlainFront(c, rest);
    TagsApartNext([c] + rest, 1, token, id);
    assert ([c] + rest)[1..] == rest;
  }

  lemma {:induction false} PlainFront(c: char, rest: string)
    requires IsTagChar(c)
    ensures |TextOf(First([c] + rest))| == 1
  {
    FirstIs([c] + rest);
  }

  lemma {:induction false} TagsApartNext(s: string, n: nat, token: string, id: string)
    requires token != "" && s != "" && TagsApart(s, token, id) && n == |TextOf(First(s))|
    ensures TagsApart(s[n..], token, id)
  {
  }

  /** If the ID stands nowhere in a statement, all its delimiters are apart. */
  lemma {:induction false} AbsentIsApart(s: string, token: string, id: string)
    requires token != "" && Absent(id, s)
    ensures TagsApart(s, token, id)
    decreases |s|
  {
    if s != "" {
      FirstIs(s);
      if FirstRegion(s).DollarQuoted? {
        var d := Delimiter(s).value;
        DelimiterShape(s);
        AbsentPrefix(id, s, |d|);
        AbsentSuffix(id, s, |d|);
      }
      AbsentSuffix(id, s, |TextOf(First(s))|);
      AbsentIsApart(s[|TextOf(First(s))|..], token, id);
    }
  }

  /** A statement without a dollar sign has no delimiter at all. */
  lemma {:induction false} NoDollarIsApart(s: string, token: string, id: string)
    requires token != "" && '$' !in s
    ensures TagsApart(s, token, id)
    decreases |s|
  {
    if s != "" {
      FirstIs(s);
      var rest := s[|TextOf(First(s))|..];
      assert forall c :: c in rest ==> c in s;
      NoDollarIsApart(rest, token, id);
    }
  }

  /**
   Stripping commutes with substitution for every statement whose dollar tags
   cannot be mistaken for one another afterwards: above all for one in which
   the ID does not already stand.
   */
  lemma {:induction false} StripCommutes(s: string, token: string, id: string)
    requires IsToken(token) && Minted(id) && TagsApart(s, token, id)
    ensures Strip(Resolve(s, token, id)) == Resolve(Strip(s), token, id)
    decreases |s|
  {
    if s != "" {
      FirstIs(s);
      if token <= s {
        var more := s[|token|..];
        assert s == token + more;
        TagsApartPastWords(token, more, token, id);
        StripCommutes(more, token, id);
        MintedWords(id);
        StripWords(token, more);
        StripWords(id, Resolve(more, token, id));
        ResolveToken(more, token, id);
        ResolveToken(Strip(more), token, id);
      } else if FirstRegion(s).Plain? {
        StripCommutes(s[1..], token, id);
        CommutesAtPlain(s, token, id);
      } else {
        var n := |TextOf(FirstRegion(s))|;
        StripCommutes(s[n..], token, id);
        CommutesAtRegion(s, token, id);
      }
    }
  }

  lemma CommutesAtPlain(s: string, token: string, id: string)
    requires IsToken(token) && Minted(id) && s != "" && FirstRegion(s).Plain? && !(token <= s)
    requires Strip(Resolve(s[1..], token, id)) == Resolve(Strip(s[1..]), token, id)
    ensures Strip(Resolve(s, token, id)) == Resolve(Strip(s), token, id)
  {
    var c, more := s[0], s[1..];
    assert s == [c] + more;
    ResolveChar(c, more, token, id);
    PlainIsKept(s, token, id);
    FirstIs(s);
    FirstIs(Resolve(s, token, id));
    assert Strip(s) == [c] + Strip(more);
    assert Resolve(s, token, id)[1..] == Resolve(more, token, id);
    if token <= Strip(s) {
      WordsSurvive(token, s);
    }
    ResolveChar(c, Strip(more), token, id);
  }

  lemma StripRegion(s: string)
    requires s != ""
    ensures Strip(s) == Remains(FirstRegion(s)) + Strip(s[|TextOf(FirstRegion(s))|..])
  {
    FirstIs(s);
  }

  lemma CommutesAtRegion(s: string, token: string, id: string)
    requires IsToken(token) && Minted(id) && s != "" && !FirstRegion(s).Plain? && FrontApart(s, token, id)
    requires var rest := s[|TextOf(FirstRegion(s))|..];
             Strip(Resolve(rest, token, id)) == Resolve(Strip(rest), token, id)
    ensures Strip(Resolve(s, token, id)) == Resolve(Strip(s), token, id)
  {
    var r := FirstRegion(s);
    var rest := s[|r.text|..];
    var t := Resolve(s, token, id);
    RegionIsKept(s, token, id);
    StripRegion(s);
    StripRegion(t);
    assert t[|FirstRegion(t).text|..] == Resolve(rest, token, id);
    ResolveRemains(Remains(r), Strip(rest), token, id);
  }

  lemma ResolveRemains(mark: string, rest: string, token: string, id: string)
    requires IsToken(token) && (mark == "" || mark == " ")
    ensures Resolve(mark + rest, token, id) == mark + Resolve(rest, token, id)
  {
    if mark == "" {
      assert mark + rest == rest;
    } else {
      NotTokenAt(' ', rest, token);
      ResolveChar(' ', rest, token, id);
    }
  }
}
