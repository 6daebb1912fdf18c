/** Why the order of scan and substitution needs dollar tags that stay apart: a literal own ID in a tag. */
module SqlTags {
  import opened Wrappers
  import opened SqlScanner
  import opened SqlLexer
  import opened SqlPlaceholder
  import opened SqlSubstitution
  import opened SqlGuard
  import opened SqlPieces
  import opened SqlOrder

  lemma {:induction false} PlainResolves(s: string, id: string)
    requires NoTwins(s)
    ensures Resolve(s, TOKEN, id) == s
  {
    if s != "" {
      assert |s| >= |TOKEN| ==> s[0] != TOKEN[0] || s[1] != TOKEN[1];
      assert s == [s[0]] + s[1..];
      NoTwinsNext(s);
      PlainResolves(s[1..], id);
      ResolveChar(s[0], s[1..], TOKEN, id);
    }
  }

  /** A region that is never closed takes the rest of the statement. */
  lemma {:induction false} OpenTag(tag: string, u: string)
    requires IsTag(tag) && !Occurs(Bracket(tag), u)
    ensures Strip(Bracket(tag) + u) == " "
  {
    var s := Bracket(tag) + u;
    DelimiterIs(tag, u);
    IndexFound(u, Bracket(tag));
    OpenDollarLength(Bracket(tag), u);
    DollarRegion(s, Bracket(tag), |s|);
    assert s[..|s|] == s;
    StripRegion(s);
  }

  lemma {:induction false} CutOff(s: string, n: nat, rest: string)
    requires s != "" && n <= |s| && FirstRegion(s) == DollarQuoted(s[..n]) && s[n..] == rest
    ensures Strip(s) == " " + Strip(rest)
  {
    StripRegion(s);
  }

  lemma {:induction false} ClosedAtOnce(d: string, rest: string)
    requires IsDelimiter(d) && Delimiter(d + (d + rest)) == Some(d)
    ensures FirstRegion(d + (d + rest)) == DollarQuoted((d + (d + rest))[..|d| + |d|])
  {
    assert d <= d + rest;
    ClosedDollarLength(d, d + rest, 0);
    DollarRegion(d + (d + rest), d, |d| + |d|);
  }

  /** A region closed at once takes its two delimiters. */
  lemma {:induction false} EmptyTag(tag: string, rest: string)
    requires IsTag(tag) && Quiet(rest)
    ensures Strip(Bracket(tag) + (Bracket(tag) + rest)) == " " + rest
  {
    DelimiterIs(tag, Bracket(tag) + rest);
    TwiceTag(Bracket(tag), rest, Bracket(tag) + (Bracket(tag) + rest));
  }

  lemma {:induction false} TwiceTag(d: string, rest: string, s: string)
    requires IsDelimiter(d) && s == d + (d + rest) && Delimiter(s) == Some(d) && Quiet(rest)
    ensures Strip(s) == " " + rest
  {
    ClosedAtOnce(d, rest);
    TwiceCut(d, rest);
    QuietIsKept(rest);
    CutOff(s, |d| + |d|, rest);
  }

  lemma TwiceCut(d: string, rest: string)
    ensures (d + (d + rest))[|d| + |d|..] == rest
  {
  }

  /** " m..._x" after a space */
  function After(foreign: string): string {
    " " + (foreign + "_x")
  }

  lemma {:induction false} AfterChars(own: string, foreign: string)
    requires Minted(own) && Minted(foreign)
    ensures Quiet(After(foreign)) && NoTwins(After(foreign)) && NoTwins("$" + (Bracket(own) + After(foreign)))
  {
    IdThen(foreign, "_x");
    IdThen(own, "$" + After(foreign));
    assert Bracket(own) + After(foreign) == "$" + (own + ("$" + After(foreign)));
    var t := "$" + ("$" + (own + ("$" + After(foreign))));
    assert t[35] == '$' && t[36] == ' ' && t[37..] == foreign + "_x";
    assert forall i :: 37 <= i < |t| ==> t[i] == t[37..][i - 37];
    assert forall i :: 2 <= i < 35 ==> t[i] == own[i - 2];
  }

  lemma {:induction false} NoTokenTag(u: string)
    requires NoTwins(u)
    ensures !Occurs(Bracket(TOKEN), u)
  {
    forall k | 0 <= k <= |u|
      ensures !(Bracket(TOKEN) <= u[k..])
    {
      assert Bracket(TOKEN)[1] == '_' && Bracket(TOKEN)[2] == '_';
      assert k + 2 < |u| ==> u[k..][1] == u[k + 1] && u[k..][2] == u[k + 2];
    }
  }

  lemma {:induction false} ResolveTag(own: string, u: string)
    requires Minted(own) && NoTwins("$" + u)
    ensures Resolve(Bracket(TOKEN) + u, TOKEN, own) == Bracket(own) + u
  {
    var more := TOKEN + ("$" + u);
    assert Bracket(TOKEN) + u == ['$'] + more;
    NotTokenAt('$', more, TOKEN);
    ResolveChar('$', more, TOKEN, own);
    ResolveToken("$" + u, TOKEN, own);
    PlainResolves("$" + u, own);
    assert Bracket(own) + u == ['$'] + (own + ("$" + u));
  }

  lemma {:induction false} ForeignSeen(own: string, foreign: string, t: string)
    requires Minted(foreign) && own != foreign && t == " " + After(foreign)
    ensures !AllOwn(Table, own, t)
  {
    assert t[..2] == "  " && t[2..] == foreign + "_x" && t[2..35] == foreign;
    assert t[2..][33] == '_';
    LowerMinted(foreign);
    forall q: nat | q < 2
      ensures !At(Table, t, q)
    {
      assert t[q..][0] == t[q] == ' ';
    }
    assert t[1] == ' ';
    assert LeadsWord(t, 2);
    TablesAccepted(own, t);
  }

  lemma {:induction false} BlankHasNoNames()
    ensures NoNames(" ")
  {
  }

  /**
   With a literal own ID as a dollar tag, a region that a placeholder's tag left
   open is closed by substitution, and a foreign name comes out of it.
   */
  lemma {:induction false} TagsMatter(own: string, foreign: string)
    requires Minted(own) && Minted(foreign) && own != foreign
    ensures var sql := Bracket(TOKEN) + (Bracket(own) + After(foreign));
            Accepts(own, sql) && !Accepts(own, Resolve(sql, TOKEN, own))
  {
    var u := Bracket(own) + After(foreign);
    AfterChars(own, foreign);
    NoTwinsNext("$" + u);
    assert ("$" + u)[1..] == u;
    NoTokenTag(u);
    OpenTag(TOKEN, u);
    BlankHasNoNames();
    OwnNamesAccepted(own, " ");
    ResolveTag(own, u);
    MintedWords(own);
    EmptyTag(own, After(foreign));
    ForeignSeen(own, foreign, " " + After(foreign));
  }
}
