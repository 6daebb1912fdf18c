/** The scanner is the lexer: a statement splits into well-placed regions in exactly one way, the one it finds. */
module SqlLexer {
  import opened Wrappers
  import opened Sequences
  import opened SqlScanner

  // ---------------------------------------------------------------- quotes

  lemma {:induction false} ClosedQuote(body: string, rest: string)
    requires DoubledQuotes(body) && (rest == "" || rest[0] != '\'')
    ensures QuotedLength(body + ("'" + rest)) == |body| + 1
  {
    var t := body + ("'" + rest);
    if body == "" {
      assert t == "'" + rest;
    } else if body[0] != '\'' {
      ClosedQuote(body[1..], rest);
      assert t[1..] == body[1..] + ("'" + rest);
    } else {
      ClosedQuote(body[2..], rest);
      assert t[2..] == body[2..] + ("'" + rest);
    }
  }

  lemma {:induction false} OpenQuote(body: string)
    requires DoubledQuotes(body)
    ensures QuotedLength(body) == |body|
  {
    if body == "" {
    } else if body[0] != '\'' {
      OpenQuote(body[1..]);
    } else {
      OpenQuote(body[2..]);
    }
  }

  /** What QuotedLength measures is a doubled-quote body, closed unless the text ended. */
  lemma {:induction false} QuoteFound(t: string) returns (body: string, closed: bool)
    ensures DoubledQuotes(body)
    ensures t[..QuotedLength(t)] == if closed then body + "'" else body
    ensures closed ==> QuotedLength(t) == |t| || t[QuotedLength(t)] != '\''
    ensures !closed ==> QuotedLength(t) == |t|
  {
    var n := QuotedLength(t);
    if t == "" {
      body, closed := "", false;
    } else if t[0] == '\'' && !(|t| > 1 && t[1] == '\'') {
      body, closed := "", true;
      assert t[..1] == "'";
    } else {
      var k := if t[0] == '\'' then 2 else 1;
      var inner;
      inner, closed := QuoteFound(t[k..]);
      body := t[..k] + inner;
      assert body[k..] == inner;
      assert t[..n] == t[..k] + t[k..][..n - k];
    }
  }

  // ---------------------------------------------------------------- line comments

  lemma {:induction false} WholeLine(body: string, rest: string)
    requires '\n' !in body && (rest == "" || rest[0] == '\n')
    ensures LineLength(body + rest) == |body|
  {
    if body != "" {
      assert (body + rest)[1..] == body[1..] + rest;
      WholeLine(body[1..], rest);
    } else {
      assert body + rest == rest;
    }
  }

  lemma {:induction false} LineFound(t: string)
    ensures '\n' !in t[..LineLength(t)]
    ensures LineLength(t) == |t| || t[LineLength(t)] == '\n'
  {
    if t != "" && t[0] != '\n' {
      LineFound(t[1..]);
      assert t[..LineLength(t)] == [t[0]] + t[1..][..LineLength(t[1..])];
    }
  }

  // ---------------------------------------------------------------- block comments

  function After(tok: Token, depth: int): int {
    match tok case Open => depth + 1 case Close => depth - 1 case Other(_) => depth
  }

  function SpellOne(tok: Token): string {
    match tok case Open => "/*" case Close => "*/" case Other(c) => [c]
  }

  lemma BalancedTail(toks: seq<Token>, start: int)
    requires toks != []
    ensures Balanced(toks, start) <==> start > 0 && Balanced(toks[1..], After(toks[0], start))
    ensures StaysOpen(toks, start) <==> start > 0 && StaysOpen(toks[1..], After(toks[0], start))
  {
    var tail, d := toks[1..], After(toks[0], start);
    forall k | 0 < k <= |toks|
      ensures Depth(toks[..k], start) == Depth(tail[..k - 1], d)
    {
      assert toks[..k][1..] == tail[..k - 1];
    }
    assert toks[..0] == [];
    assert forall k :: 0 <= k <= |tail| ==> Depth(tail[..k], d) == Depth(toks[..k + 1], start);
  }

  lemma SpellTail(toks: seq<Token>, rest: string)
    requires toks != []
    ensures Spell(toks) + rest == SpellOne(toks[0]) + (Spell(toks[1..]) + rest)
  {
    Regroup(SpellOne(toks[0]), Spell(toks[1..]), rest);
  }

  lemma SkipSpelled(tok: Token, more: string, depth: nat)
    requires depth > 0
    requires tok.Other? ==> !Opens([tok.c] + more) && !Closes([tok.c] + more)
    ensures var d := After(tok, depth);
            BlockLength(SpellOne(tok) + more, depth) == |SpellOne(tok)| + BlockLength(more, d)
  {
    var t := SpellOne(tok) + more;
    assert t[|SpellOne(tok)|..] == more;
    assert t[0] == SpellOne(tok)[0];
    if |SpellOne(tok)| == 2 {
      assert t[1] == SpellOne(tok)[1];
    }
  }

  lemma SameFront(s: string, rest: string)
    requires |s| > 1 || rest == ""
    ensures Opens(s + rest) == Opens(s) && Closes(s + rest) == Closes(s)
  {
    if |s| > 1 {
      assert (s + rest)[0] == s[0] && (s + rest)[1] == s[1];
    } else {
      assert s + rest == s;
    }
  }

  lemma SpelledNonempty(toks: seq<Token>)
    requires toks != []
    ensures Spell(toks) != ""
  {
  }

  lemma {:induction false} WholeBlock(toks: seq<Token>, depth: nat, rest: string)
    requires Greedy(toks) && (Balanced(toks, depth) || (StaysOpen(toks, depth) && rest == ""))
    ensures BlockLength(Spell(toks) + rest, depth) == |Spell(toks)|
  {
    if toks == [] {
      assert toks[..0] == [];
      assert Spell(toks) + rest == rest;
    } else {
      var tok, tail := toks[0], toks[1..];
      BalancedTail(toks, depth);
      SpellTail(toks, rest);
      if tok.Other? {
        if tail == [] {
          assert tail[..0] == [];
        } else {
          SpelledNonempty(tail);
        }
        SameFront(Spell(toks), rest);
      }
      SkipSpelled(tok, Spell(tail) + rest, depth);
      if tail == [] {
        assert tail[..0] == [];
        assert Spell(tail) + rest == rest;
        assert rest == "" || After(tok, depth) == 0;
      } else {
        assert tail[..0] == [];
        WholeBlock(tail, After(tok, depth), rest);
      }
    }
  }

  /** What BlockLength measures is a nesting that closes at its end, or never. */
  lemma {:induction false} BlockFound(t: string, depth: nat) returns (toks: seq<Token>)
    requires depth > 0
    ensures Greedy(toks) && Spell(toks) == t[..BlockLength(t, depth)]
    ensures Balanced(toks, depth) || (StaysOpen(toks, depth) && BlockLength(t, depth) == |t|)
    decreases |t|
  {
    if t == "" {
      toks := [];
    } else {
      var tok := if Opens(t) then Open else if Closes(t) then Close else Other(t[0]);
      var k, d := |SpellOne(tok)|, After(tok, depth);
      assert t[..k] == SpellOne(tok);
      if d == 0 {
        toks := [tok];
        BalancedTail(toks, depth);
        assert toks[1..] == [] && Balanced([], 0);
        assert Spell(toks) == SpellOne(tok) + "";
        assert t[k..][..0] == "";
      } else {
        var tail := BlockFound(t[k..], d);
        toks := [tok] + tail;
        FrontToken(t, depth, tok);
        StepSpells(t, BlockLength(t[k..], d), tok, tail);
        StepBalances(depth, tok, tail);
      }
    }
  }

  lemma StepSpells(t: string, n: nat, tok: Token, tail: seq<Token>)
    requires t != "" && tok == (if Opens(t) then Open else if Closes(t) then Close else Other(t[0]))
    requires |SpellOne(tok)| + n <= |t| && t[..|SpellOne(tok)|] == SpellOne(tok)
    requires Greedy(tail) && Spell(tail) == t[|SpellOne(tok)|..][..n]
    ensures Greedy([tok] + tail) && Spell([tok] + tail) == t[..|SpellOne(tok)| + n]
  {
    var k := |SpellOne(tok)|;
    assert ([tok] + tail)[1..] == tail;
    assert t[..k + n] == t[..k] + t[k..][..n];
    if tok.Other? {
      FrontOfPrefix(t, k + n);
    }
  }

  lemma StepBalances(depth: nat, tok: Token, tail: seq<Token>)
    requires depth > 0
    ensures Balanced(tail, After(tok, depth)) ==> Balanced([tok] + tail, depth)
    ensures StaysOpen(tail, After(tok, depth)) ==> StaysOpen([tok] + tail, depth)
  {
    assert ([tok] + tail)[1..] == tail;
    BalancedTail([tok] + tail, depth);
  }

  lemma FrontToken(t: string, depth: nat, tok: Token)
    requires depth > 0 && t != "" && tok == (if Opens(t) then Open else if Closes(t) then Close else Other(t[0]))
    requires After(tok, depth) > 0
    ensures |SpellOne(tok)| <= |t| && t[..|SpellOne(tok)|] == SpellOne(tok)
    ensures BlockLength(t, depth) == |SpellOne(tok)| + BlockLength(t[|SpellOne(tok)|..], After(tok, depth))
  {
  }

  lemma FrontOfPrefix(t: string, n: nat)
    requires 0 < n <= |t|
    ensures !Opens(t) ==> !Opens(t[..n])
    ensures !Closes(t) ==> !Closes(t[..n])
  {
  }

  // ---------------------------------------------------------------- dollar quotes

  lemma {:induction false} WholeTagRun(tag: string, rest: string)
    requires forall i :: 0 <= i < |tag| ==> IsTagChar(tag[i])
    ensures TagRun(tag + ("$" + rest)) == |tag|
  {
    if tag == "" {
      assert tag + ("$" + rest) == "$" + rest;
    } else {
      assert (tag + ("$" + rest))[1..] == tag[1..] + ("$" + rest);
      WholeTagRun(tag[1..], rest);
    }
  }

  lemma DelimiterIs(tag: string, rest: string)
    requires IsTag(tag)
    ensures Delimiter(Bracket(tag) + rest) == Some(Bracket(tag))
  {
    var s := Bracket(tag) + rest;
    var t := tag + ("$" + rest);
    assert s[1..] == t;
    if tag == "" {
      assert t == "$" + rest;
    } else {
      assert t[1..] == tag[1..] + ("$" + rest);
      WholeTagRun(tag[1..], rest);
    }
    assert TagLength(t) == |tag|;
    assert s[..|tag| + 2] == Bracket(tag);
  }

  lemma {:induction false} TagRunFound(t: string)
    ensures forall i :: 0 <= i < TagRun(t) ==> IsTagChar(t[i])
  {
    if t != "" && IsTagChar(t[0]) {
      TagRunFound(t[1..]);
      assert forall i :: 1 <= i < TagRun(t) ==> t[i] == t[1..][i - 1];
    }
  }

  lemma DelimiterFound(s: string) returns (tag: string)
    requires s != "" && s[0] == '$' && Delimiter(s).Some?
    ensures IsTag(tag) && Delimiter(s).value == Bracket(tag)
  {
    var t := s[1..];
    tag := t[..TagLength(t)];
    if tag != "" {
      TagRunFound(t[1..]);
      assert forall i :: 1 <= i < |tag| ==> tag[i] == t[1..][i - 1];
    }
    assert s[..|tag| + 2] == Bracket(tag);
  }

  lemma {:induction false} IndexFirst(t: string, d: string, k: nat)
    requires k <= |t| && d <= t[k..] && forall j :: 0 <= j < k ==> !(d <= t[j..])
    ensures Index(t, d) == Some(k)
  {
    if k > 0 {
      assert !(d <= t[0..]) && t[0..] == t;
      assert t[1..][k - 1..] == t[k..];
      assert forall j :: 0 <= j < k - 1 ==> t[1..][j..] == t[j + 1..];
      IndexFirst(t[1..], d, k - 1);
    } else {
      assert t[0..] == t;
    }
  }

  lemma {:induction false} IndexFound(t: string, d: string)
    requires d != ""
    ensures Index(t, d).Some? ==> forall j :: 0 <= j < Index(t, d).value ==> !(d <= t[j..])
    ensures Index(t, d).None? <==> !Occurs(d, t)
  {
    if d <= t {
      assert d <= t[0..];
    } else if t != "" {
      IndexFound(t[1..], d);
      assert t[0..] == t;
      assert forall j :: 1 <= j <= |t| ==> t[j..] == t[1..][j - 1..];
      if Occurs(d, t[1..]) {
        var k :| 0 <= k <= |t[1..]| && d <= t[1..][k..];
        assert d <= t[k + 1..];
      }
    } else {
      assert forall k :: 0 <= k <= |t| ==> t[k..] == "";
    }
  }

  /** An occurrence that ends inside a prefix is an occurrence in the prefix. */
  lemma OccurrenceInPrefix(d: string, body: string, rest: string, k: nat)
    requires k + |d| <= |body|
    ensures d <= (body + rest)[k..] <==> d <= body[k..]
  {
    assert (body + rest)[k..][..|d|] == body[k..][..|d|];
  }

  lemma WholeDollar(tag: string, body: string, rest: string)
    requires IsTag(tag)
    requires OccursLast(Bracket(tag), body) || (!Occurs(Bracket(tag), body) && rest == "")
    ensures DollarLength(Bracket(tag) + (body + rest), Bracket(tag)) == |Bracket(tag)| + |body|
  {
    var d := Bracket(tag);
    var t := body + rest;
    assert (d + t)[|d|..] == t;
    if OccursLast(d, body) {
      var k := |body| - |d|;
      forall j | 0 <= j <= k
        ensures d <= t[j..] <==> d <= body[j..]
      {
        OccurrenceInPrefix(d, body, rest, j);
      }
      IndexFirst(t, d, k);
    } else {
      assert t == body;
      IndexFound(t, d);
    }
  }

  function UpTo(t: string, d: string): nat {
    match Index(t, d)
    case None => |t|
    case Some(k) => k + |d|
  }

  lemma UpToOccurrence(t: string, d: string)
    requires d != ""
    ensures UpTo(t, d) <= |t|
    ensures OccursLast(d, t[..UpTo(t, d)]) || (!Occurs(d, t[..UpTo(t, d)]) && UpTo(t, d) == |t|)
  {
    IndexFound(t, d);
    var n := UpTo(t, d);
    var body := t[..n];
    if Index(t, d).Some? {
      var k := Index(t, d).value;
      assert body[k..] == t[k..k + |d|];
      assert t == body + t[n..];
      forall j | 0 <= j < k
        ensures !(d <= body[j..])
      {
        OccurrenceInPrefix(d, body, t[n..], j);
      }
    } else {
      assert body == t;
    }
  }

  lemma DollarFound(s: string) returns (tag: string, body: string)
    requires s != "" && s[0] == '$' && Delimiter(s).Some?
    ensures IsTag(tag) && s[..DollarLength(s, Delimiter(s).value)] == Bracket(tag) + body
    ensures OccursLast(Bracket(tag), body) || (!Occurs(Bracket(tag), body) && DollarLength(s, Delimiter(s).value) == |s|)
  {
    tag := DelimiterFound(s);
    var d := Bracket(tag);
    UpToOccurrence(s[|d|..], d);
    body := s[|d|..][..UpTo(s[|d|..], d)];
    DollarLengthIs(s, d);
    Cut(s, d, |body|);
  }

  lemma DollarLengthIs(s: string, d: string)
    requires d <= s && d != ""
    ensures DollarLength(s, d) == |d| + UpTo(s[|d|..], d)
  {
  }

  lemma Cut(s: string, d: string, n: nat)
    requires d <= s && |d| + n <= |s|
    ensures s[..|d| + n] == d + s[|d|..][..n]
  {
  }

  // ---------------------------------------------------------------- the front region

  lemma StartsExactly(s: string)
    requires s != ""
    ensures Starts(s) <==> !FirstRegion(s).Plain?
  {
    if s[0] == '$' {
      if Delimiter(s).Some? {
        var tag := DelimiterFound(s);
        assert Bracket(tag) <= s;
      }
      if tag :| IsTag(tag) && Bracket(tag) <= s {
        DelimiterIs(tag, s[|Bracket(tag)|..]);
        assert s == Bracket(tag) + s[|Bracket(tag)|..];
      }
    } else {
      assert forall tag :: IsTag(tag) ==> Bracket(tag)[0] == '$';
    }
    if |s| > 1 {
      assert "--" <= s <==> s[0] == '-' && s[1] == '-';
      assert "/*" <= s <==> Opens(s);
    }
  }

  /** A well-placed region is the one the scanner finds. */
  lemma PlacedIsFirst(r: Region, rest: string)
    requires Placed(r, rest)
    ensures TextOf(r) != "" && FirstRegion(TextOf(r) + rest) == r
  {
    var s := TextOf(r) + rest;
    match r
    case Plain(c) =>
      StartsExactly(s);
    case Quoted(text) => PlacedQuote(text, rest);
    case LineComment(text) => PlacedLine(text, rest);
    case BlockComment(text) => PlacedBlock(text, rest);
    case DollarQuoted(text) => PlacedDollar(text, rest);
  }

  lemma PlacedQuote(text: string, rest: string)
    requires Placed(Quoted(text), rest)
    ensures text != "" && FirstRegion(text + rest) == Quoted(text)
  {
    var s := text + rest;
    if body :| DoubledQuotes(body) && text == "'" + body + "'" && (rest == "" || rest[0] != '\'') {
      ClosedQuote(body, rest);
      assert s[1..] == body + ("'" + rest);
    } else {
      var body :| DoubledQuotes(body) && text == "'" + body && rest == "";
      OpenQuote(body);
      assert s[1..] == body;
    }
    assert s[..|text|] == text;
  }

  lemma PlacedLine(text: string, rest: string)
    requires Placed(LineComment(text), rest)
    ensures text != "" && FirstRegion(text + rest) == LineComment(text)
  {
    var s := text + rest;
    assert text[..2] == "--";
    assert s[0] == text[0] && s[1] == text[1];
    assert s[2..] == text[2..] + rest;
    WholeLine(text[2..], rest);
    assert s[..|text|] == text;
  }

  lemma PlacedBlock(text: string, rest: string)
    requires Placed(BlockComment(text), rest)
    ensures text != "" && FirstRegion(text + rest) == BlockComment(text)
  {
    var s := text + rest;
    var toks :| Greedy(toks) && text == "/*" + Spell(toks) && (Balanced(toks, 1) || (StaysOpen(toks, 1) && rest == ""));
    WholeBlock(toks, 1, rest);
    assert s[2..] == Spell(toks) + rest;
    assert s[0] == '/' && s[1] == '*';
    assert s[..|text|] == text;
  }

  lemma PlacedDollar(text: string, rest: string)
    requires Placed(DollarQuoted(text), rest)
    ensures text != "" && FirstRegion(text + rest) == DollarQuoted(text)
  {
    var s := text + rest;
    var tag, body :| IsTag(tag) && text == Bracket(tag) + body
                     && (OccursLast(Bracket(tag), body) || (!Occurs(Bracket(tag), body) && rest == ""));
    assert s == Bracket(tag) + (body + rest) by {
      Regroup(Bracket(tag), body, rest);
    }
    DelimiterIs(tag, body + rest);
    WholeDollar(tag, body, rest);
    DollarRegion(s, Bracket(tag), |text|);
    assert s[..|text|] == text;
  }

  /** The region the scanner finds is well placed. */
  lemma FirstIsPlaced(s: string)
    requires s != ""
    ensures Placed(FirstRegion(s), s[|TextOf(FirstRegion(s))|..])
  {
    match FirstRegion(s)
    case Plain(c) =>
      StartsExactly(s);
      assert [c] + s[1..] == s;
    case Quoted(text) => QuoteIsPlaced(s);
    case LineComment(text) =>
      LineFound(s[2..]);
      assert text == s[..2] + s[2..][..LineLength(s[2..])];
      assert s[..2] == "--";
    case BlockComment(text) =>
      var toks := BlockFound(s[2..], 1);
      assert text == s[..2] + s[2..][..BlockLength(s[2..], 1)];
      assert s[..2] == "/*";
      assert text == "/*" + Spell(toks);
    case DollarQuoted(text) =>
      var tag, body := DollarFound(s);
      assert text == Bracket(tag) + body;
  }

  lemma QuoteIsPlaced(s: string)
    requires s != "" && s[0] == '\''
    ensures Placed(FirstRegion(s), s[|TextOf(FirstRegion(s))|..])
  {
    var body, closed := QuoteFound(s[1..]);
    var n := 1 + QuotedLength(s[1..]);
    assert s[..n] == "'" + s[1..][..n - 1];
    if closed {
      assert s[..n] == "'" + body + "'";
      assert s[n..] == "" || s[n..][0] == s[1..][n - 1];
    } else {
      assert s[..n] == "'" + body;
    }
  }

  // ---------------------------------------------------------------- whole statements

  /** A split of a statement into well-placed regions exists and is the scanner's; no other does. */
  lemma {:induction false} LexIsUnique(s: string, rs: seq<Region>)
    ensures Concat(rs) == s && AllPlaced(rs) <==> rs == Lex(s)
    decreases |s|
  {
    if s == "" {
      if rs != [] && Concat(rs) == s && AllPlaced(rs) {
        PlacedIsFirst(rs[0], Concat(rs[1..]));
      }
    } else {
      var r := First(s);
      var rest := s[|TextOf(r)|..];
      FirstIs(s);
      FirstIsPlaced(s);
      assert TextOf(r) + rest == s;
      if Concat(rs) == s && AllPlaced(rs) {
        PlacedIsFirst(rs[0], Concat(rs[1..]));
        assert Concat(rs[1..]) == rest;
        LexIsUnique(rest, rs[1..]);
        assert rs == [rs[0]] + rs[1..];
      }
      if rs == Lex(s) {
        assert rs[1..] == Lex(rest);
        LexIsUnique(rest, rs[1..]);
      }
    }
  }

  /** Stripping writes what remains of each region, in order. */
  lemma {:induction false} StripRendersRegions(s: string)
    ensures Strip(s) == RemainsOf(Lex(s))
    decreases |s|
  {
    if s != "" {
      StripRendersRegions(s[|TextOf(First(s))|..]);
      assert Lex(s)[1..] == Lex(s[|TextOf(First(s))|..]);
    }
  }
}
