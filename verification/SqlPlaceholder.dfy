/**
 Placeholder substitution, and what it does to the extent of each kind of
 region. Everything holds for any token of word characters that starts and
 ends with an underscore.
 */
module SqlPlaceholder {
  import opened Sequences
  import opened SqlScanner

  /** m followed by 32 lower-case hex digits. */
  predicate Minted(id: string) {
    |id| == 33 && id[0] == 'm' && forall i :: 1 <= i < 33 ==> IsLowerHex(id[i])
  }

  predicate IsLowerHex(c: char) {
    '0' <= c <= '9' || 'a' <= c <= 'f'
  }

  predicate Words(w: string) {
    forall i :: 0 <= i < |w| ==> IsTagChar(w[i])
  }

  predicate IsToken(token: string) {
    |token| > 1 && Words(token) && token[0] == '_' && token[|token| - 1] == '_'
  }

  /** strings.ReplaceAll(s, token, id) */
  function Resolve(s: string, token: string, id: string): string
    requires token != ""
  {
    if s == "" then ""
    else if token <= s then id + Resolve(s[|token|..], token, id)
    else [s[0]] + Resolve(s[1..], token, id)
  }

  ghost predicate Absent(id: string, s: string) {
    forall k :: 0 <= k <= |s| ==> !(id <= s[k..])
  }

  lemma AbsentSuffix(id: string, s: string, n: nat)
    requires Absent(id, s) && n <= |s|
    ensures Absent(id, s[n..])
  {
    assert forall k :: 0 <= k <= |s[n..]| ==> s[n..][k..] == s[n + k..];
  }

  lemma AbsentPrefix(id: string, s: string, n: nat)
    requires Absent(id, s) && n <= |s|
    ensures Absent(id, s[..n])
  {
    forall k | 0 <= k <= n
      ensures !(id <= s[..n][k..])
    {
      assert s[k..] == s[..n][k..] + s[n..];
      assert !(id <= s[k..]);
    }
  }

  // ---------------------------------------------------------------- substitution and concatenation

  lemma ResolveToken(rest: string, token: string, id: string)
    requires token != ""
    ensures Resolve(token + rest, token, id) == id + Resolve(rest, token, id)
  {
    assert (token + rest)[|token|..] == rest;
  }

  lemma ResolveChar(c: char, rest: string, token: string, id: string)
    requires token != "" && !(token <= [c] + rest)
    ensures Resolve([c] + rest, token, id) == [c] + Resolve(rest, token, id)
  {
    assert ([c] + rest)[1..] == rest;
  }

  lemma NotTokenPrefix(s: string, token: string, n: nat)
    requires n <= |s| && !(token <= s)
    ensures !(token <= s[..n])
  {
  }

  /** A token cannot straddle a place where one side is not a word character. */
  lemma {:induction false} ResolveSplits(a: string, b: string, token: string, id: string)
    requires IsToken(token)
    requires a == "" || b == "" || !IsTagChar(a[|a| - 1]) || !IsTagChar(b[0])
    ensures Resolve(a + b, token, id) == Resolve(a, token, id) + Resolve(b, token, id)
    decreases |a|
  {
    if a == "" {
      assert a + b == b;
    } else if b == "" {
      assert a + b == a;
    } else if token <= a + b {
      TokenFits(a, b, token);
      var more := a[|token|..];
      assert a == token + more;
      Regroup(token, more, b);
      ResolveToken(more + b, token, id);
      ResolveToken(more, token, id);
      ResolveSplits(more, b, token, id);
      Regroup(id, Resolve(more, token, id), Resolve(b, token, id));
    } else {
      var more := a[1..];
      assert a == [a[0]] + more;
      Regroup([a[0]], more, b);
      assert !(token <= a);
      ResolveChar(a[0], more + b, token, id);
      ResolveSplits(more, b, token, id);
      Regroup([a[0]], Resolve(more, token, id), Resolve(b, token, id));
    }
  }

  lemma TokenFits(a: string, b: string, token: string)
    requires IsToken(token) && token <= a + b && a != "" && b != ""
    requires !IsTagChar(a[|a| - 1]) || !IsTagChar(b[0])
    ensures token <= a
  {
    var s := a + b;
    assert forall i :: 0 <= i < |token| ==> s[i] == token[i];
    assert s[|a| - 1] == a[|a| - 1] && s[|a|] == b[0];
    assert |token| <= |a|;
    assert a == s[..|a|];
  }

  lemma ResolvedHead(s: string, token: string, id: string)
    requires IsToken(token) && Minted(id) && s != ""
    ensures Resolve(s, token, id) != ""
    ensures Resolve(s, token, id)[0] == if token <= s then 'm' else s[0]
    ensures !IsTagChar(s[0]) ==> Resolve(s, token, id) == [s[0]] + Resolve(s[1..], token, id)
    ensures s[0] != '_' ==> Resolve(s, token, id) == [s[0]] + Resolve(s[1..], token, id)
  {
  }

  lemma {:induction false} ResolvedEmpty(s: string, token: string, id: string)
    requires IsToken(token) && Minted(id)
    ensures Resolve(s, token, id) == "" <==> s == ""
  {
    if s != "" {
      ResolvedHead(s, token, id);
    }
  }

  // ---------------------------------------------------------------- measuring substituted text

  /** A measure reads the same prefix before and after substitution. */
  ghost predicate Measures(t: string, n: nat, m: nat, token: string, id: string)
    requires token != ""
  {
    && n <= |t|
    && m == |Resolve(t[..n], token, id)|
    && Resolve(t, token, id) == Resolve(t[..n], token, id) + Resolve(t[n..], token, id)
  }

  lemma MeasuresNothing(t: string, token: string, id: string)
    requires token != ""
    ensures Measures(t, 0, 0, token, id)
  {
    assert t[..0] == "" && t[0..] == t;
  }

  lemma MeasuresToken(t: string, n: nat, m: nat, token: string, id: string)
    requires token != "" && Measures(t, n, m, token, id)
    ensures Measures(token + t, |token| + n, |id| + m, token, id)
  {
    var s := token + t;
    assert s[..|token| + n] == token + t[..n];
    assert s[|token| + n..] == t[n..];
    ResolveToken(t[..n], token, id);
    ResolveToken(t, token, id);
    Regroup(id, Resolve(t[..n], token, id), Resolve(t[n..], token, id));
  }

  lemma MeasuresChar(c: char, t: string, n: nat, m: nat, token: string, id: string)
    requires token != "" && !(token <= [c] + t) && Measures(t, n, m, token, id)
    ensures Measures([c] + t, 1 + n, 1 + m, token, id)
  {
    var s := [c] + t;
    assert s[..1 + n] == [c] + t[..n];
    assert s[1 + n..] == t[n..];
    NotTokenPrefix(s, token, 1 + n);
    ResolveChar(c, t[..n], token, id);
    ResolveChar(c, t, token, id);
    Regroup([c], Resolve(t[..n], token, id), Resolve(t[n..], token, id));
  }

  lemma {:induction false} QuotedWords(w: string, t: string)
    requires Words(w)
    ensures QuotedLength(w + t) == |w| + QuotedLength(t)
  {
    if w != "" {
      assert (w + t)[1..] == w[1..] + t;
      QuotedWords(w[1..], t);
    } else {
      assert w + t == t;
    }
  }

  lemma {:induction false} LineWords(w: string, t: string)
    requires Words(w)
    ensures LineLength(w + t) == |w| + LineLength(t)
  {
    if w != "" {
      assert (w + t)[1..] == w[1..] + t;
      LineWords(w[1..], t);
    } else {
      assert w + t == t;
    }
  }

  lemma {:induction false} BlockWords(w: string, t: string, depth: nat)
    requires Words(w) && depth > 0
    ensures BlockLength(w + t, depth) == |w| + BlockLength(t, depth)
  {
    if w != "" {
      assert (w + t)[1..] == w[1..] + t;
      BlockWords(w[1..], t, depth);
    } else {
      assert w + t == t;
    }
  }

  lemma {:induction false} TagWords(w: string, t: string)
    requires Words(w)
    ensures TagRun(w + t) == |w| + TagRun(t)
  {
    if w != "" {
      assert (w + t)[1..] == w[1..] + t;
      TagWords(w[1..], t);
    } else {
      assert w + t == t;
    }
  }

  lemma MintedWords(id: string)
    requires Minted(id)
    ensures Words(id)
  {
    assert forall i :: 1 <= i < 33 ==> IsTagChar(id[i]);
  }

  lemma {:induction false} QuotedMeasures(t: string, token: string, id: string)
    requires IsToken(token) && Minted(id)
    ensures Measures(t, QuotedLength(t), QuotedLength(Resolve(t, token, id)), token, id)
    decreases |t|
  {
    MintedWords(id);
    if t == "" {
      MeasuresNothing(t, token, id);
    } else if token <= t {
      var more := t[|token|..];
      assert t == token + more;
      QuotedMeasures(more, token, id);
      QuotedAtToken(more, token, id);
    } else {
      if t[0] == '\'' {
        QuotedAtQuote(t, token, id);
      } else {
        var more := t[1..];
        assert t == [t[0]] + more;
        QuotedMeasures(more, token, id);
        QuotedAtChar(t[0], more, token, id);
      }
    }
  }

  lemma QuotedAtToken(more: string, token: string, id: string)
    requires IsToken(token) && Minted(id)
    requires Measures(more, QuotedLength(more), QuotedLength(Resolve(more, token, id)), token, id)
    ensures Measures(token + more, QuotedLength(token + more), QuotedLength(Resolve(token + more, token, id)), token, id)
  {
    MintedWords(id);
    QuotedWords(token, more);
    QuotedWords(id, Resolve(more, token, id));
    ResolveToken(more, token, id);
    MeasuresToken(more, QuotedLength(more), QuotedLength(Resolve(more, token, id)), token, id);
  }

  lemma QuotedAtChar(c: char, more: string, token: string, id: string)
    requires IsToken(token) && c != '\'' && !(token <= [c] + more)
    requires Measures(more, QuotedLength(more), QuotedLength(Resolve(more, token, id)), token, id)
    ensures Measures([c] + more, QuotedLength([c] + more), QuotedLength(Resolve([c] + more, token, id)), token, id)
  {
    ResolveChar(c, more, token, id);
    MeasuresChar(c, more, QuotedLength(more), QuotedLength(Resolve(more, token, id)), token, id);
    assert ([c] + more)[1..] == more;
    assert ([c] + Resolve(more, token, id))[1..] == Resolve(more, token, id);
  }

  lemma {:induction false} QuotedAtQuote(t: string, token: string, id: string)
    requires IsToken(token) && Minted(id) && t != "" && t[0] == '\''
    ensures Measures(t, QuotedLength(t), QuotedLength(Resolve(t, token, id)), token, id)
    decreases |t|, 0
  {
    if |t| > 1 && t[1] == '\'' {
      assert t == ['\''] + (['\''] + t[2..]);
      QuotedMeasures(t[2..], token, id);
      QuotedAtDoubled(t[2..], token, id);
    } else {
      assert t == ['\''] + t[1..];
      QuotedAtClose(t[1..], token, id);
    }
  }

  lemma QuotedAtDoubled(rest: string, token: string, id: string)
    requires IsToken(token)
    requires Measures(rest, QuotedLength(rest), QuotedLength(Resolve(rest, token, id)), token, id)
    ensures var t := ['\''] + (['\''] + rest);
            Measures(t, QuotedLength(t), QuotedLength(Resolve(t, token, id)), token, id)
  {
    var r := Resolve(rest, token, id);
    MeasuresTwo('\'', '\'', rest, QuotedLength(rest), QuotedLength(r), token, id);
    DoubledQuote(rest);
    DoubledQuote(r);
  }

  lemma QuotedAtClose(more: string, token: string, id: string)
    requires IsToken(token) && Minted(id) && (more == "" || more[0] != '\'')
    ensures Measures(['\''] + more, QuotedLength(['\''] + more), QuotedLength(Resolve(['\''] + more, token, id)), token, id)
  {
    NotTokenAt('\'', more, token);
    MeasuresNothing(more, token, id);
    MeasuresChar('\'', more, 0, 0, token, id);
    ResolveChar('\'', more, token, id);
    LoneQuote(more);
    if more != "" {
      ResolvedHead(more, token, id);
    }
    LoneQuote(Resolve(more, token, id));
  }

  lemma LoneQuote(more: string)
    requires more == "" || more[0] != '\''
    ensures QuotedLength(['\''] + more) == 1
  {
  }

  lemma DoubledQuote(rest: string)
    ensures QuotedLength(['\''] + (['\''] + rest)) == 1 + (1 + QuotedLength(rest))
  {
    assert (['\''] + (['\''] + rest))[2..] == rest;
  }

  lemma {:induction false} LineMeasures(t: string, token: string, id: string)
    requires IsToken(token) && Minted(id)
    ensures Measures(t, LineLength(t), LineLength(Resolve(t, token, id)), token, id)
    decreases |t|
  {
    if t == "" || t[0] == '\n' {
      if t != "" {
        ResolvedHead(t, token, id);
      }
      MeasuresNothing(t, token, id);
    } else if token <= t {
      assert t == token + t[|token|..];
      LineMeasures(t[|token|..], token, id);
      LineAtToken(t[|token|..], token, id);
    } else {
      assert t == [t[0]] + t[1..];
      LineMeasures(t[1..], token, id);
      LineAtChar(t[0], t[1..], token, id);
    }
  }

  lemma LineAtToken(more: string, token: string, id: string)
    requires IsToken(token) && Minted(id)
    requires Measures(more, LineLength(more), LineLength(Resolve(more, token, id)), token, id)
    ensures Measures(token + more, LineLength(token + more), LineLength(Resolve(token + more, token, id)), token, id)
  {
    MintedWords(id);
    LineWords(token, more);
    LineWords(id, Resolve(more, token, id));
    ResolveToken(more, token, id);
    MeasuresToken(more, LineLength(more), LineLength(Resolve(more, token, id)), token, id);
  }

  lemma LineAtChar(c: char, more: string, token: string, id: string)
    requires IsToken(token) && !(c == '\n') && !(token <= [c] + more)
    requires Measures(more, LineLength(more), LineLength(Resolve(more, token, id)), token, id)
    ensures Measures([c] + more, LineLength([c] + more), LineLength(Resolve([c] + more, token, id)), token, id)
  {
    ResolveChar(c, more, token, id);
    MeasuresChar(c, more, LineLength(more), LineLength(Resolve(more, token, id)), token, id);
    assert ([c] + more)[1..] == more;
    assert ([c] + Resolve(more, token, id))[1..] == Resolve(more, token, id);
  }

  lemma {:induction false} TagMeasures(t: string, token: string, id: string)
    requires IsToken(token) && Minted(id)
    ensures Measures(t, TagRun(t), TagRun(Resolve(t, token, id)), token, id)
    decreases |t|
  {
    if t == "" || !IsTagChar(t[0]) {
      if t != "" {
        ResolvedHead(t, token, id);
      }
      MeasuresNothing(t, token, id);
    } else if token <= t {
      assert t == token + t[|token|..];
      TagMeasures(t[|token|..], token, id);
      TagAtToken(t[|token|..], token, id);
    } else {
      assert t == [t[0]] + t[1..];
      TagMeasures(t[1..], token, id);
      TagAtChar(t[0], t[1..], token, id);
    }
  }

  lemma TagAtToken(more: string, token: string, id: string)
    requires IsToken(token) && Minted(id)
    requires Measures(more, TagRun(more), TagRun(Resolve(more, token, id)), token, id)
    ensures Measures(token + more, TagRun(token + more), TagRun(Resolve(token + more, token, id)), token, id)
  {
    MintedWords(id);
    TagWords(token, more);
    TagWords(id, Resolve(more, token, id));
    ResolveToken(more, token, id);
    MeasuresToken(more, TagRun(more), TagRun(Resolve(more, token, id)), token, id);
  }

  lemma TagAtChar(c: char, more: string, token: string, id: string)
    requires IsToken(token) && !(!IsTagChar(c)) && !(token <= [c] + more)
    requires Measures(more, TagRun(more), TagRun(Resolve(more, token, id)), token, id)
    ensures Measures([c] + more, TagRun([c] + more), TagRun(Resolve([c] + more, token, id)), token, id)
  {
    ResolveChar(c, more, token, id);
    MeasuresChar(c, more, TagRun(more), TagRun(Resolve(more, token, id)), token, id);
    assert ([c] + more)[1..] == more;
    assert ([c] + Resolve(more, token, id))[1..] == Resolve(more, token, id);
  }

  /** Whether two characters at the front form a delimiter survives substitution. */
  lemma FrontDelimiter(t: string, token: string, id: string)
    requires IsToken(token) && Minted(id) && t != "" && !(token <= t)
    ensures Opens(Resolve(t, token, id)) <==> Opens(t)
    ensures Closes(Resolve(t, token, id)) <==> Closes(t)
    ensures |t| > 1 && t[0] == '-' && t[1] == '-' <==>
              |Resolve(t, token, id)| > 1 && Resolve(t, token, id)[0] == '-' && Resolve(t, token, id)[1] == '-'
  {
    ResolvedHead(t, token, id);
    if |t| > 1 {
      ResolvedHead(t[1..], token, id);
      assert Resolve(t, token, id)[1] == Resolve(t[1..], token, id)[0];
    }
  }

  lemma {:induction false} BlockMeasures(t: string, depth: nat, token: string, id: string)
    requires IsToken(token) && Minted(id)
    ensures Measures(t, BlockLength(t, depth), BlockLength(Resolve(t, token, id), depth), token, id)
    decreases |t|
  {
    if t == "" || depth == 0 {
      MeasuresNothing(t, token, id);
    } else if token <= t {
      assert t == token + t[|token|..];
      BlockMeasures(t[|token|..], depth, token, id);
      BlockAtToken(t[|token|..], depth, token, id);
    } else if Opens(t) || Closes(t) {
      var d := if Opens(t) then depth + 1 else depth - 1;
      assert t == [t[0]] + ([t[1]] + t[2..]);
      BlockMeasures(t[2..], d, token, id);
      BlockAtDelimiter(t[0], t[1], t[2..], depth, d, token, id);
    } else {
      assert t == [t[0]] + t[1..];
      BlockMeasures(t[1..], depth, token, id);
      BlockAtChar(t[0], t[1..], depth, token, id);
    }
  }

  lemma BlockAtToken(more: string, depth: nat, token: string, id: string)
    requires IsToken(token) && Minted(id) && depth > 0
    requires Measures(more, BlockLength(more, depth), BlockLength(Resolve(more, token, id), depth), token, id)
    ensures Measures(token + more, BlockLength(token + more, depth), BlockLength(Resolve(token + more, token, id), depth), token, id)
  {
    MintedWords(id);
    BlockWords(token, more, depth);
    BlockWords(id, Resolve(more, token, id), depth);
    ResolveToken(more, token, id);
    MeasuresToken(more, BlockLength(more, depth), BlockLength(Resolve(more, token, id), depth), token, id);
  }

  lemma BlockAtChar(c: char, more: string, depth: nat, token: string, id: string)
    requires IsToken(token) && Minted(id) && depth > 0
    requires !(token <= [c] + more) && !Opens([c] + more) && !Closes([c] + more)
    requires Measures(more, BlockLength(more, depth), BlockLength(Resolve(more, token, id), depth), token, id)
    ensures Measures([c] + more, BlockLength([c] + more, depth), BlockLength(Resolve([c] + more, token, id), depth), token, id)
  {
    var r := Resolve(more, token, id);
    FrontDelimiter([c] + more, token, id);
    ResolveChar(c, more, token, id);
    MeasuresChar(c, more, BlockLength(more, depth), BlockLength(r, depth), token, id);
    OrdinaryLength(c, more, depth);
    OrdinaryLength(c, r, depth);
  }

  lemma OrdinaryLength(c: char, more: string, depth: nat)
    requires depth > 0 && !Opens([c] + more) && !Closes([c] + more)
    ensures BlockLength([c] + more, depth) == 1 + BlockLength(more, depth)
  {
    assert ([c] + more)[1..] == more;
  }

  lemma DelimiterLength(a: char, b: char, rest: string, depth: nat, d: nat)
    requires depth > 0
    requires (a == '/' && b == '*' && d == depth + 1) || (a == '*' && b == '/' && d == depth - 1)
    ensures BlockLength([a] + ([b] + rest), depth) == 1 + (1 + BlockLength(rest, d))
  {
    assert ([a] + ([b] + rest))[2..] == rest;
  }

  lemma NotTokenAt(c: char, rest: string, token: string)
    requires IsToken(token) && !IsTagChar(c)
    ensures !(token <= [c] + rest)
  {
    assert ([c] + rest)[0] == c;
  }

  lemma MeasuresTwo(c: char, d: char, rest: string, n: nat, m: nat, token: string, id: string)
    requires IsToken(token) && !IsTagChar(c) && !IsTagChar(d) && Measures(rest, n, m, token, id)
    ensures Measures([c] + ([d] + rest), 1 + (1 + n), 1 + (1 + m), token, id)
    ensures Resolve([c] + ([d] + rest), token, id) == [c] + ([d] + Resolve(rest, token, id))
  {
    var more := [d] + rest;
    NotTokenAt(d, rest, token);
    NotTokenAt(c, more, token);
    MeasuresChar(d, rest, n, m, token, id);
    MeasuresChar(c, more, 1 + n, 1 + m, token, id);
    ResolveChar(d, rest, token, id);
    ResolveChar(c, more, token, id);
  }

  lemma BlockAtDelimiter(a: char, b: char, rest: string, depth: nat, d: nat, token: string, id: string)
    requires IsToken(token) && depth > 0
    requires (a == '/' && b == '*' && d == depth + 1) || (a == '*' && b == '/' && d == depth - 1)
    requires Measures(rest, BlockLength(rest, d), BlockLength(Resolve(rest, token, id), d), token, id)
    ensures var t := [a] + ([b] + rest);
            Measures(t, BlockLength(t, depth), BlockLength(Resolve(t, token, id), depth), token, id)
  {
    var r := Resolve(rest, token, id);
    MeasuresTwo(a, b, rest, BlockLength(rest, d), BlockLength(r, d), token, id);
    DelimiterLength(a, b, rest, depth, d);
    DelimiterLength(a, b, r, depth, d);
  }
}
