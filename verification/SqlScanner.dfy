/** stripSQLNoise: the index scanner, its recursive reading, and the regions it cuts a statement into. */
module SqlScanner {
  import opened Wrappers

  // ---------------------------------------------------------------- region lengths, read from the front of a text

  /** After an opening quote: up to and including the closing one, or everything. */
  function QuotedLength(t: string): (n: nat)
    ensures n <= |t|
  {
    if t == "" then 0
    else if t[0] == '\'' then
      if |t| > 1 && t[1] == '\'' then 2 + QuotedLength(t[2..]) else 1
    else 1 + QuotedLength(t[1..])
  }

  function LineLength(t: string): (n: nat)
    ensures n <= |t|
  {
    if t == "" || t[0] == '\n' then 0 else 1 + LineLength(t[1..])
  }

  predicate Opens(t: string) {
    |t| > 1 && t[0] == '/' && t[1] == '*'
  }

  predicate Closes(t: string) {
    |t| > 1 && t[0] == '*' && t[1] == '/'
  }

  /** Inside a block comment at some depth: up to and including the outermost close, or everything. */
  function BlockLength(t: string, depth: nat): (n: nat)
    ensures n <= |t|
  {
    if t == "" || depth == 0 then 0
    else if Opens(t) then 2 + BlockLength(t[2..], depth + 1)
    else if Closes(t) then 2 + BlockLength(t[2..], depth - 1)
    else 1 + BlockLength(t[1..], depth)
  }

  predicate IsTagStart(c: char) {
    c == '_' || 'a' <= c <= 'z' || 'A' <= c <= 'Z'
  }

  predicate IsTagChar(c: char) {
    IsTagStart(c) || '0' <= c <= '9'
  }

  function TagRun(t: string): (n: nat)
    ensures n <= |t|
  {
    if t == "" || !IsTagChar(t[0]) then 0 else 1 + TagRun(t[1..])
  }

  /** After a '$': the length of the tag name, if one starts here. */
  function TagLength(t: string): (n: nat)
    ensures n <= |t|
  {
    if t != "" && IsTagStart(t[0]) then 1 + TagRun(t[1..]) else 0
  }

  /** strings.Index */
  function Index(t: string, tag: string): (i: Option<nat>)
    ensures i.Some? ==> i.value + |tag| <= |t| && t[i.value..i.value + |tag|] == tag
  {
    if tag <= t then Some(0)
    else if t == "" then None
    else
      match Index(t[1..], tag)
      case None => None
      case Some(i) => Some(i + 1)
  }

  /** From a '$': the delimiter that opens here, "$tag$", if any. */
  function Delimiter(t: string): (d: Option<string>)
    requires t != "" && t[0] == '$'
    ensures d.Some? ==> |d.value| >= 2 && d.value <= t
  {
    var i := 1 + TagLength(t[1..]);
    if i < |t| && t[i] == '$' then Some(t[..i + 1]) else None
  }

  /** From an opening delimiter: up to and including the closing one, or everything. */
  function DollarLength(t: string, d: string): (n: nat)
    requires d <= t && d != ""
    ensures 0 < n <= |t|
  {
    match Index(t[|d|..], d)
    case None => |t|
    case Some(i) => |d| + i + |d|
  }

  // ---------------------------------------------------------------- regions

  datatype Region =
    | Plain(c: char)
    | Quoted(text: string)
    | LineComment(text: string)
    | BlockComment(text: string)
    | DollarQuoted(text: string)

  function TextOf(r: Region): string {
    match r
    case Plain(c) => [c]
    case _ => r.text
  }

  /** What is left of a region after stripping. */
  function Remains(r: Region): string {
    match r
    case Plain(c) => [c]
    case LineComment(_) => ""
    case _ => " "
  }

  /** The region at the front of a statement. */
  function FirstRegion(s: string): (r: Region)
    requires s != ""
    ensures TextOf(r) != "" && TextOf(r) <= s
  {
    if s[0] == '\'' then Quoted(s[..1 + QuotedLength(s[1..])])
    else if |s| > 1 && s[0] == '-' && s[1] == '-' then LineComment(s[..2 + LineLength(s[2..])])
    else if Opens(s) then BlockComment(s[..2 + BlockLength(s[2..], 1)])
    else if s[0] == '$' && Delimiter(s).Some? then DollarQuoted(s[..DollarLength(s, Delimiter(s).value)])
    else Plain(s[0])
  }

  /** FirstRegion, reached only through FirstIs: most proofs need nothing of how a region is found. */
  function First(s: string): (r: Region)
    requires s != ""
    ensures TextOf(r) != "" && TextOf(r) <= s
  {
    FirstAfter(s, |s| + 2)
  }

  function FirstAfter(s: string, steps: nat): (r: Region)
    requires s != ""
    ensures TextOf(r) != "" && TextOf(r) <= s
  {
    if steps == 0 then FirstRegion(s) else FirstAfter(s, steps - 1)
  }

  lemma {:induction false} FirstAfterSame(s: string, steps: nat, start: nat)
    requires s != "" && start <= steps
    ensures FirstAfter(s, steps) == FirstAfter(s, start)
  {
    if steps > start {
      FirstAfterSame(s, steps - 1, start);
    }
  }

  lemma FirstIs(s: string)
    requires s != ""
    ensures First(s) == FirstRegion(s)
  {
    FirstAfterSame(s, |s| + 2, 0);
  }

  lemma DollarRegion(s: string, d: string, n: nat)
    requires s != "" && s[0] == '$' && Delimiter(s) == Some(d) && DollarLength(s, d) == n
    ensures FirstRegion(s) == DollarQuoted(s[..n])
  {
  }

  function Lex(s: string): (rs: seq<Region>)
    decreases |s|
  {
    if s == "" then [] else [First(s)] + Lex(s[|TextOf(First(s))|..])
  }

  function Strip(s: string): (t: string)
    decreases |s|
  {
    if s == "" then "" else Remains(First(s)) + Strip(s[|TextOf(First(s))|..])
  }

  // ---------------------------------------------------------------- the scanner

  method StripSQLNoise(s: string) returns (b: string)
    ensures b == Strip(s)
  {
    b := "";
    var i := 0;
    while i < |s|
      invariant 0 <= i <= |s|
      invariant b + Strip(s[i..]) == Strip(s)
    {
      var written;
      i, written := Step(s, i);
      assert (b + written) + Strip(s[i..]) == b + (written + Strip(s[i..]));
      b := b + written;
    }
    assert b + "" == b;
  }

  method Step(s: string, start: nat) returns (i: nat, written: string)
    requires start < |s|
    ensures start < i <= |s|
    ensures Strip(s[start..]) == written + Strip(s[i..])
  {
    i, written := Switch(s, start);
    Advance(s, start, i);
  }

  /** The scanner's switch on one byte: where it moves the index, and what it writes. */
  method Switch(s: string, start: nat) returns (i: nat, written: string)
    requires start < |s|
    ensures i == start + |TextOf(First(s[start..]))|
    ensures written == Remains(First(s[start..]))
  {
    ghost var t := s[start..];
    FirstIs(t);
    assert t[1..] == s[start + 1..];
    if start + 1 < |s| {
      assert t[2..] == s[start + 2..];
    }
    i := start;
    var c := s[i];
    if c == '\'' {
      i := SkipSingleQuoted(s, i);
      return i, " ";
    }
    if c == '-' && i + 1 < |s| && s[i + 1] == '-' {
      i := SkipLine(s, i);
      return i, "";
    }
    if c == '/' && i + 1 < |s| && s[i + 1] == '*' {
      i := SkipBlockComment(s, i);
      return i, " ";
    }
    if c == '$' {
      var end := SkipDollarQuoted(s, i);
      if end.Some? {
        return end.value, " ";
      }
    }
    return i + 1, [c];
  }

  /** Moving the index past the front region leaves the rest of the text. */
  lemma Advance(s: string, from: nat, i: nat)
    requires from < |s| && i == from + |TextOf(First(s[from..]))|
    ensures from < i <= |s| && Strip(s[from..]) == Remains(First(s[from..])) + Strip(s[i..])
  {
    assert s[from..][i - from..] == s[i..];
  }

  method SkipSingleQuoted(s: string, start: nat) returns (i: nat)
    requires start < |s|
    ensures i == start + 1 + QuotedLength(s[start + 1..])
  {
    i := start + 1;
    ghost var end := i + QuotedLength(s[i..]);
    while i < |s|
      invariant start < i <= |s|
      invariant i + QuotedLength(s[i..]) == end
    {
      if s[i] == '\'' {
        if i + 1 < |s| && s[i + 1] == '\'' {
          assert s[i..][2..] == s[i + 2..];
          i := i + 2;
          continue;
        }
        return i + 1;
      }
      assert s[i..][1..] == s[i + 1..];
      i := i + 1;
    }
  }

  method SkipLine(s: string, start: nat) returns (i: nat)
    requires start + 1 < |s| && s[start] == '-' && s[start + 1] == '-'
    ensures i == start + 2 + LineLength(s[start + 2..])
  {
    i := start;
    assert s[start..][1..] == s[start + 1..] && s[start + 1..][1..] == s[start + 2..];
    ghost var end := i + LineLength(s[i..]);
    while i < |s| && s[i] != '\n'
      invariant start <= i <= |s|
      invariant i + LineLength(s[i..]) == end
    {
      assert s[i..][1..] == s[i + 1..];
      i := i + 1;
    }
  }

  /** BlockLength by index: where the comment ends. */
  function BlockEnd(s: string, i: nat, depth: nat): nat
    decreases |s| - i
  {
    if i >= |s| || depth == 0 then i
    else if s[i] == '/' && i + 1 < |s| && s[i + 1] == '*' then BlockEnd(s, i + 2, depth + 1)
    else if s[i] == '*' && i + 1 < |s| && s[i + 1] == '/' then BlockEnd(s, i + 2, depth - 1)
    else BlockEnd(s, i + 1, depth)
  }

  lemma {:induction false} BlockEndIs(s: string, i: nat, depth: nat)
    requires i <= |s|
    ensures BlockEnd(s, i, depth) == i + BlockLength(s[i..], depth)
    decreases |s| - i
  {
    if i < |s| && depth > 0 {
      var t := s[i..];
      if Opens(t) {
        assert t[2..] == s[i + 2..];
        BlockEndIs(s, i + 2, depth + 1);
      } else if Closes(t) {
        assert t[2..] == s[i + 2..];
        BlockEndIs(s, i + 2, depth - 1);
      } else {
        assert t[1..] == s[i + 1..];
        BlockEndIs(s, i + 1, depth);
      }
    }
  }

  method SkipBlockComment(s: string, start: nat) returns (i: nat)
    requires start + 2 <= |s|
    ensures i == start + 2 + BlockLength(s[start + 2..], 1)
  {
    var depth: nat := 1;
    i := start + 2;
    while i < |s| && depth > 0
      invariant i <= |s|
      invariant BlockEnd(s, i, depth) == BlockEnd(s, start + 2, 1)
    {
      if s[i] == '/' && i + 1 < |s| && s[i + 1] == '*' {
        depth := depth + 1;
        i := i + 2;
      } else if s[i] == '*' && i + 1 < |s| && s[i + 1] == '/' {
        depth := depth - 1;
        i := i + 2;
      } else {
        i := i + 1;
      }
    }
    BlockEndIs(s, start + 2, 1);
  }

  method SkipTag(s: string, start: nat) returns (i: nat)
    requires start < |s| && s[start] == '$'
    ensures i == start + 1 + TagLength(s[start + 1..])
  {
    i := start + 1;
    ghost var stop := i + TagLength(s[i..]);
    if i < |s| && IsTagStart(s[i]) {
      i := i + 1;
      assert s[start + 1..][1..] == s[i..];
      while i < |s| && IsTagChar(s[i])
        invariant start + 2 <= i <= |s|
        invariant i + TagRun(s[i..]) == stop
      {
        assert s[i..][1..] == s[i + 1..];
        i := i + 1;
      }
    }
  }

  method SkipDollarQuoted(s: string, start: nat) returns (end: Option<nat>)
    requires start < |s| && s[start] == '$'
    ensures end.Some? <==> Delimiter(s[start..]).Some?
    ensures end.Some? ==> end.value == start + DollarLength(s[start..], Delimiter(s[start..]).value)
  {
    ghost var t := s[start..];
    var i := SkipTag(s, start);
    assert t[1..] == s[start + 1..];
    if i >= |s| || s[i] != '$' {
      return None;
    }
    var tag := s[start..i + 1];
    assert t[..i + 1 - start] == tag;
    assert Delimiter(t) == Some(tag);
    assert t[|tag|..] == s[i + 1..];
    match Index(s[i + 1..], tag)
    case None => end := Some(|s|);
    case Some(rest) => end := Some(i + 1 + rest + |tag|);
  }

  /** Stripping never grows a statement. */
  lemma {:induction false} StripShrinks(s: string)
    ensures |Strip(s)| <= |s|
    decreases |s|
  {
    if s != "" {
      StripShrinks(s[|TextOf(First(s))|..]);
    }
  }

  // ---------------------------------------------------------------- the declarative lexer

  predicate IsTag(tag: string) {
    tag == "" || (IsTagStart(tag[0]) && forall i :: 1 <= i < |tag| ==> IsTagChar(tag[i]))
  }

  function Bracket(tag: string): string {
    "$" + tag + "$"
  }

  /** Quotes inside a literal come doubled. */
  predicate DoubledQuotes(body: string) {
    body == ""
    || (body[0] != '\'' && DoubledQuotes(body[1..]))
    || (|body| > 1 && body[0] == '\'' && body[1] == '\'' && DoubledQuotes(body[2..]))
  }

  datatype Token = Open | Close | Other(c: char)

  function Spell(toks: seq<Token>): string {
    if toks == [] then ""
    else
      (match toks[0] case Open => "/*" case Close => "*/" case Other(c) => [c]) + Spell(toks[1..])
  }

  /** No Other begins a delimiter. */
  predicate Greedy(toks: seq<Token>) {
    toks == [] || (Greedy(toks[1..]) && (toks[0].Other? ==> !Opens(Spell(toks)) && !Closes(Spell(toks))))
  }

  function Depth(toks: seq<Token>, start: int): int {
    if toks == [] then start
    else Depth(toks[1..], match toks[0] case Open => start + 1 case Close => start - 1 case Other(_) => start)
  }

  /** From depth start, the nesting first returns to zero at the last token. */
  ghost predicate Balanced(toks: seq<Token>, start: int) {
    && (forall k :: 0 <= k < |toks| ==> Depth(toks[..k], start) > 0)
    && Depth(toks, start) == 0
  }

  ghost predicate StaysOpen(toks: seq<Token>, start: int) {
    forall k :: 0 <= k <= |toks| ==> Depth(toks[..k], start) > 0
  }

  ghost predicate Occurs(d: string, t: string) {
    exists k :: 0 <= k <= |t| && d <= t[k..]
  }

  /** d ends t and occurs nowhere earlier in it. */
  ghost predicate OccursLast(d: string, t: string) {
    |d| <= |t| && d <= t[|t| - |d|..] && forall k :: 0 <= k < |t| - |d| ==> !(d <= t[k..])
  }

  /** Whether some region other than plain text starts here. */
  ghost predicate Starts(s: string) {
    && s != ""
    && (s[0] == '\'' || "--" <= s || "/*" <= s || exists tag :: IsTag(tag) && Bracket(tag) <= s)
  }

  /** A region as the lexer defines it, given the text that follows; an unterminated one runs to the end. */
  ghost predicate Placed(r: Region, rest: string) {
    match r
    case Plain(c) => !Starts([c] + rest)
    case Quoted(text) =>
      || (exists body :: DoubledQuotes(body) && text == "'" + body + "'" && (rest == "" || rest[0] != '\''))
      || (exists body :: DoubledQuotes(body) && text == "'" + body && rest == "")
    case LineComment(text) => "--" <= text && '\n' !in text && (rest == "" || rest[0] == '\n')
    case BlockComment(text) =>
      exists toks :: Greedy(toks) && text == "/*" + Spell(toks) && (Balanced(toks, 1) || (StaysOpen(toks, 1) && rest == ""))
    case DollarQuoted(text) =>
      exists tag, body :: IsTag(tag) && text == Bracket(tag) + body
                          && (OccursLast(Bracket(tag), body) || (!Occurs(Bracket(tag), body) && rest == ""))
  }

  function Concat(rs: seq<Region>): string {
    if rs == [] then "" else TextOf(rs[0]) + Concat(rs[1..])
  }

  ghost predicate AllPlaced(rs: seq<Region>) {
    rs == [] || (Placed(rs[0], Concat(rs[1..])) && AllPlaced(rs[1..]))
  }

  function RemainsOf(rs: seq<Region>): string {
    if rs == [] then "" else Remains(rs[0]) + RemainsOf(rs[1..])
  }
}
