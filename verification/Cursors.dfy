/** Cursors and headers over base64url: the ID cursor, the invocation header, and the scope of a cursor. */
module Cursors {
  import opened Wrappers
  import opened Sequences
  import opened DecimalText
  import opened Base64Url

  // ---------------------------------------------------------------- text and bytes

  predicate IsAscii(s: string) {
    forall i :: 0 <= i < |s| ==> s[i] < '\U{0080}'
  }

  function Bytes(s: string): (b: seq<byte>)
    requires IsAscii(s)
    ensures |b| == |s|
  {
    seq(|s|, i requires 0 <= i < |s| => s[i] as int)
  }

  function Chars(b: seq<byte>): (s: string)
    ensures |s| == |b|
  {
    seq(|b|, i requires 0 <= i < |b| => b[i] as char)
  }

  lemma CharsOfBytes(s: string)
    requires IsAscii(s)
    ensures Chars(Bytes(s)) == s
  {
  }

  lemma DecimalIsAscii(n: int)
    ensures IsAscii(PrintInt(n))
  {
  }

  // ---------------------------------------------------------------- the ID cursor

  const CURSOR_PREFIX := "c1."

  function TrimPrefix(s: string, prefix: string): string {
    if prefix <= s then s[|prefix|..] else s
  }

  function CursorText(n: int): string {
    DecimalIsAscii(n);
    if n == 0 then "" else CURSOR_PREFIX + Encode(Bytes(PrintInt(n)))
  }

  /** Whatever does not decode is the first page. */
  function ParseCursor(text: string): (n: int)
    ensures 0 <= n <= MAX_INT64
  {
    var raw := TrimPrefix(text, CURSOR_PREFIX);
    if raw == "" then 0
    else
      match Decode(raw)
      case None => 0
      case Some(decoded) =>
        match ParseInt64(Chars(decoded))
        case None => 0
        case Some(n) => if n < 0 then 0 else n
  }

  /** A printed cursor reads back exactly when it is not negative; a negative one reads as the first page. */
  lemma {:induction false} CursorRoundTrip(n: int)
    requires MIN_INT64 <= n <= MAX_INT64
    ensures ParseCursor(CursorText(n)) == if n >= 0 then n else 0
  {
    if n != 0 {
      DecimalIsAscii(n);
      var b := Bytes(PrintInt(n));
      var text := CursorText(n);
      assert text[|CURSOR_PREFIX|..] == Encode(b);
      RoundTrip(b);
      EncodeLength(b);
      CharsOfBytes(PrintInt(n));
      ParsePrinted(n);
    }
  }

  /** Different positions have different cursors. */
  lemma CursorInjective(a: int, b: int)
    requires 0 <= a <= MAX_INT64 && 0 <= b <= MAX_INT64 && CursorText(a) == CursorText(b)
    ensures a == b
  {
    CursorRoundTrip(a);
    CursorRoundTrip(b);
  }

  /** A cursor text is c1. and the base64 of the decimal position, or nothing for the first page; whatever is not that of a positive position reads as the first page. */
  lemma {:induction false} CursorExactly(text: string, n: int)
    ensures CursorText(n) == if n == 0 then "" else "c1." + Encode(Bytes(PrintInt(n)))
    ensures var raw := if "c1." <= text then text[3..] else text;
            var position := if Decode(raw).None? then None else ParseInt64(Chars(Decode(raw).value));
            ParseCursor(text) == if position.Some? && position.value > 0 then position.value else 0
  {
    NothingIsNoNumber();
  }

  lemma NothingIsNoNumber()
    ensures Decode("") == Some([]) && ParseInt64(Chars([])).None?
  {
  }

  // ---------------------------------------------------------------- the invocation header

  const MAX_INVOCATION := 6144

  /** canonical is the set of byte strings the strict parser accepts, apart from its size bound. */
  predicate Parses(canonical: seq<byte> -> bool, raw: seq<byte>) {
    0 < |raw| <= MAX_INVOCATION && canonical(raw)
  }

  function EncodeHeader(canonical: seq<byte> -> bool, raw: seq<byte>): Option<string> {
    if Parses(canonical, raw) then Some(Encode(raw)) else None
  }

  function DecodeHeader(canonical: seq<byte> -> bool, value: string): Option<seq<byte>> {
    if value == "" || |value| > EncodedLen(MAX_INVOCATION) then None
    else
      match Decode(value)
      case None => None
      case Some(raw) => if Encode(raw) == value && Parses(canonical, raw) then Some(raw) else None
  }

  /** A header text is accepted as raw exactly when it is the one text raw is encoded to. */
  lemma {:induction false} HeaderExactly(canonical: seq<byte> -> bool, value: string, raw: seq<byte>)
    ensures DecodeHeader(canonical, value) == Some(raw) <==> EncodeHeader(canonical, raw) == Some(value)
  {
    if Parses(canonical, raw) {
      RoundTrip(raw);
      EncodeLength(raw);
      LengthMonotone(|raw|, MAX_INVOCATION);
    }
  }

  /** What a header may carry: canonical bytes, at least one and at most 6144. */
  lemma {:induction false} HeaderCarries(canonical: seq<byte> -> bool, raw: seq<byte>)
    ensures EncodeHeader(canonical, raw) == if 1 <= |raw| <= 6144 && canonical(raw) then Some(Encode(raw)) else None
  {
  }

  lemma LengthMonotone(n: nat, m: nat)
    requires 0 < n <= m
    ensures 0 < EncodedLen(n) <= EncodedLen(m)
  {
  }

  // ---------------------------------------------------------------- the scope of a cursor

  const SEPARATOR := '\U{001F}'

  function FiltersText(filters: seq<string>): string {
    if filters == [] then ""
    else [SEPARATOR] + (Print(|filters[0]|) + (":" + (filters[0] + FiltersText(filters[1..]))))
  }

  /** The text a scope is the digest of. */
  function ScopeText(resource: string, filters: seq<string>): string {
    resource + FiltersText(filters)
  }

  /** Each filter follows the resource after a unit separator, with its length in front. */
  lemma {:induction false} ScopeOfMore(resource: string, filters: seq<string>, filter: string)
    ensures ScopeText(resource, []) == resource
    ensures ScopeText(resource, filters + [filter]) == ScopeText(resource, filters) + (['\U{001F}'] + (Print(|filter|) + (":" + filter)))
  {
    FiltersAppend(filters, filter);
    OneFilter(filter);
    Regroup(resource, FiltersText(filters), FiltersText([filter]));
  }

  lemma {:induction false} OneFilter(filter: string)
    ensures FiltersText([filter]) == ['\U{001F}'] + (Print(|filter|) + (":" + filter))
  {
    assert [filter][1..] == [] && filter + "" == filter;
  }

  lemma {:induction false} FiltersAppend(filters: seq<string>, filter: string)
    ensures FiltersText(filters + [filter]) == FiltersText(filters) + FiltersText([filter])
  {
    if filters != [] {
      var rest := FiltersText(filters[1..]);
      FiltersAppend(filters[1..], filter);
      assert (filters + [filter])[1..] == filters[1..] + [filter];
      Regroup(filters[0], rest, FiltersText([filter]));
      Regroup(":", filters[0] + rest, FiltersText([filter]));
      Regroup(Print(|filters[0]|), ":" + (filters[0] + rest), FiltersText([filter]));
      Regroup([SEPARATOR], Print(|filters[0]|) + (":" + (filters[0] + rest)), FiltersText([filter]));
    } else {
      assert filters + [filter] == [filter];
    }
  }

  method WriteScope(resource: string, filters: seq<string>) returns (value: string)
    ensures value == ScopeText(resource, filters)
  {
    value := resource;
    assert filters[0..] == filters;
    for i := 0 to |filters|
      invariant value + FiltersText(filters[i..]) == ScopeText(resource, filters)
    {
      var next := [SEPARATOR] + (Print(|filters[i]|) + (":" + filters[i]));
      FilterWritten(filters, i, next);
      Regroup(value, next, FiltersText(filters[i + 1..]));
      value := value + next;
    }
    assert value + "" == value;
  }

  lemma {:induction false} FilterWritten(filters: seq<string>, i: nat, next: string)
    requires i < |filters| && next == [SEPARATOR] + (Print(|filters[i]|) + (":" + filters[i]))
    ensures FiltersText(filters[i..]) == next + FiltersText(filters[i + 1..])
  {
    assert filters[i..][1..] == filters[i + 1..];
    var rest := FiltersText(filters[i + 1..]);
    Regroup(":", filters[i], rest);
    Regroup(Print(|filters[i]|), ":" + filters[i], rest);
    Regroup([SEPARATOR], Print(|filters[i]|) + (":" + filters[i]), rest);
  }

  lemma {:induction false} CutNoLater(a: string, x: string, b: string, y: string, mark: char)
    requires a + x == b + y && (forall i :: 0 <= i < |b| ==> b[i] != mark) && (x == "" || x[0] == mark)
    ensures |b| <= |a|
  {
    var s := b + y;
    assert forall i :: 0 <= i < |b| ==> s[i] != mark;
    assert x != "" ==> (a + x)[|a|] == mark;
  }

  /** Two texts cut at the same first mark are cut alike. */
  lemma {:induction false} CutAlike(a: string, x: string, b: string, y: string, mark: char)
    requires a + x == b + y
    requires (forall i :: 0 <= i < |a| ==> a[i] != mark) && (forall i :: 0 <= i < |b| ==> b[i] != mark)
    requires (x == "" || x[0] == mark) && (y == "" || y[0] == mark)
    ensures a == b && x == y
  {
    CutNoLater(a, x, b, y, mark);
    CutNoLater(b, y, a, x, mark);
    var s := a + x;
    assert a == s[..|a|] && b == s[..|b|] && x == s[|a|..] && y == s[|b|..];
  }

  lemma {:induction false} DigitsBeforeColon(n: nat)
    ensures forall i :: 0 <= i < |Print(n)| ==> Print(n)[i] != ':'
  {
  }

  /** Length-prefixed values: equal texts are equal tuples. */
  lemma {:induction false} FiltersInjective(f: seq<string>, g: seq<string>)
    requires FiltersText(f) == FiltersText(g)
    ensures f == g
    decreases |f|
  {
    if f != [] && g != [] {
      var x := ":" + (f[0] + FiltersText(f[1..]));
      var y := ":" + (g[0] + FiltersText(g[1..]));
      assert FiltersText(f)[1..] == Print(|f[0]|) + x && FiltersText(g)[1..] == Print(|g[0]|) + y;
      DigitsBeforeColon(|f[0]|);
      DigitsBeforeColon(|g[0]|);
      CutAlike(Print(|f[0]|), x, Print(|g[0]|), y, ':');
      PrintInjective(|f[0]|, |g[0]|);
      assert x[1..] == f[0] + FiltersText(f[1..]) && y[1..] == g[0] + FiltersText(g[1..]);
      assert x[1..][..|f[0]|] == f[0] && y[1..][..|g[0]|] == g[0];
      assert x[1..][|f[0]|..] == FiltersText(f[1..]) && y[1..][|g[0]|..] == FiltersText(g[1..]);
      FiltersInjective(f[1..], g[1..]);
      assert f == [f[0]] + f[1..] && g == [g[0]] + g[1..];
    }
  }

  /** One resource: different filter tuples have different scope texts, whatever the resource is called. */
  lemma {:induction false} SameResourceInjective(r: string, f: seq<string>, g: seq<string>)
    requires ScopeText(r, f) == ScopeText(r, g)
    ensures f == g
  {
    assert ScopeText(r, f)[|r|..] == FiltersText(f) && ScopeText(r, g)[|r|..] == FiltersText(g);
    FiltersInjective(f, g);
  }

  // ---------------------------------------------------------------- which resources collide

  /** What a filter of n bytes begins with. */
  function Head(n: nat): (s: string)
    ensures |s| >= 3 && s[0] == SEPARATOR
  {
    [SEPARATOR] + (Print(n) + ":")
  }

  lemma {:induction false} FiltersStart(f: seq<string>)
    requires f != []
    ensures FiltersText(f) == Head(|f[0]|) + (f[0] + FiltersText(f[1..]))
  {
    var rest := f[0] + FiltersText(f[1..]);
    Regroup(Print(|f[0]|), ":", rest);
    Regroup([SEPARATOR], Print(|f[0]|) + ":", rest);
  }

  lemma {:induction false} HeadChars(n: nat, i: nat)
    requires 0 < i < |Head(n)|
    ensures Head(n)[i] != SEPARATOR && (Head(n)[i] == ':' <==> i == |Head(n)| - 1)
  {
    DigitsBeforeColon(n);
  }

  function ColonAt(x: string): (i: Option<nat>)
    ensures i.Some? ==> i.value < |x| && x[i.value] == ':'
  {
    if x == "" then None
    else if x[0] == ':' then Some(0)
    else
      var i :- ColonAt(x[1..]);
      Some(i + 1)
  }

  /**
   A list of length-prefixed values that ends with a value or inside its last
   one, with at least three bytes of it missing: as many as the shortest filter
   takes.
   */
  predicate Open(x: string) {
    && x != "" && x[0] == SEPARATOR
    && ColonAt(x).Some? && ColonAt(x).value > 0
    && Canonical(x[1..ColonAt(x).value])
    && var n, rest := Value(x[1..ColonAt(x).value]), x[ColonAt(x).value + 1..];
       || (n <= |rest| && (rest[n..] == "" || Open(rest[n..])))
       || n >= |rest| + 3
  }

  predicate OpenRest(n: nat, rest: string) {
    || (n <= |rest| && (rest[n..] == "" || Open(rest[n..])))
    || n >= |rest| + 3
  }

  lemma {:induction false} FirstColon(digits: string, rest: string)
    requires forall i :: 0 <= i < |digits| ==> digits[i] != ':'
    ensures ColonAt(digits + (":" + rest)) == Some(|digits|)
  {
    if digits != "" {
      assert (digits + (":" + rest))[1..] == digits[1..] + (":" + rest);
      FirstColon(digits[1..], rest);
    } else {
      assert digits + (":" + rest) == ":" + rest;
    }
  }

  lemma {:induction false} HeadColon(n: nat, rest: string)
    ensures ColonAt(Head(n) + rest) == Some(|Print(n)| + 1)
  {
    DigitsBeforeColon(n);
    var digits := [SEPARATOR] + Print(n);
    FirstColon(digits, rest);
    assert Head(n) + rest == digits + (":" + rest);
  }

  lemma {:induction false} OpenHead(n: nat, rest: string)
    ensures Open(Head(n) + rest) <==> OpenRest(n, rest)
  {
    HeadColon(n, rest);
    var x := Head(n) + rest;
    assert x[1..|Print(n)| + 1] == Print(n) && x[|Print(n)| + 2..] == rest;
    PrintDenotes(n);
  }

  lemma {:induction false} OpenHasHead(x: string) returns (n: nat, rest: string)
    requires Open(x)
    ensures x == Head(n) + rest && OpenRest(n, rest)
  {
    var k := ColonAt(x).value;
    var digits := x[1..k];
    n, rest := Value(digits), x[k + 1..];
    CanonicalIsPrinted(digits);
    assert x == [SEPARATOR] + (digits + ":") + rest;
  }

  /** No filter text begins with one or two bytes and then another filter text. */
  lemma {:induction false} NoShortCut(g: seq<string>, f: seq<string>, d: nat)
    requires 0 < d <= |FiltersText(g)| && FiltersText(g)[d..] == FiltersText(f)
    ensures d >= 3
  {
    var t := FiltersText(g);
    FiltersStart(g);
    assert d < |t| ==> t[d..][0] == t[d];
    if d < 3 {
      HeadChars(|g[0]|, d);
    }
  }

  lemma {:induction false} HeadFits(x: string, n: nat, tail: string, g: seq<string>)
    requires x != "" && Head(n) + tail == x + FiltersText(g)
    ensures |Head(n)| <= |x| && x[..|Head(n)|] == Head(n)
  {
    var t := x + FiltersText(g);
    assert |x| < |t| ==> t[|x|] == SEPARATOR;
    if |x| < |Head(n)| {
      HeadChars(n, |x|);
    }
    assert x[..|Head(n)|] == t[..|Head(n)|] == Head(n);
  }

  /** What stands before a filter text inside another one is open. */
  lemma {:induction false} CutIsOpen(x: string, f: seq<string>, g: seq<string>)
    requires x != "" && FiltersText(f) == x + FiltersText(g)
    ensures Open(x)
    decreases |x|
  {
    var n, more := |f[0]|, FiltersText(f[1..]);
    FiltersStart(f);
    HeadFits(x, n, f[0] + more, g);
    var rest := x[|Head(n)|..];
    assert x == Head(n) + rest;
    Regroup(Head(n), rest, FiltersText(g));
    SameTail(Head(n), rest + FiltersText(g), f[0] + more);
    CutRestIsOpen(rest, f, g);
    OpenHead(n, rest);
  }

  lemma {:induction false} CutRestIsOpen(rest: string, f: seq<string>, g: seq<string>)
    requires f != [] && rest + FiltersText(g) == f[0] + FiltersText(f[1..])
    ensures OpenRest(|f[0]|, rest)
    decreases |rest| + 1, 0
  {
    var n := |f[0]|;
    var t := rest + FiltersText(g);
    if n <= |rest| {
      assert t[n..] == rest[n..] + FiltersText(g) && t[n..] == FiltersText(f[1..]);
      if rest[n..] != "" {
        CutIsOpen(rest[n..], f[1..], g);
      }
    } else {
      assert t[n..] == FiltersText(g)[n - |rest|..] && t[n..] == FiltersText(f[1..]);
      NoShortCut(g, f[1..], n - |rest|);
    }
  }

  /** Filters whose text has any length from three up. */
  function Pad(d: nat): seq<string>
    requires d >= 3
  {
    if d < 6 then [seq(d - 3, _ => '.')] else [""] + Pad(d - 3)
  }

  lemma {:induction false} PadLength(d: nat)
    requires d >= 3
    ensures |FiltersText(Pad(d))| == d
  {
    FiltersStart(Pad(d));
    if d < 6 {
      assert Pad(d)[1..] == [];
    } else {
      PadLength(d - 3);
      assert Pad(d)[1..] == Pad(d - 3);
    }
  }

  /** Before an open list, filters can be found to complete it. */
  lemma {:induction false} OpenIsCut(x: string) returns (f: seq<string>, g: seq<string>)
    requires Open(x)
    ensures FiltersText(f) == x + FiltersText(g)
    decreases |x|
  {
    var n, rest := OpenHasHead(x);
    if n >= |rest| + 3 {
      g := Pad(n - |rest|);
      PadLength(n - |rest|);
      f := [rest + FiltersText(g)];
      FiltersStart(f);
      assert f[1..] == [];
      Regroup(Head(n), rest, FiltersText(g));
    } else {
      var y := rest[n..];
      assert rest == rest[..n] + y;
      var tail: seq<string>;
      if y == "" {
        tail, g := [], [];
      } else {
        tail, g := OpenIsCut(y);
      }
      f := [rest[..n]] + tail;
      FiltersStart(f);
      assert f[1..] == tail;
      Regroup(rest[..n], y, FiltersText(g));
      Regroup(Head(n), rest, FiltersText(g));
    }
  }

  ghost predicate Collide(r: string, s: string) {
    exists f, g :: ScopeText(r, f) == ScopeText(s, g)
  }

  /** The second resource continues the first with an open list. */
  predicate Extends(r: string, s: string) {
    r <= s && Open(s[|r|..])
  }

  lemma {:induction false} LongerExtends(r: string, f: seq<string>, s: string, g: seq<string>)
    requires ScopeText(r, f) == ScopeText(s, g) && |r| <= |s| && r != s
    ensures Extends(r, s)
  {
    var t := ScopeText(r, f);
    assert r == t[..|r|] && s == t[..|s|];
    var x := s[|r|..];
    assert s == r + x;
    Regroup(r, x, FiltersText(g));
    SameTail(r, x + FiltersText(g), FiltersText(f));
    CutIsOpen(x, f, g);
  }

  lemma {:induction false} ExtendsCollides(r: string, s: string)
    requires Extends(r, s)
    ensures Collide(r, s) && Collide(s, r)
  {
    var f, g := OpenIsCut(s[|r|..]);
    assert s == r + s[|r|..];
    Regroup(r, s[|r|..], FiltersText(g));
    assert ScopeText(r, f) == ScopeText(s, g);
  }

  /** Two resources share a scope text, for some filters, exactly when one continues the other with an open list. */
  lemma {:induction false} CollideExactly(r: string, s: string)
    requires r != s
    ensures Collide(r, s) <==> Extends(r, s) || Extends(s, r)
  {
    if Collide(r, s) {
      var f, g :| ScopeText(r, f) == ScopeText(s, g);
      if |r| <= |s| {
        LongerExtends(r, f, s, g);
      } else {
        LongerExtends(s, g, r, f);
      }
    }
    if Extends(r, s) {
      ExtendsCollides(r, s);
    }
    if Extends(s, r) {
      ExtendsCollides(s, r);
    }
  }

  /** Different resources or filter tuples have different scope texts, unless the resources extend one another. */
  lemma {:induction false} ScopeInjective(r: string, f: seq<string>, s: string, g: seq<string>)
    requires !Extends(r, s) && !Extends(s, r) && ScopeText(r, f) == ScopeText(s, g)
    ensures r == s && f == g
  {
    if r != s {
      CollideExactly(r, s);
    }
    SameResourceInjective(r, f, g);
  }

  /** No resource without a unit separator extends another, so such names are safe together. */
  lemma {:induction false} PlainNamesAreSafe(r: string, s: string)
    requires SEPARATOR !in s
    ensures !Extends(r, s)
  {
    if r < s {
      assert s[|r|..][0] == s[|r|];
    }
  }

  /** A resource holding a unit separator can pass for another resource's filter. */
  lemma {:induction false} SeparatorInResourceCollides(resource: string, filter: string)
    ensures ScopeText(resource + FiltersText([filter]), []) == ScopeText(resource, [filter])
  {
  }
}
