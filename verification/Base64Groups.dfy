/** What base64url is: sections 4 and 5 of RFC 4648, group by group. */
module Base64Groups {
  import opened Sequences
  import opened Base64Url

  /** The symbol of a six-bit value, from the table of the standard. */
  predicate Stands(c: char, v: int) {
    || (0 <= v < 26 && c == "ABCDEFGHIJKLMNOPQRSTUVWXYZ"[v])
    || (26 <= v < 52 && c == "abcdefghijklmnopqrstuvwxyz"[v - 26])
    || (52 <= v < 62 && c == "0123456789"[v - 52])
    || (v == 62 && c == '-') || (v == 63 && c == '_')
  }

  lemma UpperListed(v: int)
    requires 0 <= v < 26
    ensures "ABCDEFGHIJKLMNOPQRSTUVWXYZ"[v] == Symbol(v)
  {
    assert forall k :: 0 <= k < 26 ==> "ABCDEFGHIJKLMNOPQRSTUVWXYZ"[k] == 'A' + k as char;
  }

  lemma LowerListed(v: int)
    requires 26 <= v < 52
    ensures "abcdefghijklmnopqrstuvwxyz"[v - 26] == Symbol(v)
  {
    assert forall k :: 0 <= k < 26 ==> "abcdefghijklmnopqrstuvwxyz"[k] == 'a' + k as char;
  }

  lemma DigitListed(v: int)
    requires 52 <= v < 62
    ensures "0123456789"[v - 52] == Symbol(v)
  {
    assert forall k :: 0 <= k < 10 ==> "0123456789"[k] == '0' + k as char;
  }

  lemma SymbolStands(v: int)
    requires 0 <= v < 64
    ensures Stands(Symbol(v), v)
  {
    if v < 26 {
      UpperListed(v);
    } else if v < 52 {
      LowerListed(v);
    } else if v < 62 {
      DigitListed(v);
    }
  }

  // ---------------------------------------------------------------- groups

  /** Four symbols stand for these values, which make up the 24 bits of three bytes. */
  predicate GroupOf(s: string, a: int, b: int, c: int, v0: int, v1: int, v2: int, v3: int) {
    && |s| == 4 && Stands(s[0], v0) && Stands(s[1], v1) && Stands(s[2], v2) && Stands(s[3], v3)
    && v0 * 262144 + v1 * 4096 + v2 * 64 + v3 == a * 65536 + b * 256 + c
  }

  ghost predicate Group(s: string, a: int, b: int, c: int) {
    exists v0: int, v1: int, v2: int, v3: int :: GroupOf(s, a, b, c, v0, v1, v2, v3)
  }

  /** Two symbols for the eight bits of a last byte, with four zeroes behind them. */
  predicate OneOf(s: string, a: int, v0: int, v1: int) {
    |s| == 2 && Stands(s[0], v0) && Stands(s[1], v1) && v0 * 64 + v1 == a * 16
  }

  /** Three symbols for the sixteen bits of the last two bytes, with two zeroes behind them. */
  predicate TwoOf(s: string, a: int, b: int, v0: int, v1: int, v2: int) {
    |s| == 3 && Stands(s[0], v0) && Stands(s[1], v1) && Stands(s[2], v2) && v0 * 4096 + v1 * 64 + v2 == (a * 256 + b) * 4
  }

  ghost predicate LastGroup(s: string, b: seq<byte>) {
    match |b|
    case 0 => s == ""
    case 1 => exists v0: int, v1: int :: OneOf(s, b[0], v0, v1)
    case 2 => exists v0: int, v1: int, v2: int :: TwoOf(s, b[0], b[1], v0, v1, v2)
    case _ => false
  }

  /** The text is the groups of the bytes, three by three, and the last group. */
  ghost predicate Spelt(s: string, b: seq<byte>) {
    if |b| < 3 then LastGroup(s, b)
    else |s| >= 4 && Group(s[..4], b[0], b[1], b[2]) && Spelt(s[4..], b[3..])
  }

  lemma {:induction false} GroupSpelt(a: byte, b: byte, c: byte)
    ensures Group([Symbol(a / 4), Symbol(a % 4 * 16 + b / 16), Symbol(b % 16 * 4 + c / 64), Symbol(c % 64)], a, b, c)
  {
    var v0, v1, v2, v3 := a / 4, a % 4 * 16 + b / 16, b % 16 * 4 + c / 64, c % 64;
    SymbolStands(v0);
    SymbolStands(v1);
    SymbolStands(v2);
    SymbolStands(v3);
    GroupNumber(a, b, c);
    assert GroupOf([Symbol(v0), Symbol(v1), Symbol(v2), Symbol(v3)], a, b, c, v0, v1, v2, v3);
  }

  lemma GroupNumber(a: int, b: int, c: int)
    ensures a / 4 * 262144 + (a % 4 * 16 + b / 16) * 4096 + (b % 16 * 4 + c / 64) * 64 + c % 64 == a * 65536 + b * 256 + c
  {
    assert a == a / 4 * 4 + a % 4 && b == b / 16 * 16 + b % 16 && c == c / 64 * 64 + c % 64;
  }

  lemma {:induction false} OneSpelt(b: seq<byte>)
    requires |b| == 1
    ensures LastGroup(Encode(b), b)
  {
    var a: int := b[0];
    SymbolStands(a / 4);
    SymbolStands(a % 4 * 16);
    assert a / 4 * 64 + a % 4 * 16 == a * 16;
    assert Encode(b) == [Symbol(a / 4), Symbol(a % 4 * 16)];
    assert OneOf(Encode(b), a, a / 4, a % 4 * 16);
  }

  lemma {:induction false} TwoSpelt(b: seq<byte>)
    requires |b| == 2
    ensures LastGroup(Encode(b), b)
  {
    var a: int, c: int := b[0], b[1];
    SymbolStands(a / 4);
    SymbolStands(a % 4 * 16 + c / 16);
    SymbolStands(c % 16 * 4);
    assert a / 4 * 4096 + (a % 4 * 16 + c / 16) * 64 + c % 16 * 4 == (a * 256 + c) * 4;
    assert Encode(b) == [Symbol(a / 4), Symbol(a % 4 * 16 + c / 16), Symbol(c % 16 * 4)];
    assert TwoOf(Encode(b), a, c, a / 4, a % 4 * 16 + c / 16, c % 16 * 4);
  }

  /** An encoding spells its bytes, group by group, in the standard's table of symbols. */
  lemma {:induction false} EncodesGroups(b: seq<byte>)
    ensures Spelt(Encode(b), b)
  {
    if |b| == 0 {
    } else if |b| == 1 {
      OneSpelt(b);
    } else if |b| == 2 {
      TwoSpelt(b);
    } else {
      var front := [Symbol(b[0] / 4), Symbol(b[0] % 4 * 16 + b[1] / 16), Symbol(b[1] % 16 * 4 + b[2] / 64), Symbol(b[2] % 64)];
      GroupSpelt(b[0], b[1], b[2]);
      EncodesGroups(b[3..]);
      assert Encode(b)[..4] == front && Encode(b)[4..] == Encode(b[3..]);
    }
  }

  // ---------------------------------------------------------------- what the decoder skips and refuses

  lemma {:induction false} NewlinesCons(c: char, s: string)
    ensures WithoutNewlines([c] + s) == (if IsNewline(c) then "" else [c]) + WithoutNewlines(s)
  {
    assert ([c] + s)[1..] == s;
  }

  lemma {:induction false} NewlinesConcat(a: string, b: string)
    ensures WithoutNewlines(a + b) == WithoutNewlines(a) + WithoutNewlines(b)
  {
    if a == "" {
      assert a + b == b;
    } else {
      var c, rest := a[0], a[1..];
      NewlinesConcat(rest, b);
      assert a == [c] + rest && a + b == [c] + (rest + b);
      NewlinesCons(c, rest);
      NewlinesCons(c, rest + b);
      Regroup(if IsNewline(c) then "" else [c], WithoutNewlines(rest), WithoutNewlines(b));
    }
  }

  lemma {:induction false} OnlySymbols(s: string)
    requires DecodeSymbols(s).Some?
    ensures forall c :: c in s ==> IsSymbol(c)
    decreases |s|
  {
    if |s| >= 4 {
      OnlySymbols(s[4..]);
      assert s == [s[0], s[1], s[2], s[3]] + s[4..];
    } else if |s| == 3 {
      assert s == [s[0], s[1], s[2]];
    } else if |s| == 2 {
      assert s == [s[0], s[1]];
    }
  }

  /** A carriage return or line feed anywhere in a text changes nothing; any other character out of the table makes it undecodable. */
  lemma {:induction false} SkipsOrRefuses(a: string, c: char, b: string)
    ensures c in {'\r', '\n'} ==> Decode(a + ([c] + b)) == Decode(a + b)
    ensures c !in {'\r', '\n'} && (forall v :: 0 <= v < 64 ==> !Stands(c, v)) ==> Decode(a + ([c] + b)).None?
  {
    NewlinesConcat(a, [c] + b);
    NewlinesConcat([c], b);
    NewlinesConcat(a, b);
    var s := WithoutNewlines(a + ([c] + b));
    assert [c][1..] == "";
    if c in {'\r', '\n'} {
      assert WithoutNewlines([c]) == "";
      assert s == WithoutNewlines(a + b);
    } else {
      assert WithoutNewlines([c]) == [c];
      assert c in s;
      if DecodeSymbols(s).Some? {
        OnlySymbols(s);
        SymbolStands(SymbolValue(c));
        assert Stands(c, SymbolValue(c));
      }
    }
  }
}
