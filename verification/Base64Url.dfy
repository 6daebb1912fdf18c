/** Unpadded base64url (sections 3.5 and 5 of RFC 4648): Go's encoder, and its decoder with the leniency it has. */
module Base64Url {
  import opened Wrappers

  type byte = x: int | 0 <= x < 256

  /** The character of a six-bit value. */
  function Symbol(v: int): (c: char)
    requires 0 <= v < 64
  {
    if v < 26 then 'A' + v as char
    else if v < 52 then 'a' + (v - 26) as char
    else if v < 62 then '0' + (v - 52) as char
    else if v == 62 then '-' else '_'
  }

  predicate IsSymbol(c: char) {
    'A' <= c <= 'Z' || 'a' <= c <= 'z' || '0' <= c <= '9' || c == '-' || c == '_'
  }

  function SymbolValue(c: char): (v: int)
    requires IsSymbol(c)
    ensures 0 <= v < 64 && Symbol(v) == c
  {
    if 'A' <= c <= 'Z' then c as int - 'A' as int
    else if 'a' <= c <= 'z' then c as int - 'a' as int + 26
    else if '0' <= c <= '9' then c as int - '0' as int + 52
    else if c == '-' then 62 else 63
  }

  lemma SymbolReads(v: int)
    requires 0 <= v < 64
    ensures IsSymbol(Symbol(v)) && SymbolValue(Symbol(v)) == v
  {
  }

  function Encode(b: seq<byte>): (s: string)
    ensures forall i :: 0 <= i < |s| ==> IsSymbol(s[i])
  {
    if b == [] then ""
    else if |b| == 1 then [Symbol(b[0] / 4), Symbol(b[0] % 4 * 16)]
    else if |b| == 2 then [Symbol(b[0] / 4), Symbol(b[0] % 4 * 16 + b[1] / 16), Symbol(b[1] % 16 * 4)]
    else
      [Symbol(b[0] / 4), Symbol(b[0] % 4 * 16 + b[1] / 16), Symbol(b[1] % 16 * 4 + b[2] / 64), Symbol(b[2] % 64)]
      + Encode(b[3..])
  }

  function EncodedLen(n: nat): nat {
    n / 3 * 4 + (n % 3 * 8 + 5) / 6
  }

  lemma {:induction false} EncodeLength(b: seq<byte>)
    ensures |Encode(b)| == EncodedLen(|b|)
  {
    if |b| > 2 {
      EncodeLength(b[3..]);
    }
  }

  predicate IsNewline(c: char) {
    c == '\r' || c == '\n'
  }

  /** The decoder skips line breaks wherever they stand. */
  function WithoutNewlines(s: string): string {
    if s == "" then "" else (if IsNewline(s[0]) then "" else [s[0]]) + WithoutNewlines(s[1..])
  }

  /** Whole quanta and a last one of two or three symbols, whose spare bits are ignored. */
  function DecodeSymbols(s: string): Option<seq<byte>> {
    if s == "" then Some([])
    else if |s| == 1 || !IsSymbol(s[0]) || !IsSymbol(s[1]) then None
    else
      var v0, v1 := SymbolValue(s[0]), SymbolValue(s[1]);
      var first: byte := v0 * 4 + v1 / 16;
      if |s| == 2 then Some([first])
      else if !IsSymbol(s[2]) then None
      else
        var v2 := SymbolValue(s[2]);
        var second: byte := v1 % 16 * 16 + v2 / 4;
        if |s| == 3 then Some([first, second])
        else if !IsSymbol(s[3]) then None
        else
          var third: byte := v2 % 4 * 64 + SymbolValue(s[3]);
          var rest :- DecodeSymbols(s[4..]);
          Some([first, second, third] + rest)
  }

  /** base64.RawURLEncoding.DecodeString */
  function Decode(s: string): Option<seq<byte>> {
    DecodeSymbols(WithoutNewlines(s))
  }

  lemma {:induction false} NoNewlines(s: string)
    requires forall i :: 0 <= i < |s| ==> IsSymbol(s[i])
    ensures WithoutNewlines(s) == s
  {
    if s != "" {
      NoNewlines(s[1..]);
    }
  }

  lemma Quantum(a: byte, b: byte, c: byte)
    ensures a / 4 * 4 + (a % 4 * 16 + b / 16) / 16 == a
    ensures (a % 4 * 16 + b / 16) % 16 * 16 + (b % 16 * 4 + c / 64) / 4 == b
    ensures (b % 16 * 4 + c / 64) % 4 * 64 + c % 64 == c
  {
  }

  /** The symbols of two six-bit values are read as their first byte. */
  lemma {:induction false} TwoSymbolsRead(v0: int, v1: int)
    requires 0 <= v0 < 64 && 0 <= v1 < 64
    ensures DecodeSymbols([Symbol(v0), Symbol(v1)]) == Some([v0 * 4 + v1 / 16])
  {
    SymbolReads(v0);
    SymbolReads(v1);
  }

  lemma {:induction false} ThreeSymbolsRead(v0: int, v1: int, v2: int)
    requires 0 <= v0 < 64 && 0 <= v1 < 64 && 0 <= v2 < 64
    ensures DecodeSymbols([Symbol(v0), Symbol(v1), Symbol(v2)]) == Some([v0 * 4 + v1 / 16, v1 % 16 * 16 + v2 / 4])
  {
    SymbolReads(v0);
    SymbolReads(v1);
    SymbolReads(v2);
  }

  lemma {:induction false} FourSymbolsRead(v0: int, v1: int, v2: int, v3: int, more: string, rest: seq<byte>)
    requires 0 <= v0 < 64 && 0 <= v1 < 64 && 0 <= v2 < 64 && 0 <= v3 < 64 && DecodeSymbols(more) == Some(rest)
    ensures DecodeSymbols([Symbol(v0), Symbol(v1), Symbol(v2), Symbol(v3)] + more) ==
            Some([v0 * 4 + v1 / 16, v1 % 16 * 16 + v2 / 4, v2 % 4 * 64 + v3] + rest)
  {
    SymbolReads(v0);
    SymbolReads(v1);
    SymbolReads(v2);
    SymbolReads(v3);
    assert ([Symbol(v0), Symbol(v1), Symbol(v2), Symbol(v3)] + more)[4..] == more;
  }

  lemma {:induction false} OneByteReads(a: byte)
    ensures DecodeSymbols([Symbol(a / 4), Symbol(a % 4 * 16)]) == Some([a])
  {
    Quantum(a, 0, 0);
    TwoSymbolsRead(a / 4, a % 4 * 16);
  }

  lemma {:induction false} TwoBytesRead(a: byte, b: byte)
    ensures DecodeSymbols([Symbol(a / 4), Symbol(a % 4 * 16 + b / 16), Symbol(b % 16 * 4)]) == Some([a, b])
  {
    Quantum(a, b, 0);
    ThreeSymbolsRead(a / 4, a % 4 * 16 + b / 16, b % 16 * 4);
  }

  lemma {:induction false} ThreeBytesRead(a: byte, b: byte, c: byte, more: string, rest: seq<byte>)
    requires DecodeSymbols(more) == Some(rest)
    ensures DecodeSymbols([Symbol(a / 4), Symbol(a % 4 * 16 + b / 16), Symbol(b % 16 * 4 + c / 64), Symbol(c % 64)] + more)
            == Some([a, b, c] + rest)
  {
    Quantum(a, b, c);
    FourSymbolsRead(a / 4, a % 4 * 16 + b / 16, b % 16 * 4 + c / 64, c % 64, more, rest);
  }

  lemma {:induction false} DecodeEncoded(b: seq<byte>)
    ensures DecodeSymbols(Encode(b)) == Some(b)
  {
    if |b| == 1 {
      OneByteReads(b[0]);
      assert b == [b[0]];
    } else if |b| == 2 {
      TwoBytesRead(b[0], b[1]);
      assert b == [b[0], b[1]];
    } else if |b| > 2 {
      DecodeEncoded(b[3..]);
      ThreeBytesRead(b[0], b[1], b[2], Encode(b[3..]), b[3..]);
      assert b == [b[0], b[1], b[2]] + b[3..];
    }
  }

  /** Decoding gives back what was encoded. */
  lemma {:induction false} RoundTrip(b: seq<byte>)
    ensures Decode(Encode(b)) == Some(b)
  {
    NoNewlines(Encode(b));
    DecodeEncoded(b);
  }

  /** Different bytes have different texts. */
  lemma {:induction false} EncodeInjective(a: seq<byte>, b: seq<byte>)
    requires Encode(a) == Encode(b)
    ensures a == b
  {
    RoundTrip(a);
    RoundTrip(b);
  }

  // ---------------------------------------------------------------- every text that decodes to given bytes

  /** The number of values the last symbol of n bytes may take: its spare bits are ignored. */
  function Spare(n: nat): nat {
    if n % 3 == 1 then 16 else if n % 3 == 2 then 4 else 1
  }

  predicate AllSymbols(t: string) {
    forall i :: 0 <= i < |t| ==> IsSymbol(t[i])
  }

  /** The same symbols, but for the spare bits of the last one. */
  predicate Matches(t: string, e: string, spare: nat)
    requires spare > 0 && AllSymbols(e)
  {
    && AllSymbols(t) && |t| == |e|
    && (forall i :: 0 <= i < |t| - 1 ==> t[i] == e[i])
    && (t != "" ==> SymbolValue(t[|t| - 1]) / spare == SymbolValue(e[|t| - 1]) / spare)
  }

  predicate Spells(t: string, b: seq<byte>) {
    Matches(t, Encode(b), Spare(|b|))
  }

  lemma {:induction false} SymbolIs(c: char, v: int)
    requires IsSymbol(c) && 0 <= v < 64
    ensures c == Symbol(v) <==> SymbolValue(c) == v
  {
    SymbolReads(v);
  }

  lemma {:induction false} OneByteExactly(t: string, a: byte)
    requires |t| == 2 && IsSymbol(t[0]) && IsSymbol(t[1])
    ensures DecodeSymbols(t) == Some([a]) <==> t[0] == Symbol(a / 4) && SymbolValue(t[1]) / 16 == a % 4
  {
    SymbolIs(t[0], a / 4);
  }

  lemma {:induction false} TwoBytesExactly(t: string, a: byte, b: byte)
    requires |t| == 3 && IsSymbol(t[0]) && IsSymbol(t[1]) && IsSymbol(t[2])
    ensures DecodeSymbols(t) == Some([a, b]) <==>
            t[0] == Symbol(a / 4) && t[1] == Symbol(a % 4 * 16 + b / 16) && SymbolValue(t[2]) / 4 == b % 16
  {
    SymbolIs(t[0], a / 4);
    SymbolIs(t[1], a % 4 * 16 + b / 16);
    assert DecodeSymbols(t) == Some([SymbolValue(t[0]) * 4 + SymbolValue(t[1]) / 16, SymbolValue(t[1]) % 16 * 16 + SymbolValue(t[2]) / 4]);
  }

  lemma {:induction false} QuantumExactly(v0: int, v1: int, v2: int, v3: int, a: byte, b: byte, c: byte)
    requires 0 <= v0 < 64 && 0 <= v1 < 64 && 0 <= v2 < 64 && 0 <= v3 < 64
    ensures (v0 * 4 + v1 / 16 == a && v1 % 16 * 16 + v2 / 4 == b && v2 % 4 * 64 + v3 == c) <==>
            (v0 == a / 4 && v1 == a % 4 * 16 + b / 16 && v2 == b % 16 * 4 + c / 64 && v3 == c % 64)
  {
  }

  lemma {:induction false} SpellsOne(t: string, b: seq<byte>)
    requires |t| == 2 && |b| == 1
    ensures DecodeSymbols(t) == Some(b) <==> Spells(t, b)
  {
    assert b == [b[0]];
    SymbolReads(b[0] % 4 * 16);
    if AllSymbols(t) {
      OneByteExactly(t, b[0]);
    }
  }

  lemma {:induction false} SpellsTwo(t: string, b: seq<byte>)
    requires |t| == 3 && |b| == 2
    ensures DecodeSymbols(t) == Some(b) <==> Spells(t, b)
  {
    assert b == [b[0], b[1]];
    SymbolReads(b[1] % 16 * 4);
    if AllSymbols(t) {
      TwoBytesExactly(t, b[0], b[1]);
    }
  }

  lemma {:induction false} SpellsShort(t: string, b: seq<byte>)
    requires |t| < 4 && |b| < 3
    ensures DecodeSymbols(t) == Some(b) <==> Spells(t, b)
  {
    EncodeLength(b);
    if |t| == 2 && |b| == 1 {
      SpellsOne(t, b);
    } else if |t| == 3 && |b| == 2 {
      SpellsTwo(t, b);
    }
  }

  /** A text decodes to given bytes exactly when it is their encoding but for spare bits. */
  lemma {:induction false} SpellsExactly(t: string, b: seq<byte>)
    ensures DecodeSymbols(t) == Some(b) <==> Spells(t, b)
    decreases |t|
  {
    if |t| < 4 && |b| < 3 {
      SpellsShort(t, b);
    } else if |t| >= 4 && |b| >= 3 {
      SpellsExactly(t[4..], b[3..]);
      FirstQuantum(t, b);
      SpellsNext(t, b);
    } else {
      EncodeLength(b);
    }
  }

  /** The symbols of three bytes. */
  function QuantumOf(a: byte, b: byte, c: byte): (q: string)
    ensures |q| == 4
  {
    [Symbol(a / 4), Symbol(a % 4 * 16 + b / 16), Symbol(b % 16 * 4 + c / 64), Symbol(c % 64)]
  }

  lemma {:induction false} EncodeNext(b: seq<byte>)
    requires |b| >= 3
    ensures Encode(b) == QuantumOf(b[0], b[1], b[2]) + Encode(b[3..])
  {
  }

  lemma {:induction false} QuantumIs(t: string, a: byte, b: byte, c: byte)
    requires |t| >= 4 && IsSymbol(t[0]) && IsSymbol(t[1]) && IsSymbol(t[2]) && IsSymbol(t[3])
    ensures t[..4] == QuantumOf(a, b, c) <==>
            && SymbolValue(t[0]) * 4 + SymbolValue(t[1]) / 16 == a
            && SymbolValue(t[1]) % 16 * 16 + SymbolValue(t[2]) / 4 == b
            && SymbolValue(t[2]) % 4 * 64 + SymbolValue(t[3]) == c
  {
    QuantumExactly(SymbolValue(t[0]), SymbolValue(t[1]), SymbolValue(t[2]), SymbolValue(t[3]), a, b, c);
    SymbolIs(t[0], a / 4);
    SymbolIs(t[1], a % 4 * 16 + b / 16);
    SymbolIs(t[2], b % 16 * 4 + c / 64);
    SymbolIs(t[3], c % 64);
    var q := QuantumOf(a, b, c);
    assert t[..4] == q <==> t[0] == q[0] && t[1] == q[1] && t[2] == q[2] && t[3] == q[3];
  }

  lemma {:induction false} QuantumSymbols(a: byte, b: byte, c: byte)
    ensures AllSymbols(QuantumOf(a, b, c))
  {
    SymbolReads(a / 4);
    SymbolReads(a % 4 * 16 + b / 16);
    SymbolReads(b % 16 * 4 + c / 64);
    SymbolReads(c % 64);
  }

  lemma {:induction false} DecodeNext(t: string)
    requires |t| >= 4 && IsSymbol(t[0]) && IsSymbol(t[1]) && IsSymbol(t[2]) && IsSymbol(t[3])
    ensures DecodeSymbols(t) ==
              match DecodeSymbols(t[4..])
              case None => None
              case Some(rest) =>
                Some([SymbolValue(t[0]) * 4 + SymbolValue(t[1]) / 16,
                      SymbolValue(t[1]) % 16 * 16 + SymbolValue(t[2]) / 4,
                      SymbolValue(t[2]) % 4 * 64 + SymbolValue(t[3])] + rest)
  {
  }

  lemma {:induction false} ThreeAndRest(x: seq<byte>, a: byte, b: byte, c: byte, rest: seq<byte>)
    requires |x| >= 3
    ensures [a, b, c] + rest == x <==> a == x[0] && b == x[1] && c == x[2] && rest == x[3..]
  {
    assert x == [x[0], x[1], x[2]] + x[3..];
    var y := [a, b, c] + rest;
    assert y[0] == a && y[1] == b && y[2] == c && y[3..] == rest;
  }

  lemma {:induction false} FirstQuantum(t: string, b: seq<byte>)
    requires |t| >= 4 && |b| >= 3
    ensures DecodeSymbols(t) == Some(b) <==> t[..4] == QuantumOf(b[0], b[1], b[2]) && DecodeSymbols(t[4..]) == Some(b[3..])
  {
    var q := QuantumOf(b[0], b[1], b[2]);
    QuantumSymbols(b[0], b[1], b[2]);
    assert t[..4] == q ==> t[0] == q[0] && t[1] == q[1] && t[2] == q[2] && t[3] == q[3];
    if IsSymbol(t[0]) && IsSymbol(t[1]) && IsSymbol(t[2]) && IsSymbol(t[3]) {
      QuantumIs(t, b[0], b[1], b[2]);
      DecodeNext(t);
      match DecodeSymbols(t[4..])
      case None =>
      case Some(rest) =>
        ThreeAndRest(b, SymbolValue(t[0]) * 4 + SymbolValue(t[1]) / 16, SymbolValue(t[1]) % 16 * 16 + SymbolValue(t[2]) / 4,
                     SymbolValue(t[2]) % 4 * 64 + SymbolValue(t[3]), rest);
    }
  }

  lemma {:induction false} MatchesNext(t: string, q: string, more: string, spare: nat)
    requires |t| >= 4 && |q| == 4 && AllSymbols(q) && AllSymbols(more) && AllSymbols(q + more)
    requires spare > 0 && (more == "" ==> spare == 1)
    ensures Matches(t, q + more, spare) <==> t[..4] == q && Matches(t[4..], more, spare)
  {
    var e := q + more;
    assert t == t[..4] + t[4..];
    assert forall i :: 4 <= i < |e| ==> e[i] == more[i - 4];
    assert forall i :: 4 <= i < |t| ==> t[i] == t[4..][i - 4];
    assert forall i :: 0 <= i < |t| - 4 ==> t[4..][i] == t[i + 4];
  }

  lemma {:induction false} SpellsNext(t: string, b: seq<byte>)
    requires |t| >= 4 && |b| >= 3
    ensures Spells(t, b) <==> t[..4] == QuantumOf(b[0], b[1], b[2]) && Spells(t[4..], b[3..])
  {
    EncodeNext(b);
    EncodeLength(b[3..]);
    SpareNext(|b|);
    QuantumSymbols(b[0], b[1], b[2]);
    EncodedMatches(t, Encode(b), QuantumOf(b[0], b[1], b[2]), Encode(b[3..]), Spare(|b|));
  }

  lemma SpareNext(n: nat)
    requires n >= 3
    ensures Spare(n) == Spare(n - 3) && (EncodedLen(n - 3) == 0 ==> Spare(n) == 1)
  {
  }

  lemma {:induction false} EncodedMatches(t: string, e: string, q: string, more: string, spare: nat)
    requires |t| >= 4 && |q| == 4 && AllSymbols(q) && AllSymbols(more) && AllSymbols(e) && e == q + more
    requires spare > 0 && (|more| == 0 ==> spare == 1)
    ensures Matches(t, e, spare) <==> t[..4] == q && Matches(t[4..], more, spare)
  {
    MatchesNext(t, q, more, spare);
  }

  /** The decoder accepts exactly the encoding, with other spare bits and with line breaks anywhere. */
  lemma {:induction false} DecodesExactly(s: string, b: seq<byte>)
    ensures Decode(s) == Some(b) <==> Spells(WithoutNewlines(s), b)
  {
    SpellsExactly(WithoutNewlines(s), b);
  }
}
