/** Exact-decimal normalization of JSON numbers: one canonical text per value. */
module MeterNumber {
  import opened Wrappers
  import opened DecimalText

  newtype int64 = n: int | MIN_INT64 <= n <= MAX_INT64

  // ---------------------------------------------------------------- JSON numbers (section 6 of RFC 8259)

  datatype Exponent = Exponent(marker: char, sign: string, digits: string)
  datatype JsonNumber = JsonNumber(negative: bool, integer: string, fraction: Option<string>, exponent: Option<Exponent>)

  predicate WellFormed(n: JsonNumber) {
    && Canonical(n.integer)
    && (n.fraction.Some? ==> n.fraction.value != [] && AllDigits(n.fraction.value))
    && (n.exponent.Some? ==>
          var e := n.exponent.value;
          && (e.marker == 'e' || e.marker == 'E')
          && (e.sign == "" || e.sign == "+" || e.sign == "-")
          && e.digits != [] && AllDigits(e.digits))
  }

  function FractionDigits(n: JsonNumber): string {
    if n.fraction.Some? then n.fraction.value else ""
  }

  function Mantissa(n: JsonNumber): string {
    n.integer + (if n.fraction.Some? then "." + n.fraction.value else "")
  }

  function ExponentText(n: JsonNumber): string {
    if n.exponent.Some? then n.exponent.value.sign + n.exponent.value.digits else ""
  }

  function Render(n: JsonNumber): string {
    (if n.negative then "-" else "") + Mantissa(n) + Tail(n)
  }

  ghost predicate IsJsonNumber(s: string) {
    exists n :: WellFormed(n) && Render(n) == s
  }

  function ExponentValue(n: JsonNumber): int
    requires WellFormed(n)
  {
    match n.exponent
    case None => 0
    case Some(e) => var v: int := Value(e.digits); if e.sign == "-" then -v else v
  }

  function Pow10(k: nat): nat {
    if k == 0 then 1 else 10 * Pow10(k - 1)
  }

  function Scale(e: int): real
    decreases if e < 0 then -e else e
  {
    if e == 0 then 1.0 else if e > 0 then 10.0 * Scale(e - 1) else Scale(e + 1) / 10.0
  }

  /** The exact decimal value a number denotes. */
  function Denoted(n: JsonNumber): real
    requires WellFormed(n)
  {
    Signed(n.negative, Value(n.integer + FractionDigits(n)), ExponentValue(n) - |FractionDigits(n)|)
  }

  function Signed(negative: bool, coefficient: nat, e: int): real {
    var m := Times(coefficient, Scale(e));
    if negative then -m else m
  }

  /** m copies of c. */
  function Times(m: nat, c: real): real {
    if m == 0 then 0.0 else Times(m - 1, c) + c
  }

  // ---------------------------------------------------------------- the source's steps

  function IndexOfExponent(s: string): (i: nat)
    ensures i <= |s| && (i < |s| ==> s[i] == 'e' || s[i] == 'E')
    ensures forall k :: 0 <= k < i ==> s[k] != 'e' && s[k] != 'E'
  {
    if s == [] || s[0] == 'e' || s[0] == 'E' then 0 else 1 + IndexOfExponent(s[1..])
  }

  function IndexOfDot(s: string): (i: nat)
    ensures i <= |s| && (i < |s| ==> s[i] == '.')
    ensures forall k :: 0 <= k < i ==> s[k] != '.'
  {
    if s == [] || s[0] == '.' then 0 else 1 + IndexOfDot(s[1..])
  }

  function TrimLeftZeroes(s: string): (t: string)
    ensures t != [] ==> t[0] != '0'
    ensures AllDigits(s) ==> AllDigits(t)
  {
    if s != [] && s[0] == '0' then TrimLeftZeroes(s[1..]) else s
  }

  function TrimRightZeroes(s: string): (t: string)
    ensures |t| <= |s| && t == s[..|t|]
    ensures t != [] ==> t[|t| - 1] != '0'
  {
    if s != [] && s[|s| - 1] == '0' then TrimRightZeroes(s[..|s| - 1]) else s
  }

  datatype OutOfRange = OutOfRange

  function Unsigned(s: string): string {
    if s != [] && s[0] == '-' then s[1..] else s
  }

  function ParseExponent(unsigned: string): Option<int> {
    var i := IndexOfExponent(unsigned);
    if i < |unsigned| then ParseInt64(unsigned[i + 1..]) else Some(0)
  }

  datatype Parts = Parts(negative: bool, integer: string, fraction: string, exponent: Option<int>)

  function Split(source: string): Parts {
    var unsigned := Unsigned(source);
    var mantissa := unsigned[..IndexOfExponent(unsigned)];
    var dot := IndexOfDot(mantissa);
    Parts(|source| != |unsigned|, mantissa[..dot], if dot < |mantissa| then mantissa[dot + 1..] else "",
          ParseExponent(unsigned))
  }

  /** canonicalJSONNumber as an expression; CanonicalJSONNumber below is the statement form. */
  function Canonicalize(source: string): Result<string, OutOfRange> {
    var p := Split(source);
    match p.exponent
    case None => Err(OutOfRange)
    case Some(exponent) => Normalize(p.negative, p.integer, p.fraction, exponent)
  }

  function Normalize(negative: bool, integer: string, fraction: string, exponent: int): Result<string, OutOfRange> {
    if exponent < MIN_INT64 + |fraction| then Err(OutOfRange)
    else
      var digits := TrimLeftZeroes(integer + fraction);
      if digits == "" then Ok("0")
      else
        var trimmed := TrimRightZeroes(digits);
        var e := exponent - |fraction|;
        if e > MAX_INT64 - (|digits| - |trimmed|) then Err(OutOfRange)
        else Ok(CanonicalText(negative, trimmed, e + (|digits| - |trimmed|)))
  }

  function CanonicalText(negative: bool, trimmed: string, e: int): string {
    (if negative then "-" else "") + trimmed + (if e != 0 then "e" + PrintInt(e) else "")
  }

  /** Every int64 operation is on the bounded type, so none overflows. Go string lengths fit an int. */
  method CanonicalJSONNumber(source: string) returns (r: Result<string, OutOfRange>)
    requires |source| <= MAX_INT64
    ensures r == Canonicalize(source)
  {
    var negative, unsigned := CutSign(source);
    ghost var p := Split(source);
    var mantissa, exponentSource, hasExponent := CutExponent(unsigned);
    var exponent: int64 := 0;
    if hasExponent {
      match ParseInt64(exponentSource)
      case None => return Err(OutOfRange);
      case Some(parsed) => exponent := parsed as int64;
    }
    assert p.exponent == Some(exponent as int);
    var integer, fraction := CutFraction(mantissa);
    assert p.integer == integer && p.fraction == fraction && p.negative == negative;
    r := Arithmetic(negative, integer, fraction, exponent);
  }

  method CutSign(source: string) returns (negative: bool, unsigned: string)
    ensures unsigned == Unsigned(source) && |unsigned| <= |source|
    ensures negative <==> |source| != |unsigned|
  {
    negative, unsigned := false, source;
    if source != [] && source[0] == '-' {
      negative, unsigned := true, source[1..];
    }
  }

  method CutExponent(unsigned: string) returns (mantissa: string, exponentSource: string, hasExponent: bool)
    ensures mantissa == unsigned[..IndexOfExponent(unsigned)] && |mantissa| <= |unsigned|
    ensures ParseExponent(unsigned) == if hasExponent then ParseInt64(exponentSource) else Some(0)
  {
    mantissa, exponentSource, hasExponent := unsigned, "", false;
    var index := IndexOfExponent(unsigned);
    if index < |unsigned| {
      mantissa, exponentSource, hasExponent := unsigned[..index], unsigned[index + 1..], true;
    }
  }

  method CutFraction(mantissa: string) returns (integer: string, fraction: string)
    ensures integer == mantissa[..IndexOfDot(mantissa)]
    ensures fraction == if IndexOfDot(mantissa) < |mantissa| then mantissa[IndexOfDot(mantissa) + 1..] else ""
    ensures |integer| + |fraction| <= |mantissa|
  {
    integer, fraction := mantissa, "";
    var dot := IndexOfDot(mantissa);
    if dot < |mantissa| {
      integer, fraction := mantissa[..dot], mantissa[dot + 1..];
    }
  }

  /** The second half of canonicalJSONNumber: scale, trim, print. */
  method Arithmetic(negative: bool, integer: string, fraction: string, exponentIn: int64) returns (r: Result<string, OutOfRange>)
    requires |integer| + |fraction| <= MAX_INT64
    ensures r == Normalize(negative, integer, fraction, exponentIn as int)
  {
    var exponent := exponentIn;
    if exponent < MIN_INT64 as int64 + |fraction| as int64 {
      return Err(OutOfRange);
    }
    exponent := exponent - |fraction| as int64;
    var digits := TrimLeftZeroes(integer + fraction);
    if digits == "" {
      return Ok("0");
    }
    TrimLeftShortens(integer + fraction);
    var trimmed := TrimRightZeroes(digits);
    var trailing := |digits| - |trimmed|;
    if exponent > MAX_INT64 as int64 - trailing as int64 {
      return Err(OutOfRange);
    }
    exponent := exponent + trailing as int64;
    var canonical := if negative then "-" else "";
    canonical := canonical + trimmed;
    if exponent != 0 {
      canonical := canonical + "e";
      canonical := canonical + PrintInt(exponent as int);
    }
    assert canonical == CanonicalText(negative, trimmed, exponent as int);
    r := Ok(canonical);
  }

  lemma {:induction false} TrimLeftShortens(s: string)
    ensures |TrimLeftZeroes(s)| <= |s|
  {
    if s != [] && s[0] == '0' {
      TrimLeftShortens(s[1..]);
    }
  }

  // ---------------------------------------------------------------- reading a rendered number back

  lemma IndexOfExponentIs(s: string, i: nat)
    requires i <= |s| && (i < |s| ==> s[i] == 'e' || s[i] == 'E')
    requires forall k :: 0 <= k < i ==> s[k] != 'e' && s[k] != 'E'
    ensures IndexOfExponent(s) == i
  {
  }

  lemma IndexOfDotIs(s: string, i: nat)
    requires i <= |s| && (i < |s| ==> s[i] == '.')
    requires forall k :: 0 <= k < i ==> s[k] != '.'
    ensures IndexOfDot(s) == i
  {
  }

  lemma MantissaSplits(n: JsonNumber)
    requires WellFormed(n)
    ensures var m := Mantissa(n); var dot := IndexOfDot(m);
            m[..dot] == n.integer && (if dot < |m| then m[dot + 1..] else "") == FractionDigits(n)
    ensures forall k :: 0 <= k < |Mantissa(n)| ==> Mantissa(n)[k] != 'e' && Mantissa(n)[k] != 'E'
    ensures Mantissa(n) != [] && Mantissa(n)[0] != '-'
  {
    var m := Mantissa(n);
    IndexOfDotIs(m, |n.integer|);
    assert m[..|n.integer|] == n.integer;
  }

  lemma UnsignedIs(sign: string, rest: string)
    requires sign == "" || sign == "-"
    requires rest != [] && rest[0] != '-'
    ensures Unsigned(sign + rest) == rest
  {
    if sign == "-" {
      assert (sign + rest)[1..] == rest;
    } else {
      assert sign + rest == rest;
    }
  }

  lemma TextSplits(sign: string, m: string, tail: string)
    requires sign == "" || sign == "-"
    requires m != [] && m[0] != '-' && forall k :: 0 <= k < |m| ==> m[k] != 'e' && m[k] != 'E'
    requires tail != [] ==> tail[0] == 'e' || tail[0] == 'E'
    ensures Unsigned(sign + m + tail) == m + tail
    ensures IndexOfExponent(m + tail) == |m|
  {
    assert sign + m + tail == sign + (m + tail);
    UnsignedIs(sign, m + tail);
    IndexOfExponentIs(m + tail, |m|);
  }

  function Tail(n: JsonNumber): string {
    if n.exponent.Some? then [n.exponent.value.marker] + ExponentText(n) else ""
  }

  /** The source's splitting finds the parts of any JSON number. */
  lemma RenderedSplits(n: JsonNumber)
    requires WellFormed(n)
    ensures Unsigned(Render(n)) == Mantissa(n) + Tail(n)
    ensures |Render(n)| != |Unsigned(Render(n))| <==> n.negative
    ensures IndexOfExponent(Mantissa(n) + Tail(n)) == |Mantissa(n)|
  {
    MantissaSplits(n);
    TextSplits(if n.negative then "-" else "", Mantissa(n), Tail(n));
    if n.negative {
      assert |Render(n)| == 1 + |Mantissa(n) + Tail(n)|;
    }
  }

  lemma SignedDigitsRead(sign: string, digits: string)
    requires sign == "" || sign == "+" || sign == "-"
    requires digits != [] && AllDigits(digits)
    ensures var v: int := Value(digits);
            var w := if sign == "-" then -v else v;
            ParseInt64(sign + digits) == if MIN_INT64 <= w <= MAX_INT64 then Some(w) else None
  {
    if sign == "" {
      assert sign + digits == digits;
    } else {
      assert (sign + digits)[1..] == digits;
    }
  }

  function InRange(e: int): Option<int> {
    if MIN_INT64 <= e <= MAX_INT64 then Some(e) else None
  }

  lemma ExponentTextReads(n: JsonNumber)
    requires WellFormed(n) && n.exponent.Some?
    ensures ParseInt64(ExponentText(n)) == InRange(ExponentValue(n))
  {
    SignedDigitsRead(n.exponent.value.sign, n.exponent.value.digits);
  }

  lemma MarkedExponentReads(m: string, marker: char, text: string)
    requires IndexOfExponent(m + ([marker] + text)) == |m|
    ensures ParseExponent(m + ([marker] + text)) == ParseInt64(text)
  {
    assert (m + ([marker] + text))[|m| + 1..] == text;
  }

  lemma NoExponentReads(m: string)
    requires IndexOfExponent(m) == |m|
    ensures ParseExponent(m) == Some(0)
  {
  }

  lemma ExponentReads(n: JsonNumber)
    requires WellFormed(n)
    ensures ParseExponent(Mantissa(n) + Tail(n)) == InRange(ExponentValue(n))
  {
    RenderedSplits(n);
    if n.exponent.Some? {
      MarkedExponentReads(Mantissa(n), n.exponent.value.marker, ExponentText(n));
      ExponentTextReads(n);
    } else {
      assert Mantissa(n) + Tail(n) == Mantissa(n);
      NoExponentReads(Mantissa(n));
    }
  }

  /** Splitting a JSON number's text gives its parts; the exponent must fit an int64. */
  lemma SplitRendered(n: JsonNumber)
    requires WellFormed(n)
    ensures Split(Render(n)) == Parts(n.negative, n.integer, FractionDigits(n), InRange(ExponentValue(n)))
  {
    RenderedSplits(n);
    ExponentReads(n);
    MantissaSplits(n);
    var m := Mantissa(n);
    assert (m + Tail(n))[..|m|] == m;
  }

  // ---------------------------------------------------------------- decimal arithmetic

  lemma {:induction false} ScalePositive(e: int)
    ensures Scale(e) > 0.0
    decreases if e < 0 then -e else e
  {
    if e > 0 {
      ScalePositive(e - 1);
    } else if e < 0 {
      ScalePositive(e + 1);
    }
  }

  lemma {:induction false} TimesAdds(m: nat, n: nat, c: real)
    ensures Times(m + n, c) == Times(m, c) + Times(n, c)
    decreases n
  {
    if n > 0 {
      TimesAdds(m, n - 1, c);
    }
  }

  lemma {:induction false} TimesNests(m: nat, p: nat, c: real)
    ensures Times(m * p, c) == Times(m, Times(p, c))
  {
    if m > 0 {
      TimesNests(m - 1, p, c);
      assert m * p == (m - 1) * p + p;
      TimesAdds((m - 1) * p, p, c);
    }
  }

  lemma TimesTen(p: nat, c: real)
    ensures Times(10 * p, c) == 10.0 * Times(p, c)
  {
    TimesAdds(p, p, c);
    TimesAdds(2 * p, 2 * p, c);
    TimesAdds(4 * p, 4 * p, c);
    TimesAdds(8 * p, 2 * p, c);
  }

  lemma {:induction false} TimesMonotone(m: nat, n: nat, c: real)
    requires m < n && c > 0.0
    ensures 0.0 <= Times(m, c) < Times(n, c)
    decreases n
  {
    if m > 0 {
      TimesMonotone(m - 1, n - 1, c);
    } else if n > 1 {
      TimesMonotone(0, n - 1, c);
    }
  }

  /** Ten to the k copies of ten to the e. */
  lemma {:induction false} ScaleShifts(e: int, k: nat)
    ensures Times(Pow10(k), Scale(e)) == Scale(e + k)
    decreases k
  {
    if k > 0 {
      ScaleShifts(e, k - 1);
      TimesTen(Pow10(k - 1), Scale(e));
      assert Scale(e + k) == 10.0 * Scale(e + k - 1);
    } else {
      assert Times(1, Scale(e)) == Times(0, Scale(e)) + Scale(e);
    }
  }

  lemma ScaleCoefficient(m: nat, k: nat, e: int)
    ensures Times(m * Pow10(k), Scale(e)) == Times(m, Scale(e + k))
  {
    TimesNests(m, Pow10(k), Scale(e));
    ScaleShifts(e, k);
  }

  lemma {:induction false} TrimLeftKeepsValue(s: string)
    requires AllDigits(s)
    ensures Value(TrimLeftZeroes(s)) == Value(s)
  {
    if s != [] && s[0] == '0' {
      TrimLeftKeepsValue(s[1..]);
      LeadingZero(s);
    }
  }

  lemma {:induction false} LeadingZero(s: string)
    requires AllDigits(s) && s != [] && s[0] == '0'
    ensures Value(s) == Value(s[1..])
  {
    if |s| > 1 {
      LeadingZero(s[..|s| - 1]);
      assert s[1..][..|s| - 2] == s[..|s| - 1][1..];
    } else {
      assert s[..0] == [];
    }
  }

  lemma TenTimes(m: nat, k: nat)
    ensures 10 * (m * Pow10(k)) == m * Pow10(k + 1)
  {
    var p := Pow10(k);
    assert 10 * (m * p) == m * (10 * p);
  }

  lemma {:induction false} TrimRightScalesValue(s: string)
    requires AllDigits(s)
    ensures Value(s) == Value(TrimRightZeroes(s)) * Pow10(|s| - |TrimRightZeroes(s)|)
  {
    if s != [] && s[|s| - 1] == '0' {
      var p := s[..|s| - 1];
      TrimRightScalesValue(p);
      TenTimes(Value(TrimRightZeroes(p)), |p| - |TrimRightZeroes(p)|);
    } else {
      assert TrimRightZeroes(s) == s;
    }
  }

  lemma TrailingZero(m: nat, k: nat)
    requires k > 0
    ensures (m * Pow10(k)) % 10 == 0
  {
    var p := Pow10(k - 1);
    assert m * (10 * p) == 10 * (m * p);
  }

  /** A coefficient without a trailing zero and its exponent are determined by the value. */
  lemma ScaledUnique(m: nat, e: int, n: nat, f: int)
    requires m % 10 != 0 && n % 10 != 0
    requires Times(m, Scale(e)) == Times(n, Scale(f))
    requires e >= f
    ensures m == n && e == f
  {
    var mp := m * Pow10(e - f);
    ScaleCoefficient(m, e - f, f);
    ScalePositive(f);
    if mp < n {
      TimesMonotone(mp, n, Scale(f));
    } else if n < mp {
      TimesMonotone(n, mp, Scale(f));
    }
    if e > f {
      TrailingZero(m, e - f);
    }
  }

  // ---------------------------------------------------------------- the canonical form

  function AllDigitsOf(n: JsonNumber): string {
    n.integer + FractionDigits(n)
  }

  lemma LastDigit(s: string)
    requires AllDigits(s) && s != [] && s[|s| - 1] != '0'
    ensures Value(s) % 10 != 0
  {
  }

  lemma LeadingDigit(s: string)
    requires AllDigits(s) && s != [] && s[0] != '0'
    ensures Value(s) > 0 && Print(Value(s)) == s
  {
    CanonicalIsPrinted(s);
  }

  lemma {:induction false} NonzeroSurvives(s: string)
    requires AllDigits(s) && s != [] && s[0] != '0'
    ensures TrimRightZeroes(s) != "" && AllDigits(TrimRightZeroes(s))
  {
    if s[|s| - 1] == '0' {
      NonzeroSurvives(s[..|s| - 1]);
    }
  }

  /** Trimming both ends factors the coefficient as m * 10^k with m not a multiple of ten. */
  lemma TrimFactors(s: string)
    requires AllDigits(s)
    ensures TrimLeftZeroes(s) == "" <==> Value(s) == 0
    ensures TrimLeftZeroes(s) != "" ==>
              var digits := TrimLeftZeroes(s);
              var trimmed := TrimRightZeroes(digits);
              && AllDigits(trimmed) && trimmed != "" && trimmed[0] != '0'
              && Print(Value(trimmed)) == trimmed
              && Value(trimmed) % 10 != 0
              && Value(s) == Value(trimmed) * Pow10(|digits| - |trimmed|)
  {
    TrimLeftKeepsValue(s);
    var digits := TrimLeftZeroes(s);
    if digits != "" {
      var trimmed := TrimRightZeroes(digits);
      LeadingDigit(digits);
      TrimRightScalesValue(digits);
      NonzeroSurvives(digits);
      assert trimmed[0] == digits[0];
      LeadingDigit(trimmed);
      LastDigit(trimmed);
    }
  }

  /** What the source prints for a nonzero number: its sign, reduced coefficient and exponent. */
  ghost predicate Reduced(n: JsonNumber, m: nat, e: int)
    requires WellFormed(n)
  {
    m % 10 != 0 && Denoted(n) == Signed(n.negative, m, e)
  }

  lemma CanonicalizeRendered(n: JsonNumber)
    requires WellFormed(n)
    ensures Canonicalize(Render(n)) ==
              if InRange(ExponentValue(n)).Some?
              then Normalize(n.negative, n.integer, FractionDigits(n), ExponentValue(n)) else Err(OutOfRange)
  {
    SplitRendered(n);
  }

  /** Scale, trim and print, for a nonzero coefficient. */
  lemma {:induction false} NormalizeReduces(negative: bool, integer: string, fraction: string, exponent: int) returns (m: nat, e: int)
    requires AllDigits(integer) && AllDigits(fraction) && Value(integer + fraction) != 0
    requires MIN_INT64 <= exponent - |fraction|
    ensures m % 10 != 0 && m > 0 && exponent - |fraction| <= e
    ensures Signed(negative, Value(integer + fraction), exponent - |fraction|) == Signed(negative, m, e)
    ensures Normalize(negative, integer, fraction, exponent) ==
              if e <= MAX_INT64 then Ok(CanonicalText(negative, Print(m), e)) else Err(OutOfRange)
  {
    var digits, trimmed := Trimmed(integer + fraction);
    var k := |digits| - |trimmed|;
    m, e := Value(trimmed), exponent - |fraction| + k;
    NormalizeIs(negative, integer, fraction, exponent, digits, trimmed);
    SignedShifts(negative, m, k, exponent - |fraction|);
  }

  lemma {:induction false} Trimmed(s: string) returns (digits: string, trimmed: string)
    requires AllDigits(s) && Value(s) != 0
    ensures digits == TrimLeftZeroes(s) && digits != "" && trimmed == TrimRightZeroes(digits) && |trimmed| <= |digits|
    ensures AllDigits(trimmed) && Print(Value(trimmed)) == trimmed && Value(trimmed) % 10 != 0
    ensures Value(s) == Value(trimmed) * Pow10(|digits| - |trimmed|)
  {
    TrimFactors(s);
    digits := TrimLeftZeroes(s);
    trimmed := TrimRightZeroes(digits);
  }

  lemma {:induction false} NormalizeIs(negative: bool, integer: string, fraction: string, exponent: int, digits: string, trimmed: string)
    requires digits == TrimLeftZeroes(integer + fraction) && digits != "" && trimmed == TrimRightZeroes(digits)
    requires MIN_INT64 <= exponent - |fraction|
    ensures var e := exponent - |fraction| + (|digits| - |trimmed|);
            Normalize(negative, integer, fraction, exponent) ==
            if e <= MAX_INT64 then Ok(CanonicalText(negative, trimmed, e)) else Err(OutOfRange)
  {
  }

  lemma {:induction false} SignedShifts(negative: bool, m: nat, k: nat, e: int)
    ensures Signed(negative, m * Pow10(k), e) == Signed(negative, m, e + k)
  {
    ScaleCoefficient(m, k, e);
  }

  lemma NormalForm(n: JsonNumber) returns (m: nat, e: int)
    requires WellFormed(n) && Value(AllDigitsOf(n)) != 0
    requires InRange(ExponentValue(n)).Some? && MIN_INT64 <= ExponentValue(n) - |FractionDigits(n)|
    ensures Reduced(n, m, e) && m > 0 && ExponentValue(n) - |FractionDigits(n)| <= e
    ensures Canonicalize(Render(n)) == if e <= MAX_INT64 then Ok(CanonicalText(n.negative, Print(m), e)) else Err(OutOfRange)
  {
    m, e := NormalizeReduces(n.negative, n.integer, FractionDigits(n), ExponentValue(n));
    assert Reduced(n, m, e);
    var source := Render(n);
    CanonicalizeRendered(n);
  }

  lemma ZeroForm(n: JsonNumber)
    requires WellFormed(n) && Value(AllDigitsOf(n)) == 0
    requires InRange(ExponentValue(n)).Some? && MIN_INT64 <= ExponentValue(n) - |FractionDigits(n)|
    ensures Canonicalize(Render(n)) == Ok("0") && Denoted(n) == 0.0
  {
    TrimFactors(AllDigitsOf(n));
    CanonicalizeRendered(n);
  }

  lemma AcceptedRange(n: JsonNumber)
    requires WellFormed(n) && Canonicalize(Render(n)).Ok?
    ensures InRange(ExponentValue(n)).Some? && MIN_INT64 <= ExponentValue(n) - |FractionDigits(n)|
  {
    CanonicalizeRendered(n);
  }

  /** Signed coefficients without a trailing zero are equal only when every part is. */
  lemma SignedUnique(a: bool, m: nat, e: int, b: bool, n: nat, f: int)
    requires m % 10 != 0 && n % 10 != 0 && Signed(a, m, e) == Signed(b, n, f)
    ensures a == b && m == n && e == f
  {
    ScalePositive(e);
    ScalePositive(f);
    TimesMonotone(0, m, Scale(e));
    TimesMonotone(0, n, Scale(f));
    if e >= f {
      ScaledUnique(m, e, n, f);
    } else {
      ScaledUnique(n, f, m, e);
    }
  }

  function Output(negative: bool, m: nat, e: int): JsonNumber {
    JsonNumber(negative, Print(m), None,
               if e == 0 then None else Some(Exponent('e', if e < 0 then "-" else "", Print(if e < 0 then -e else e))))
  }

  lemma OutputWellFormed(negative: bool, m: nat, e: int)
    ensures WellFormed(Output(negative, m, e)) && ExponentValue(Output(negative, m, e)) == e
  {
    PrintDenotes(m);
    PrintDenotes(if e < 0 then -e else e);
  }

  lemma OutputDigits(negative: bool, m: nat, e: int)
    ensures FractionDigits(Output(negative, m, e)) == "" && AllDigitsOf(Output(negative, m, e)) == Print(m)
  {
  }

  lemma OutputDenotes(negative: bool, m: nat, e: int)
    requires WellFormed(Output(negative, m, e)) && ExponentValue(Output(negative, m, e)) == e
    ensures Denoted(Output(negative, m, e)) == Signed(negative, m, e)
  {
    OutputDigits(negative, m, e);
    assert Value(Print(m)) == m by {
      PrintDenotes(m);
    }
  }

  lemma OutputText(negative: bool, m: nat, e: int)
    ensures Render(Output(negative, m, e)) == CanonicalText(negative, Print(m), e)
  {
    OutputTail(negative, m, e);
    Appended(if negative then "-" else "", Print(m), if e != 0 then "e" + PrintInt(e) else "");
  }

  lemma OutputTail(negative: bool, m: nat, e: int)
    ensures Tail(Output(negative, m, e)) == if e != 0 then "e" + PrintInt(e) else ""
  {
  }

  lemma Appended(sign: string, digits: string, tail: string)
    ensures sign + (digits + "") + tail == sign + digits + tail
  {
  }

  lemma SamePartsSameValue(a: JsonNumber, b: JsonNumber)
    requires WellFormed(a) && WellFormed(b)
    requires a.negative == b.negative && a.integer == b.integer
    requires FractionDigits(a) == FractionDigits(b) && ExponentValue(a) == ExponentValue(b)
    ensures Denoted(a) == Denoted(b)
  {
  }

  /** A text denotes one value. */
  lemma TextDenotesOnce(a: JsonNumber, b: JsonNumber)
    requires WellFormed(a) && WellFormed(b) && Render(a) == Render(b)
    requires MIN_INT64 <= ExponentValue(a) <= MAX_INT64 && MIN_INT64 <= ExponentValue(b) <= MAX_INT64
    ensures Denoted(a) == Denoted(b)
  {
    SplitRendered(a);
    SplitRendered(b);
    SamePartsSameValue(a, b);
  }

  lemma OutputIsFixed(negative: bool, m: nat, e: int)
    requires m % 10 != 0 && InRange(e).Some?
    ensures Canonicalize(CanonicalText(negative, Print(m), e)) == Ok(CanonicalText(negative, Print(m), e))
  {
    var o := Output(negative, m, e);
    OutputWellFormed(negative, m, e);
    OutputDenotes(negative, m, e);
    OutputDigits(negative, m, e);
    PrintDenotes(m);
    var m', e' := NormalForm(o);
    SignedUnique(negative, m, e, negative, m', e');
    OutputText(negative, m, e);
  }

  /** The accepted output is a JSON number of the same value. */
  lemma OutputDenotesInput(n: JsonNumber)
    requires WellFormed(n) && Canonicalize(Render(n)).Ok?
    ensures exists o :: WellFormed(o) && Ok(Render(o)) == Canonicalize(Render(n)) && Denoted(o) == Denoted(n)
  {
    AcceptedRange(n);
    if Value(AllDigitsOf(n)) == 0 {
      ZeroForm(n);
      var o := Output(false, 0, 0);
      OutputWellFormed(false, 0, 0);
      OutputDenotes(false, 0, 0);
      assert Signed(false, 0, 0) == 0.0;
      assert Render(o) == "0";
    } else {
      var m, e := NormalForm(n);
      OutputWellFormed(n.negative, m, e);
      OutputDenotes(n.negative, m, e);
      OutputText(n.negative, m, e);
      assert WellFormed(Output(n.negative, m, e));
    }
  }

  /** Canonicalizing an accepted output changes nothing. */
  lemma CanonicalizeIsIdempotent(n: JsonNumber)
    requires WellFormed(n) && Canonicalize(Render(n)).Ok?
    ensures Canonicalize(Canonicalize(Render(n)).value) == Canonicalize(Render(n))
  {
    AcceptedRange(n);
    if Value(AllDigitsOf(n)) == 0 {
      ZeroForm(n);
      assert Canonicalize("0") == Ok("0") by {
        ZeroIsFixed();
      }
    } else {
      var m, e := NormalForm(n);
      OutputIsFixed(n.negative, m, e);
    }
  }

  lemma ZeroIsFixed()
    ensures Canonicalize("0") == Ok("0")
  {
    var o := JsonNumber(false, "0", None, None);
    assert AllDigitsOf(o) == Print(0);
    PrintDenotes(0);
    ZeroForm(o);
    assert Render(o) == "0";
  }

  /** For accepted numbers, the outputs are the same text exactly when the values are equal. */
  lemma CanonicalTextIsUnique(a: JsonNumber, b: JsonNumber)
    requires WellFormed(a) && WellFormed(b)
    requires Canonicalize(Render(a)).Ok? && Canonicalize(Render(b)).Ok?
    ensures Canonicalize(Render(a)) == Canonicalize(Render(b)) <==> Denoted(a) == Denoted(b)
  {
    AcceptedRange(a);
    AcceptedRange(b);
    if Value(AllDigitsOf(a)) == 0 {
      ZeroForm(a);
    }
    if Value(AllDigitsOf(b)) == 0 {
      ZeroForm(b);
    }
    if Value(AllDigitsOf(a)) != 0 && Value(AllDigitsOf(b)) != 0 {
      NonzeroTextIsUnique(a, b);
    } else if Value(AllDigitsOf(a)) != 0 {
      NonzeroIsNotZero(a);
    } else if Value(AllDigitsOf(b)) != 0 {
      NonzeroIsNotZero(b);
    }
  }

  lemma NonzeroIsNotZero(n: JsonNumber)
    requires WellFormed(n) && Canonicalize(Render(n)).Ok? && Value(AllDigitsOf(n)) != 0
    ensures Denoted(n) != 0.0 && Canonicalize(Render(n)) != Ok("0")
  {
    AcceptedRange(n);
    var m, e := NormalForm(n);
    ScalePositive(e);
    TimesMonotone(0, m, Scale(e));
    PrintDenotes(m);
    assert CanonicalText(n.negative, Print(m), e)[0] == if n.negative then '-' else Print(m)[0];
  }

  lemma NonzeroTextIsUnique(a: JsonNumber, b: JsonNumber)
    requires WellFormed(a) && WellFormed(b)
    requires Canonicalize(Render(a)).Ok? && Canonicalize(Render(b)).Ok?
    requires Value(AllDigitsOf(a)) != 0 && Value(AllDigitsOf(b)) != 0
    ensures Canonicalize(Render(a)) == Canonicalize(Render(b)) <==> Denoted(a) == Denoted(b)
  {
    AcceptedRange(a);
    AcceptedRange(b);
    var m, e := NormalForm(a);
    var n, f := NormalForm(b);
    if Denoted(a) == Denoted(b) {
      SignedUnique(a.negative, m, e, b.negative, n, f);
    }
    if Canonicalize(Render(a)) == Canonicalize(Render(b)) {
      OutputWellFormed(a.negative, m, e);
      OutputWellFormed(b.negative, n, f);
      OutputText(a.negative, m, e);
      OutputText(b.negative, n, f);
      OutputDenotes(a.negative, m, e);
      OutputDenotes(b.negative, n, f);
      TextDenotesOnce(Output(a.negative, m, e), Output(b.negative, n, f));
    }
  }

  /**
   A number is rejected only for its exponent: the written one, the one after
   the fraction is folded in, or the one after trailing zeroes are folded in.
   */
  lemma AcceptedExactly(n: JsonNumber)
    requires WellFormed(n)
    ensures Canonicalize(Render(n)).Ok? <==>
              && InRange(ExponentValue(n)).Some?
              && MIN_INT64 <= ExponentValue(n) - |FractionDigits(n)|
              && (Denoted(n) == 0.0 || exists m, e :: Reduced(n, m, e) && e <= MAX_INT64)
  {
    if Canonicalize(Render(n)).Ok? {
      AcceptedRange(n);
    }
    if InRange(ExponentValue(n)).Some? && MIN_INT64 <= ExponentValue(n) - |FractionDigits(n)| {
      if Value(AllDigitsOf(n)) == 0 {
        ZeroForm(n);
      } else {
        NonzeroAcceptedExactly(n);
      }
    }
  }

  lemma NonzeroAcceptedExactly(n: JsonNumber)
    requires WellFormed(n) && Value(AllDigitsOf(n)) != 0
    requires InRange(ExponentValue(n)).Some? && MIN_INT64 <= ExponentValue(n) - |FractionDigits(n)|
    ensures Denoted(n) != 0.0
    ensures Canonicalize(Render(n)).Ok? <==> exists m, e :: Reduced(n, m, e) && e <= MAX_INT64
  {
    var m, e := NormalForm(n);
    ScalePositive(e);
    TimesMonotone(0, m, Scale(e));
    if k, f :| Reduced(n, k, f) && f <= MAX_INT64 {
      SignedUnique(n.negative, m, e, n.negative, k, f);
    }
  }

  // ---------------------------------------------------------------- for clients

  /**
   Canonicalize, reached only through FormIs: proofs about values that contain
   numbers need nothing of how a number is normalized.
   */
  function Form(digits: string): Result<string, OutOfRange> {
    FormAfter(digits, |digits| + 2)
  }

  function FormAfter(digits: string, steps: nat): Result<string, OutOfRange> {
    if steps == 0 then Canonicalize(digits) else FormAfter(digits, steps - 1)
  }

  lemma {:induction false} FormAfterSame(digits: string, steps: nat, start: nat)
    requires start <= steps
    ensures FormAfter(digits, steps) == FormAfter(digits, start)
  {
    if steps > start {
      FormAfterSame(digits, steps - 1, start);
    }
  }

  lemma FormIs(digits: string)
    ensures Form(digits) == Canonicalize(digits)
  {
    FormAfterSame(digits, |digits| + 2, 0);
  }
}
