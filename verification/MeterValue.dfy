/** What a number denotes, in ordinary multiplication. */
module MeterValue {
  import opened Wrappers
  import opened DecimalText
  import opened MeterNumber

  lemma {:induction false} TimesIsProduct(m: nat, c: real)
    ensures Times(m, c) == m as real * c
  {
    if m > 0 {
      TimesIsProduct(m - 1, c);
      Distribute((m - 1) as real, c);
    }
  }

  lemma Distribute(x: real, c: real)
    ensures (x + 1.0) * c == x * c + c
  {
  }

  lemma {:induction false} ScaleIsPower(e: int)
    ensures if e >= 0 then Scale(e) == Pow10(e) as real else Scale(e) * (Pow10(-e) as real) == 1.0
    decreases if e < 0 then -e else e
  {
    if e > 0 {
      ScaleIsPower(e - 1);
      assert Pow10(e) as real == 10.0 * (Pow10(e - 1) as real);
    } else if e < 0 {
      ScaleIsPower(e + 1);
      assert Pow10(-e) == 10 * Pow10(-e - 1);
      TenthTimesTen(Scale(e + 1), Pow10(-e - 1));
    }
  }

  lemma TenthTimesTen(x: real, p: nat)
    ensures x / 10.0 * ((10 * p) as real) == x * (p as real)
  {
    assert (10 * p) as real == 10.0 * (p as real);
  }

  lemma Cancels(v: real, x: real, p: real)
    requires x * p == 1.0
    ensures (v * x) * p == v
  {
    assert (v * x) * p == v * (x * p);
  }

  function Coefficient(negative: bool, m: nat): real {
    if negative then -(m as real) else m as real
  }

  lemma {:induction false} SignedIsProduct(negative: bool, m: nat, e: int)
    ensures Signed(negative, m, e) == Coefficient(negative, m) * Scale(e)
  {
    TimesIsProduct(m, Scale(e));
  }

  /** d is c times ten to the e. */
  predicate IsScaled(d: real, c: real, e: int) {
    if e >= 0 then d == c * (Pow10(e) as real) else d * (Pow10(-e) as real) == c
  }

  lemma {:induction false} SignedInPowers(negative: bool, m: nat, e: int)
    ensures IsScaled(Signed(negative, m, e), Coefficient(negative, m), e)
  {
    SignedIsProduct(negative, m, e);
    ScaleIsPower(e);
    if e < 0 {
      Cancels(Coefficient(negative, m), Scale(e), Pow10(-e) as real);
    }
  }

  /** A number is its digits read without the point, with the sign, times or divided by a power of ten. */
  lemma {:induction false} DenotedIsProduct(n: JsonNumber)
    requires WellFormed(n)
    ensures IsScaled(Denoted(n), Coefficient(n.negative, Value(n.integer + FractionDigits(n))), ExponentValue(n) - |FractionDigits(n)|)
  {
    SignedInPowers(n.negative, Value(n.integer + FractionDigits(n)), ExponentValue(n) - |FractionDigits(n)|);
  }

  predicate Digits(s: string) {
    s != "" && forall c :: c in s ==> '0' <= c <= '9'
  }

  lemma {:induction false} DigitsAre(s: string)
    ensures Digits(s) <==> s != "" && AllDigits(s)
  {
    if AllDigits(s) {
      forall c | c in s
        ensures '0' <= c <= '9'
      {
        var i :| 0 <= i < |s| && s[i] == c;
        assert IsDigit(s[i]);
      }
    }
    if Digits(s) {
      assert forall i :: 0 <= i < |s| ==> s[i] in s;
    }
  }

  /** The JSON grammar: digits without a leading zero, then perhaps a point and digits, then perhaps a marker in either case, a sign or none, and digits. */
  lemma {:induction false} GrammarExactly(n: JsonNumber)
    ensures WellFormed(n) <==>
            && Digits(n.integer) && (n.integer == "0" || n.integer[0] != '0')
            && (n.fraction.Some? ==> Digits(n.fraction.value))
            && (n.exponent.Some? ==>
                  && n.exponent.value.marker in {'e', 'E'} && n.exponent.value.sign in {"", "+", "-"}
                  && Digits(n.exponent.value.digits))
  {
    DigitsAre(n.integer);
    if n.fraction.Some? {
      DigitsAre(n.fraction.value);
    }
    if n.exponent.Some? {
      DigitsAre(n.exponent.value.digits);
    }
    assert |n.integer| == 1 && n.integer[0] == '0' <==> n.integer == "0";
  }
}
