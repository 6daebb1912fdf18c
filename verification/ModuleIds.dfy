/** The canonical form of a module's ID, as it is compared at an identity boundary. */
module ModuleIds {
  import opened Wrappers
  import opened SqlPlaceholder
  import opened SqlGuard
  import opened DevDirectory

  /** Eight, four, four, four and twelve hex digits of either case. */
  predicate IsUuid(s: string) {
    && |s| == 36
    && s[8] == '-' && s[13] == '-' && s[18] == '-' && s[23] == '-'
    && forall i :: 0 <= i < 36 && i != 8 && i != 13 && i != 18 && i != 23 ==> IsHexFold(s[i])
  }

  /** ids.CanonicalModuleID; a value with spaces around it is no UUID. */
  function Canonical(value: string): Option<string> {
    if |value| == 33 && value[0] == 'm' then
      if forall i :: 1 <= i < 33 ==> IsHexFold(value[i]) then Some(Lower(Dashed(value))) else None
    else if IsUuid(value) then Some(Lower(value))
    else None
  }

  lemma {:induction false} UuidIsDashed(s: string)
    ensures IsUuid(s) <==> IsDashed(Lower(s))
  {
    if |s| == 36 {
      forall i | 0 <= i < 36
        ensures (IsHexFold(s[i]) <==> IsLowerHex(Lower(s)[i])) && (s[i] == '-' <==> Lower(s)[i] == '-')
      {
      }
    }
  }

  /** What comes out is a lower-case dashed UUID, and canonical already. */
  lemma {:induction false} CanonicalIsDashed(value: string)
    requires Canonical(value).Some?
    ensures IsDashed(Canonical(value).value) && Canonical(Canonical(value).value) == Canonical(value)
  {
    var c := Canonical(value).value;
    if |value| == 33 {
      LowerIsMinted(value);
      LowerDashed(value);
      DashedIsDashed(Lower(value));
    } else {
      UuidIsDashed(value);
    }
    LowerTwice(if |value| == 33 then Dashed(value) else value);
    UuidIsDashed(c);
  }

  lemma {:induction false} LowerIsMinted(value: string)
    requires |value| == 33 && value[0] == 'm' && forall i :: 1 <= i < 33 ==> IsHexFold(value[i])
    ensures Minted(Lower(value))
  {
    forall i | 1 <= i < 33
      ensures IsLowerHex(Lower(value)[i])
    {
      assert IsHexFold(value[i]);
    }
  }

  lemma {:induction false} LowerDashed(value: string)
    requires |value| == 33
    ensures Lower(Dashed(value)) == Dashed(Lower(value))
  {
    var low := Lower(value);
    LowerConcat(value[1..9] + "-" + value[9..13] + "-" + value[13..17] + "-" + value[17..21] + "-", value[21..]);
    LowerConcat(value[1..9] + "-" + value[9..13] + "-" + value[13..17] + "-" + value[17..21], "-");
    LowerConcat(value[1..9] + "-" + value[9..13] + "-" + value[13..17] + "-", value[17..21]);
    LowerConcat(value[1..9] + "-" + value[9..13] + "-" + value[13..17], "-");
    LowerConcat(value[1..9] + "-" + value[9..13] + "-", value[13..17]);
    LowerConcat(value[1..9] + "-" + value[9..13], "-");
    LowerConcat(value[1..9] + "-", value[9..13]);
    LowerConcat(value[1..9], "-");
    LowerSlice(value, 1, 9);
    LowerSlice(value, 9, 13);
    LowerSlice(value, 13, 17);
    LowerSlice(value, 17, 21);
    LowerSlice(value, 21, 33);
    assert Lower("-") == "-" && value[21..] == value[21..33] && low[21..] == low[21..33];
  }

  lemma {:induction false} LowerConcat(a: string, b: string)
    ensures Lower(a + b) == Lower(a) + Lower(b)
  {
  }

  /** A UUID and the minted ID that spells it have the same canonical form, in any letter case of their digits. */
  lemma {:induction false} CanonicalExactly(value: string, id: string)
    requires Minted(id)
    ensures Canonical(value) == Some(Dashed(id)) <==>
              (|value| == 33 && value[0] == 'm' && Lower(value) == id) || Lower(value) == Dashed(id)
  {
    DashedIsDashed(id);
    UuidIsDashed(value);
    assert |Lower(value)| == |value| && |Dashed(id)| == 36;
    if |value| == 33 && value[0] == 'm' {
      LowerDashed(value);
      assert Lower(value)[0] == 'm';
      DashedInjective(Lower(value), id);
      if Lower(value) == id {
        HexIfLowerHex(value);
        assert Canonical(value) == Some(Lower(Dashed(value)));
      }
      assert Canonical(value) == Some(Dashed(id)) ==> Lower(value) == id;
      assert Lower(value) == id ==> Canonical(value) == Some(Dashed(id));
    } else {
      assert Canonical(value) == Some(Dashed(id)) ==> Lower(value) == Dashed(id);
      assert Lower(value) == Dashed(id) ==> IsUuid(value);
      assert Lower(value) == Dashed(id) ==> Canonical(value) == Some(Dashed(id));
    }
  }

  lemma {:induction false} HexIfLowerHex(value: string)
    requires Minted(Lower(value))
    ensures forall i :: 1 <= i < 33 ==> IsHexFold(value[i])
  {
    forall i | 1 <= i < 33
      ensures IsHexFold(value[i])
    {
      assert IsLowerHex(Lower(value)[i]);
    }
  }

  lemma {:induction false} DashedInjective(a: string, b: string)
    requires |a| == 33 && |b| == 33 && a[0] == b[0]
    ensures Dashed(a) == Dashed(b) <==> a == b
  {
    var d, e := Dashed(a), Dashed(b);
    assert d[..8] == a[1..9] && d[9..13] == a[9..13] && d[14..18] == a[13..17] && d[19..23] == a[17..21] && d[24..] == a[21..];
    assert e[..8] == b[1..9] && e[9..13] == b[9..13] && e[14..18] == b[13..17] && e[19..23] == b[17..21] && e[24..] == b[21..];
    assert a == [a[0]] + a[1..9] + a[9..13] + a[13..17] + a[17..21] + a[21..];
    assert b == [b[0]] + b[1..9] + b[9..13] + b[13..17] + b[17..21] + b[21..];
  }
}
