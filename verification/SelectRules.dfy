/** What the gate in front of a dynamic SELECT lets through, and which of its complaints comes first. */
module SelectRules {
  import opened DynamicSelect

  predicate Letter(c: char) {
    'a' <= c <= 'z'
  }

  /** A name is safe exactly when it is a lower-case letter and at most 62 lower-case letters, digits and underscores. */
  lemma {:induction false} SafeNameExactly(s: string)
    ensures SafeName(s) <==>
            s != "" && Letter(s[0]) && |s[1..]| <= 62 && forall c :: c in s[1..] ==> Letter(c) || '0' <= c <= '9' || c == '_'
  {
    if s != "" {
      assert s == [s[0]] + s[1..];
      assert forall i :: 0 < i < |s| ==> s[i] in s[1..];
    }
  }

  /** At most one name is the first unsafe one, and it is unsafe; there is one unless all are safe. */
  lemma {:induction false} OneFirstUnsafe(names: seq<string>, a: string, b: string)
    requires FirstUnsafeIn(names, a)
    ensures a in names && !SafeName(a) && (FirstUnsafeIn(names, b) ==> a == b)
  {
    var k :| 0 <= k < |names| && names[k] == a && !SafeName(a) && forall j :: 0 <= j < k ==> SafeName(names[j]);
    if FirstUnsafeIn(names, b) {
      var m :| 0 <= m < |names| && names[m] == b && !SafeName(b) && forall j :: 0 <= j < m ==> SafeName(names[j]);
      assert !(m < k) && !(k < m);
    }
  }

  /** At most one column is the first without a value, and its filter is in the list without one. */
  lemma {:induction false} OneFirstEmpty(filters: seq<Filter>, a: string, b: string)
    requires FirstEmptyIn(filters, a)
    ensures Filter(a, []) in filters && (FirstEmptyIn(filters, b) ==> a == b)
  {
    var k :| 0 <= k < |filters| && filters[k] == Filter(a, []) && forall j :: 0 <= j < k ==> filters[j].values != [];
    if FirstEmptyIn(filters, b) {
      var m :| 0 <= m < |filters| && filters[m] == Filter(b, []) && forall j :: 0 <= j < m ==> filters[j].values != [];
      assert !(m < k) && !(k < m);
    }
  }

  /** The limit in effect: the one asked for from 1 to 2000, two hundred for none, two thousand for more. */
  lemma LimitExactly(limit: int)
    ensures Clamped(limit) == if limit < 1 then 200 else if limit < 2000 then limit else 2000
  {
  }
}
