/** The dependency query builder's rules in plain figures. */
module DependencyRules {
  import D = DynamicSelect
  import opened DependencyQuery

  /** A value the proxy's filter language has: a text, a flag or a number. */
  predicate JsonScalar(v: D.Value) {
    !v.Other?
  }

  ghost predicate SoundFilter(f: Declared) {
    && D.SafeName(f.column)
    && (f.operand.Scalar? ==> JsonScalar(f.operand.value))
    && (f.operand.Values? ==> 1 <= |f.operand.values| <= 200 && forall v :: v in f.operand.values ==> JsonScalar(v))
  }

  lemma {:induction false} FilterIsSound(f: Declared)
    ensures WellFormed(f) <==> SoundFilter(f)
  {
    if f.operand.Values? {
      var vs := f.operand.values;
      assert (forall i :: 0 <= i < |vs| ==> JsonScalar(vs[i])) <==> forall v :: v in vs ==> JsonScalar(v);
    }
  }

  /**
   A builder is without error exactly when its dependency resolved and its
   calls, taken together, name a safe table, at most 64 safe columns and at
   most 16 sound filters of one column each; it then holds just these, and the
   last limit.
   */
  lemma {:induction false} BuilderExactly(dependencyFailed: bool, table: string, calls: seq<Call>)
    ensures var b, columns, filters := Built(Started(dependencyFailed, table), calls), AllColumns(calls), AllFilters(calls);
            && (b.err.None? <==>
                  && !dependencyFailed && D.SafeName(table)
                  && |columns| <= 64 && (forall c :: c in columns ==> D.SafeName(c))
                  && |filters| <= 16 && (forall f :: f in filters ==> SoundFilter(f))
                  && (forall i, j :: 0 <= i < j < |filters| ==> filters[i].column != filters[j].column))
            && (b.err.None? ==>
                  && b.columns == columns && b.limit == LastLimit(calls) && |b.filters| == |filters|
                  && forall f :: f in filters ==> f.column in b.filters && b.filters[f.column] == f.operand)
  {
    var b, columns, filters := Built(Started(dependencyFailed, table), calls), AllColumns(calls), AllFilters(calls);
    BuiltExactly(dependencyFailed, table, calls);
    assert AllSafe(columns) <==> forall c :: c in columns ==> D.SafeName(c);
    forall f
      ensures WellFormed(f) <==> SoundFilter(f)
    {
      FilterIsSound(f);
    }
    assert AllWellFormed(filters) <==> forall f :: f in filters ==> SoundFilter(f);
    if b.err.None? {
      FilterMapHolds(filters);
      FilterMapSize(filters);
    }
  }
}
