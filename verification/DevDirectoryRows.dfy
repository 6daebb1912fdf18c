/** Which rows the directory holds after any run, told from the events alone. */
module DevDirectoryRows {
  import opened DevDirectory
  import opened DevDirectoryRuns

  /** The event takes away a module's row, or the slug the row claims. */
  predicate Unlists(e: Event, id: string, slug: string) {
    || e == Withdraw(id)
    || (e.Publish? && e.slug != "" && (e.id == id || e.slug == slug))
  }

  /** At step n the module published under a slug, and nothing has unlisted it since. */
  ghost predicate Lists(es: seq<Event>, n: nat, id: string) {
    && n < |es| && es[n].Publish? && es[n].id == id && es[n].slug != ""
    && forall m :: n < m < |es| ==> !Unlists(es[m], id, es[n].slug)
  }

  lemma {:induction false} ListsStep(es: seq<Event>, n: nat, id: string)
    requires es != [] && n < |es| - 1
    ensures Lists(es, n, id) <==> Lists(es[..|es| - 1], n, id) && !Unlists(es[|es| - 1], id, es[n].slug)
  {
    var front := es[..|es| - 1];
    assert front[n] == es[n];
    assert forall m :: n < m < |front| ==> front[m] == es[m];
  }

  /** A row after an event: unlisted, published just now, or as before. */
  lemma {:induction false} RowStepExactly(table: Table, now: real, e: Event, id: string)
    ensures var t := Rewrite(table, now, e);
            if e.Publish? && e.slug != "" && e.id == id then id in t && t[id] == Row(e.slug, e.exposes, now)
            else id in t <==> id in table && !Unlists(e, id, table[id].slug)
    ensures var t := Rewrite(table, now, e);
            id in t && !(e.Publish? && e.slug != "" && e.id == id) ==> t[id] == table[id]
  {
  }

  /** A module has a row exactly when some publication of it still stands, and the row is what that publication said, then. */
  lemma {:induction false} ListedExactly(es: seq<Event>, id: string)
    ensures id in Run(es).table <==> exists n: nat :: Lists(es, n, id)
    ensures forall n: nat :: Lists(es, n, id) ==>
              id in Run(es).table && Run(es).table[id] == Row(es[n].slug, es[n].exposes, Time(es[..n]))
  {
    if es != [] {
      var front, e := es[..|es| - 1], es[|es| - 1];
      var s := Run(front);
      ListedExactly(front, id);
      TableIsRewritten(s, e);
      ClockIsTime(front);
      RowStepExactly(s.table, s.clock, e, id);
      forall n: nat | Lists(es, n, id)
        ensures id in Run(es).table && Run(es).table[id] == Row(es[n].slug, es[n].exposes, Time(es[..n]))
      {
        StandingRow(es, n, id);
      }
      if id in Run(es).table {
        RowStands(es, id);
      }
    }
  }

  lemma {:induction false} StandingRow(es: seq<Event>, n: nat, id: string)
    requires es != [] && Lists(es, n, id)
    requires var front := es[..|es| - 1];
             forall k: nat :: Lists(front, k, id) ==>
               id in Run(front).table && Run(front).table[id] == Row(front[k].slug, front[k].exposes, Time(front[..k]))
    ensures id in Run(es).table && Run(es).table[id] == Row(es[n].slug, es[n].exposes, Time(es[..n]))
  {
    var front, e := es[..|es| - 1], es[|es| - 1];
    TableIsRewritten(Run(front), e);
    ClockIsTime(front);
    RowStepExactly(Run(front).table, Run(front).clock, e, id);
    if n < |front| {
      ListsStep(es, n, id);
      assert front[..n] == es[..n];
    }
  }

  lemma {:induction false} RowStands(es: seq<Event>, id: string)
    requires es != [] && id in Run(es).table
    requires var front := es[..|es| - 1];
             && (id in Run(front).table <==> exists k: nat :: Lists(front, k, id))
             && (forall k: nat :: Lists(front, k, id) ==>
                   id in Run(front).table && Run(front).table[id] == Row(front[k].slug, front[k].exposes, Time(front[..k])))
    ensures exists n: nat :: Lists(es, n, id)
  {
    var front, e := es[..|es| - 1], es[|es| - 1];
    TableIsRewritten(Run(front), e);
    RowStepExactly(Run(front).table, Run(front).clock, e, id);
    if e.Publish? && e.slug != "" && e.id == id {
      assert Lists(es, |front|, id);
    } else {
      var k: nat :| Lists(front, k, id);
      ListsStep(es, k, id);
    }
  }
}
