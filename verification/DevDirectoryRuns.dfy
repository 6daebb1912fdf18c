/**
 Every run of a dev session: modules publish, heartbeat, withdraw or die,
 consumers look up and remember, and one clock ticks. A lookup is a query
 and, some time later, a store.
 */
module DevDirectoryRuns {
  import opened Wrappers
  import opened SqlPlaceholder
  import opened SqlGuard
  import opened DevDirectory

  type Duration = d: real | d >= 0.0

  /** A lookup whose answer has not been stored yet. */
  datatype Flight = Flight(consumer: nat, ref: string, answer: Option<Entry>, asked: real)

  datatype Session = Session(clock: real, table: Table, caches: map<nat, Cache>, flights: map<nat, Flight>)

  datatype Event =
    | Tick(d: Duration)
    | Publish(id: string, slug: string, exposes: seq<string>)
    | Withdraw(id: string)
    | Ask(flight: nat, consumer: nat, ref: string, answer: Lookup)
    | Store(flight: nat)

  function CacheOf(s: Session, consumer: nat): Cache {
    if consumer in s.caches then s.caches[consumer] else map[]
  }

  /** An answer the directory could not have given, or a store with no lookup behind it, does not happen. */
  ghost predicate Enabled(s: Session, e: Event) {
    match e
    case Ask(f, _, ref, answer) => f !in s.flights && Resolves(s.table, ref, s.clock, answer)
    case Store(f) => f in s.flights
    case _ => true
  }

  /** What an event does to the rows at a time. */
  function Rewrite(table: Table, now: real, e: Event): Table {
    match e
    case Publish(id, slug, exposes) => Published(table, id, slug, exposes, now)
    case Withdraw(id) => Withdrawn(table, id)
    case _ => table
  }

  function Apply(s: Session, e: Event): Session {
    match e
    case Tick(d) => s.(clock := s.clock + d)
    case Publish(_, _, _) => s.(table := Rewrite(s.table, s.clock, e))
    case Withdraw(_) => s.(table := Rewrite(s.table, s.clock, e))
    case Ask(f, consumer, ref, answer) =>
      if answer.Ok? then s.(flights := s.flights[f := Flight(consumer, ref, answer.value, s.clock)]) else s
    case Store(f) =>
      if f !in s.flights then s
      else
        var g := s.flights[f];
        s.(caches := s.caches[g.consumer := Stored(CacheOf(s, g.consumer), g.ref, g.answer, s.clock)],
           flights := s.flights - {f})
  }

  function Initial(): Session {
    Session(0.0, map[], map[], map[])
  }

  function Run(es: seq<Event>): Session {
    if es == [] then Initial() else Apply(Run(es[..|es| - 1]), es[|es| - 1])
  }

  /** The time the ticks of a run add up to. */
  function Time(es: seq<Event>): Duration {
    if es == [] then 0.0
    else Time(es[..|es| - 1]) + (match es[|es| - 1] case Tick(d) => d case _ => 0.0)
  }

  lemma {:induction false} ClockIsTime(es: seq<Event>)
    ensures Run(es).clock == Time(es)
  {
    if es != [] {
      ClockIsTime(es[..|es| - 1]);
    }
  }

  ghost predicate Possible(es: seq<Event>) {
    es == [] || (Possible(es[..|es| - 1]) && Enabled(Run(es[..|es| - 1]), es[|es| - 1]))
  }

  /** Every answer is stored within latency of being asked for. */
  ghost predicate Prompt(es: seq<Event>, latency: real) {
    es == []
    || (Prompt(es[..|es| - 1], latency)
        && (es[|es| - 1].Store? ==>
              var s, f := Run(es[..|es| - 1]), es[|es| - 1].flight;
              f in s.flights ==> s.clock - s.flights[f].asked <= latency))
  }

  // ---------------------------------------------------------------- where entries come from

  /** At step n the entry's module published exactly this entry. */
  ghost predicate PublishedBy(es: seq<Event>, n: nat, e: Entry, at: real) {
    n < |es| && es[n] == Publish(e.moduleId, e.slug, e.exposes) && e.slug != "" && Time(es[..n]) == at
  }

  ghost predicate PublishedAt(es: seq<Event>, e: Entry, at: real) {
    exists n: nat :: PublishedBy(es, n, e, at)
  }

  /** The entry was published later than since. */
  ghost predicate PublishedSince(es: seq<Event>, e: Entry, since: real) {
    exists at: real :: since < at && PublishedAt(es, e, at)
  }

  lemma {:induction false} PublicationStays(es: seq<Event>, next: Event, e: Entry, at: real)
    requires PublishedAt(es, e, at)
    ensures PublishedAt(es + [next], e, at)
  {
    var n: nat :| PublishedBy(es, n, e, at);
    assert (es + [next])[..n] == es[..n];
    assert PublishedBy(es + [next], n, e, at);
  }

  lemma {:induction false} PublishedStays(es: seq<Event>, next: Event, e: Entry, since: real, earlier: real)
    requires PublishedSince(es, e, since) && earlier <= since
    ensures PublishedSince(es + [next], e, earlier)
  {
    var at: real :| since < at && PublishedAt(es, e, at);
    PublicationStays(es, next, e, at);
  }

  /** Every row was stamped when its module published it. */
  ghost predicate RowsPublished(es: seq<Event>, table: Table) {
    forall id :: id in table ==> PublishedAt(es, EntryOf(table, id), table[id].updatedAt)
  }

  lemma {:induction false} RowsArePublished(es: seq<Event>)
    ensures RowsPublished(es, Run(es).table)
  {
    if es != [] {
      var front, e := es[..|es| - 1], es[|es| - 1];
      RowsArePublished(front);
      ClockIsTime(front);
      RowsStep(front, Run(front).table, e);
      assert es == front + [e];
      TableIsRewritten(Run(front), e);
    }
  }

  lemma {:induction false} TableIsRewritten(s: Session, e: Event)
    ensures Apply(s, e).table == Rewrite(s.table, s.clock, e)
  {
  }

  /** A row the event left alone, or one it published just now. */
  predicate CameFrom(table: Table, now: real, e: Event, id: string, row: Row) {
    || (id in table && table[id] == row)
    || (e == Publish(id, row.slug, row.exposes) && row.slug != "" && row.updatedAt == now)
  }

  lemma {:induction false} RowSource(table: Table, now: real, e: Event, id: string)
    requires id in Rewrite(table, now, e)
    ensures CameFrom(table, now, e, id, Rewrite(table, now, e)[id])
  {
  }

  lemma {:induction false} RowStep(front: seq<Event>, table: Table, e: Event, id: string, row: Row)
    requires RowsPublished(front, table) && CameFrom(table, Time(front), e, id, row)
    ensures PublishedAt(front + [e], Entry(id, row.slug, row.exposes), row.updatedAt)
  {
    if id in table && table[id] == row {
      PublicationStays(front, e, EntryOf(table, id), row.updatedAt);
    } else {
      PublishedNow(front, e, Entry(id, row.slug, row.exposes));
    }
  }

  lemma {:induction false} RowsStep(front: seq<Event>, table: Table, e: Event)
    requires RowsPublished(front, table)
    ensures RowsPublished(front + [e], Rewrite(table, Time(front), e))
  {
    var t := Rewrite(table, Time(front), e);
    forall id | id in t
      ensures CameFrom(table, Time(front), e, id, t[id])
    {
      RowSource(table, Time(front), e, id);
    }
    AllRowsStep(front, table, e, t);
  }

  lemma {:induction false} AllRowsStep(front: seq<Event>, table: Table, e: Event, t: Table)
    requires RowsPublished(front, table)
    requires forall id :: id in t ==> CameFrom(table, Time(front), e, id, t[id])
    ensures RowsPublished(front + [e], t)
  {
    forall id | id in t
      ensures PublishedAt(front + [e], EntryOf(t, id), t[id].updatedAt)
    {
      RowStep(front, table, e, id, t[id]);
    }
  }

  lemma {:induction false} PublishedNow(front: seq<Event>, e: Event, entry: Entry)
    requires e == Publish(entry.moduleId, entry.slug, entry.exposes) && entry.slug != ""
    ensures PublishedAt(front + [e], entry, Time(front))
  {
    assert (front + [e])[..|front|] == front;
    assert PublishedBy(front + [e], |front|, entry, Time(front));
  }

  // ---------------------------------------------------------------- staleness

  /** An answer names a module whose row was stamped since then, and which answers to the ref. */
  ghost predicate Sound(es: seq<Event>, ref: string, answer: Option<Entry>, since: real) {
    answer.Some? ==>
      && PublishedSince(es, answer.value, since)
      && (answer.value.slug in LookupKeys(ref) || answer.value.moduleId in LookupKeys(ref))
  }

  ghost predicate FlightsSound(es: seq<Event>) {
    forall f :: f in Run(es).flights ==>
      var g := Run(es).flights[f];
      Sound(es, g.ref, g.answer, g.asked - TTL)
  }

  ghost predicate CachesSound(es: seq<Event>, latency: real) {
    forall c, ref :: c in Run(es).caches && ref in Run(es).caches[c] ==>
      var m := Run(es).caches[c][ref];
      Sound(es, ref, m.entry, m.at - TTL - latency)
  }

  lemma {:induction false} SoundStays(es: seq<Event>, next: Event, ref: string, answer: Option<Entry>, since: real, earlier: real)
    requires Sound(es, ref, answer, since) && earlier <= since
    ensures Sound(es + [next], ref, answer, earlier)
  {
    if answer.Some? {
      PublishedStays(es, next, answer.value, since, earlier);
    }
  }

  lemma {:induction false} AnswersAreSound(es: seq<Event>, e: Event)
    requires e.Ask? && e.answer.Ok? && Enabled(Run(es), e)
    ensures Sound(es, e.ref, e.answer.value, Run(es).clock - TTL)
  {
    RowsArePublished(es);
    if e.answer.value.Some? {
      var entry := e.answer.value.value;
      var s := Run(es);
      assert Answers(s.table, LookupKeys(e.ref), s.clock, entry.moduleId);
      assert PublishedAt(es, entry, s.table[entry.moduleId].updatedAt);
    }
  }

  lemma {:induction false} PublishedEarlier(es: seq<Event>, e: Entry, since: real, earlier: real)
    requires PublishedSince(es, e, since) && earlier <= since
    ensures PublishedSince(es, e, earlier)
  {
    var at: real :| since < at && PublishedAt(es, e, at);
  }

  lemma {:induction false} RunIsSound(es: seq<Event>, latency: real)
    requires Possible(es) && Prompt(es, latency)
    ensures FlightsSound(es) && CachesSound(es, latency)
  {
    if es != [] {
      var front, e := es[..|es| - 1], es[|es| - 1];
      assert es == front + [e];
      RunIsSound(front, latency);
      FlightStep(front, e);
      CacheStep(front, e, latency);
    }
  }

  lemma {:induction false} FlightStep(front: seq<Event>, e: Event)
    requires FlightsSound(front) && Enabled(Run(front), e)
    ensures FlightsSound(front + [e])
  {
    var es := front + [e];
    assert es[..|es| - 1] == front;
    var s, t := Run(front), Run(es);
    forall f | f in t.flights
      ensures Sound(es, t.flights[f].ref, t.flights[f].answer, t.flights[f].asked - TTL)
    {
      var g := t.flights[f];
      if !(f in s.flights && s.flights[f] == g) {
        AnswersAreSound(front, e);
      }
      SoundStays(front, e, g.ref, g.answer, g.asked - TTL, g.asked - TTL);
    }
  }

  lemma {:induction false} CacheSource(s: Session, e: Event, c: nat, ref: string)
    requires c in Apply(s, e).caches && ref in Apply(s, e).caches[c]
    ensures var m := Apply(s, e).caches[c][ref];
            || (c in s.caches && ref in s.caches[c] && s.caches[c][ref] == m)
            || (e.Store? && e.flight in s.flights
                && s.flights[e.flight].ref == ref && m == Cached(s.flights[e.flight].answer, s.clock))
  {
  }

  lemma {:induction false} LastIsPrompt(front: seq<Event>, e: Event, latency: real)
    requires Prompt(front + [e], latency)
    ensures e.Store? && e.flight in Run(front).flights ==> Run(front).clock - Run(front).flights[e.flight].asked <= latency
  {
    assert (front + [e])[..|front|] == front;
  }

  lemma {:induction false} CachedStep(front: seq<Event>, s: Session, e: Event, latency: real, c: nat, ref: string, m: Cached)
    requires s == Run(front) && FlightsSound(front) && CachesSound(front, latency)
    requires e.Store? && e.flight in s.flights ==> s.clock - s.flights[e.flight].asked <= latency
    requires c in Apply(s, e).caches && ref in Apply(s, e).caches[c] && Apply(s, e).caches[c][ref] == m
    ensures Sound(front + [e], ref, m.entry, m.at - TTL - latency)
  {
    CacheSource(s, e, c, ref);
    if c in s.caches && ref in s.caches[c] && s.caches[c][ref] == m {
      SoundStays(front, e, ref, m.entry, m.at - TTL - latency, m.at - TTL - latency);
    } else {
      SoundStays(front, e, ref, m.entry, s.flights[e.flight].asked - TTL, m.at - TTL - latency);
    }
  }

  lemma {:induction false} CacheStep(front: seq<Event>, e: Event, latency: real)
    requires FlightsSound(front) && CachesSound(front, latency) && Prompt(front + [e], latency)
    ensures CachesSound(front + [e], latency)
  {
    var es := front + [e];
    assert es[..|es| - 1] == front;
    LastIsPrompt(front, e, latency);
    var t := Run(es);
    forall c, ref | c in t.caches && ref in t.caches[c]
      ensures Sound(es, ref, t.caches[c][ref].entry, t.caches[c][ref].at - TTL - latency)
    {
      CachedStep(front, Run(front), e, latency, c, ref, t.caches[c][ref]);
    }
  }

  /** The consumer's memo would answer the ref, with a module. */
  ghost predicate Hit(s: Session, consumer: nat, ref: string) {
    var c := CacheOf(s, consumer);
    ref in c && Fresh(c[ref], s.clock) && c[ref].entry.Some?
  }

  /** A hit from the memo names a module whose row was stamped less than TTL + cacheTTL + latency ago. */
  lemma {:induction false} HitIsRecent(es: seq<Event>, latency: real, consumer: nat, ref: string)
    requires Possible(es) && Prompt(es, latency) && Hit(Run(es), consumer, ref)
    ensures PublishedSince(es, CacheOf(Run(es), consumer)[ref].entry.value, Run(es).clock - (TTL + CACHE_TTL + latency))
  {
    RunIsSound(es, latency);
    var c := CacheOf(Run(es), consumer)[ref];
    PublishedEarlier(es, c.entry.value, c.at - TTL - latency, Run(es).clock - (TTL + CACHE_TTL + latency));
  }

  /** An answer straight from the directory names a module whose row was stamped less than TTL + latency ago. */
  lemma {:induction false} AnswerIsRecent(es: seq<Event>, latency: real, f: nat)
    requires Possible(es) && Prompt(es + [Store(f)], latency) && Prompt(es, latency)
    requires f in Run(es).flights && Run(es).flights[f].answer.Some?
    ensures PublishedSince(es, Run(es).flights[f].answer.value, Run(es).clock - TTL - latency)
  {
    RunIsSound(es, latency);
    var g := Run(es).flights[f];
    assert (es + [Store(f)])[..|es|] == es;
    PublishedEarlier(es, g.answer.value, g.asked - TTL, Run(es).clock - TTL - latency);
  }

  // ---------------------------------------------------------------- slugs and ambiguity

  /** Whatever is published, withdrawn or lost, a slug has at most one row. */
  lemma {:induction false} OneRowPerSlugAlways(es: seq<Event>)
    ensures OneRowPerSlug(Run(es).table)
  {
    if es != [] {
      OneRowPerSlugAlways(es[..|es| - 1]);
      var s, e := Run(es[..|es| - 1]), es[|es| - 1];
      if e.Publish? {
        PublishKeepsOneRow(s.table, e.id, e.slug, e.exposes, s.clock);
      }
    }
  }

  /** What registration admits: slugs of 1 to 16 characters, IDs without hyphens. */
  predicate Registrable(e: Event) {
    e.Publish? ==> |e.slug| <= 16 && '-' !in e.id
  }

  ghost predicate Registered(table: Table) {
    forall id :: id in table ==> |table[id].slug| <= 16 && '-' !in id
  }

  lemma {:induction false} RowsAreRegistered(es: seq<Event>)
    requires forall n :: 0 <= n < |es| ==> Registrable(es[n])
    ensures Registered(Run(es).table)
  {
    if es != [] {
      var front, e := es[..|es| - 1], es[|es| - 1];
      RowsAreRegistered(front);
      forall id | id in Run(es).table
        ensures |Run(es).table[id].slug| <= 16 && '-' !in id
      {
        RowSource(Run(front).table, Run(front).clock, e, id);
      }
    }
  }

  /** A live row answers to the ref by its slug, and another by its ID. */
  ghost predicate Collides(table: Table, ref: string, now: real) {
    exists a :: a in table && a != ref && table[a].slug == ref && Live(table[a], now)
                && ref in table && Live(table[ref], now)
  }

  /** With one row per slug, a ref is ambiguous exactly when it is one module's slug and another's ID. */
  lemma {:induction false} AmbiguousExactly(table: Table, ref: string, now: real, r: Lookup)
    requires OneRowPerSlug(table) && Registered(table) && Resolves(table, ref, now, r)
    ensures r.Err? <==> Collides(table, ref, now)
    ensures r.Err? ==> r.error.Ambiguous?
  {
    var keys := LookupKeys(ref);
    if r.Err? {
      var a, b :| a != b && Answers(table, keys, now, a) && Answers(table, keys, now, b);
      AnswersByOneKey(table, ref, now, a);
      AnswersByOneKey(table, ref, now, b);
    }
    if Collides(table, ref, now) {
      var a :| a in table && a != ref && table[a].slug == ref && Live(table[a], now);
      assert Answers(table, keys, now, a) && Answers(table, keys, now, ref);
    }
  }

  lemma {:induction false} AnswersByOneKey(table: Table, ref: string, now: real, id: string)
    requires Registered(table) && Answers(table, LookupKeys(ref), now, id)
    ensures if IsDashed(Lower(ref)) then id == LookupKeys(ref)[1] else table[id].slug == ref || id == ref
  {
    if IsDashed(Lower(ref)) {
      assert Lower(ref)[8] == '-' && ref[8] == '-';
      UndashDashed(Lower(ref));
    }
  }

  /** Slugs are at most 16 characters and minted IDs 33, so among minted modules no lookup is refused. */
  lemma {:induction false} MintedNeverAmbiguous(es: seq<Event>, ref: string, r: Lookup)
    requires forall n :: 0 <= n < |es| ==> Registrable(es[n]) && (es[n].Publish? ==> Minted(es[n].id))
    requires Resolves(Run(es).table, ref, Run(es).clock, r)
    ensures r.Ok?
  {
    OneRowPerSlugAlways(es);
    RowsAreRegistered(es);
    RowsAreMinted(es);
    AmbiguousExactly(Run(es).table, ref, Run(es).clock, r);
  }

  lemma {:induction false} RowsAreMinted(es: seq<Event>)
    requires forall n :: 0 <= n < |es| ==> es[n].Publish? ==> Minted(es[n].id)
    ensures forall id :: id in Run(es).table ==> Minted(id)
  {
    if es != [] {
      var front, e := es[..|es| - 1], es[|es| - 1];
      RowsAreMinted(front);
      forall id | id in Run(es).table
        ensures Minted(id)
      {
        RowSource(Run(front).table, Run(front).clock, e, id);
      }
    }
  }

  // ---------------------------------------------------------------- a live module is found

  /** The event neither withdraws the module nor lets another claim its slug nor changes what it publishes. */
  predicate LeavesAlone(e: Event, id: string, slug: string, exposes: seq<string>) {
    && (e.Withdraw? ==> e.id != id)
    && (e.Publish? ==> if e.id == id then e.slug == slug && e.exposes == exposes else e.slug != slug)
  }

  lemma {:induction false} ListedWhileLeased(es: seq<Event>, more: seq<Event>, id: string, slug: string, exposes: seq<string>)
    requires slug != ""
    requires forall n :: 0 <= n < |more| ==> LeavesAlone(more[n], id, slug, exposes)
    ensures var t := Run(es + [Publish(id, slug, exposes)] + more);
            id in t.table && EntryOf(t.table, id) == Entry(id, slug, exposes) && Run(es).clock <= t.table[id].updatedAt <= t.clock
  {
    var start := es + [Publish(id, slug, exposes)];
    if more == [] {
      assert start + more == start && start[..|start| - 1] == es;
    } else {
      var front := more[..|more| - 1];
      ListedWhileLeased(es, front, id, slug, exposes);
      var all := start + more;
      assert all[..|all| - 1] == start + front && all[|all| - 1] == more[|more| - 1];
    }
  }

  /** Within the lease, a lookup by slug never says that the module is not there. */
  lemma {:induction false} LeasedModuleIsFound(es: seq<Event>, more: seq<Event>, id: string, slug: string, exposes: seq<string>, r: Lookup)
    requires slug != ""
    requires forall n :: 0 <= n < |more| ==> LeavesAlone(more[n], id, slug, exposes)
    requires var t := Run(es + [Publish(id, slug, exposes)] + more);
             t.clock - Run(es).clock < 90.0 && Resolves(t.table, slug, t.clock, r)
    ensures r.Err? || r == Ok(Some(Entry(id, slug, exposes)))
  {
    ListedWhileLeased(es, more, id, slug, exposes);
    var t := Run(es + [Publish(id, slug, exposes)] + more);
    ListedIsFound(t.table, slug, t.clock, id, r);
  }

  lemma {:induction false} ListedIsFound(table: Table, slug: string, now: real, id: string, r: Lookup)
    requires id in table && table[id].slug == slug && Live(table[id], now) && Resolves(table, slug, now, r)
    ensures r.Err? || r == Ok(Some(EntryOf(table, id)))
  {
    assert Answers(table, LookupKeys(slug), now, id);
  }

  // ---------------------------------------------------------------- no smaller bound holds

  /** In every run whose lookups take at most latency, a hit names a module stamped less than bound ago. */
  ghost predicate BoundHolds(latency: real, bound: real) {
    forall es, consumer: nat, ref :: Possible(es) && Prompt(es, latency) && Hit(Run(es), consumer, ref) ==>
      PublishedSince(es, CacheOf(Run(es), consumer)[ref].entry.value, Run(es).clock - bound)
  }

  const LISTED := Entry("m", "s", [])

  function SlowFront(early: Duration): seq<Event> {
    [Publish("m", "s", []), Tick(early), Ask(0, 0, "s", Ok(Some(LISTED)))]
  }

  /** One lookup, asked early in the lease, stored latency later, and hit late. */
  function SlowRun(early: Duration, latency: Duration, late: Duration): seq<Event> {
    SlowFront(early) + [Tick(latency), Store(0), Tick(late)]
  }

  function Listed(): Table {
    map["m" := Row("s", [], 0.0)]
  }

  lemma {:induction false} SlowPublished(early: Duration)
    ensures var es := SlowFront(early);
            && Run(es[..2]) == Session(early, Listed(), map[], map[])
            && Possible(es[..2]) && forall latency: real :: Prompt(es[..2], latency)
  {
    var es := SlowFront(early);
    assert es[..1][..0] == [] && es[..2][..1] == es[..1];
    assert Run(es[..1]) == Session(0.0, Listed(), map[], map[]);
    assert Possible(es[..1]);
    forall latency: real
      ensures Prompt(es[..2], latency)
    {
      assert Prompt(es[..1], latency);
    }
  }

  lemma {:induction false} SlowAsked(early: Duration)
    requires early < TTL
    ensures var es := SlowFront(early);
            && Run(es) == Session(early, Listed(), map[], map[0 := Flight(0, "s", Some(LISTED), early)])
            && Possible(es) && forall latency: real :: Prompt(es, latency)
  {
    var es := SlowFront(early);
    SlowPublished(early);
    assert es[..|es| - 1] == es[..2];
    assert Answers(Listed(), LookupKeys("s"), early, "m");
  }

  lemma {:induction false} SlowStored(early: Duration, latency: Duration, late: Duration)
    requires early < TTL
    ensures var es := SlowRun(early, latency, late); var s := Run(es);
            && Possible(es) && Prompt(es, latency)
            && s.clock == early + latency + late
            && s.caches == map[0 := map["s" := Cached(Some(LISTED), early + latency)]]
  {
    SlowAsked(early);
    var es := SlowRun(early, latency, late);
    assert es[..3] == SlowFront(early) && es[..4][..3] == es[..3] && es[..5][..4] == es[..4];
    assert Run(es[..4]).clock == early + latency;
    assert Run(es[..5]).clock == early + latency;
    assert Possible(es[..4]) && Possible(es[..5]);
    assert Prompt(es[..3], latency) && Prompt(es[..4], latency) && Prompt(es[..5], latency);
    assert Stored(map[], "s", Some(LISTED), early + latency) == map["s" := Cached(Some(LISTED), early + latency)];
  }

  /** The only publication is at time zero. */
  lemma {:induction false} SlowHit(early: Duration, latency: Duration, late: Duration, bound: real)
    requires early < TTL && late < CACHE_TTL && early + latency + late >= bound
    ensures !BoundHolds(latency, bound)
  {
    SlowStored(early, latency, late);
    var es := SlowRun(early, latency, late);
    forall at: real | PublishedAt(es, LISTED, at)
      ensures at == 0.0
    {
      var n: nat :| PublishedBy(es, n, LISTED, at);
      assert n == 0 && es[..0] == [];
    }
    assert Hit(Run(es), 0, "s");
  }

  /**
   The least bound on the age of a hit: the lease, the memo's age limit, and
   the longest a lookup takes between its query and its store.
   */
  lemma {:induction false} BoundExactly(latency: real, bound: real)
    requires latency >= 0.0
    ensures BoundHolds(latency, bound) <==> bound >= TTL + CACHE_TTL + latency
  {
    if bound >= TTL + CACHE_TTL + latency {
      forall es, consumer: nat, ref | Possible(es) && Prompt(es, latency) && Hit(Run(es), consumer, ref)
        ensures PublishedSince(es, CacheOf(Run(es), consumer)[ref].entry.value, Run(es).clock - bound)
      {
        HitIsRecent(es, latency, consumer, ref);
        PublishedEarlier(es, CacheOf(Run(es), consumer)[ref].entry.value, Run(es).clock - (TTL + CACHE_TTL + latency), Run(es).clock - bound);
      }
    } else {
      var gap := TTL + CACHE_TTL + latency - bound;
      var slack: Duration := if gap < 2.0 then gap / 2.0 else 1.0;
      SlowHit(TTL - slack, latency, CACHE_TTL - slack, bound);
    }
  }

  /** The documented bound, 90 and 5 seconds, holds exactly when lookups take no time. */
  lemma {:induction false} DocumentedBoundExactly(latency: real)
    requires latency >= 0.0
    ensures BoundHolds(latency, 95.0) <==> latency == 0.0
  {
    BoundExactly(latency, 95.0);
  }
}
