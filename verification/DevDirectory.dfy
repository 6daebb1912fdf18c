/** The dev directory's rows and lookup, the refs it answers to, and a consumer's memo of lookups. */
module DevDirectory {
  import opened Wrappers
  import opened SqlPlaceholder
  import opened SqlGuard

  /** Times are seconds. */
  const TTL := 90.0
  const CACHE_TTL := 5.0

  datatype Row = Row(slug: string, exposes: seq<string>, updatedAt: real)

  type Table = map<string, Row>

  datatype Entry = Entry(moduleId: string, slug: string, exposes: seq<string>)

  // ---------------------------------------------------------------- refs

  /** The dashed UUID form, lower case. */
  predicate IsDashed(s: string) {
    && |s| == 36
    && s[8] == '-' && s[13] == '-' && s[18] == '-' && s[23] == '-'
    && forall i :: 0 <= i < 36 && i != 8 && i != 13 && i != 18 && i != 23 ==> IsLowerHex(s[i])
  }

  /** strings.ReplaceAll(s, "-", "") */
  function Undash(s: string): string {
    if s == "" then "" else (if s[0] == '-' then "" else [s[0]]) + Undash(s[1..])
  }

  function LookupKeys(ref: string): (keys: seq<string>)
    ensures ref in keys
  {
    if IsDashed(Lower(ref)) then [ref, "m" + Undash(Lower(ref))] else [ref]
  }

  /** The dashed UUID a minted ID stands for. */
  function Dashed(id: string): string
    requires |id| == 33
  {
    id[1..9] + "-" + id[9..13] + "-" + id[13..17] + "-" + id[17..21] + "-" + id[21..]
  }

  lemma {:induction false} UndashConcat(a: string, b: string)
    ensures Undash(a + b) == Undash(a) + Undash(b)
  {
    if a == "" {
      assert a + b == b;
    } else {
      assert (a + b)[1..] == a[1..] + b;
      UndashConcat(a[1..], b);
    }
  }

  lemma {:induction false} UndashHex(s: string)
    requires forall i :: 0 <= i < |s| ==> IsLowerHex(s[i])
    ensures Undash(s) == s
  {
    if s != "" {
      UndashHex(s[1..]);
    }
  }

  lemma UndashJoin(a: string, b: string)
    requires forall i :: 0 <= i < |a| ==> IsLowerHex(a[i])
    ensures Undash(a + "-" + b) == a + Undash(b)
  {
    assert a + "-" + b == a + ("-" + b);
    UndashConcat(a, "-" + b);
    UndashHex(a);
    assert ("-" + b)[1..] == b;
  }

  lemma {:induction false} UndashDashed(s: string)
    requires IsDashed(s)
    ensures Undash(s) == s[..8] + (s[9..13] + (s[14..18] + (s[19..23] + s[24..])))
  {
    assert s == s[..8] + "-" + s[9..];
    UndashJoin(s[..8], s[9..]);
    assert s[9..] == s[9..13] + "-" + s[14..];
    UndashJoin(s[9..13], s[14..]);
    assert s[14..] == s[14..18] + "-" + s[19..];
    UndashJoin(s[14..18], s[19..]);
    assert s[19..] == s[19..23] + "-" + s[24..];
    UndashJoin(s[19..23], s[24..]);
    UndashHex(s[24..]);
  }

  /** A dashed ref resolves to the minted ID exactly when it spells that ID's UUID, in any letter case. */
  lemma DashedRefIsMinted(ref: string, id: string)
    requires Minted(id) && ref != id
    ensures id in LookupKeys(ref) <==> Lower(ref) == Dashed(id)
  {
    if IsDashed(Lower(ref)) {
      UndashDashed(Lower(ref));
      DashedParts(Lower(ref), id);
    } else {
      DashedIsDashed(id);
    }
  }

  lemma DashedIsDashed(id: string)
    requires Minted(id)
    ensures IsDashed(Dashed(id))
  {
  }

  lemma DashedParts(s: string, id: string)
    requires IsDashed(s) && Minted(id)
    ensures s == Dashed(id) <==> id == "m" + (s[..8] + (s[9..13] + (s[14..18] + (s[19..23] + s[24..]))))
  {
    var d := Dashed(id);
    assert d[..8] == id[1..9] && d[9..13] == id[9..13] && d[14..18] == id[13..17] && d[19..23] == id[17..21] && d[24..] == id[21..];
    if id == "m" + (s[..8] + (s[9..13] + (s[14..18] + (s[19..23] + s[24..])))) {
      assert s == s[..8] + "-" + s[9..13] + "-" + s[14..18] + "-" + s[19..23] + "-" + s[24..];
      assert id[1..9] == s[..8] && id[9..13] == s[9..13] && id[13..17] == s[14..18] && id[17..21] == s[19..23] && id[21..] == s[24..];
    }
  }

  // ---------------------------------------------------------------- rows

  /** The upsert and the slug reclamation of one batch; a module with no slug publishes nothing. */
  function Published(table: Table, id: string, slug: string, exposes: seq<string>, now: real): Table {
    if slug == "" then table
    else
      var upserted := table[id := Row(slug, exposes, now)];
      map m | m in upserted && (upserted[m].slug != slug || m == id) :: upserted[m]
  }

  function Withdrawn(table: Table, id: string): Table {
    table - {id}
  }

  ghost predicate OneRowPerSlug(table: Table) {
    forall a, b :: a in table && b in table && table[a].slug == table[b].slug ==> a == b
  }

  predicate Live(row: Row, now: real) {
    row.updatedAt > now - TTL
  }

  predicate Answers(table: Table, keys: seq<string>, now: real, id: string) {
    id in table && (table[id].slug in keys || id in keys) && Live(table[id], now)
  }

  function EntryOf(table: Table, id: string): Entry
    requires id in table
  {
    Entry(id, table[id].slug, table[id].exposes)
  }

  datatype LookupError = Ambiguous(matches: nat) | Unreachable

  type Lookup = Result<Option<Entry>, LookupError>

  /** What a lookup may return: nothing, the only live match, or a refusal to choose. */
  ghost predicate Resolves(table: Table, ref: string, now: real, r: Lookup) {
    var keys := LookupKeys(ref);
    match r
    case Ok(None) => forall id :: !Answers(table, keys, now, id)
    case Ok(Some(e)) =>
      && e.moduleId in table && e == EntryOf(table, e.moduleId)
      && forall id :: Answers(table, keys, now, id) <==> id == e.moduleId
    case Err(Ambiguous(_)) => exists a, b :: a != b && Answers(table, keys, now, a) && Answers(table, keys, now, b)
    case Err(Unreachable) => false
  }

  /** The rows come in no particular order. */
  method ReadDevDirectory(table: Table, ref: string, now: real) returns (r: Lookup)
    ensures Resolves(table, ref, now, r)
  {
    var keys := LookupKeys(ref);
    var found: seq<Entry> := [];
    var rows := table.Keys;
    while rows != {}
      invariant rows <= table.Keys
      invariant forall id :: Answers(table, keys, now, id) && id !in rows ==> EntryOf(table, id) in found
      invariant forall k :: 0 <= k < |found| ==>
                  && Answers(table, keys, now, found[k].moduleId) && found[k].moduleId !in rows
                  && found[k] == EntryOf(table, found[k].moduleId)
      invariant forall j, k :: 0 <= j < k < |found| ==> found[j].moduleId != found[k].moduleId
      decreases |rows|
    {
      var id :| id in rows;
      rows := rows - {id};
      if (table[id].slug in keys || id in keys) && Live(table[id], now) {
        found := found + [EntryOf(table, id)];
      }
    }
    if |found| == 0 {
      return Ok(None);
    }
    if |found| == 1 {
      return Ok(Some(found[0]));
    }
    assert found[0].moduleId != found[1].moduleId;
    r := Err(Ambiguous(|found|));
  }

  lemma PublishKeepsOneRow(table: Table, id: string, slug: string, exposes: seq<string>, now: real)
    requires OneRowPerSlug(table)
    ensures OneRowPerSlug(Published(table, id, slug, exposes, now))
    ensures slug != "" ==> forall m :: m in Published(table, id, slug, exposes, now) ==>
              (Published(table, id, slug, exposes, now)[m].slug == slug <==> m == id)
  {
  }

  // ---------------------------------------------------------------- the memo

  datatype Cached = Cached(entry: Option<Entry>, at: real)

  type Cache = map<string, Cached>

  predicate Fresh(c: Cached, now: real) {
    now - c.at < CACHE_TTL
  }

  /** Sweep, then store. */
  function Stored(cache: Cache, ref: string, entry: Option<Entry>, now: real): Cache {
    (map k | k in cache && Fresh(cache[k], now) :: cache[k])[ref := Cached(entry, now)]
  }

  class Memo {
    var cache: Cache

    constructor ()
      ensures cache == map[]
    {
      cache := map[];
    }

    /** What colocatedProducer returns without asking the directory. */
    method Recall(ref: string, now: real) returns (hit: Option<Option<Entry>>)
      ensures hit.Some? <==> ref in cache && Fresh(cache[ref], now)
      ensures hit.Some? ==> hit.value == cache[ref].entry
    {
      if ref in cache {
        var c := cache[ref];
        if now - c.at < CACHE_TTL {
          return Some(c.entry);
        }
      }
      hit := None;
    }

    method Store(ref: string, entry: Option<Entry>, now: real)
      modifies this
      ensures cache == Stored(old(cache), ref, entry, now)
    {
      ghost var before := cache;
      var keys := cache.Keys;
      while keys != {}
        invariant keys <= before.Keys
        invariant forall k :: k in cache <==> k in before && (k in keys || Fresh(before[k], now))
        invariant forall k :: k in cache ==> cache[k] == before[k]
        decreases |keys|
      {
        var k :| k in keys;
        keys := keys - {k};
        if now - cache[k].at >= CACHE_TTL {
          cache := cache - {k};
        }
      }
      assert cache == map k | k in before && Fresh(before[k], now) :: before[k];
      cache := cache[ref := Cached(entry, now)];
    }

    /** The clock is read at the check, by the query, and again for the store; a failed lookup leaves the memo alone. */
    method ColocatedProducer(table: Table, ref: string, checked: real, queried: real, stored: real, reachable: bool)
      returns (r: Lookup)
      modifies this
      ensures ref in old(cache) && Fresh(old(cache)[ref], checked) ==> r == Ok(old(cache)[ref].entry) && cache == old(cache)
      ensures !(ref in old(cache) && Fresh(old(cache)[ref], checked)) ==>
                && (reachable ==> Resolves(table, ref, queried, r))
                && (!reachable ==> r == Err(Unreachable))
                && cache == (if r.Ok? then Stored(old(cache), ref, r.value, stored) else old(cache))
    {
      var hit := Recall(ref, checked);
      if hit.Some? {
        return Ok(hit.value);
      }
      if !reachable {
        return Err(Unreachable);
      }
      r := ReadDevDirectory(table, ref, queried);
      if r.Ok? {
        Store(ref, r.value, stored);
      }
    }
  }

  /** After a store no cached entry has reached its age limit. */
  lemma StoreLeavesNothingStale(cache: Cache, ref: string, entry: Option<Entry>, now: real)
    ensures forall k :: k in Stored(cache, ref, entry, now) ==> Fresh(Stored(cache, ref, entry, now)[k], now)
  {
  }
}
