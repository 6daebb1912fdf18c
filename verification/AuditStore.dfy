/** The statements issued against the table, one method a statement. */
module AuditStore {
  import opened Wrappers
  import opened AuditOutbox

  function IdSet(ids: seq<nat>): set<nat> {
    set id | id in ids
  }

  predicate Ascending(ids: seq<nat>) {
    forall i, j :: 0 <= i < j < |ids| ==> ids[i] < ids[j]
  }

  function Ready(t: Table, locked: set<nat>, now: int): set<nat> {
    set id | id in t.rows && id !in locked && Claimable(t.rows[id], now)
  }

  function ClaimCap(limit: int): nat {
    if limit <= 0 || limit > MAX_CLAIM_LIMIT then MAX_CLAIM_LIMIT else limit
  }

  /** The candidates CTE: the first rows in (available_at, id) order, up to the limit. */
  ghost predicate IsFirst(t: Table, chosen: set<nat>, ready: set<nat>, cap: nat)
    requires forall id :: id in ready ==> id in t.rows
  {
    && chosen <= ready
    && |chosen| == (if |ready| <= cap then |ready| else cap)
    && forall i, j :: i in chosen && j in ready && j !in chosen ==> Before(t, i, j)
  }

  method Earliest(t: Table, s: set<nat>) returns (m: nat)
    requires s != {} && forall id :: id in s ==> id in t.rows
    ensures m in s && forall j :: j in s && j != m ==> Before(t, m, j)
  {
    m :| m in s;
    var rest := s - {m};
    while rest != {}
      invariant m in s && rest <= s && m !in rest
      invariant forall j :: j in s && j != m && j !in rest ==> Before(t, m, j)
      decreases rest
    {
      var j :| j in rest;
      if Before(t, j, m) {
        m := j;
      }
      rest := rest - {j};
    }
  }

  method Least(s: set<nat>) returns (m: nat)
    requires s != {}
    ensures m in s && forall j :: j in s ==> m <= j
  {
    m :| m in s;
    var rest := s - {m};
    while rest != {}
      invariant m in s && rest <= s
      invariant forall j :: j in s && j !in rest ==> m <= j
      decreases rest
    {
      var j :| j in rest;
      if j < m {
        m := j;
      }
      rest := rest - {j};
    }
  }

  method Candidates(t: Table, ready: set<nat>, cap: nat) returns (chosen: set<nat>)
    requires forall id :: id in ready ==> id in t.rows
    ensures IsFirst(t, chosen, ready, cap)
  {
    chosen := {};
    var rest := ready;
    while |chosen| < cap && rest != {}
      invariant chosen !! rest && chosen + rest == ready && |chosen| <= cap
      invariant forall i, j :: i in chosen && j in rest ==> Before(t, i, j)
      decreases rest
    {
      var m := Earliest(t, rest);
      chosen := chosen + {m};
      rest := rest - {m};
    }
    if rest == {} {
      assert chosen == ready;
    } else {
      assert ready == chosen + rest;
      assert |ready| == |chosen| + |rest|;
    }
  }

  lemma {:induction false} LeaseAllUntouched(t: Table, ids: seq<nat>, until: int, id: nat)
    requires forall i :: 0 <= i < |ids| ==> ids[i] in t.rows
    requires id in t.rows && id !in ids
    ensures LeaseAll(t, ids, until).rows[id] == t.rows[id]
    decreases |ids|
  {
    if ids != [] {
      LeaseAllUntouched(t, ids[..|ids| - 1], until, id);
    }
  }

  lemma {:induction false} LeaseAllKeepsTable(t: Table, ids: seq<nat>, until: int, now: int)
    requires TableOk(t) && Ascending(ids)
    requires forall i :: 0 <= i < |ids| ==> ids[i] in t.rows && Claimable(t.rows[ids[i]], now)
    ensures TableOk(LeaseAll(t, ids, until)) && LeaseAll(t, ids, until).nextId == t.nextId
    decreases |ids|
  {
    if ids != [] {
      var prefix, id := ids[..|ids| - 1], ids[|ids| - 1];
      LeaseAllKeepsTable(t, prefix, until, now);
      LeaseAllUntouched(t, prefix, until, id);
      LeaseKeepsTable(LeaseAll(t, prefix, until), id, until, now);
    }
  }

  /** ORDER BY id */
  method InOrder(chosen: set<nat>) returns (ids: seq<nat>)
    ensures Ascending(ids) && forall id :: id in ids <==> id in chosen
  {
    ids := [];
    var rest := chosen;
    while rest != {}
      invariant rest <= chosen && Ascending(ids)
      invariant forall id :: id in ids <==> id in chosen && id !in rest
      invariant forall i, j :: 0 <= i < |ids| && j in rest ==> ids[i] < j
      decreases rest
    {
      var id := Least(rest);
      ids := ids + [id];
      rest := rest - {id};
    }
  }

  /** The leased CTE, one row at a time. */
  method LeaseEach(t: Table, ids: seq<nat>, until: int) returns (u: Table, deliveries: seq<Delivery>)
    requires Ascending(ids) && forall i :: 0 <= i < |ids| ==> ids[i] in t.rows
    ensures u == LeaseAll(t, ids, until)
    ensures |deliveries| == |ids|
    ensures forall i :: 0 <= i < |ids| ==>
              u.rows[ids[i]].leaseToken.Some? && deliveries[i] == DeliveryOf(u, ids[i])
  {
    u, deliveries := t, [];
    for i := 0 to |ids|
      invariant u == LeaseAll(t, ids[..i], until)
      invariant |deliveries| == i
      invariant forall k :: 0 <= k < i ==>
                  u.rows[ids[k]].leaseToken.Some? && deliveries[k] == DeliveryOf(u, ids[k])
    {
      assert ids[..i + 1][..i] == ids[..i];
      u := Lease(u, ids[i], until);
      deliveries := deliveries + [DeliveryOf(u, ids[i])];
    }
    assert ids[..|ids|] == ids;
  }

  /** ids, ascending, are the first ready rows; u is t with each of them leased, and deliveries describes them. */
  ghost predicate IsClaim(t: Table, u: Table, ids: seq<nat>, deliveries: seq<Delivery>,
                          limit: int, locked: set<nat>, now: int, until: int) {
    && Ascending(ids)
    && (forall i :: 0 <= i < |ids| ==> ids[i] in t.rows)
    && IsFirst(t, IdSet(ids), Ready(t, locked, now), ClaimCap(limit))
    && u == LeaseAll(t, ids, until)
    && |deliveries| == |ids|
    && (forall i :: 0 <= i < |ids| ==> u.rows[ids[i]].leaseToken.Some? && deliveries[i] == DeliveryOf(u, ids[i]))
  }

  method ClaimFrom(t: Table, limit: int, locked: set<nat>, now: int, until: int)
    returns (u: Table, deliveries: seq<Delivery>, ids: seq<nat>)
    ensures IsClaim(t, u, ids, deliveries, limit, locked, now, until)
  {
    var ready := Ready(t, locked, now);
    var chosen := Candidates(t, ready, ClaimCap(limit));
    var order := InOrder(chosen);
    assert IdSet(order) == chosen;
    u, deliveries := LeaseEach(t, order, until);
    ids := order;
  }

  lemma {:induction false} ClaimKeepsTable(t: Table, u: Table, ids: seq<nat>, deliveries: seq<Delivery>,
                        limit: int, locked: set<nat>, now: int, until: int)
    requires TableOk(t) && IsClaim(t, u, ids, deliveries, limit, locked, now, until)
    ensures TableOk(u) && u.nextId == t.nextId
  {
    forall i | 0 <= i < |ids|
      ensures ids[i] in t.rows && Claimable(t.rows[ids[i]], now)
    {
      assert ids[i] in IdSet(ids);
    }
    LeaseAllKeepsTable(t, ids, until, now);
  }

  lemma {:induction false} LeaseAllLeases(t: Table, ids: seq<nat>, until: int, i: nat)
    requires Ascending(ids) && (forall k :: 0 <= k < |ids| ==> ids[k] in t.rows) && i < |ids|
    ensures LeaseAll(t, ids, until).supply == t.supply + |ids|
    ensures LeaseAll(t, ids, until).rows[ids[i]] ==
              t.rows[ids[i]].(attempts := t.rows[ids[i]].attempts + 1, leaseToken := Some(t.supply + i), leaseExpires := Some(until))
    decreases |ids|
  {
    var prefix, id := ids[..|ids| - 1], ids[|ids| - 1];
    LeaseAllSupply(t, prefix, until);
    LeaseAllUntouched(t, prefix, until, id);
    if i < |prefix| {
      LeaseAllLeases(t, prefix, until, i);
    }
  }

  lemma {:induction false} LeaseAllSupply(t: Table, ids: seq<nat>, until: int)
    requires forall k :: 0 <= k < |ids| ==> ids[k] in t.rows
    ensures LeaseAll(t, ids, until).supply == t.supply + |ids|
    decreases |ids|
  {
    if ids != [] {
      LeaseAllSupply(t, ids[..|ids| - 1], until);
    }
  }

  lemma {:induction false} IdSetSize(ids: seq<nat>)
    requires Ascending(ids)
    ensures |IdSet(ids)| == |ids|
  {
    if ids != [] {
      var prefix, id := ids[..|ids| - 1], ids[|ids| - 1];
      IdSetSize(prefix);
      assert IdSet(ids) == IdSet(prefix) + {id};
    }
  }

  /**
   What a claim takes: rows that are neither delivered nor quarantined, whose
   time has come, without a lease or with one that has expired, and not locked
   by another transaction; the earliest of them, all of them if there are fewer
   than the limit, which is 100 unless 1 to 100 was asked for.
   */
  lemma {:induction false} ClaimTakesDue(t: Table, u: Table, ids: seq<nat>, deliveries: seq<Delivery>,
                                         limit: int, locked: set<nat>, now: int, until: int, id: nat)
    requires IsClaim(t, u, ids, deliveries, limit, locked, now, until) && id in t.rows
    ensures |ids| <= if 1 <= limit <= 100 then limit else 100
    ensures var r := t.rows[id];
            var due := id !in locked && r.deliveredAt.None? && r.quarantinedAt.None? && r.availableAt <= now
                       && (r.leaseExpires.None? || r.leaseExpires.value < now);
            && (id in ids ==> due)
            && (due && id !in ids ==>
                  && |ids| == (if 1 <= limit <= 100 then limit else 100)
                  && forall k :: 0 <= k < |ids| ==>
                       || t.rows[ids[k]].availableAt < r.availableAt
                       || (t.rows[ids[k]].availableAt == r.availableAt && ids[k] < id))
  {
    IdSetSize(ids);
    var ready := Ready(t, locked, now);
    if id in ready && id !in ids {
      assert id !in IdSet(ids);
      if |ready| <= ClaimCap(limit) {
        SubsetOfSize(IdSet(ids), ready);
      }
      forall k | 0 <= k < |ids|
        ensures Before(t, ids[k], id)
      {
        assert ids[k] in IdSet(ids);
      }
    }
    if id in ids {
      assert id in IdSet(ids);
    }
  }

  lemma SubsetOfSize(a: set<nat>, b: set<nat>)
    requires a <= b && |a| == |b|
    ensures a == b
  {
    assert b == a + (b - a);
  }

  /** What a claim does: each row taken gets one attempt more, a token of its own and the new expiry, and no other row changes. */
  lemma {:induction false} ClaimLeasesRows(t: Table, u: Table, ids: seq<nat>, deliveries: seq<Delivery>,
                                           limit: int, locked: set<nat>, now: int, until: int, id: nat)
    requires TableOk(t) && IsClaim(t, u, ids, deliveries, limit, locked, now, until) && id in t.rows
    ensures u.rows.Keys == t.rows.Keys
    ensures id !in ids ==> u.rows[id] == t.rows[id]
    ensures id in ids ==>
              var r := u.rows[id];
              && r == t.rows[id].(attempts := t.rows[id].attempts + 1, leaseToken := r.leaseToken, leaseExpires := Some(until))
              && r.leaseToken.Some?
              && (forall j :: j in t.rows ==> t.rows[j].leaseToken != r.leaseToken)
              && (forall j :: j in u.rows && j != id ==> u.rows[j].leaseToken != r.leaseToken)
  {
    if id in ids {
      var i :| 0 <= i < |ids| && ids[i] == id;
      LeaseAllLeases(t, ids, until, i);
      TokenIsOwn(t, ids, until, i);
    } else {
      LeaseAllUntouched(t, ids, until, id);
    }
  }

  /** A claim returns, for each row it leased, every column recorded, the attempts counted and the token. */
  lemma {:induction false} ClaimReturnsRows(t: Table, u: Table, ids: seq<nat>, deliveries: seq<Delivery>,
                                            limit: int, locked: set<nat>, now: int, until: int, i: nat)
    requires TableOk(t) && IsClaim(t, u, ids, deliveries, limit, locked, now, until) && i < |ids|
    ensures |deliveries| == |ids| && ids[i] in t.rows && ids[i] in u.rows
    ensures var r, d := t.rows[ids[i]], deliveries[i];
            && d.id == ids[i] && d.eventId == r.eventId && d.occurredAt == r.occurredAt
            && d.subjectKind == r.subjectKind && d.subjectId == r.subjectId && d.action == r.action
            && d.details == r.details && d.proof == r.proof && d.attempts == r.attempts + 1
            && u.rows[ids[i]].leaseToken == Some(d.token)
  {
    ClaimLeasesRows(t, u, ids, deliveries, limit, locked, now, until, ids[i]);
  }

  lemma {:induction false} TokenIsOwn(t: Table, ids: seq<nat>, until: int, i: nat)
    requires TableOk(t) && Ascending(ids) && (forall k :: 0 <= k < |ids| ==> ids[k] in t.rows) && i < |ids|
    ensures forall j :: j in t.rows ==> t.rows[j].leaseToken != Some(t.supply + i)
    ensures forall j :: j in t.rows && j != ids[i] ==> LeaseAll(t, ids, until).rows[j].leaseToken != Some(t.supply + i)
  {
    forall j | j in t.rows && j != ids[i]
      ensures LeaseAll(t, ids, until).rows[j].leaseToken != Some(t.supply + i)
    {
      if j in ids {
        var k :| 0 <= k < |ids| && ids[k] == j;
        LeaseAllLeases(t, ids, until, k);
      } else {
        LeaseAllUntouched(t, ids, until, j);
      }
    }
  }

  class Outbox {
    var rows: map<nat, Row>
    var nextId: nat
    var supply: Uuid

    function View(): Table
      reads this
    {
      Table(rows, nextId, supply)
    }

    ghost predicate Valid()
      reads this
    {
      TableOk(View())
    }

    /** A table as some earlier SDK left it; EnsureTable makes it valid. */
    constructor (found: Table)
      ensures View() == found
    {
      rows, nextId, supply := found.rows, found.nextId, found.supply;
    }

    method EnsureTable(now: int) returns (ok: bool)
      modifies this
      ensures ok <==>
                && (forall id :: id in old(rows) ==> Checks(Upgrade(old(rows)[id], now)))
                && (forall i, j :: i in old(rows) && j in old(rows) && i != j ==> old(rows)[i].eventId != old(rows)[j].eventId)
      ensures View() == if ok then UpgradeAll(old(View()), now) else old(View())
    {
      var upgraded := map id | id in rows :: Upgrade(rows[id], now);
      assert upgraded == UpgradeAll(View(), now).rows;
      ok := (forall id :: id in rows ==> Checks(upgraded[id]))
        && (forall i, j :: i in rows && j in rows && i != j ==> rows[i].eventId != rows[j].eventId);
      if ok {
        rows := upgraded;
      }
    }

    /** The event id and the id come from the column defaults. */
    method Record(entry: Entry, proof: seq<bv8>, proofParses: bool, now: int) returns (r: Result<(), RecordError>)
      requires Valid()
      requires proofParses ==> |proof| <= MAX_PROOF
      modifies this
      ensures Valid()
      ensures var row := NewRow(entry, proof, proofParses, old(supply), now);
              && (r.Ok? <==> row.Ok?)
              && View() == (if row.Ok? then Insert(old(View()), row.value) else old(View()))
    {
      var row := NewRow(entry, proof, proofParses, supply, now);
      match row
      case Err(e) => r := Err(e);
      case Ok(inserted) =>
        InsertKeepsTable(View(), inserted);
        rows := rows[nextId := inserted];
        nextId, supply := nextId + 1, supply + 1;
        r := Ok(());
    }

    method Claim(limit: int, locked: set<nat>, now: int, until: int) returns (deliveries: seq<Delivery>)
      requires Valid()
      modifies this
      ensures Valid()
      ensures exists ids :: IsClaim(old(View()), View(), ids, deliveries, limit, locked, now, until)
    {
      var before := View();
      var after;
      ghost var ids;
      after, deliveries, ids := ClaimFrom(before, limit, locked, now, until);
      ClaimKeepsTable(before, after, ids, deliveries, limit, locked, now, until);
      rows, supply := after.rows, after.supply;
      assert View() == after;
    }

    method Acknowledge(id: nat, token: Uuid, now: int) returns (r: Result<(), FencedError>)
      requires Valid()
      modifies this
      ensures Valid()
      ensures (View(), r) == Finalize(old(View()), id, token, AuditOutbox.Acknowledge, now)
    {
      r := Fenced(id, token, AuditOutbox.Acknowledge, now);
    }

    method Retry(id: nat, token: Uuid, code: string, availableAt: int, now: int) returns (r: Result<(), FencedError>)
      requires Valid()
      modifies this
      ensures Valid()
      ensures (View(), r) == Finalize(old(View()), id, token, AuditOutbox.Retry(code, availableAt), now)
    {
      r := Fenced(id, token, AuditOutbox.Retry(code, availableAt), now);
    }

    method Quarantine(id: nat, token: Uuid, code: string, now: int) returns (r: Result<(), FencedError>)
      requires Valid()
      modifies this
      ensures Valid()
      ensures (View(), r) == Finalize(old(View()), id, token, AuditOutbox.Quarantine(code), now)
    {
      r := Fenced(id, token, AuditOutbox.Quarantine(code), now);
    }

    /** One UPDATE ... WHERE, then fencedMutation on its affected-row count. */
    method Fenced(id: nat, token: Uuid, f: Final, now: int) returns (r: Result<(), FencedError>)
      requires Valid()
      modifies this
      ensures Valid()
      ensures (View(), r) == Finalize(old(View()), id, token, f, now)
    {
      FinalizeKeepsTable(View(), id, token, f, now);
      var affected := 0;
      if id in rows && rows[id].deliveredAt.None? && rows[id].quarantinedAt.None? && rows[id].leaseToken == Some(token) {
        rows := rows[id := Settle(rows[id], f, now)];
        affected := 1;
      }
      r := if affected != 1 then Err(LeaseLost) else Ok(());
    }
  }
}
