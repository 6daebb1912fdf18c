/**
 Any number of drains, module transactions and provisioning runs over one
 outbox table, interleaved statement by statement. A worker holds no database
 scope while its event is in transit, so between its claim and its finalize
 any other step may happen; Abandon is a finalize that never reached the
 table, and Leave the end of a drain or of the worker's process. The log is a
 history variable: it records what the statements did and no step reads it.
 */
module AuditProtocol {
  import opened Wrappers
  import opened AuditOutbox
  import opened AuditDelivery

  datatype Worker =
    | Ready(start: int, processed: nat)
    | Claiming(start: int, processed: nat, until: int)
    | Delivering(start: int, processed: nat, held: Delivery)
    | Finalizing(start: int, processed: nat, held: Delivery, since: int, disposition: Disposition, code: string)

  datatype Event =
    | Claimed(id: nat, token: Uuid, attempts: int, at: int, until: int)
    | IngressAccepted(eventId: Uuid, token: Uuid)
    | Settled(id: nat, token: Uuid, disposition: Disposition)

  datatype System = System(table: Table, now: int, workers: map<nat, Worker>, log: seq<Event>)

  datatype Step =
    | Tick(to: int)
    | Record(row: Row)
    | Provision
    | Begin(w: nat)
    | ReadClock(w: nat, clock: int)
    | ClaimRow(w: nat, id: nat)
    | ClaimNothing(w: nat)
    | Receive(w: nat, reply: Reply)
    | Finish(w: nat, retryAt: int, stop: bool)
    | Abandon(w: nat)
    | Leave(w: nat)

  function Initial(legacy: Table, now: int): System {
    System(UpgradeAll(legacy, now), now, map[], [])
  }

  /** A table an enqueue-only SDK may have left behind. */
  ghost predicate LegacyTable(t: Table) {
    && (forall id :: id in t.rows ==> id < t.nextId && Legacy(t.rows[id]) && t.rows[id].eventId < t.supply)
    && (forall i, j :: i in t.rows && j in t.rows && i != j ==> t.rows[i].eventId != t.rows[j].eventId)
  }

  predicate Enabled(s: System, step: Step) {
    match step
    case Tick(to) => s.now <= to
    case Record(row) => Checks(row) && !Terminal(row) && row.leaseToken.None? && row.attempts == 0
    case Provision => true
    case Begin(w) => w !in s.workers
    case ReadClock(w, _) => w in s.workers && s.workers[w].Ready? && s.workers[w].processed < DRAIN_BATCH
    case ClaimRow(w, id) =>
      w in s.workers && s.workers[w].Claiming? && id in s.table.rows && Claimable(s.table.rows[id], s.now)
    case ClaimNothing(w) => w in s.workers && s.workers[w].Claiming?
    case Receive(w, _) => w in s.workers && s.workers[w].Delivering?
    case Finish(w, _, _) => w in s.workers && s.workers[w].Finalizing?
    case Abandon(w) => w in s.workers && s.workers[w].Finalizing?
    case Leave(w) => w in s.workers
  }

  function Apply(s: System, step: Step): System
    requires Enabled(s, step)
  {
    match step
    case Tick(to) => s.(now := to)
    case Record(row) => s.(table := Insert(s.table, row))
    case Provision => s.(table := UpgradeAll(s.table, s.now))
    case Begin(w) => s.(workers := s.workers[w := Ready(s.now, 0)])
    case ReadClock(w, clock) =>
      var k := s.workers[w];
      s.(workers := s.workers[w := Claiming(k.start, k.processed, clock + LEASE_DURATION)])
    case ClaimRow(w, id) =>
      var k := s.workers[w];
      var t := Lease(s.table, id, k.until);
      var d := DeliveryOf(t, id);
      s.(table := t,
         workers := s.workers[w := Delivering(k.start, k.processed, d)],
         log := s.log + [Claimed(id, d.token, d.attempts, s.now, k.until)])
    case ClaimNothing(w) => s.(workers := s.workers - {w})
    case Receive(w, reply) =>
      var k := s.workers[w];
      var (disposition, code) := Decide(k.held.attempts, reply);
      s.(workers := s.workers[w := Finalizing(k.start, k.processed, k.held, s.now, disposition, code)],
         log := if IngressTook(reply) then s.log + [IngressAccepted(k.held.eventId, k.held.token)] else s.log)
    case Finish(w, retryAt, stop) =>
      var k := s.workers[w];
      var (t, outcome) := Finalize(s.table, k.held.id, k.held.token, FinalOf(k.disposition, k.code, retryAt), s.now);
      s.(table := t,
         workers := if stop then s.workers - {w} else s.workers[w := Ready(k.start, k.processed + 1)],
         log := if outcome.Ok? then s.log + [Settled(k.held.id, k.held.token, k.disposition)] else s.log)
    case Abandon(w) => s.(workers := s.workers[w := Ready(s.workers[w].start, s.workers[w].processed + 1)])
    case Leave(w) => s.(workers := s.workers - {w})
  }

  predicate Valid(s: System, steps: seq<Step>)
    decreases |steps|, 0
  {
    steps == [] || (Valid(s, steps[..|steps| - 1]) && Enabled(Run(s, steps[..|steps| - 1]), steps[|steps| - 1]))
  }

  /** The system after a valid run. */
  function Run(s: System, steps: seq<Step>): System
    requires Valid(s, steps)
    decreases |steps|, 1
  {
    if steps == [] then s
    else Apply(Run(s, steps[..|steps| - 1]), steps[|steps| - 1])
  }

  // ---------------------------------------------------------------- history

  /** Who owns a row, read off the history alone: the last claim not settled since. */
  function Owner(log: seq<Event>, id: nat): Option<Uuid> {
    if log == [] then None
    else
      match log[|log| - 1]
      case Claimed(i, token, _, _, _) => if i == id then Some(token) else Owner(log[..|log| - 1], id)
      case Settled(i, _, _) => if i == id then None else Owner(log[..|log| - 1], id)
      case IngressAccepted(_, _) => Owner(log[..|log| - 1], id)
  }

  /** How many of a row's finalizes were retries. */
  function Retries(log: seq<Event>, id: nat): nat {
    if log == [] then 0
    else
      var e := log[|log| - 1];
      Retries(log[..|log| - 1], id) + (if e.Settled? && e.id == id && e.disposition == AuditRetry then 1 else 0)
  }

  ghost predicate ReleasedAfter(log: seq<Event>, i: nat)
    requires i < |log| && log[i].Claimed?
  {
    exists k :: i < k < |log| && log[k].Settled? && log[k].id == log[i].id && log[k].token == log[i].token
  }

  predicate IsCurrentLease(t: Table, e: Event)
    requires e.Claimed?
  {
    && e.id in t.rows
    && t.rows[e.id].leaseToken == Some(e.token)
    && t.rows[e.id].leaseExpires == Some(e.until)
    && t.rows[e.id].attempts == e.attempts
  }

  ghost predicate ClaimedBy(log: seq<Event>, d: Delivery) {
    exists i :: 0 <= i < |log| && log[i].Claimed? && log[i].id == d.id && log[i].token == d.token && log[i].attempts == d.attempts
  }

  ghost predicate AcceptedFor(log: seq<Event>, eventId: Uuid, token: Uuid) {
    IngressAccepted(eventId, token) in log
  }

  // ---------------------------------------------------------------- the invariant

  ghost predicate OwnersAgree(s: System) {
    && (forall id :: id in s.table.rows ==> s.table.rows[id].leaseToken == Owner(s.log, id))
    && (forall id :: id !in s.table.rows ==> Owner(s.log, id) == None)
  }

  /** Each claim is the row's current lease, or was released, or expired before now. */
  ghost predicate ClaimsAccountedFor(s: System) {
    forall i :: 0 <= i < |s.log| && s.log[i].Claimed? ==>
      && s.log[i].id in s.table.rows
      && s.log[i].token < s.table.supply
      && 1 <= s.log[i].attempts <= s.table.rows[s.log[i].id].attempts
      && (IsCurrentLease(s.table, s.log[i]) || ReleasedAfter(s.log, i) || s.log[i].until < s.now)
  }

  ghost predicate TokensDistinct(s: System) {
    forall i, j :: 0 <= i < j < |s.log| && s.log[i].Claimed? && s.log[j].Claimed? ==> s.log[i].token != s.log[j].token
  }

  ghost predicate LeaseTokensClaimed(s: System) {
    forall id :: id in s.table.rows && s.table.rows[id].leaseToken.Some? ==>
      exists i :: 0 <= i < |s.log| && s.log[i].Claimed? && s.log[i].id == id && IsCurrentLease(s.table, s.log[i])
  }

  ghost predicate RetriesBounded(s: System) {
    && (forall id :: id in s.table.rows ==>
          && Retries(s.log, id) <= MAXIMUM_ATTEMPTS - 1
          && Retries(s.log, id) + (if s.table.rows[id].leaseToken.Some? then 1 else 0) <= s.table.rows[id].attempts)
    && (forall id :: id !in s.table.rows ==> Retries(s.log, id) == 0)
  }

  ghost predicate WorkersHonest(s: System) {
    forall w :: w in s.workers ==>
      var k := s.workers[w];
      && k.processed <= DRAIN_BATCH
      && (k.Claiming? || k.Delivering? || k.Finalizing? ==> k.processed < DRAIN_BATCH)
      && (k.Delivering? || k.Finalizing? ==>
            && k.held.id in s.table.rows
            && Carries(k.held, s.table.rows[k.held.id])
            && ClaimedBy(s.log, k.held))
      && (k.Finalizing? && k.disposition == AuditAcknowledge ==> AcceptedFor(s.log, k.held.eventId, k.held.token))
      && (k.Finalizing? && k.disposition == AuditRetry ==> k.held.attempts < MAXIMUM_ATTEMPTS)
  }

  /** An acknowledgement in the history was earned: its event accepted, under the token that owned the row. */
  ghost predicate AckEarned(s: System, k: nat)
    requires k < |s.log| && s.log[k].Settled?
  {
    && s.log[k].id in s.table.rows
    && AcceptedFor(s.log[..k], s.table.rows[s.log[k].id].eventId, s.log[k].token)
    && Owner(s.log[..k], s.log[k].id) == Some(s.log[k].token)
  }

  ghost predicate AcksEarned(s: System) {
    && (forall k :: 0 <= k < |s.log| && s.log[k].Settled? && s.log[k].disposition == AuditAcknowledge ==> AckEarned(s, k))
    && (forall id :: id in s.table.rows && s.table.rows[id].deliveredAt.Some? && s.table.rows[id].proof.Some? ==>
          exists k :: 0 <= k < |s.log| && s.log[k].Settled? && s.log[k].id == id && s.log[k].disposition == AuditAcknowledge)
  }

  ghost predicate Inv(s: System) {
    && TableOk(s.table)
    && OwnersAgree(s)
    && ClaimsAccountedFor(s)
    && TokensDistinct(s)
    && LeaseTokensClaimed(s)
    && RetriesBounded(s)
    && WorkersHonest(s)
    && AcksEarned(s)
  }

  // ---------------------------------------------------------------- every step keeps it

  lemma {:induction false} UpgradedTableOk(legacy: Table, now: int)
    requires LegacyTable(legacy)
    ensures TableOk(UpgradeAll(legacy, now))
    ensures forall id :: id in legacy.rows ==> UpgradeAll(legacy, now).rows[id].leaseToken.None?
    ensures forall id :: id in legacy.rows ==> UpgradeAll(legacy, now).rows[id].proof.None?
    ensures forall id :: id in legacy.rows ==> UpgradeAll(legacy, now).rows[id].attempts == 0
  {
    var t := UpgradeAll(legacy, now);
    forall id | id in t.rows
      ensures id < t.nextId && RowOk(t.rows[id]) && t.rows[id].eventId < t.supply && t.rows[id].leaseToken.None?
      ensures t.rows[id].proof.None? && t.rows[id].attempts == 0
    {
      assert id in legacy.rows;
      UpgradeMeetsChecks(legacy.rows[id], now);
    }
    forall i, j | i in t.rows && j in t.rows && i != j
      ensures t.rows[i].eventId != t.rows[j].eventId
    {
      assert i in legacy.rows && j in legacy.rows;
    }
  }

  lemma {:induction false} InitialInv(legacy: Table, now: int)
    requires LegacyTable(legacy)
    ensures Inv(Initial(legacy, now))
  {
    UpgradedTableOk(legacy, now);
  }

  lemma {:induction false} RecordKeepsHistory(s: System, row: Row)
    requires Enabled(s, Record(row)) && s.table.nextId !in s.table.rows
    ensures OwnersAgree(s) ==> OwnersAgree(Apply(s, Record(row)))
    ensures ClaimsAccountedFor(s) ==> ClaimsAccountedFor(Apply(s, Record(row)))
    ensures LeaseTokensClaimed(s) ==> LeaseTokensClaimed(Apply(s, Record(row)))
  {
  }

  lemma {:induction false} RecordKeepsWork(s: System, row: Row)
    requires Enabled(s, Record(row)) && s.table.nextId !in s.table.rows
    ensures RetriesBounded(s) ==> RetriesBounded(Apply(s, Record(row)))
    ensures WorkersHonest(s) ==> WorkersHonest(Apply(s, Record(row)))
    ensures AcksEarned(s) ==> AcksEarned(Apply(s, Record(row)))
  {
  }

  lemma {:induction false} RecordKeeps(s: System, row: Row)
    requires Inv(s) && Enabled(s, Record(row))
    ensures Inv(Apply(s, Record(row)))
  {
    InsertKeepsTable(s.table, row);
    RecordKeepsHistory(s, row);
    RecordKeepsWork(s, row);
  }

  lemma {:induction false} Append(log: seq<Event>, e: Event)
    ensures forall id :: Owner(log + [e], id) ==
              (if (e.Claimed? || e.Settled?) && e.id == id then (if e.Claimed? then Some(e.token) else None) else Owner(log, id))
    ensures forall id :: Retries(log + [e], id) ==
              Retries(log, id) + (if e.Settled? && e.id == id && e.disposition == AuditRetry then 1 else 0)
    ensures forall i :: 0 <= i < |log| && log[i].Claimed? && ReleasedAfter(log, i) ==> ReleasedAfter(log + [e], i)
    ensures forall d :: ClaimedBy(log, d) ==> ClaimedBy(log + [e], d)
    ensures forall v, t :: AcceptedFor(log, v, t) ==> AcceptedFor(log + [e], v, t)
  {
    var l := log + [e];
    assert l[..|l| - 1] == log && l[|l| - 1] == e;
    forall i | 0 <= i < |log| && log[i].Claimed? && ReleasedAfter(log, i)
      ensures ReleasedAfter(l, i)
    {
      var k :| i < k < |log| && log[k].Settled? && log[k].id == log[i].id && log[k].token == log[i].token;
      assert l[k] == log[k];
    }
    forall d | ClaimedBy(log, d)
      ensures ClaimedBy(l, d)
    {
      var i :| 0 <= i < |log| && log[i].Claimed? && log[i].id == d.id && log[i].token == d.token && log[i].attempts == d.attempts;
      assert l[i] == log[i];
    }
  }

  /** Steps of a worker that touch neither the table nor the log. */
  lemma {:induction false} QuietStepKeeps(s: System, now: int, workers: map<nat, Worker>)
    requires Inv(s) && s.now <= now && WorkersHonest(s.(workers := workers))
    ensures Inv(s.(now := now, workers := workers))
  {
    var u := s.(now := now, workers := workers);
    assert ClaimsAccountedFor(u);
    assert OwnersAgree(u);
    assert LeaseTokensClaimed(u);
    assert RetriesBounded(u);
    assert WorkersHonest(u);
    assert AcksEarned(u) by {
      assert forall k :: 0 <= k < |s.log| && s.log[k].Settled? && AckEarned(s, k) ==> AckEarned(u, k);
    }
  }

  predicate Quiet(step: Step) {
    step.Tick? || step.Begin? || step.ReadClock? || step.ClaimNothing? || step.Abandon? || step.Leave?
  }

  lemma {:induction false} QuietWorkersHonest(s: System, step: Step)
    requires WorkersHonest(s) && Enabled(s, step) && Quiet(step)
    ensures WorkersHonest(s.(workers := Apply(s, step).workers))
  {
  }

  lemma {:induction false} IdleStepKeeps(s: System, step: Step)
    requires Inv(s) && Enabled(s, step) && Quiet(step)
    ensures Inv(Apply(s, step))
  {
    var u := Apply(s, step);
    QuietWorkersHonest(s, step);
    QuietStepKeeps(s, u.now, u.workers);
  }

  lemma {:induction false} ProvisionKeeps(s: System)
    requires Inv(s)
    ensures Apply(s, Provision) == s
  {
    UpgradeIsIdempotent(s.table, s.now);
  }

  lemma {:induction false} GrowKeepsLeases(s: System, e: Event)
    requires LeaseTokensClaimed(s)
    ensures LeaseTokensClaimed(s.(log := s.log + [e]))
  {
    var l := s.log + [e];
    forall id | id in s.table.rows && s.table.rows[id].leaseToken.Some?
      ensures exists i :: 0 <= i < |l| && l[i].Claimed? && l[i].id == id && IsCurrentLease(s.table, l[i])
    {
      var i :| 0 <= i < |s.log| && s.log[i].Claimed? && s.log[i].id == id && IsCurrentLease(s.table, s.log[i]);
      assert l[i] == s.log[i];
    }
  }

  /** A longer log keeps every acknowledgement earned. */
  lemma {:induction false} GrowKeepsAcks(s: System, e: Event)
    requires AcksEarned(s)
    requires e.Settled? && e.disposition == AuditAcknowledge ==>
               && e.id in s.table.rows
               && AcceptedFor(s.log, s.table.rows[e.id].eventId, e.token)
               && Owner(s.log, e.id) == Some(e.token)
    ensures AcksEarned(s.(log := s.log + [e]))
  {
    var u := s.(log := s.log + [e]);
    forall k | 0 <= k < |u.log| && u.log[k].Settled? && u.log[k].disposition == AuditAcknowledge
      ensures AckEarned(u, k)
    {
      if k < |s.log| {
        assert u.log[..k] == s.log[..k] && u.log[k] == s.log[k];
        assert AckEarned(s, k);
      } else {
        assert u.log[..k] == s.log;
      }
    }
    forall id | id in u.table.rows && u.table.rows[id].deliveredAt.Some? && u.table.rows[id].proof.Some?
      ensures exists k :: 0 <= k < |u.log| && u.log[k].Settled? && u.log[k].id == id && u.log[k].disposition == AuditAcknowledge
    {
      var k :| 0 <= k < |s.log| && s.log[k].Settled? && s.log[k].id == id && s.log[k].disposition == AuditAcknowledge;
      assert u.log[k] == s.log[k];
    }
  }

  /** The ingress taking an event is only history. */
  lemma {:induction false} AcceptanceKeeps(s: System, eventId: Uuid, token: Uuid)
    requires Inv(s)
    ensures Inv(s.(log := s.log + [IngressAccepted(eventId, token)]))
  {
    var e := IngressAccepted(eventId, token);
    var u := s.(log := s.log + [e]);
    Append(s.log, e);
    GrowKeepsLeases(s, e);
    GrowKeepsAcks(s, e);
    assert OwnersAgree(u);
    assert ClaimsAccountedFor(u);
    assert TokensDistinct(u);
    assert RetriesBounded(u);
    assert WorkersHonest(u);
  }

  lemma {:induction false} ReceiveKeeps(s: System, w: nat, reply: Reply)
    requires Inv(s) && Enabled(s, Receive(w, reply))
    ensures Inv(Apply(s, Receive(w, reply)))
  {
    var u := Apply(s, Receive(w, reply));
    var held := s.workers[w].held;
    var m := s.(log := u.log);
    if IngressTook(reply) {
      AcceptanceKeeps(s, held.eventId, held.token);
    } else {
      assert m == s;
    }
    ReceiveKeepsWork(s, w, reply);
    QuietStepKeeps(m, u.now, u.workers);
    assert u == m.(now := u.now, workers := u.workers);
  }

  lemma {:induction false} ReceiveKeepsWork(s: System, w: nat, reply: Reply)
    requires WorkersHonest(s) && Enabled(s, Receive(w, reply))
    ensures WorkersHonest(Apply(s, Receive(w, reply)))
  {
    var held := s.workers[w].held;
    Append(s.log, IngressAccepted(held.eventId, held.token));
  }

  // A claim.

  function ClaimEvent(s: System, id: nat, until: int): Event
    requires id in s.table.rows
  {
    Claimed(id, s.table.supply, s.table.rows[id].attempts + 1, s.now, until)
  }

  function Claim(s: System, id: nat, until: int): System
    requires id in s.table.rows
  {
    s.(table := Lease(s.table, id, until), log := s.log + [ClaimEvent(s, id, until)])
  }

  lemma {:induction false} ClaimKeepsAccounts(s: System, id: nat, until: int)
    requires ClaimsAccountedFor(s) && id in s.table.rows && Claimable(s.table.rows[id], s.now)
    requires s.table.rows[id].attempts >= 0
    ensures ClaimsAccountedFor(Claim(s, id, until))
  {
    Append(s.log, ClaimEvent(s, id, until));
  }

  lemma {:induction false} ClaimKeepsOwners(s: System, id: nat, until: int)
    requires id in s.table.rows
    ensures OwnersAgree(s) ==> OwnersAgree(Claim(s, id, until))
    ensures RetriesBounded(s) ==> RetriesBounded(Claim(s, id, until))
    ensures ClaimsAccountedFor(s) && TokensDistinct(s) ==> TokensDistinct(Claim(s, id, until))
  {
    Append(s.log, ClaimEvent(s, id, until));
  }

  lemma {:induction false} ClaimKeepsLeases(s: System, id: nat, until: int)
    requires LeaseTokensClaimed(s) && id in s.table.rows
    ensures LeaseTokensClaimed(Claim(s, id, until))
  {
    var u := Claim(s, id, until);
    forall k | k in u.table.rows && u.table.rows[k].leaseToken.Some?
      ensures exists i :: 0 <= i < |u.log| && u.log[i].Claimed? && u.log[i].id == k && IsCurrentLease(u.table, u.log[i])
    {
      if k == id {
        assert IsCurrentLease(u.table, u.log[|s.log|]);
      } else {
        var i :| 0 <= i < |s.log| && s.log[i].Claimed? && s.log[i].id == k && IsCurrentLease(s.table, s.log[i]);
        assert u.log[i] == s.log[i];
      }
    }
  }

  /** Rows may change outside their evidence and delivery columns. */
  lemma {:induction false} SameEvidenceKeepsWork(s: System, t: Table)
    requires s.table.rows.Keys == t.rows.Keys
    requires forall id :: id in t.rows ==> SameEvidence(s.table.rows[id], t.rows[id])
    ensures WorkersHonest(s) ==> WorkersHonest(s.(table := t))
  {
  }

  lemma {:induction false} SameEvidenceKeepsAcks(s: System, t: Table)
    requires s.table.rows.Keys == t.rows.Keys
    requires forall id :: id in t.rows ==> SameEvidence(s.table.rows[id], t.rows[id])
    requires forall id :: id in t.rows ==> s.table.rows[id].deliveredAt == t.rows[id].deliveredAt
    ensures AcksEarned(s) ==> AcksEarned(s.(table := t))
  {
    var u := s.(table := t);
    assert forall k :: 0 <= k < |s.log| && s.log[k].Settled? && AckEarned(s, k) ==> AckEarned(u, k);
  }

  lemma {:induction false} ClaimKeepsWork(s: System, id: nat, until: int)
    requires WorkersHonest(s) && AcksEarned(s) && id in s.table.rows
    ensures WorkersHonest(Claim(s, id, until)) && AcksEarned(Claim(s, id, until))
  {
    var u := Claim(s, id, until);
    var m := s.(log := u.log);
    Append(s.log, ClaimEvent(s, id, until));
    GrowKeepsAcks(s, ClaimEvent(s, id, until));
    SameEvidenceKeepsWork(m, u.table);
    SameEvidenceKeepsAcks(m, u.table);
    assert u == m.(table := u.table);
  }

  lemma {:induction false} ClaimKeeps(s: System, id: nat, until: int)
    requires Inv(s) && id in s.table.rows && Claimable(s.table.rows[id], s.now)
    ensures Inv(Claim(s, id, until))
  {
    LeaseKeepsTable(s.table, id, until, s.now);
    ClaimKeepsAccounts(s, id, until);
    ClaimKeepsOwners(s, id, until);
    ClaimKeepsLeases(s, id, until);
    ClaimKeepsWork(s, id, until);
  }

  /** The worker that claimed now holds the delivery the statement returned. */
  lemma {:induction false} ClaimRowKeeps(s: System, w: nat, id: nat)
    requires Inv(s) && Enabled(s, ClaimRow(w, id))
    ensures Inv(Apply(s, ClaimRow(w, id)))
  {
    var u := Apply(s, ClaimRow(w, id));
    var m := Claim(s, id, s.workers[w].until);
    ClaimKeeps(s, id, s.workers[w].until);
    ClaimRowIs(s, w, id);
    HiringKeepsWork(m, w, u.workers[w]);
    QuietStepKeeps(m, m.now, u.workers);
  }

  /** The step is the claim, and the worker's new state holds what it claimed. */
  lemma {:induction false} ClaimRowIs(s: System, w: nat, id: nat)
    requires WorkersHonest(s) && Enabled(s, ClaimRow(w, id))
    ensures var u, m := Apply(s, ClaimRow(w, id)), Claim(s, id, s.workers[w].until);
            && u == m.(now := m.now, workers := u.workers) && u.workers == m.workers[w := u.workers[w]]
            && u.workers[w].Delivering? && u.workers[w].processed < DRAIN_BATCH
            && u.workers[w].held.id in m.table.rows && Carries(u.workers[w].held, m.table.rows[u.workers[w].held.id])
            && ClaimedBy(m.log, u.workers[w].held)
  {
    var u := Apply(s, ClaimRow(w, id));
    assert u.log[|s.log|].token == u.workers[w].held.token;
  }

  /** A worker in an honest state may join. */
  lemma {:induction false} HiringKeepsWork(s: System, w: nat, k: Worker)
    requires WorkersHonest(s) && k.Delivering? && k.processed < DRAIN_BATCH
    requires k.held.id in s.table.rows && Carries(k.held, s.table.rows[k.held.id]) && ClaimedBy(s.log, k.held)
    ensures WorkersHonest(s.(workers := s.workers[w := k]))
  {
  }

  // A finalize.

  function Settlement(s: System, d: Delivery, disposition: Disposition, f: Final): System
    requires Holds(s.table, d.id, d.token)
  {
    s.(table := Finalize(s.table, d.id, d.token, f, s.now).0, log := s.log + [Settled(d.id, d.token, disposition)])
  }

  ghost predicate MayRetry(s: System, d: Delivery, disposition: Disposition) {
    disposition == AuditRetry ==> d.id in s.table.rows && s.table.rows[d.id].attempts < MAXIMUM_ATTEMPTS
  }

  /** The token a worker claimed under still being the row's means the row's attempts are that claim's. */
  lemma {:induction false} HolderKnowsAttempts(s: System, d: Delivery)
    requires TokensDistinct(s) && LeaseTokensClaimed(s)
    requires ClaimedBy(s.log, d) && Holds(s.table, d.id, d.token)
    ensures s.table.rows[d.id].attempts == d.attempts
  {
    var i :| 0 <= i < |s.log| && s.log[i].Claimed? && s.log[i].id == d.id && s.log[i].token == d.token && s.log[i].attempts == d.attempts;
    var j :| 0 <= j < |s.log| && s.log[j].Claimed? && s.log[j].id == d.id && IsCurrentLease(s.table, s.log[j]);
    assert s.log[i].token == s.log[j].token;
    assert i == j;
  }

  lemma {:induction false} SettlementKeepsOwners(s: System, d: Delivery, disposition: Disposition, f: Final)
    requires Holds(s.table, d.id, d.token) && MayRetry(s, d, disposition)
    ensures OwnersAgree(s) ==> OwnersAgree(Settlement(s, d, disposition, f))
    ensures RetriesBounded(s) ==> RetriesBounded(Settlement(s, d, disposition, f))
    ensures TokensDistinct(s) ==> TokensDistinct(Settlement(s, d, disposition, f))
  {
    Append(s.log, Settled(d.id, d.token, disposition));
  }

  lemma {:induction false} SettlementKeepsAccounts(s: System, d: Delivery, disposition: Disposition, f: Final)
    requires ClaimsAccountedFor(s) && Holds(s.table, d.id, d.token)
    ensures ClaimsAccountedFor(Settlement(s, d, disposition, f))
  {
    var e := Settled(d.id, d.token, disposition);
    var u := Settlement(s, d, disposition, f);
    Append(s.log, e);
    forall i | 0 <= i < |u.log| && u.log[i].Claimed?
      ensures IsCurrentLease(u.table, u.log[i]) || ReleasedAfter(u.log, i) || u.log[i].until < u.now
    {
      assert u.log[i] == s.log[i];
      if IsCurrentLease(s.table, s.log[i]) && s.log[i].id == d.id {
        assert u.log[|s.log|] == e;
        assert ReleasedAfter(u.log, i);
      }
    }
  }

  lemma {:induction false} SettlementKeepsLeases(s: System, d: Delivery, disposition: Disposition, f: Final)
    requires LeaseTokensClaimed(s) && Holds(s.table, d.id, d.token)
    ensures LeaseTokensClaimed(Settlement(s, d, disposition, f))
  {
    var u := Settlement(s, d, disposition, f);
    forall k | k in u.table.rows && u.table.rows[k].leaseToken.Some?
      ensures exists i :: 0 <= i < |u.log| && u.log[i].Claimed? && u.log[i].id == k && IsCurrentLease(u.table, u.log[i])
    {
      var i :| 0 <= i < |s.log| && s.log[i].Claimed? && s.log[i].id == k && IsCurrentLease(s.table, s.log[i]);
      assert u.log[i] == s.log[i];
    }
  }

  lemma {:induction false} SettlementKeepsWork(s: System, d: Delivery, disposition: Disposition, f: Final)
    requires WorkersHonest(s) && Holds(s.table, d.id, d.token)
    ensures WorkersHonest(Settlement(s, d, disposition, f))
  {
    var m := s.(log := Settlement(s, d, disposition, f).log);
    Append(s.log, Settled(d.id, d.token, disposition));
    assert WorkersHonest(m);
    SameEvidenceKeepsWork(m, Settlement(s, d, disposition, f).table);
  }

  lemma {:induction false} SettlementKeepsAcks(s: System, d: Delivery, disposition: Disposition, f: Final)
    requires AcksEarned(s) && OwnersAgree(s) && Holds(s.table, d.id, d.token)
    requires f.Acknowledge? <==> disposition == AuditAcknowledge
    requires disposition == AuditAcknowledge ==>
               AcceptedFor(s.log, s.table.rows[d.id].eventId, d.token)
    ensures AcksEarned(Settlement(s, d, disposition, f))
  {
    var e := Settled(d.id, d.token, disposition);
    var u := Settlement(s, d, disposition, f);
    var m := s.(log := u.log);
    GrowKeepsAcks(s, e);
    forall k | 0 <= k < |u.log| && u.log[k].Settled? && u.log[k].disposition == AuditAcknowledge
      ensures AckEarned(u, k)
    {
      assert AckEarned(m, k);
    }
    forall id | id in u.table.rows && u.table.rows[id].deliveredAt.Some? && u.table.rows[id].proof.Some?
      ensures exists k :: 0 <= k < |u.log| && u.log[k].Settled? && u.log[k].id == id && u.log[k].disposition == AuditAcknowledge
    {
      if id == d.id && f.Acknowledge? {
        assert u.log[|s.log|] == e;
      } else {
        assert m.table.rows[id].deliveredAt.Some?;
      }
    }
  }

  lemma {:induction false} SettlementKeeps(s: System, d: Delivery, disposition: Disposition, f: Final)
    requires Inv(s) && Holds(s.table, d.id, d.token) && MayRetry(s, d, disposition)
    requires f.Acknowledge? <==> disposition == AuditAcknowledge
    requires disposition == AuditAcknowledge ==> AcceptedFor(s.log, s.table.rows[d.id].eventId, d.token)
    ensures Inv(Settlement(s, d, disposition, f))
  {
    FinalizeKeepsTable(s.table, d.id, d.token, f, s.now);
    SettlementKeepsOwners(s, d, disposition, f);
    SettlementKeepsAccounts(s, d, disposition, f);
    SettlementKeepsLeases(s, d, disposition, f);
    SettlementKeepsWork(s, d, disposition, f);
    SettlementKeepsAcks(s, d, disposition, f);
  }

  /** The finalize statement on its own: a settlement if the fence holds, else nothing. */
  function Finalized(s: System, w: nat, retryAt: int): System
    requires w in s.workers && s.workers[w].Finalizing?
  {
    var k := s.workers[w];
    if Holds(s.table, k.held.id, k.held.token)
    then Settlement(s, k.held, k.disposition, FinalOf(k.disposition, k.code, retryAt)) else s
  }

  lemma {:induction false} FinalizedKeeps(s: System, w: nat, retryAt: int)
    requires Inv(s) && w in s.workers && s.workers[w].Finalizing?
    ensures Inv(Finalized(s, w, retryAt))
  {
    var k := s.workers[w];
    if Holds(s.table, k.held.id, k.held.token) {
      HolderKnowsAttempts(s, k.held);
      SettlementKeeps(s, k.held, k.disposition, FinalOf(k.disposition, k.code, retryAt));
    }
  }

  lemma {:induction false} FinishIsFinalize(s: System, w: nat, retryAt: int, stop: bool)
    requires Enabled(s, Finish(w, retryAt, stop))
    ensures var u, m := Apply(s, Finish(w, retryAt, stop)), Finalized(s, w, retryAt);
            && u == m.(now := m.now, workers := u.workers) && m.workers == s.workers
            && (WorkersHonest(m) ==> WorkersHonest(m.(workers := u.workers)))
  {
  }

  lemma {:induction false} FinishKeeps(s: System, w: nat, retryAt: int, stop: bool)
    requires Inv(s) && Enabled(s, Finish(w, retryAt, stop))
    ensures Inv(Apply(s, Finish(w, retryAt, stop)))
  {
    FinalizedKeeps(s, w, retryAt);
    FinishIsFinalize(s, w, retryAt, stop);
    var m := Finalized(s, w, retryAt);
    QuietStepKeeps(m, m.now, Apply(s, Finish(w, retryAt, stop)).workers);
  }

  lemma {:induction false} StepKeeps(s: System, step: Step)
    requires Inv(s) && Enabled(s, step)
    ensures Inv(Apply(s, step))
  {
    match step
    case Record(row) => RecordKeeps(s, row);
    case Provision => ProvisionKeeps(s);
    case ClaimRow(w, id) => ClaimRowKeeps(s, w, id);
    case Receive(w, reply) => ReceiveKeeps(s, w, reply);
    case Finish(w, retryAt, stop) => FinishKeeps(s, w, retryAt, stop);
    case _ => IdleStepKeeps(s, step);
  }

  /** The invariant holds after every valid run. */
  lemma {:induction false} RunKeeps(s: System, steps: seq<Step>)
    requires Inv(s) && Valid(s, steps)
    ensures Inv(Run(s, steps))
    decreases |steps|
  {
    if steps != [] {
      var prefix := steps[..|steps| - 1];
      RunKeeps(s, prefix);
      StepKeeps(Run(s, prefix), steps[|steps| - 1]);
    }
  }
}
