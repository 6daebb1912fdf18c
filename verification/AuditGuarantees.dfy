/** What the audit outbox promises over every run of the protocol. */
module AuditGuarantees {
  import opened Wrappers
  import opened DecimalText
  import opened AuditOutbox
  import opened AuditDelivery
  import opened AuditProtocol

  ghost predicate Reachable(s: System) {
    exists legacy, now, steps ::
      LegacyTable(legacy) && Valid(Initial(legacy, now), steps) && s == Run(Initial(legacy, now), steps)
  }

  lemma {:induction false} ReachableInv(s: System)
    requires Reachable(s)
    ensures Inv(s)
  {
    var legacy, now, steps :|
      LegacyTable(legacy) && Valid(Initial(legacy, now), steps) && s == Run(Initial(legacy, now), steps);
    InitialInv(legacy, now);
    RunKeeps(Initial(legacy, now), steps);
  }

  // ---------------------------------------------------------------- the fence

  /** Ownership read off the log is exactly: claimed under this token, and neither claimed nor settled since. */
  lemma {:induction false} OwnerIsLatestClaim(log: seq<Event>, id: nat, token: Uuid)
    ensures Owner(log, id) == Some(token) <==>
              exists i :: 0 <= i < |log| && log[i].Claimed? && log[i].id == id && log[i].token == token
                          && forall j :: i < j < |log| && (log[j].Claimed? || log[j].Settled?) ==> log[j].id != id
    decreases |log|
  {
    if log != [] {
      var prefix, e := log[..|log| - 1], log[|log| - 1];
      OwnerIsLatestClaim(prefix, id, token);
      if (e.Claimed? || e.Settled?) && e.id == id {
        assert log[|log| - 1] == e;
      } else if Owner(prefix, id) == Some(token) {
        var i :| 0 <= i < |prefix| && prefix[i].Claimed? && prefix[i].id == id && prefix[i].token == token
                 && forall j :: i < j < |prefix| && (prefix[j].Claimed? || prefix[j].Settled?) ==> prefix[j].id != id;
        assert log[i] == prefix[i];
        assert forall j :: i < j < |log| && (log[j].Claimed? || log[j].Settled?) ==> log[j].id != id by {
          forall j | i < j < |log| && (log[j].Claimed? || log[j].Settled?)
            ensures log[j].id != id
          {
            if j < |prefix| {
              assert log[j] == prefix[j];
            }
          }
        }
      }
    }
  }

  /**
   A finalize takes effect exactly when its token is the row's latest claim
   and that claim is unsettled; then it changes that row alone. Otherwise it
   reports the lost lease and changes nothing.
   */
  lemma {:induction false} FinalizeIsFenced(s: System, id: nat, token: Uuid, f: Final)
    requires Reachable(s)
    ensures var (t, outcome) := Finalize(s.table, id, token, f, s.now);
            && (outcome.Ok? <==> Owner(s.log, id) == Some(token))
            && (outcome.Err? ==> t == s.table)
            && (outcome.Ok? ==>
                  && id in s.table.rows
                  && t.rows[id] != s.table.rows[id]
                  && t.rows.Keys == s.table.rows.Keys
                  && forall k :: k in t.rows && k != id ==> t.rows[k] == s.table.rows[k])
  {
    ReachableInv(s);
    if Owner(s.log, id) == Some(token) {
      assert id in s.table.rows;
      assert RowOk(s.table.rows[id]);
    }
  }

  ghost predicate Live(s: System, i: nat)
    requires i < |s.log| && s.log[i].Claimed?
  {
    !ReleasedAfter(s.log, i) && s.now <= s.log[i].until
  }

  /** Two unexpired, unreleased leases never exist on one row. */
  lemma {:induction false} AtMostOneLiveLease(s: System, i: nat, j: nat)
    requires Reachable(s)
    requires i < |s.log| && j < |s.log| && s.log[i].Claimed? && s.log[j].Claimed?
    requires s.log[i].id == s.log[j].id && Live(s, i) && Live(s, j)
    ensures i == j
  {
    ReachableInv(s);
    assert IsCurrentLease(s.table, s.log[i]);
    assert IsCurrentLease(s.table, s.log[j]);
    assert s.log[i].token == s.log[j].token;
  }

  /** A live lease shuts every claim out of its row. */
  lemma {:induction false} LiveLeaseExcludesClaims(s: System, i: nat, w: nat)
    requires Reachable(s) && i < |s.log| && s.log[i].Claimed? && Live(s, i)
    ensures !Enabled(s, ClaimRow(w, s.log[i].id))
  {
    ReachableInv(s);
    assert IsCurrentLease(s.table, s.log[i]);
  }

  /** A claim that is the row's current lease has not been released. */
  lemma {:induction false} CurrentIsUnreleased(s: System, i: nat)
    requires Inv(s) && i < |s.log| && s.log[i].Claimed? && IsCurrentLease(s.table, s.log[i])
    ensures !ReleasedAfter(s.log, i)
  {
    var e := s.log[i];
    OwnerIsLatestClaim(s.log, e.id, e.token);
    var k :| 0 <= k < |s.log| && s.log[k].Claimed? && s.log[k].id == e.id && s.log[k].token == e.token
             && forall j :: k < j < |s.log| && (s.log[j].Claimed? || s.log[j].Settled?) ==> s.log[j].id != e.id;
    assert k == i;
  }

  /**
   A worker may claim a row exactly when the row is neither delivered nor
   quarantined, its time has come, and every claim of it was released or has
   expired: what a dead worker left behind is reclaimed.
   */
  lemma {:induction false} ClaimableExactly(s: System, w: nat, id: nat)
    requires Reachable(s) && id in s.table.rows && w in s.workers && s.workers[w].Claiming?
    ensures Enabled(s, ClaimRow(w, id)) <==>
              && s.table.rows[id].deliveredAt.None? && s.table.rows[id].quarantinedAt.None?
              && s.table.rows[id].availableAt <= s.now
              && forall i :: 0 <= i < |s.log| && s.log[i].Claimed? && s.log[i].id == id ==>
                   ReleasedAfter(s.log, i) || s.log[i].until < s.now
  {
    ReachableInv(s);
    var r := s.table.rows[id];
    if r.leaseToken.Some? {
      var i :| 0 <= i < |s.log| && s.log[i].Claimed? && s.log[i].id == id && IsCurrentLease(s.table, s.log[i]);
      CurrentIsUnreleased(s, i);
      assert r.leaseExpires == Some(s.log[i].until);
    }
  }

  /** A row recorded now is there as it was recorded, and due for a claim from its time on. */
  lemma {:induction false} RecordedIsClaimable(s: System, row: Row, to: int, w: nat)
    requires Reachable(s) && Enabled(s, Record(row)) && s.now <= to && row.availableAt <= to
    requires w in s.workers && s.workers[w].Claiming?
    ensures s.table.nextId !in s.table.rows && Enabled(Apply(s, Record(row)), Tick(to))
    ensures var u, id := Apply(Apply(s, Record(row)), Tick(to)), s.table.nextId;
            && u.now == to && id in u.table.rows && Enabled(u, ClaimRow(w, id))
            && u.table.rows[id] == row.(eventId := u.table.rows[id].eventId)
            && (forall i :: i in s.table.rows ==>
                  i in u.table.rows && u.table.rows[i] == s.table.rows[i] && s.table.rows[i].eventId != u.table.rows[id].eventId)
  {
    ReachableInv(s);
  }

  /** A claim leases its row for two minutes from the time the worker read off its clock. */
  lemma {:induction false} LeaseIsTwoMinutes(s: System, w: nat, clock: int, id: nat)
    requires Reachable(s) && Enabled(s, ReadClock(w, clock)) && Enabled(Apply(s, ReadClock(w, clock)), ClaimRow(w, id))
    ensures var u := Apply(Apply(s, ReadClock(w, clock)), ClaimRow(w, id));
            && id in u.table.rows && u.table.rows[id].leaseExpires == Some(clock + 120)
            && u.workers[w].Delivering? && u.workers[w].held.id == id && u.table.rows[id].leaseToken == Some(u.workers[w].held.token)
  {
  }

  // ---------------------------------------------------------------- rows over a run

  /** Every reachable row meets every CHECK. */
  lemma {:induction false} RowsMeetChecks(s: System, id: nat)
    requires Reachable(s) && id in s.table.rows
    ensures Checks(s.table.rows[id])
  {
    ReachableInv(s);
  }

  /** What that means: an open row is complete, within its bounds and leased in full or not at all; a settled one is settled one way and holds no lease. */
  lemma {:induction false} OpenOrSettled(s: System, id: nat)
    requires Reachable(s) && id in s.table.rows
    ensures var r := s.table.rows[id];
            && (r.proof.Some? ==> 1 <= |r.proof.value| <= 6144)
            && (r.leaseToken.Some? <==> r.leaseExpires.Some?)
            && if r.deliveredAt.None? && r.quarantinedAt.None? then
                 && r.proof.Some? && r.attempts >= 0
                 && 1 <= |r.subjectKind| <= 64 && 1 <= |r.subjectId| <= 512 && 1 <= |r.action| <= 128
                 && (r.details.Some? ==> r.details.value.kind.ObjectText?)
                 && (r.lastError.Some? ==> |r.lastError.value| <= 96)
               else (r.deliveredAt.None? || r.quarantinedAt.None?) && r.leaseToken.None?
  {
    ReachableInv(s);
  }

  ghost predicate Continues(t: Table, u: Table) {
    forall id :: id in t.rows ==>
      && id in u.rows
      && SameEvidence(t.rows[id], u.rows[id])
      && (Terminal(t.rows[id]) ==> u.rows[id] == t.rows[id])
      && t.rows[id].attempts <= u.rows[id].attempts
  }

  lemma {:induction false} ClaimContinues(s: System, w: nat, id: nat)
    requires Enabled(s, ClaimRow(w, id))
    ensures Continues(s.table, Apply(s, ClaimRow(w, id)).table)
  {
  }

  lemma {:induction false} FinishContinues(s: System, w: nat, retryAt: int, stop: bool)
    requires Enabled(s, Finish(w, retryAt, stop))
    ensures Continues(s.table, Apply(s, Finish(w, retryAt, stop)).table)
  {
  }

  lemma {:induction false} TableStays(s: System, step: Step)
    requires Enabled(s, step) && !step.Provision? && !step.Record? && !step.ClaimRow? && !step.Finish?
    ensures Apply(s, step).table == s.table
  {
  }

  lemma {:induction false} StepContinues(s: System, step: Step)
    requires TableOk(s.table) && Enabled(s, step)
    ensures Continues(s.table, Apply(s, step).table)
  {
    match step
    case Provision => UpgradeIsIdempotent(s.table, s.now);
    case Record(_) => assert s.table.nextId !in s.table.rows;
    case ClaimRow(w, id) => ClaimContinues(s, w, id);
    case Finish(w, retryAt, stop) => FinishContinues(s, w, retryAt, stop);
    case _ => TableStays(s, step);
  }

  /** Along any run no row is lost, evidence columns never change, attempts never fall and terminal rows are final. */
  lemma {:induction false} RowsAreForever(s: System, steps: seq<Step>)
    requires Inv(s) && Valid(s, steps)
    ensures Continues(s.table, Run(s, steps).table)
    decreases |steps|
  {
    if steps != [] {
      var prefix := steps[..|steps| - 1];
      RowsAreForever(s, prefix);
      RunKeeps(s, prefix);
      StepContinues(Run(s, prefix), steps[|steps| - 1]);
    }
  }

  /** A row over a run: only its bookkeeping changes, its attempts do not fall, and once settled nothing changes. */
  lemma {:induction false} RowKept(s: System, steps: seq<Step>, id: nat)
    requires Inv(s) && Valid(s, steps) && id in s.table.rows
    ensures id in Run(s, steps).table.rows
    ensures var a, b := s.table.rows[id], Run(s, steps).table.rows[id];
            && b.eventId == a.eventId && b.occurredAt == a.occurredAt && b.details == a.details && b.proof == a.proof
            && b.subjectKind == a.subjectKind && b.subjectId == a.subjectId && b.action == a.action
            && b.attempts >= a.attempts
            && (a.deliveredAt.Some? || a.quarantinedAt.Some? ==> b == a)
  {
    RowsAreForever(s, steps);
  }

  /** What a worker has in its hands is what its row recorded, whatever happened to the row since it was claimed. */
  lemma {:induction false} HeldIsRecorded(s: System, w: nat)
    requires Reachable(s) && w in s.workers && (s.workers[w].Delivering? || s.workers[w].Finalizing?)
    ensures var d := s.workers[w].held;
            && d.id in s.table.rows
            && var r := s.table.rows[d.id];
               && d.eventId == r.eventId && d.occurredAt == r.occurredAt && d.details == r.details && d.proof == r.proof
               && d.subjectKind == r.subjectKind && d.subjectId == r.subjectId && d.action == r.action
  {
    ReachableInv(s);
  }

  /**
   A delivered row that carried a proof was acknowledged under a token that
   owned it at that moment, after the ingress had taken that very event.
   */
  lemma {:induction false} DeliveredWasAccepted(s: System, id: nat)
    requires Reachable(s) && id in s.table.rows
    requires s.table.rows[id].deliveredAt.Some? && s.table.rows[id].proof.Some?
    ensures exists k :: 0 <= k < |s.log| && s.log[k].Settled? && s.log[k].id == id
                        && s.log[k].disposition == AuditAcknowledge
                        && Owner(s.log[..k], id) == Some(s.log[k].token)
                        && IngressAccepted(s.table.rows[id].eventId, s.log[k].token) in s.log[..k]
  {
    ReachableInv(s);
    var k :| 0 <= k < |s.log| && s.log[k].Settled? && s.log[k].id == id && s.log[k].disposition == AuditAcknowledge;
    assert AckEarned(s, k);
  }

  // ---------------------------------------------------------------- what a reply does to its row

  /** A reply and the finalize after it, both by the worker that still holds the row. */
  function Answered(s: System, w: nat, reply: Reply, retryAt: int, stop: bool): System
    requires Enabled(s, Receive(w, reply))
  {
    Apply(Apply(s, Receive(w, reply)), Finish(w, retryAt, stop))
  }

  lemma {:induction false} AnsweredIs(s: System, w: nat, reply: Reply, retryAt: int, stop: bool)
    requires Enabled(s, Receive(w, reply))
    requires var d := s.workers[w].held; d.id in s.table.rows && !Terminal(s.table.rows[d.id]) && s.table.rows[d.id].leaseToken == Some(d.token)
    ensures var d := s.workers[w].held; var o := Decide(d.attempts, reply);
            && d.id in Answered(s, w, reply, retryAt, stop).table.rows
            && Answered(s, w, reply, retryAt, stop).table.rows[d.id] == Settle(s.table.rows[d.id], FinalOf(o.0, o.1, retryAt), s.now)
  {
    var d := s.workers[w].held;
    assert Holds(s.table, d.id, d.token);
  }

  /**
   The worker that holds a row marks it delivered exactly for an accepted
   event, quarantines it exactly for an event that can never be accepted or was
   tried often enough, and otherwise gives it back for the time it chose.
   */
  lemma {:induction false} ReplySettlesRow(s: System, w: nat, reply: Reply, retryAt: int, stop: bool)
    requires Enabled(s, Receive(w, reply))
    requires var d := s.workers[w].held;
             && d.id in s.table.rows && s.table.rows[d.id].deliveredAt.None? && s.table.rows[d.id].quarantinedAt.None?
             && s.table.rows[d.id].leaseToken == Some(d.token)
    ensures var d := s.workers[w].held; var r, u := s.table.rows[d.id], Answered(s, w, reply, retryAt, stop).table.rows;
            var hopeless := reply.InvalidProof? || (reply.Rejected? && reply.status in {400, 409, 413, 422})
                            || (!reply.Accepted? && d.attempts >= 8);
            && d.id in u
            && u[d.id].deliveredAt == (if reply.Accepted? then Some(s.now) else None)
            && u[d.id].quarantinedAt == (if hopeless then Some(s.now) else None)
            && u[d.id].availableAt == (if reply.Accepted? || hopeless then r.availableAt else retryAt)
            && u[d.id].leaseToken.None? && u[d.id].leaseExpires.None?
            && (u[d.id].lastError.None? <==> reply.Accepted?)
  {
    AnsweredIs(s, w, reply, retryAt, stop);
  }

  /** The error stored with the row is the code of what went wrong. */
  lemma {:induction false} ReplyLeavesCode(s: System, w: nat, reply: Reply, retryAt: int, stop: bool)
    requires Enabled(s, Receive(w, reply)) && !reply.Accepted? && (reply.Rejected? ==> reply.status < 1000)
    requires var d := s.workers[w].held;
             && d.id in s.table.rows && s.table.rows[d.id].deliveredAt.None? && s.table.rows[d.id].quarantinedAt.None?
             && s.table.rows[d.id].leaseToken == Some(d.token)
    ensures var d := s.workers[w].held; var u := Answered(s, w, reply, retryAt, stop).table.rows;
            && d.id in u
            && u[d.id].lastError == Some(Decide(d.attempts, reply).1)
            && (reply == Rejected(422) ==> u[d.id].lastError == Some("http_422"))
  {
    AnsweredIs(s, w, reply, retryAt, stop);
    var d := s.workers[w].held;
    CodesArePlain(d.attempts, reply);
    PlainCodeStays(Decide(d.attempts, reply).1);
    DecideCodes(d.attempts);
    Code422();
  }

  lemma Code422()
    ensures "http_" + Print(422) == "http_422"
  {
    assert Print(42) == Print(4) + [Digit(2)];
    assert Print(4) == "4";
  }

  // ---------------------------------------------------------------- attempts

  ghost predicate AttemptsIncrease(log: seq<Event>) {
    forall i, j :: 0 <= i < j < |log| && log[i].Claimed? && log[j].Claimed? && log[i].id == log[j].id ==>
      log[i].attempts < log[j].attempts
  }

  lemma {:induction false} StepIncreasesAttempts(s: System, step: Step)
    requires ClaimsAccountedFor(s) && Enabled(s, step) && AttemptsIncrease(s.log)
    ensures AttemptsIncrease(Apply(s, step).log)
  {
  }

  function ClaimsOf(log: seq<Event>, id: nat): nat {
    if log == [] then 0
    else ClaimsOf(log[..|log| - 1], id) + (if log[|log| - 1].Claimed? && log[|log| - 1].id == id then 1 else 0)
  }

  ghost predicate AttemptsAreClaims(s: System) {
    && (forall id :: id in s.table.rows ==> s.table.rows[id].attempts == ClaimsOf(s.log, id))
    && (forall id :: id !in s.table.rows ==> ClaimsOf(s.log, id) == 0)
  }

  lemma {:induction false} ClaimsAppend(log: seq<Event>, e: Event, id: nat)
    ensures ClaimsOf(log + [e], id) == ClaimsOf(log, id) + (if e.Claimed? && e.id == id then 1 else 0)
  {
    assert (log + [e])[..|log|] == log;
  }

  lemma {:induction false} LogStep(s: System, step: Step) returns (e: Event)
    requires Enabled(s, step)
    ensures Apply(s, step).log == s.log || Apply(s, step).log == s.log + [e]
    ensures if step.ClaimRow? then Apply(s, step).log == s.log + [e] && e.Claimed? && e.id == step.id else !e.Claimed?
  {
    e := Settled(0, 0, AuditRetry);
    var t := Apply(s, step);
    if t.log != s.log {
      e := t.log[|s.log|];
    }
  }

  lemma {:induction false} AttemptsStep(s: System, step: Step, id: nat)
    requires TableOk(s.table) && Enabled(s, step)
    ensures var t := Apply(s, step).table;
            && (id in s.table.rows ==>
                  id in t.rows && t.rows[id].attempts == s.table.rows[id].attempts + (if step.ClaimRow? && step.id == id then 1 else 0))
            && (id !in s.table.rows && id in t.rows ==> t.rows[id].attempts == 0)
            && (id !in s.table.rows ==> !(step.ClaimRow? && step.id == id))
  {
    match step
    case Provision => UpgradeIsIdempotent(s.table, s.now);
    case Record(_) => assert s.table.nextId !in s.table.rows;
    case ClaimRow(_, _) =>
    case Finish(_, _, _) =>
    case _ => TableStays(s, step);
  }

  lemma {:induction false} StepCountsClaims(s: System, step: Step)
    requires TableOk(s.table) && Enabled(s, step) && AttemptsAreClaims(s)
    ensures AttemptsAreClaims(Apply(s, step))
  {
    var t := Apply(s, step);
    var e := LogStep(s, step);
    forall id
      ensures ClaimsOf(t.log, id) == ClaimsOf(s.log, id) + (if step.ClaimRow? && step.id == id then 1 else 0)
    {
      ClaimsAppend(s.log, e, id);
    }
    forall id
      ensures id in t.table.rows ==> t.table.rows[id].attempts == ClaimsOf(t.log, id)
      ensures id !in t.table.rows ==> ClaimsOf(t.log, id) == 0
    {
      AttemptsStep(s, step, id);
    }
  }

  /** A row's attempts are exactly the claims made of it since it was recorded. */
  lemma {:induction false} AttemptsCountClaims(legacy: Table, now: int, steps: seq<Step>)
    requires LegacyTable(legacy) && Valid(Initial(legacy, now), steps)
    ensures AttemptsAreClaims(Run(Initial(legacy, now), steps))
    decreases |steps|
  {
    var s := Initial(legacy, now);
    if steps == [] {
      UpgradedTableOk(legacy, now);
    } else {
      var prefix := steps[..|steps| - 1];
      AttemptsCountClaims(legacy, now, prefix);
      InitialInv(legacy, now);
      RunKeeps(s, prefix);
      StepCountsClaims(Run(s, prefix), steps[|steps| - 1]);
    }
  }

  /** Attempts on a row strictly increase with each claim. */
  lemma {:induction false} ClaimsCountUp(s: System, steps: seq<Step>)
    requires Inv(s) && Valid(s, steps) && AttemptsIncrease(s.log)
    ensures AttemptsIncrease(Run(s, steps).log)
    decreases |steps|
  {
    if steps != [] {
      var prefix := steps[..|steps| - 1];
      ClaimsCountUp(s, prefix);
      RunKeeps(s, prefix);
      StepIncreasesAttempts(Run(s, prefix), steps[|steps| - 1]);
    }
  }

  /** However often leases are lost, at most seven retries ever succeed on a row. */
  lemma {:induction false} AtMostSevenRetries(s: System, id: nat)
    requires Reachable(s)
    ensures Retries(s.log, id) <= 7
  {
    ReachableInv(s);
  }

  /** A finalize that takes effect at attempt eight or later leaves the row terminal. */
  lemma {:induction false} ExhaustedFinalizeIsTerminal(s: System, w: nat, retryAt: int, stop: bool)
    requires Reachable(s) && Enabled(s, Finish(w, retryAt, stop))
    requires Holds(s.table, s.workers[w].held.id, s.workers[w].held.token)
    ensures s.table.rows[s.workers[w].held.id].attempts >= MAXIMUM_ATTEMPTS ==>
              Terminal(Apply(s, Finish(w, retryAt, stop)).table.rows[s.workers[w].held.id])
  {
    ReachableInv(s);
    HolderKnowsAttempts(s, s.workers[w].held);
  }
}
