/**
 The protocol on one shared clock, with every timed call returning by its
 deadline: then no worker that is still running ever loses its lease.
 */
module AuditTiming {
  import opened Wrappers
  import opened AuditOutbox
  import opened AuditDelivery
  import opened AuditProtocol

  /** When the context a worker is waiting under expires. */
  function Deadline(k: Worker): int {
    match k
    case Finalizing(_, _, _, since, _, _) => since + FINALIZE_TIMEOUT
    case _ => k.start + DRAIN_TIMEOUT
  }

  /** Time passes no running worker's deadline, leases are read off the shared clock, an expired drain stops. */
  ghost predicate Timely(s: System, step: Step)
    requires Enabled(s, step)
  {
    match step
    case Tick(to) => forall w :: w in s.workers ==> to <= Deadline(s.workers[w])
    case ReadClock(_, clock) => clock == s.now
    case Finish(w, _, stop) => s.workers[w].start + DRAIN_TIMEOUT <= s.now ==> stop
    case Abandon(w) => s.now < s.workers[w].start + DRAIN_TIMEOUT
    case _ => true
  }

  ghost predicate TimelyRun(s: System, steps: seq<Step>)
    requires Valid(s, steps)
    decreases |steps|
  {
    steps == [] ||
    (TimelyRun(s, steps[..|steps| - 1]) && Timely(Run(s, steps[..|steps| - 1]), steps[|steps| - 1]))
  }

  predicate OnTime(s: System, k: Worker) {
    && k.start <= s.now <= Deadline(k)
    && (k.Finalizing? ==> k.since <= k.start + DRAIN_TIMEOUT)
    && (k.Claiming? ==> k.start + LEASE_DURATION <= k.until)
  }

  predicate KeepsLease(t: Table, k: Worker) {
    k.Delivering? || k.Finalizing? ==>
      && Holds(t, k.held.id, k.held.token)
      && t.rows[k.held.id].leaseExpires.Some?
      && k.start + LEASE_DURATION <= t.rows[k.held.id].leaseExpires.value
  }

  predicate HoldSameToken(j: Worker, k: Worker) {
    (j.Delivering? || j.Finalizing?) && (k.Delivering? || k.Finalizing?) && j.held.token == k.held.token
  }

  ghost predicate Punctual(s: System) {
    && (forall w :: w in s.workers ==> OnTime(s, s.workers[w]) && KeepsLease(s.table, s.workers[w]))
    && (forall v, w :: v in s.workers && w in s.workers && v != w ==> !HoldSameToken(s.workers[v], s.workers[w]))
  }

  lemma {:induction false} ClaimIsPunctual(s: System, w: nat, id: nat)
    requires TableOk(s.table) && Punctual(s) && Enabled(s, ClaimRow(w, id))
    ensures Punctual(Apply(s, ClaimRow(w, id)))
  {
    var u := Apply(s, ClaimRow(w, id));
    forall v | v in u.workers
      ensures OnTime(u, u.workers[v]) && KeepsLease(u.table, u.workers[v])
      ensures v != w ==> !HoldSameToken(u.workers[v], u.workers[w])
    {
      if v != w {
        var k := s.workers[v];
        assert OnTime(s, k) && KeepsLease(s.table, k);
        if k.Delivering? || k.Finalizing? {
          assert Deadline(k) < k.start + LEASE_DURATION;
          assert k.held.id != id;
        }
      }
    }
    forall v, x | v in u.workers && x in u.workers && v != x
      ensures !HoldSameToken(u.workers[v], u.workers[x])
    {
      if v != w && x != w {
        assert !HoldSameToken(s.workers[v], s.workers[x]);
      }
    }
  }

  lemma {:induction false} FinishIsPunctual(s: System, w: nat, retryAt: int, stop: bool)
    requires TableOk(s.table) && Punctual(s) && Enabled(s, Finish(w, retryAt, stop)) && Timely(s, Finish(w, retryAt, stop))
    ensures Punctual(Apply(s, Finish(w, retryAt, stop)))
  {
    var u := Apply(s, Finish(w, retryAt, stop));
    forall v | v in u.workers
      ensures OnTime(u, u.workers[v]) && KeepsLease(u.table, u.workers[v])
    {
      if v != w {
        var k := s.workers[v];
        assert KeepsLease(s.table, k) && !HoldSameToken(k, s.workers[w]);
        if k.Delivering? || k.Finalizing? {
          assert k.held.id != s.workers[w].held.id;
        }
      }
    }
  }

  lemma {:induction false} RowsArePunctual(s: System, step: Step)
    requires TableOk(s.table) && Punctual(s) && Enabled(s, step) && (step.Provision? || step.Record?)
    ensures Punctual(Apply(s, step))
  {
    if step.Provision? {
      UpgradeIsIdempotent(s.table, s.now);
    } else {
      assert s.table.nextId !in s.table.rows;
    }
  }

  lemma {:induction false} WorkIsPunctual(s: System, step: Step)
    requires Punctual(s) && Enabled(s, step) && Timely(s, step)
    requires !step.Provision? && !step.Record? && !step.ClaimRow? && !step.Finish?
    ensures Punctual(Apply(s, step))
  {
  }

  lemma {:induction false} StepIsPunctual(s: System, step: Step)
    requires TableOk(s.table) && Punctual(s) && Enabled(s, step) && Timely(s, step)
    ensures Punctual(Apply(s, step))
  {
    match step
    case ClaimRow(w, id) => ClaimIsPunctual(s, w, id);
    case Finish(w, retryAt, stop) => FinishIsPunctual(s, w, retryAt, stop);
    case Provision => RowsArePunctual(s, step);
    case Record(_) => RowsArePunctual(s, step);
    case _ => WorkIsPunctual(s, step);
  }

  lemma {:induction false} RunIsPunctual(s: System, steps: seq<Step>)
    requires Inv(s) && Punctual(s) && Valid(s, steps) && TimelyRun(s, steps)
    ensures Punctual(Run(s, steps))
    decreases |steps|
  {
    if steps != [] {
      var prefix := steps[..|steps| - 1];
      RunIsPunctual(s, prefix);
      RunKeeps(s, prefix);
      StepIsPunctual(Run(s, prefix), steps[|steps| - 1]);
    }
  }

  /**
   After any timely run, a worker about to finalize is within 32 seconds of
   its drain's start, and so of the clock reading its lease was cut from; its
   finalize is not fenced.
   */
  lemma {:induction false} RunningWorkerIsNeverFenced(legacy: Table, now: int, steps: seq<Step>, w: nat, f: Final)
    requires LegacyTable(legacy) && Valid(Initial(legacy, now), steps) && TimelyRun(Initial(legacy, now), steps)
    requires w in Run(Initial(legacy, now), steps).workers && Run(Initial(legacy, now), steps).workers[w].Finalizing?
    ensures var s := Run(Initial(legacy, now), steps);
            var k := s.workers[w];
            && s.now <= k.start + 32
            && Holds(s.table, k.held.id, k.held.token) && s.table.rows[k.held.id].leaseExpires.Some?
            && s.now <= s.table.rows[k.held.id].leaseExpires.value - LEASE_DURATION + 32
            && Finalize(s.table, k.held.id, k.held.token, f, s.now).1.Ok?
  {
    InitialInv(legacy, now);
    RunIsPunctual(Initial(legacy, now), steps);
  }
}
