/**
 DrainAudit, the bounded loop of one worker, as steps of the protocol. Between
 any two of its statements other workers, transactions and the clock take
 whatever steps they like.
 */
module AuditDrain {
  import opened Wrappers
  import opened Sequences
  import opened AuditOutbox
  import opened AuditDelivery
  import opened AuditProtocol
  import opened AuditStore

  /**
   What one pass meets: whether each database scope opens, the rows others
   hold locked, the clocks it reads, the reply, whether time is up, and what
   everyone else does before the claim, inside it, in transit and before the finalize.
   */
  datatype Pass = Pass(
    before: seq<Step>, claimable: bool, clock: int, claiming: seq<Step>, locked: set<nat>,
    transit: seq<Step>, reply: Reply, waiting: seq<Step>, finalizable: bool, retryClock: int, expired: bool)

  datatype DrainError =
    | ClaimFailed
    | FinalizeFailed(eventId: Uuid, fenced: bool)
    | DeliveryFailed(eventId: Uuid, code: string)

  datatype Outcome = Finalized | Fenced | Unreached

  /** One delivery of a drain: what was claimed, what the ingress said, and how its finalize ended. */
  datatype Attempt = Attempt(held: Delivery, reply: Reply, outcome: Outcome)

  /** What a drain reports of one attempt. */
  function ErrorsOf(a: Attempt): seq<DrainError> {
    (match a.outcome
     case Finalized => []
     case Fenced => [FinalizeFailed(a.held.eventId, true)]
     case Unreached => [FinalizeFailed(a.held.eventId, false)])
    + (if a.reply.Accepted? then [] else [DeliveryFailed(a.held.eventId, DeliverAudit(a.reply).1)])
  }

  function AllErrors(attempts: seq<Attempt>): seq<DrainError> {
    if attempts == [] then [] else AllErrors(attempts[..|attempts| - 1]) + ErrorsOf(attempts[|attempts| - 1])
  }

  lemma {:induction false} ErrorsAppend(attempts: seq<Attempt>, a: Attempt)
    ensures AllErrors(attempts + [a]) == AllErrors(attempts) + ErrorsOf(a)
  {
    assert (attempts + [a])[..|attempts|] == attempts;
  }

  lemma {:induction false} NoErrors(attempts: seq<Attempt>, i: nat)
    requires AllErrors(attempts) == [] && i < |attempts|
    ensures attempts[i].reply.Accepted? && attempts[i].outcome.Finalized?
    decreases |attempts|
  {
    if i < |attempts| - 1 {
      NoErrors(attempts[..|attempts| - 1], i);
    }
  }

  // ---------------------------------------------------------------- what the log keeps of an attempt

  ghost predicate WasClaimed(log: seq<Event>, from: nat, d: Delivery) {
    exists i :: from <= i < |log| && log[i].Claimed? && log[i].id == d.id && log[i].token == d.token && log[i].attempts == d.attempts
  }

  ghost predicate WasSettled(log: seq<Event>, from: nat, d: Delivery, disposition: Disposition) {
    exists i :: from <= i < |log| && log[i] == AuditProtocol.Settled(d.id, d.token, disposition)
  }

  /** The log shows the claim, the acceptance if the ingress took the event, and the settlement if there was one. */
  ghost predicate Shown(log: seq<Event>, from: nat, a: Attempt) {
    && WasClaimed(log, from, a.held)
    && (IngressTook(a.reply) ==> AcceptedFor(log, a.held.eventId, a.held.token))
    && (a.outcome.Finalized? ==> WasSettled(log, from, a.held, Decide(a.held.attempts, a.reply).0))
  }

  lemma {:induction false} ShownLater(log: seq<Event>, later: seq<Event>, from: nat, a: Attempt)
    requires Shown(log, from, a) && log <= later
    ensures Shown(later, from, a)
  {
    var i :| from <= i < |log| && log[i].Claimed? && log[i].id == a.held.id && log[i].token == a.held.token
             && log[i].attempts == a.held.attempts;
    assert later[i] == log[i];
    if a.outcome.Finalized? {
      var k :| from <= k < |log| && log[k] == AuditProtocol.Settled(a.held.id, a.held.token, Decide(a.held.attempts, a.reply).0);
      assert later[k] == log[k];
    }
    if IngressTook(a.reply) {
      AcceptedLater(log, later, a.held.eventId, a.held.token);
    }
  }

  lemma {:induction false} AcceptedLater(log: seq<Event>, later: seq<Event>, eventId: Uuid, token: Uuid)
    requires AcceptedFor(log, eventId, token) && log <= later
    ensures AcceptedFor(later, eventId, token)
  {
    var i :| 0 <= i < |log| && log[i] == IngressAccepted(eventId, token);
    assert later[i] == log[i];
  }

  // ---------------------------------------------------------------- steps

  lemma {:induction false} RunExtends(s: System, steps: seq<Step>, step: Step)
    requires Valid(s, steps) && Enabled(Run(s, steps), step)
    ensures Valid(s, steps + [step]) && Run(s, steps + [step]) == Apply(Run(s, steps), step)
  {
    assert (steps + [step])[..|steps|] == steps;
  }

  /**
   A valid run to a state. Valid and Run are reached only through TraceIs:
   the methods below need nothing of what the steps do.
   */
  ghost predicate Traced(s: System, steps: seq<Step>, t: System) {
    TracedAfter(s, steps, t, |steps| + 2)
  }

  ghost predicate TracedAfter(s: System, steps: seq<Step>, t: System, more: nat) {
    if more == 0 then Valid(s, steps) && t == Run(s, steps) else TracedAfter(s, steps, t, more - 1)
  }

  lemma {:induction false} TracedAfterSame(s: System, steps: seq<Step>, t: System, more: nat)
    ensures TracedAfter(s, steps, t, more) <==> TracedAfter(s, steps, t, 0)
  {
    if more > 0 {
      TracedAfterSame(s, steps, t, more - 1);
    }
  }

  lemma {:induction false} TraceIs(s: System, steps: seq<Step>, t: System)
    ensures Traced(s, steps, t) <==> Valid(s, steps) && t == Run(s, steps)
  {
    TracedAfterSame(s, steps, t, |steps| + 2);
  }

  method Advance(s: System, steps: seq<Step>, at: System, step: Step) returns (next: System, more: seq<Step>)
    requires Traced(s, steps, at) && Enabled(at, step)
    ensures more == steps + [step] && Traced(s, more, next) && next == Apply(at, step)
  {
    TraceIs(s, steps, at);
    RunExtends(s, steps, step);
    next, more := Apply(at, step), steps + [step];
    TraceIs(s, more, next);
  }

  /** The step is not one of this worker's. */
  predicate NotOf(step: Step, w: nat) {
    match step
    case Tick(_) | Record(_) | Provision => true
    case _ => step.w != w
  }

  /** The steps of a run that are this worker's. */
  function Own(steps: seq<Step>, w: nat): seq<Step> {
    if steps == [] then []
    else Own(steps[..|steps| - 1], w) + (if NotOf(steps[|steps| - 1], w) then [] else [steps[|steps| - 1]])
  }

  lemma {:induction false} OwnAppend(steps: seq<Step>, step: Step, w: nat)
    ensures Own(steps + [step], w) == Own(steps, w) + (if NotOf(step, w) then [] else [step])
  {
    assert (steps + [step])[..|steps|] == steps;
  }

  lemma {:induction false} OthersLeave(s: System, step: Step, w: nat)
    requires Enabled(s, step) && NotOf(step, w) && w in s.workers
    ensures w in Apply(s, step).workers && Apply(s, step).workers[w] == s.workers[w]
    ensures s.log <= Apply(s, step).log
  {
  }

  /** Everyone else's moves, as far as they are possible; the worker is left as it is. */
  method Others(s: System, steps: seq<Step>, at: System, w: nat, moves: seq<Step>) returns (next: System, more: seq<Step>)
    requires Traced(s, steps, at) && w in at.workers
    ensures Traced(s, more, next) && steps <= more && Own(more, w) == Own(steps, w)
    ensures w in next.workers && next.workers[w] == at.workers[w] && at.log <= next.log
  {
    next, more := at, steps;
    for i := 0 to |moves|
      invariant Traced(s, more, next) && steps <= more && Own(more, w) == Own(steps, w)
      invariant w in next.workers && next.workers[w] == at.workers[w] && at.log <= next.log
    {
      if NotOf(moves[i], w) && Enabled(next, moves[i]) {
        OthersLeave(next, moves[i], w);
        OwnAppend(more, moves[i], w);
        next, more := Advance(s, more, next, moves[i]);
      }
    }
  }

  /** Every row no one else holds locked is settled, or not due yet, or under a lease that has not expired. */
  predicate NothingDue(t: Table, locked: set<nat>, now: int) {
    forall i :: i in t.rows && i !in locked ==>
      var r := t.rows[i];
      r.deliveredAt.Some? || r.quarantinedAt.Some? || r.availableAt > now || (r.leaseExpires.Some? && r.leaseExpires.value >= now)
  }

  /** Step n claims this row, the first of those that were ready then. */
  ghost predicate ClaimsFirst(s: System, steps: seq<Step>, n: nat, w: nat, id: nat, locked: set<nat>) {
    && n < |steps| && steps[n] == ClaimRow(w, id) && Valid(s, steps[..n])
    && var u := Run(s, steps[..n]);
       IsFirst(u.table, {id}, AuditStore.Ready(u.table, locked, u.now), 1)
  }

  /** The worker claimed the row when it was the first that was ready. */
  ghost predicate ClaimedFirst(s: System, steps: seq<Step>, w: nat, id: nat, locked: set<nat>) {
    exists n: nat :: ClaimsFirst(s, steps, n, w, id, locked)
  }

  lemma {:induction false} FirstStays(s: System, steps: seq<Step>, more: seq<Step>, w: nat, id: nat, locked: set<nat>)
    requires ClaimedFirst(s, steps, w, id, locked) && steps <= more
    ensures ClaimedFirst(s, more, w, id, locked)
  {
    var n: nat :| ClaimsFirst(s, steps, n, w, id, locked);
    assert more[..n] == steps[..n] && more[n] == steps[n];
    assert ClaimsFirst(s, more, n, w, id, locked);
  }

  lemma {:induction false} FirstNow(s: System, steps: seq<Step>, w: nat, id: nat, locked: set<nat>)
    requires Valid(s, steps)
    requires var u := Run(s, steps); IsFirst(u.table, {id}, AuditStore.Ready(u.table, locked, u.now), 1)
    ensures ClaimedFirst(s, steps + [ClaimRow(w, id)], w, id, locked)
  {
    assert (steps + [ClaimRow(w, id)])[..|steps|] == steps;
    assert ClaimsFirst(s, steps + [ClaimRow(w, id)], |steps|, w, id, locked);
  }

  /** claimAudit: at most one row, the first in (available_at, id) order that is claimable and not locked. */
  method ClaimOne(t: Table, locked: set<nat>, now: int) returns (id: Option<nat>)
    ensures id.None? <==> AuditStore.Ready(t, locked, now) == {}
    ensures id.Some? ==> IsFirst(t, {id.value}, AuditStore.Ready(t, locked, now), 1)
    ensures id.None? ==> NothingDue(t, locked, now)
  {
    var ready := AuditStore.Ready(t, locked, now);
    if ready == {} {
      assert forall i :: i in t.rows && i !in locked ==> i !in ready;
      return None;
    }
    var first := Earliest(t, ready);
    OneOfSome(ready, first);
    id := Some(first);
  }

  lemma OneOfSome(s: set<nat>, x: nat)
    requires x in s
    ensures |s| >= 1 && (|s| <= 1 ==> s == {x})
  {
    assert {x} <= s;
    assert s == {x} + (s - {x});
  }

  /** The claim statement of one pass. */
  method ClaimNow(s: System, steps: seq<Step>, at: System, w: nat, locked: set<nat>) returns (next: System, more: seq<Step>, claimed: bool)
    requires Traced(s, steps, at) && w in at.workers && at.workers[w].Claiming?
    ensures Traced(s, more, next) && at.log <= next.log
    ensures claimed ==>
              && w in next.workers && next.workers[w].Delivering? && next.workers[w].processed == at.workers[w].processed
              && |next.log| > |at.log| && ClaimedLast(next.log, next.workers[w].held)
              && more == steps + [ClaimRow(w, next.workers[w].held.id)] && ClaimedFirst(s, more, w, next.workers[w].held.id, locked)
    ensures !claimed ==> w !in next.workers && NothingDue(next.table, locked, next.now) && more == steps + [ClaimNothing(w)]
  {
    var id := ClaimOne(at.table, locked, at.now);
    if id.None? {
      next, more := Advance(s, steps, at, ClaimNothing(w));
      return next, more, false;
    }
    assert id.value in AuditStore.Ready(at.table, locked, at.now);
    TraceIs(s, steps, at);
    FirstNow(s, steps, w, id.value, locked);
    next, more := Advance(s, steps, at, ClaimRow(w, id.value));
    claimed := true;
  }

  /** The claim of one pass, with the rest of the world moving on around it. */
  method ClaimPass(s: System, steps: seq<Step>, at: System, w: nat, p: Pass) returns (next: System, more: seq<Step>, claimed: bool)
    requires Traced(s, steps, at)
    requires w in at.workers && at.workers[w].Ready? && at.workers[w].processed < DRAIN_BATCH
    ensures Traced(s, more, next) && at.log <= next.log && steps <= more
    ensures claimed ==>
              && w in next.workers && next.workers[w].Delivering? && next.workers[w].processed == at.workers[w].processed
              && |next.log| > |at.log| && ClaimedLast(next.log, next.workers[w].held)
              && Own(more, w) == Own(steps, w) + [ReadClock(w, p.clock), ClaimRow(w, next.workers[w].held.id)]
              && ClaimedFirst(s, more, w, next.workers[w].held.id, p.locked)
    ensures !claimed ==>
              && w !in next.workers && NothingDue(next.table, p.locked, next.now)
              && Own(more, w) == Own(steps, w) + [ReadClock(w, p.clock), ClaimNothing(w)]
  {
    var read, waited;
    next, read := Advance(s, steps, at, ReadClock(w, p.clock));
    next, waited := Others(s, read, next, w, p.claiming);
    next, more, claimed := ClaimNow(s, waited, next, w, p.locked);
    OwnTwo(steps, ReadClock(w, p.clock), read, waited, more[|waited|], more, w);
  }

  /** Two steps of the worker's, with others' in between and after the first. */
  lemma {:induction false} OwnTwo(steps: seq<Step>, a: Step, first: seq<Step>, waited: seq<Step>, b: Step, more: seq<Step>, w: nat)
    requires first == steps + [a] && !NotOf(a, w) && Own(waited, w) == Own(first, w)
    requires more == waited + [b] && !NotOf(b, w)
    ensures Own(more, w) == Own(steps, w) + [a, b]
  {
    OwnAppend(steps, a, w);
    OwnAppend(waited, b, w);
  }

  predicate ClaimedLast(log: seq<Event>, d: Delivery) {
    && log != []
    && var e := log[|log| - 1];
       e.Claimed? && e.id == d.id && e.token == d.token && e.attempts == d.attempts
  }

  /** finalizeAudit: one fenced statement, if its database scope opens. */
  method FinalizePass(s: System, steps: seq<Step>, at: System, w: nat, reachable: bool, retryAt: int)
    returns (next: System, more: seq<Step>, outcome: Outcome)
    requires Traced(s, steps, at)
    requires w in at.workers && at.workers[w].Finalizing?
    ensures Traced(s, more, next)
    ensures more == steps + [if reachable then Finish(w, retryAt, false) else Abandon(w)]
    ensures w in next.workers && next.workers[w] == Ready(at.workers[w].start, at.workers[w].processed + 1)
    ensures outcome.Unreached? <==> !reachable
    ensures var k := at.workers[w];
            next.log == if outcome.Finalized? then at.log + [AuditProtocol.Settled(k.held.id, k.held.token, k.disposition)] else at.log
  {
    var k := at.workers[w];
    if reachable {
      var settled := Finalize(at.table, k.held.id, k.held.token, FinalOf(k.disposition, k.code, retryAt), at.now).1.Ok?;
      outcome := if settled then Finalized else Fenced;
      next, more := Advance(s, steps, at, Finish(w, retryAt, false));
    } else {
      outcome := Unreached;
      next, more := Advance(s, steps, at, Abandon(w));
    }
  }

  /** deliverAudit: the reply, with no scope held. */
  method ReceivePass(s: System, steps: seq<Step>, at: System, w: nat, reply: Reply) returns (next: System, more: seq<Step>)
    requires Traced(s, steps, at)
    requires w in at.workers && at.workers[w].Delivering?
    ensures Traced(s, more, next) && more == steps + [Receive(w, reply)]
    ensures var held := at.workers[w].held;
            && w in next.workers && next.workers[w].Finalizing? && next.workers[w].held == held
            && next.workers[w].start == at.workers[w].start && next.workers[w].processed == at.workers[w].processed
            && next.workers[w].disposition == Decide(held.attempts, reply).0
            && next.log == if IngressTook(reply) then at.log + [IngressAccepted(held.eventId, held.token)] else at.log
  {
    next, more := Advance(s, steps, at, Receive(w, reply));
  }

  /** The finalize, with the retry time a retry would get, or the pass given up without one. */
  function LastStep(attempts: int, p: Pass, w: nat): Step {
    if p.finalizable then Finish(w, p.retryClock + RetryBackoff(attempts), false) else Abandon(w)
  }

  /** The delivery itself, up to the finalize; received is the log as the reply came in. */
  method Send(s: System, steps: seq<Step>, at: System, w: nat, p: Pass)
    returns (next: System, more: seq<Step>, ghost received: seq<Event>)
    requires Traced(s, steps, at) && w in at.workers && at.workers[w].Delivering?
    ensures Traced(s, more, next) && steps <= more && Own(more, w) == Own(steps, w) + [Receive(w, p.reply)]
    ensures w in next.workers && next.workers[w].Finalizing?
    ensures var k, held := next.workers[w], at.workers[w].held;
            && k.held == held && k.start == at.workers[w].start && k.processed == at.workers[w].processed
            && k.disposition == Decide(held.attempts, p.reply).0
            && at.log <= received <= next.log
            && (IngressTook(p.reply) ==> received != [] && received[|received| - 1] == IngressAccepted(held.eventId, held.token))
  {
    var sent, answered;
    next, sent := Others(s, steps, at, w, p.transit);
    next, answered := ReceivePass(s, sent, next, w, p.reply);
    received := next.log;
    next, more := Others(s, answered, next, w, p.waiting);
    OwnAppend(sent, Receive(w, p.reply), w);
  }

  /** What follows a claim: deliver with no scope held, then finalize. */
  method Deliver(s: System, steps: seq<Step>, at: System, w: nat, p: Pass, ghost from: nat)
    returns (next: System, more: seq<Step>, attempt: Attempt)
    requires Traced(s, steps, at)
    requires w in at.workers && at.workers[w].Delivering? && WasClaimed(at.log, from, at.workers[w].held)
    ensures Traced(s, more, next) && at.log <= next.log && steps <= more
    ensures Own(more, w) == Own(steps, w) + [Receive(w, p.reply), LastStep(at.workers[w].held.attempts, p, w)]
    ensures w in next.workers && next.workers[w] == Ready(at.workers[w].start, at.workers[w].processed + 1)
    ensures attempt.held == at.workers[w].held && attempt.reply == p.reply
    ensures attempt.outcome.Unreached? <==> !p.finalizable
    ensures Shown(next.log, from, attempt)
  {
    var held := at.workers[w].held;
    var answered, outcome;
    ghost var received;
    next, answered, received := Send(s, steps, at, w, p);
    ghost var waited := next.log;
    next, more, outcome := FinalizePass(s, answered, next, w, p.finalizable, p.retryClock + RetryBackoff(held.attempts));
    attempt := Attempt(held, p.reply, outcome);
    ShownAfter(at.log, received, waited, next.log, attempt, from);
    OwnNext(Own(steps, w), Receive(w, p.reply), answered, LastStep(held.attempts, p, w), more, w);
  }

  lemma {:induction false} OwnNext(own: seq<Step>, a: Step, steps: seq<Step>, b: Step, more: seq<Step>, w: nat)
    requires Own(steps, w) == own + [a] && more == steps + [b] && !NotOf(b, w)
    ensures Own(more, w) == own + [a, b]
  {
    OwnAppend(steps, b, w);
  }

  lemma {:induction false} ShownAfter(claimed: seq<Event>, received: seq<Event>, waited: seq<Event>, last: seq<Event>, a: Attempt, from: nat)
    requires claimed <= received <= waited <= last && WasClaimed(claimed, from, a.held)
    requires IngressTook(a.reply) ==> received != [] && received[|received| - 1] == IngressAccepted(a.held.eventId, a.held.token)
    requires a.outcome.Finalized? ==>
               last == waited + [AuditProtocol.Settled(a.held.id, a.held.token, Decide(a.held.attempts, a.reply).0)]
    ensures Shown(last, from, a)
  {
    if IngressTook(a.reply) {
      assert last[|received| - 1] == IngressAccepted(a.held.eventId, a.held.token);
    }
    var i :| from <= i < |claimed| && claimed[i].Claimed? && claimed[i].id == a.held.id && claimed[i].token == a.held.token
             && claimed[i].attempts == a.held.attempts;
    assert last[i] == claimed[i];
    if a.outcome.Finalized? {
      assert last[|waited|] == AuditProtocol.Settled(a.held.id, a.held.token, Decide(a.held.attempts, a.reply).0);
    }
  }

  /** How one pass of the loop ends: no scope for the claim, nothing to claim, or an attempt. */
  datatype PassEnd = NoScope | NothingReady | Tried(attempt: Attempt)

  /** The worker's four steps of an attempt. */
  function AttemptSteps(a: Attempt, p: Pass, w: nat): seq<Step> {
    [ReadClock(w, p.clock), ClaimRow(w, a.held.id)] + [Receive(w, p.reply), LastStep(a.held.attempts, p, w)]
  }

  method DrainPass(s: System, steps: seq<Step>, at: System, w: nat, p: Pass)
    returns (next: System, more: seq<Step>, end: PassEnd)
    requires Traced(s, steps, at)
    requires w in at.workers && at.workers[w].Ready? && at.workers[w].processed < DRAIN_BATCH
    ensures Traced(s, more, next) && at.log <= next.log && steps <= more
    ensures end.NoScope? <==> !p.claimable
    ensures end.NoScope? ==> Own(more, w) == Own(steps, w)
    ensures w in next.workers <==> !end.NothingReady?
    ensures end.NothingReady? ==>
              NothingDue(next.table, p.locked, next.now) && Own(more, w) == Own(steps, w) + [ReadClock(w, p.clock), ClaimNothing(w)]
    ensures end.Tried? ==>
              && next.workers[w].Ready? && next.workers[w].processed == at.workers[w].processed + 1
              && end.attempt.reply == p.reply && (end.attempt.outcome.Unreached? <==> !p.finalizable)
              && Shown(next.log, |at.log|, end.attempt)
              && Own(more, w) == Own(steps, w) + AttemptSteps(end.attempt, p, w)
              && ClaimedFirst(s, more, w, end.attempt.held.id, p.locked)
  {
    next, more := Others(s, steps, at, w, p.before);
    if !p.claimable {
      return next, more, NoScope;
    }
    var claimed;
    next, more, claimed := ClaimPass(s, more, next, w, p);
    if !claimed {
      return next, more, NothingReady;
    }
    var attempt;
    ghost var claim := more;
    ClaimIsShown(next.log, |at.log|, next.workers[w].held);
    next, more, attempt := Deliver(s, more, next, w, p, |at.log|);
    FirstStays(s, claim, more, w, attempt.held.id, p.locked);
    end := Tried(attempt);
  }

  ghost predicate AllShown(log: seq<Event>, from: nat, attempts: seq<Attempt>) {
    forall i :: 0 <= i < |attempts| ==> Shown(log, from, attempts[i])
  }

  /** Each attempt had its pass's reply, and could be finalized exactly when the pass's scope opened. */
  predicate Answered(attempts: seq<Attempt>, passes: seq<Pass>) {
    && |attempts| <= |passes|
    && forall i :: 0 <= i < |attempts| ==>
         attempts[i].reply == passes[i].reply && (attempts[i].outcome.Unreached? <==> !passes[i].finalizable)
  }

  /** Each attempt was for the first row that was ready when it was claimed. */
  ghost predicate AllFirst(s: System, steps: seq<Step>, w: nat, attempts: seq<Attempt>, passes: seq<Pass>) {
    |attempts| <= |passes| && forall i :: 0 <= i < |attempts| ==> ClaimedFirst(s, steps, w, attempts[i].held.id, passes[i].locked)
  }

  /** The worker's steps over its attempts, one pass after the other. */
  function Script(attempts: seq<Attempt>, passes: seq<Pass>, w: nat): seq<Step>
    requires |attempts| <= |passes|
  {
    if attempts == [] then []
    else
      var n := |attempts| - 1;
      Script(attempts[..n], passes, w) + AttemptSteps(attempts[n], passes[n], w)
  }

  /** Why a drain stops: its batch is used up, its time is, a claim finds no scope, or nothing to claim. */
  datatype Ending = BatchUsed | TimeUp | ClaimRefused | NothingLeft

  /** The passes so far made their attempts in time. */
  predicate WentOn(passes: seq<Pass>, n: nat) {
    n <= |passes| && forall i :: 0 <= i < n ==> passes[i].claimable && !passes[i].expired
  }

  /** The first k passes made their attempts, and it ended there for this reason. */
  predicate Ended(passes: seq<Pass>, k: nat, ending: Ending) {
    match ending
    case BatchUsed => k == 16 && WentOn(passes, 16)
    case TimeUp => 1 <= k <= 16 && k <= |passes| && WentOn(passes, k - 1) && passes[k - 1].claimable && passes[k - 1].expired
    case ClaimRefused => k < 16 && WentOn(passes, k) && k < |passes| && !passes[k].claimable
    case NothingLeft => k < 16 && WentOn(passes, k) && k < |passes| && passes[k].claimable
  }

  /** A drain's last steps: a claim that finds nothing, or simply leaving. */
  function Parting(passes: seq<Pass>, k: nat, ending: Ending, w: nat): seq<Step>
    requires ending.NothingLeft? ==> k < |passes|
  {
    if ending.NothingLeft? then [ReadClock(w, passes[k].clock), ClaimNothing(w)] else [Leave(w)]
  }

  /** What a drain that ended has to show. */
  ghost predicate Drained(s: System, w: nat, passes: seq<Pass>, t: System, errors: seq<DrainError>, attempts: seq<Attempt>,
                          steps: seq<Step>, ending: Ending) {
    && Ended(passes, |attempts|, ending) && w !in t.workers
    && |attempts| <= |passes| && Kept(s, w, passes, t, attempts, steps)
    && Own(steps, w) == [Begin(w)] + Script(attempts, passes, w) + Parting(passes, |attempts|, ending, w)
    && (ending.NothingLeft? ==> NothingDue(t.table, passes[|attempts|].locked, t.now))
    && errors == AllErrors(attempts) + if ending.ClaimRefused? then [ClaimFailed] else []
  }

  /**
   The drain is a run of the protocol in which this worker takes these steps
   and no others: an attempt a pass, each for the first row ready then, until
   sixteen are made, time is up, a claim has no scope, or nothing is due. The
   log shows each attempt, and the errors are those of the attempts in order,
   with a failed claim last.
   */
  method DrainAudit(s: System, w: nat, passes: seq<Pass>)
    returns (t: System, errors: seq<DrainError>, attempts: seq<Attempt>, steps: seq<Step>, ending: Ending)
    requires w !in s.workers && |passes| >= DRAIN_BATCH
    ensures Valid(s, steps) && t == Run(s, steps) && w !in t.workers && s.log <= t.log
    ensures Ended(passes, |attempts|, ending)
    ensures Own(steps, w) == [Begin(w)] + Script(attempts, passes, w) + Parting(passes, |attempts|, ending, w)
    ensures ending.NothingLeft? ==> NothingDue(t.table, passes[|attempts|].locked, t.now)
    ensures Answered(attempts, passes) && AllShown(t.log, |s.log|, attempts) && AllFirst(s, steps, w, attempts, passes)
    ensures errors == AllErrors(attempts) + if ending.ClaimRefused? then [ClaimFailed] else []
  {
    errors, attempts := [], [];
    OwnAppend([], Begin(w), w);
    TraceIs(s, [], s);
    t, steps := Advance(s, [], s, Begin(w));
    KeptIs(s, w, passes, t, attempts, steps);
    var stop: Option<Ending> := None;
    for processed := 0 to DRAIN_BATCH
      invariant |attempts| == processed && stop.None?
      invariant Goes(s, w, passes, t, errors, attempts, steps)
    {
      t, errors, attempts, steps, stop := OnePass(s, w, passes, t, errors, attempts, steps);
      if stop.Some? {
        ending := stop.value;
        KeptIs(s, w, passes, t, attempts, steps);
        TraceIs(s, steps, t);
        return;
      }
    }
    t, steps := Depart(s, w, passes, t, attempts, steps);
    ending := BatchUsed;
    KeptIs(s, w, passes, t, attempts, steps);
    TraceIs(s, steps, t);
  }

  /** A drain between two passes. */
  ghost predicate Goes(s: System, w: nat, passes: seq<Pass>, t: System, errors: seq<DrainError>, attempts: seq<Attempt>, steps: seq<Step>) {
    && Traced(s, steps, t) && Sofar(s, w, passes, t, attempts, steps) && errors == AllErrors(attempts)
    && w in t.workers && t.workers[w].Ready? && t.workers[w].processed == |attempts| && WentOn(passes, |attempts|)
  }

  /** One pass of the loop, and the drain's end if it is the last. */
  method OnePass(s: System, w: nat, passes: seq<Pass>, at: System, before: seq<DrainError>, made: seq<Attempt>, past: seq<Step>)
    returns (t: System, errors: seq<DrainError>, attempts: seq<Attempt>, steps: seq<Step>, stop: Option<Ending>)
    requires Goes(s, w, passes, at, before, made, past) && |made| < DRAIN_BATCH <= |passes|
    ensures stop.None? ==> Goes(s, w, passes, t, errors, attempts, steps) && |attempts| == |made| + 1
    ensures stop.Some? ==> Drained(s, w, passes, t, errors, attempts, steps, stop.value)
  {
    var end;
    t, steps, end := DrainPass(s, past, at, w, passes[|made|]);
    errors, attempts, stop := before, made, None;
    if end.NothingReady? {
      stop := Some(NothingLeft);
      Moved(s, w, passes, at, attempts, past, t, steps, Parting(passes, |made|, NothingLeft, w));
    } else if end.NoScope? {
      Moved(s, w, passes, at, attempts, past, t, steps, []);
      t, steps := Depart(s, w, passes, t, attempts, steps);
      errors, stop := errors + [ClaimFailed], Some(ClaimRefused);
    } else {
      Another(s, w, passes, at, attempts, past, t, steps, end.attempt);
      attempts, errors := attempts + [end.attempt], errors + ErrorsOf(end.attempt);
      t, steps, stop := Continue(s, w, passes, t, errors, attempts, steps);
    }
  }

  /** After an attempt: the next pass, unless time is up. */
  method Continue(s: System, w: nat, passes: seq<Pass>, at: System, ghost errors: seq<DrainError>, attempts: seq<Attempt>, past: seq<Step>)
    returns (t: System, steps: seq<Step>, stop: Option<Ending>)
    requires 1 <= |attempts| <= 16 && |attempts| <= |passes| && passes[|attempts| - 1].claimable && WentOn(passes, |attempts| - 1)
    requires Traced(s, past, at) && Sofar(s, w, passes, at, attempts, past) && errors == AllErrors(attempts)
    requires w in at.workers && at.workers[w].Ready? && at.workers[w].processed == |attempts|
    ensures stop.None? ==> Goes(s, w, passes, t, errors, attempts, steps)
    ensures stop.Some? ==> Drained(s, w, passes, t, errors, attempts, steps, stop.value)
  {
    t, steps, stop := at, past, None;
    if passes[|attempts| - 1].expired {
      t, steps := Depart(s, w, passes, t, attempts, steps);
      stop := Some(TimeUp);
    }
  }

  /** The worker leaves, with what it has to show. */
  method Depart(s: System, w: nat, passes: seq<Pass>, at: System, ghost attempts: seq<Attempt>, before: seq<Step>)
    returns (t: System, steps: seq<Step>)
    requires Traced(s, before, at) && Sofar(s, w, passes, at, attempts, before) && w in at.workers
    ensures Kept(s, w, passes, t, attempts, steps) && w !in t.workers
    ensures Own(steps, w) == [Begin(w)] + Script(attempts, passes, w) + [Leave(w)]
  {
    t, steps := Stop(s, before, at, w);
    OwnAppend(before, Leave(w), w);
    Moved(s, w, passes, at, attempts, before, t, steps, [Leave(w)]);
  }

  /** What a drain has to show for its attempts, in any state after the last of them; like Traced, it is opened by a lemma. */
  ghost predicate Kept(s: System, w: nat, passes: seq<Pass>, t: System, attempts: seq<Attempt>, steps: seq<Step>) {
    KeptAfter(s, w, passes, t, attempts, steps, |steps| + 2)
  }

  ghost predicate KeptAfter(s: System, w: nat, passes: seq<Pass>, t: System, attempts: seq<Attempt>, steps: seq<Step>, more: nat) {
    if more > 0 then KeptAfter(s, w, passes, t, attempts, steps, more - 1)
    else
      && Traced(s, steps, t) && s.log <= t.log
      && Answered(attempts, passes) && AllShown(t.log, |s.log|, attempts) && AllFirst(s, steps, w, attempts, passes)
  }

  lemma {:induction false} KeptAfterSame(s: System, w: nat, passes: seq<Pass>, t: System, attempts: seq<Attempt>, steps: seq<Step>, more: nat)
    ensures KeptAfter(s, w, passes, t, attempts, steps, more) <==> KeptAfter(s, w, passes, t, attempts, steps, 0)
  {
    if more > 0 {
      KeptAfterSame(s, w, passes, t, attempts, steps, more - 1);
    }
  }

  lemma {:induction false} KeptIs(s: System, w: nat, passes: seq<Pass>, t: System, attempts: seq<Attempt>, steps: seq<Step>)
    ensures Kept(s, w, passes, t, attempts, steps) <==>
              && Traced(s, steps, t) && s.log <= t.log
              && Answered(attempts, passes) && AllShown(t.log, |s.log|, attempts) && AllFirst(s, steps, w, attempts, passes)
  {
    KeptAfterSame(s, w, passes, t, attempts, steps, |steps| + 2);
  }

  ghost predicate Sofar(s: System, w: nat, passes: seq<Pass>, t: System, attempts: seq<Attempt>, steps: seq<Step>) {
    |attempts| <= |passes| && Kept(s, w, passes, t, attempts, steps) && Own(steps, w) == [Begin(w)] + Script(attempts, passes, w)
  }

  /** The world, or the worker, has moved on without a new attempt. */
  lemma {:induction false} Moved(s: System, w: nat, passes: seq<Pass>, at: System, attempts: seq<Attempt>,
                                 before: seq<Step>, t: System, steps: seq<Step>, own: seq<Step>)
    requires Sofar(s, w, passes, at, attempts, before)
    requires Traced(s, steps, t) && at.log <= t.log && before <= steps && Own(steps, w) == Own(before, w) + own
    ensures Kept(s, w, passes, t, attempts, steps)
    ensures Own(steps, w) == [Begin(w)] + Script(attempts, passes, w) + own
  {
    KeptIs(s, w, passes, at, attempts, before);
    StillShown(at.log, t.log, |s.log|, attempts);
    StillFirst(s, before, steps, w, attempts, passes);
    KeptIs(s, w, passes, t, attempts, steps);
  }

  /** One more attempt. */
  lemma {:induction false} Another(s: System, w: nat, passes: seq<Pass>, at: System, attempts: seq<Attempt>,
                                   before: seq<Step>, t: System, steps: seq<Step>, a: Attempt)
    requires Sofar(s, w, passes, at, attempts, before) && |attempts| < |passes|
    requires Traced(s, steps, t) && at.log <= t.log && before <= steps
    requires Own(steps, w) == Own(before, w) + AttemptSteps(a, passes[|attempts|], w)
    requires a.reply == passes[|attempts|].reply && (a.outcome.Unreached? <==> !passes[|attempts|].finalizable)
    requires Shown(t.log, |at.log|, a) && ClaimedFirst(s, steps, w, a.held.id, passes[|attempts|].locked)
    ensures Sofar(s, w, passes, t, attempts + [a], steps) && AllErrors(attempts + [a]) == AllErrors(attempts) + ErrorsOf(a)
  {
    Moved(s, w, passes, at, attempts, before, t, steps, AttemptSteps(a, passes[|attempts|], w));
    KeptLog(s, w, passes, at, attempts, before);
    OneMoreKept(s, w, passes, |at.log|, t, attempts, steps, a);
    ScriptGrows(attempts, a, passes, w, Own(steps, w));
    ErrorsAppend(attempts, a);
  }

  lemma {:induction false} KeptLog(s: System, w: nat, passes: seq<Pass>, t: System, attempts: seq<Attempt>, steps: seq<Step>)
    requires Kept(s, w, passes, t, attempts, steps)
    ensures s.log <= t.log
  {
    KeptIs(s, w, passes, t, attempts, steps);
  }

  lemma {:induction false} ScriptGrows(attempts: seq<Attempt>, a: Attempt, passes: seq<Pass>, w: nat, own: seq<Step>)
    requires |attempts| < |passes|
    requires own == [Begin(w)] + Script(attempts, passes, w) + AttemptSteps(a, passes[|attempts|], w)
    ensures own == [Begin(w)] + Script(attempts + [a], passes, w)
  {
    ScriptAppend(attempts, a, passes, w);
    Regroup([Begin(w)], Script(attempts, passes, w), AttemptSteps(a, passes[|attempts|], w));
  }

  lemma {:induction false} OneMoreKept(s: System, w: nat, passes: seq<Pass>, from: nat, t: System, attempts: seq<Attempt>, steps: seq<Step>, a: Attempt)
    requires Kept(s, w, passes, t, attempts, steps) && |attempts| < |passes| && |s.log| <= from
    requires a.reply == passes[|attempts|].reply && (a.outcome.Unreached? <==> !passes[|attempts|].finalizable)
    requires Shown(t.log, from, a) && ClaimedFirst(s, steps, w, a.held.id, passes[|attempts|].locked)
    ensures Kept(s, w, passes, t, attempts + [a], steps)
  {
    KeptIs(s, w, passes, t, attempts, steps);
    AttemptAdds(from, t.log, |s.log|, attempts, a, passes);
    AttemptFirst(s, steps, w, attempts, a, passes);
    KeptIs(s, w, passes, t, attempts + [a], steps);
  }

  lemma {:induction false} ScriptAppend(attempts: seq<Attempt>, a: Attempt, passes: seq<Pass>, w: nat)
    requires |attempts| < |passes|
    ensures Script(attempts + [a], passes, w) == Script(attempts, passes, w) + AttemptSteps(a, passes[|attempts|], w)
  {
    assert (attempts + [a])[..|attempts|] == attempts;
  }

  lemma {:induction false} StillFirst(s: System, steps: seq<Step>, more: seq<Step>, w: nat, attempts: seq<Attempt>, passes: seq<Pass>)
    requires AllFirst(s, steps, w, attempts, passes) && steps <= more
    ensures AllFirst(s, more, w, attempts, passes)
  {
    forall i | 0 <= i < |attempts|
      ensures ClaimedFirst(s, more, w, attempts[i].held.id, passes[i].locked)
    {
      FirstStays(s, steps, more, w, attempts[i].held.id, passes[i].locked);
    }
  }

  lemma {:induction false} AttemptFirst(s: System, steps: seq<Step>, w: nat, attempts: seq<Attempt>, a: Attempt, passes: seq<Pass>)
    requires AllFirst(s, steps, w, attempts, passes) && |attempts| < |passes|
    requires ClaimedFirst(s, steps, w, a.held.id, passes[|attempts|].locked)
    ensures AllFirst(s, steps, w, attempts + [a], passes)
  {
  }

  method Stop(s: System, steps: seq<Step>, at: System, w: nat) returns (next: System, more: seq<Step>)
    requires Traced(s, steps, at) && w in at.workers
    ensures Traced(s, more, next) && w !in next.workers && next.log == at.log && more == steps + [Leave(w)]
  {
    next, more := Advance(s, steps, at, Leave(w));
  }

  lemma {:induction false} AttemptAdds(later: nat, log: seq<Event>, from: nat, attempts: seq<Attempt>, a: Attempt, passes: seq<Pass>)
    requires from <= later && AllShown(log, from, attempts) && Shown(log, later, a)
    requires Answered(attempts, passes) && |attempts| < |passes| && a.reply == passes[|attempts|].reply
    requires a.outcome.Unreached? <==> !passes[|attempts|].finalizable
    ensures AllShown(log, from, attempts + [a]) && Answered(attempts + [a], passes)
  {
    assert Shown(log, from, a);
  }

  lemma {:induction false} ClaimIsShown(log: seq<Event>, from: nat, d: Delivery)
    requires from < |log| && ClaimedLast(log, d)
    ensures WasClaimed(log, from, d)
  {
    assert log[|log| - 1].Claimed?;
  }

  lemma {:induction false} StillShown(log: seq<Event>, later: seq<Event>, from: nat, attempts: seq<Attempt>)
    requires log <= later && AllShown(log, from, attempts)
    ensures AllShown(later, from, attempts)
  {
    forall i | 0 <= i < |attempts|
      ensures Shown(later, from, attempts[i])
    {
      ShownLater(log, later, from, attempts[i]);
    }
  }

  /** A drain without errors acknowledged every event it claimed, under the token of the claim. */
  lemma {:induction false} CleanDrainAcknowledges(log: seq<Event>, from: nat, attempts: seq<Attempt>, i: nat)
    requires AllErrors(attempts) == [] && i < |attempts| && Shown(log, from, attempts[i])
    ensures WasSettled(log, from, attempts[i].held, AuditAcknowledge)
    ensures AcceptedFor(log, attempts[i].held.eventId, attempts[i].held.token)
  {
    NoErrors(attempts, i);
  }

  // ---------------------------------------------------------------- what the errors say

  /** The attempt ended in this error: a finalize fenced off or out of reach, or a reply that was no acceptance. */
  predicate Reports(a: Attempt, e: DrainError) {
    match e
    case ClaimFailed => false
    case FinalizeFailed(id, fenced) => a.held.eventId == id && (if fenced then a.outcome.Fenced? else a.outcome.Unreached?)
    case DeliveryFailed(id, code) => a.held.eventId == id && !a.reply.Accepted? && code == DeliverAudit(a.reply).1
  }

  lemma {:induction false} ReportsOne(a: Attempt, e: DrainError)
    ensures e in ErrorsOf(a) <==> Reports(a, e)
  {
    var first := match a.outcome
      case Finalized => []
      case Fenced => [FinalizeFailed(a.held.eventId, true)]
      case Unreached => [FinalizeFailed(a.held.eventId, false)];
    var second := if a.reply.Accepted? then [] else [DeliveryFailed(a.held.eventId, DeliverAudit(a.reply).1)];
    assert ErrorsOf(a) == first + second;
    assert e in first + second <==> e in first || e in second;
  }

  /** An error is among those of the attempts exactly when an attempt ended in it. */
  lemma {:induction false} ReportsExactly(attempts: seq<Attempt>, e: DrainError)
    ensures e in AllErrors(attempts) <==> exists i :: 0 <= i < |attempts| && Reports(attempts[i], e)
  {
    if attempts != [] {
      var n := |attempts| - 1;
      var front := attempts[..n];
      ReportsExactly(front, e);
      ReportsOne(attempts[n], e);
      assert e in AllErrors(attempts) <==> e in AllErrors(front) || e in ErrorsOf(attempts[n]);
      if i :| 0 <= i < |front| && Reports(front[i], e) {
        assert Reports(attempts[i], e);
      }
      if i :| 0 <= i < |attempts| && Reports(attempts[i], e) && i != n {
        assert Reports(front[i], e);
      }
    }
  }
}
