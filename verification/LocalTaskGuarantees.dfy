/** What holds of every run of the local task registry. */
module LocalTaskGuarantees {
  import opened Wrappers
  import opened LocalTasks
  import opened LocalTaskRuns

  // ---------------------------------------------------------------- one step

  /** A job stays, keeps its name and payload, never returns to the queue, and never leaves a terminal status. */
  predicate Forward(a: Task, b: Task) {
    && b.name == a.name && b.payload == a.payload
    && (b.status.Queued? ==> a.status.Queued?)
    && (Terminal(a.status) ==> b == a)
  }

  lemma StepForward(s: System, e: Event, key: Key)
    requires Inv(s) && key in s.tasks
    ensures key in Apply(s, e).tasks && Forward(s.tasks[key], Apply(s, e).tasks[key])
  {
    match e
    case Enqueue(_, _, _, _) =>
    case Start(_) =>
    case Expire(_) =>
    case Return(_, _) =>
    case Finish(_) => assert e.w < |s.executors| ==> OwnsTask(s, e.w);
    case Cancel(_) =>
    case CallCancel(_) =>
  }

  lemma {:induction false} RunForward(es: seq<Event>, more: seq<Event>, key: Key)
    requires key in Run(es).tasks
    ensures key in Run(es + more).tasks && Forward(Run(es).tasks[key], Run(es + more).tasks[key])
  {
    if more == [] {
      assert es + more == es;
    } else {
      var front := more[..|more| - 1];
      RunForward(es, front, key);
      RunAppend(es, more);
      RunKeeps(es + front);
      StepForward(Run(es + front), more[|more| - 1], key);
    }
  }

  lemma RunAppend(es: seq<Event>, more: seq<Event>)
    requires more != []
    ensures var front := es + more[..|more| - 1];
            var e := more[|more| - 1];
            && (es + more)[..|es + more| - 1] == front
            && (es + more)[|es + more| - 1] == e
            && Run(es + more) == Apply(Run(front), e)
  {
    LastSplits(es, more);
    RunLast(es + more);
  }

  lemma RunLast(es: seq<Event>)
    requires es != []
    ensures Run(es) == Apply(Run(es[..|es| - 1]), es[|es| - 1])
  {
  }

  lemma LastSplits(es: seq<Event>, more: seq<Event>)
    requires more != []
    ensures (es + more)[..|es + more| - 1] == es + more[..|more| - 1]
    ensures (es + more)[|es + more| - 1] == more[|more| - 1]
  {
  }

  // ---------------------------------------------------------------- handlers

  /** A job's handler runs at most once, with the payload enqueued, and only if the job was not cancelled first. */
  lemma {:induction false} HandledAtMostOnce(es: seq<Event>, key: Key)
    ensures |Handled(es, key)| <= 1
    ensures key !in Run(es).tasks ==> Handled(es, key) == []
    ensures key in Run(es).tasks ==>
              var t := Run(es).tasks[key];
              && (Handled(es, key) != [] ==> Handled(es, key) == [t.payload])
              && (t.status.Queued? ==> Handled(es, key) == [])
              && (Handled(es, key) == [] ==> t.status.Queued? || t.status.Cancelled?)
  {
    if es != [] {
      var front, e := es[..|es| - 1], es[|es| - 1];
      var s := Run(front);
      HandledAtMostOnce(front, key);
      RunKeeps(front);
      if key in s.tasks {
        StepForward(s, e, key);
      }
      HandlerStep(s, e, key);
    }
  }

  lemma HandlerStep(s: System, e: Event, key: Key)
    requires Inv(s)
    ensures CallsHandler(s, e, key) ==>
              && key in s.tasks && s.tasks[key].status.Queued?
              && s.executors[e.w].payload == s.tasks[key].payload
              && Apply(s, e).tasks[key].status.Running?
    ensures !CallsHandler(s, e, key) && key in Apply(s, e).tasks ==>
              var b := Apply(s, e).tasks[key];
              if key in s.tasks
              then s.tasks[key].status == b.status || !s.tasks[key].status.Queued? || b.status.Cancelled?
              else b.status.Queued?
    ensures key in s.tasks && key in Apply(s, e).tasks && s.tasks[key].status.Cancelled? ==>
              Apply(s, e).tasks[key].status.Cancelled?
  {
    if CallsHandler(s, e, key) {
      assert OwnsTask(s, e.w);
    }
  }

  /** Nothing that happens later hands a finished or cancelled job to a handler, or changes it. */
  lemma {:induction false} TerminalForever(es: seq<Event>, more: seq<Event>, key: Key)
    requires key in Run(es).tasks && Terminal(Run(es).tasks[key].status)
    ensures key in Run(es + more).tasks && Run(es + more).tasks[key] == Run(es).tasks[key]
    ensures Handled(es + more, key) == Handled(es, key)
  {
    RunForward(es, more, key);
    if more == [] {
      assert es + more == es;
    } else {
      var front := more[..|more| - 1];
      RunForward(es, front, key);
      TerminalForever(es, front, key);
      RunAppend(es, more);
      RunKeeps(es + front);
      HandlerStep(Run(es + front), more[|more| - 1], key);
    }
  }

  /** A job cancelled before its handler was called is never run. */
  lemma CancelledBeforeStartNeverRuns(es: seq<Event>, more: seq<Event>, key: Key)
    requires key in Run(es).tasks && Run(es).tasks[key].status.Queued?
    ensures Handled(es + [Cancel(key)] + more, key) == []
    ensures key in Run(es + [Cancel(key)] + more).tasks && Run(es + [Cancel(key)] + more).tasks[key].status.Cancelled?
  {
    CancelWins(es, more, key);
    HandledAtMostOnce(es, key);
    RunAppend(es, [Cancel(key)]);
    assert es + [Cancel(key)][..0] == es;
    TerminalForever(es + [Cancel(key)], more, key);
  }

  /** Cancelling a job that has not finished decides its status, whatever its handler returns later. */
  lemma CancelWins(es: seq<Event>, more: seq<Event>, key: Key)
    requires key in Run(es).tasks && !Terminal(Run(es).tasks[key].status)
    ensures key in Run(es + [Cancel(key)] + more).tasks && Run(es + [Cancel(key)] + more).tasks[key].status.Cancelled?
  {
    RunAppend(es, [Cancel(key)]);
    assert es + [Cancel(key)][..0] == es;
    TerminalForever(es + [Cancel(key)], more, key);
  }

  // ---------------------------------------------------------------- idempotent enqueue

  /** A job's identity is that of the first enqueue of its key, for the rest of the run. */
  lemma {:induction false} IdentityIsFirstEnqueue(es: seq<Event>, key: Key)
    ensures key in Run(es).tasks <==> FirstEnqueue(es, key).Some?
    ensures key in Run(es).tasks ==> FirstEnqueue(es, key) == Some((Run(es).tasks[key].name, Run(es).tasks[key].payload))
  {
    if es != [] {
      var front := es[..|es| - 1];
      IdentityIsFirstEnqueue(front, key);
      RunKeeps(front);
      IdentityStep(Run(front), es[|es| - 1], key);
    }
  }

  lemma IdentityStep(s: System, e: Event, key: Key)
    requires Inv(s)
    ensures key in s.tasks ==>
              && key in Apply(s, e).tasks
              && Apply(s, e).tasks[key].name == s.tasks[key].name && Apply(s, e).tasks[key].payload == s.tasks[key].payload
    ensures key !in s.tasks ==>
              if e.Enqueue? && e.key == key
              then key in Apply(s, e).tasks && Apply(s, e).tasks[key] == Task(e.name, e.payload, Queued, None)
              else key !in Apply(s, e).tasks
  {
    if key in s.tasks {
      StepForward(s, e, key);
    }
  }

  /** Enqueueing again is refused exactly when name or payload differ from the first time; otherwise nothing changes. */
  lemma EnqueueAgain(es: seq<Event>, key: Key, name: string, payload: string, timeout: bool)
    requires FirstEnqueue(es, key).Some?
    ensures Conflicts(Run(es).tasks, key, name, payload) <==> FirstEnqueue(es, key) != Some((name, payload))
    ensures Run(es + [Enqueue(key, name, payload, timeout)]) == Run(es)
  {
    IdentityIsFirstEnqueue(es, key);
    RunAppend(es, [Enqueue(key, name, payload, timeout)]);
    assert es + [Enqueue(key, name, payload, timeout)][..0] == es;
  }

  // ---------------------------------------------------------------- cancel functions

  /** The cancel function is present exactly while the job runs, and is its own executor's. */
  lemma CancelExactlyWhileRunning(es: seq<Event>, key: Key)
    requires key in Run(es).tasks
    ensures var s := Run(es); var t := s.tasks[key];
            && (t.cancel.Some? <==> t.status.Running?)
            && (t.cancel.Some? ==>
                  && t.cancel.value < |s.executors| && s.executors[t.cancel.value].key == key
                  && (s.executors[t.cancel.value].phase.Handling? || s.executors[t.cancel.value].phase.Returned?))
  {
    RunKeeps(es);
    var s := Run(es);
    var w: nat :| Executes(s, w, key);
    assert OwnsTask(s, w);
  }

  /** cancelJob calls an executor's cancel function at most once, and only after its handler was called. */
  lemma {:induction false} CancelCalledAtMostOnce(es: seq<Event>, w: nat)
    ensures CancelCalls(es, w) + Run(es).pending[w] <= 1
    ensures CancelCalls(es, w) + Run(es).pending[w] > 0 ==>
              RanAndCancelled(Run(es), w) && Handled(es, Run(es).executors[w].key) != []
  {
    if es != [] {
      var front, e := es[..|es| - 1], es[|es| - 1];
      var s := Run(front);
      CancelCalledAtMostOnce(front, w);
      RunKeeps(front);
      if CancelCalls(front, w) + s.pending[w] > 0 {
        RanStays(s, e, w);
        PendingStays(s, e, w);
      } else {
        DetachStep(front, e, w);
      }
    }
  }

  lemma RanStays(s: System, e: Event, w: nat)
    requires Inv(s) && RanAndCancelled(s, w)
    ensures RanAndCancelled(Apply(s, e), w) && Apply(s, e).executors[w].key == s.executors[w].key
  {
    StepForward(s, e, s.executors[w].key);
    ExecutorStays(s, e, w);
  }

  /** An executor keeps its job, and one that has started does not go back. */
  lemma {:induction false} ExecutorStays(s: System, e: Event, w: nat)
    requires w < |s.executors|
    ensures w < |Apply(s, e).executors| && Apply(s, e).executors[w].key == s.executors[w].key
    ensures !s.executors[w].phase.Spawned? ==> !Apply(s, e).executors[w].phase.Spawned?
  {
    match e
    case Enqueue(_, _, _, _) =>
    case Start(_) =>
    case Expire(_) =>
    case Return(_, _) =>
    case Finish(_) =>
    case Cancel(_) =>
    case CallCancel(_) =>
  }

  lemma PendingStays(s: System, e: Event, w: nat)
    requires Inv(s) && RanAndCancelled(s, w)
    ensures Apply(s, e).pending[w] == s.pending[w] - (if e == CallCancel(w) && w in s.pending then 1 else 0)
  {
    if e.Cancel? && Detached(s.tasks, e.key).Some? {
      var v: nat :| Executes(s, v, e.key);
      assert OwnsTask(s, v);
    }
  }

  /** A cancel function is detached from a running job, whose handler has been called. */
  lemma DetachStep(front: seq<Event>, e: Event, w: nat)
    requires Inv(Run(front)) && Run(front).pending[w] == 0
    ensures var t := Apply(Run(front), e);
            && t.pending[w] <= 1
            && (t.pending[w] > 0 ==> RanAndCancelled(t, w) && Handled(front, t.executors[w].key) != [])
  {
    var s := Run(front);
    if e.Cancel? && e.key in s.tasks {
      var v: nat :| Executes(s, v, e.key);
      assert OwnsTask(s, v);
      HandledAtMostOnce(front, e.key);
      CancelDetaches(s, e.key, v);
    } else {
      assert Apply(s, e).pending[w] == 0;
    }
  }

  lemma {:induction false} CancelDetaches(s: System, key: Key, v: nat)
    requires Executes(s, v, key) && key in s.tasks && OwnsTask(s, v)
    requires s.tasks[key].cancel.Some? <==> s.tasks[key].status.Running?
    ensures var t := Apply(s, Cancel(key));
            && t.pending == (if s.tasks[key].status.Running? then s.pending + multiset{v} else s.pending)
            && (s.tasks[key].status.Running? ==> RanAndCancelled(t, v) && t.executors[v].key == key)
  {
  }

  // ---------------------------------------------------------------- verdicts

  /** At step n executor w's handler for key returned, giving this status. */
  ghost predicate ReturnedAs(es: seq<Event>, n: nat, w: nat, key: Key, status: Status) {
    && n < |es| && es[n].Return? && es[n].w == w
    && var s := Run(es[..n]);
       && Executes(s, w, key) && s.executors[w].phase.Handling?
       && status == Verdict(s.executors[w].ctx, es[n].outcome)
  }

  ghost predicate Returns(es: seq<Event>, w: nat, key: Key, status: Status) {
    exists n: nat :: ReturnedAs(es, n, w, key, status)
  }

  lemma ReturnsLater(es: seq<Event>, e: Event, w: nat, key: Key, status: Status)
    requires Returns(es, w, key, status)
    ensures Returns(es + [e], w, key, status)
  {
    var n: nat :| ReturnedAs(es, n, w, key, status);
    assert (es + [e])[..n] == es[..n] && (es + [e])[n] == es[n];
    assert ReturnedAs(es + [e], n, w, key, status);
  }

  /** Every verdict an executor holds, and every finished job's status, came from a handler's return. */
  lemma {:induction false} VerdictsComeFromHandlers(es: seq<Event>)
    ensures forall w: nat :: w < |Run(es).executors| && Run(es).executors[w].phase.Returned? ==>
              Returns(es, w, Run(es).executors[w].key, Run(es).executors[w].phase.status)
    ensures forall key :: key in Run(es).tasks && (Run(es).tasks[key].status.Succeeded? || Run(es).tasks[key].status.Failed?) ==>
              exists w: nat :: Returns(es, w, key, Run(es).tasks[key].status)
  {
    if es != [] {
      var front, e := es[..|es| - 1], es[|es| - 1];
      assert es == front + [e];
      VerdictsComeFromHandlers(front);
      var s, t := Run(front), Run(es);
      forall w: nat | w < |t.executors| && t.executors[w].phase.Returned?
        ensures Returns(es, w, t.executors[w].key, t.executors[w].phase.status)
      {
        VerdictStep(front, e, w);
      }
      forall key | key in t.tasks && (t.tasks[key].status.Succeeded? || t.tasks[key].status.Failed?)
        ensures exists w: nat :: Returns(es, w, key, t.tasks[key].status)
      {
        FinishStep(front, e, key);
      }
    }
  }

  /** A verdict was held already, or the handler returns now. */
  lemma VerdictSource(s: System, e: Event, w: nat)
    requires w < |Apply(s, e).executors| && Apply(s, e).executors[w].phase.Returned?
    ensures var x := Apply(s, e).executors[w];
            && Executes(s, w, x.key)
            && (|| s.executors[w].phase == x.phase
                || (e.Return? && e.w == w && s.executors[w].phase.Handling?
                    && x.phase.status == Verdict(s.executors[w].ctx, e.outcome)))
  {
  }

  lemma VerdictStep(front: seq<Event>, e: Event, w: nat)
    requires forall v: nat :: v < |Run(front).executors| && Run(front).executors[v].phase.Returned? ==>
               Returns(front, v, Run(front).executors[v].key, Run(front).executors[v].phase.status)
    requires w < |Apply(Run(front), e).executors| && Apply(Run(front), e).executors[w].phase.Returned?
    ensures var x := Apply(Run(front), e).executors[w]; Returns(front + [e], w, x.key, x.phase.status)
  {
    var s := Run(front);
    var x := Apply(s, e).executors[w];
    VerdictSource(s, e, w);
    if w < |s.executors| && s.executors[w].phase.Returned? {
      ReturnsLater(front, e, w, x.key, x.phase.status);
    } else {
      assert (front + [e])[..|front|] == front;
      assert Executes(s, w, x.key);
      assert ReturnedAs(front + [e], |front|, w, x.key, x.phase.status);
    }
  }

  /** A finished status was there already, or is the verdict of the executor that finishes. */
  lemma FinishSource(s: System, e: Event, key: Key)
    requires var t := Apply(s, e);
             key in t.tasks && (t.tasks[key].status.Succeeded? || t.tasks[key].status.Failed?)
    ensures var status := Apply(s, e).tasks[key].status;
            || (key in s.tasks && s.tasks[key].status == status)
            || (e.Finish? && e.w < |s.executors| && s.executors[e.w].phase == Returned(status) && s.executors[e.w].key == key)
  {
  }

  lemma FinishStep(front: seq<Event>, e: Event, key: Key)
    requires forall v: nat :: v < |Run(front).executors| && Run(front).executors[v].phase.Returned? ==>
               Returns(front, v, Run(front).executors[v].key, Run(front).executors[v].phase.status)
    requires forall k :: k in Run(front).tasks && (Run(front).tasks[k].status.Succeeded? || Run(front).tasks[k].status.Failed?) ==>
               exists w: nat :: Returns(front, w, k, Run(front).tasks[k].status)
    requires var t := Apply(Run(front), e);
             key in t.tasks && (t.tasks[key].status.Succeeded? || t.tasks[key].status.Failed?)
    ensures exists w: nat :: Returns(front + [e], w, key, Apply(Run(front), e).tasks[key].status)
  {
    var s := Run(front);
    var status := Apply(s, e).tasks[key].status;
    FinishSource(s, e, key);
    var w: nat;
    if key in s.tasks && s.tasks[key].status == status {
      w :| Returns(front, w, key, status);
    } else {
      w := e.w;
    }
    ReturnsLater(front, e, w, key, status);
  }

  /**
   A handler's return and the finish after it, for a job not cancelled in the
   meantime: failed for a panic, a deadline that came first, or an error under
   a live context; succeeded for no error under a live context; cancelled when
   the context was cancelled first and there was no panic.
   */
  lemma {:induction false} FinishedExactly(s: System, w: nat, outcome: Outcome)
    requires w < |s.executors| && s.executors[w].phase.Handling?
    requires s.executors[w].key in s.tasks && s.tasks[s.executors[w].key].status.Running?
    ensures var x, t := s.executors[w], Apply(Apply(s, Return(w, outcome)), Finish(w));
            && x.key in t.tasks
            && (t.tasks[x.key].status.Failed? <==>
                  outcome.Panic? || x.ctx.DeadlineFirst? || (outcome.Error? && x.ctx.Live?))
            && (t.tasks[x.key].status.Succeeded? <==> outcome.Nil? && x.ctx.Live?)
            && (t.tasks[x.key].status.Cancelled? <==> !outcome.Panic? && x.ctx.CancelledFirst?)
            && t.tasks[x.key].cancel.None?
  {
    var u := Apply(s, Return(w, outcome));
    assert u.executors[w].key == s.executors[w].key && u.tasks == s.tasks;
  }

  /** A job reported failed had a handler that panicked, outlived its deadline, or returned an error under a live context. */
  lemma {:induction false} FailedMeansReturnedBadly(es: seq<Event>, key: Key) returns (n: nat)
    requires key in Run(es).tasks && Run(es).tasks[key].status.Failed?
    ensures n < |es| && es[n].Return?
    ensures var s := Run(es[..n]);
            && Executes(s, es[n].w, key) && s.executors[es[n].w].phase.Handling?
            && var ctx := s.executors[es[n].w].ctx;
               es[n].outcome.Panic? || ctx.DeadlineFirst? || (es[n].outcome.Error? && ctx.Live?)
  {
    VerdictsComeFromHandlers(es);
    var w: nat :| Returns(es, w, key, Failed);
    n :| ReturnedAs(es, n, w, key, Failed);
  }

  /** A job reported succeeded had a handler that returned no error while its context was live. */
  lemma SucceededMeansReturnedNil(es: seq<Event>, key: Key) returns (n: nat)
    requires key in Run(es).tasks && Run(es).tasks[key].status.Succeeded?
    ensures n < |es| && es[n].Return? && es[n].outcome.Nil?
    ensures var s := Run(es[..n]);
            Executes(s, es[n].w, key) && s.executors[es[n].w].phase.Handling? && s.executors[es[n].w].ctx.Live?
  {
    VerdictsComeFromHandlers(es);
    var w: nat :| Returns(es, w, key, Succeeded);
    n :| ReturnedAs(es, n, w, key, Succeeded);
  }

  // ---------------------------------------------------------------- contexts

  /** The event ends an executor's context: its deadline passes, or its cancel function is called. */
  predicate Ends(s: System, e: Event, w: nat) {
    w < |s.executors| && ((e == Expire(w) && s.executors[w].timeout) || (e == CallCancel(w) && w in s.pending))
  }

  /** The first event that ended an executor's context. */
  function FirstCause(es: seq<Event>, w: nat): Option<Event> {
    if es == [] then None
    else
      var first := FirstCause(es[..|es| - 1], w);
      if first.None? && Ends(Run(es[..|es| - 1]), es[|es| - 1], w) then Some(es[|es| - 1]) else first
  }

  function Left(cause: Option<Event>): Context {
    match cause
    case None => Live
    case Some(e) => if e.Expire? then DeadlineFirst else CancelledFirst
  }

  lemma {:induction false} ContextStep(s: System, e: Event, w: nat)
    requires w < |Apply(s, e).executors|
    ensures var ctx := Apply(s, e).executors[w].ctx;
            if w >= |s.executors| then ctx.Live?
            else if s.executors[w].ctx.Live? && Ends(s, e, w) then ctx == Left(Some(e))
            else ctx == s.executors[w].ctx
  {
  }

  /** A context says which of the two came first, and is live as long as neither has. */
  lemma {:induction false} ContextIsFirstCause(es: seq<Event>, w: nat)
    requires w < |Run(es).executors|
    ensures Run(es).executors[w].ctx == Left(FirstCause(es, w))
  {
    var front, e := es[..|es| - 1], es[|es| - 1];
    ContextStep(Run(front), e, w);
    if w < |Run(front).executors| {
      ContextIsFirstCause(front, w);
    } else {
      NoCauseYet(front, w);
    }
  }

  lemma {:induction false} NoCauseYet(es: seq<Event>, w: nat)
    requires w >= |Run(es).executors|
    ensures FirstCause(es, w).None?
  {
    if es != [] {
      ExecutorsGrow(Run(es[..|es| - 1]), es[|es| - 1]);
      NoCauseYet(es[..|es| - 1], w);
    }
  }

  lemma ExecutorsGrow(s: System, e: Event)
    ensures |s.executors| <= |Apply(s, e).executors|
  {
  }

  // ---------------------------------------------------------------- no job is stuck

  /** The event that moves an unfinished job on. */
  lemma UnfinishedJobsMove(es: seq<Event>, key: Key) returns (e: Event)
    requires key in Run(es).tasks && !Terminal(Run(es).tasks[key].status)
    ensures e.Start? || e.Return? || e.Finish?
    ensures Apply(Run(es), e) != Run(es)
    ensures Run(es).tasks[key].status.Queued? ==> CallsHandler(Run(es), e, key)
    ensures e.Finish? ==> Terminal(Apply(Run(es), e).tasks[key].status)
  {
    RunKeeps(es);
    var s := Run(es);
    var w: nat :| Executes(s, w, key);
    assert OwnsTask(s, w);
    e := match s.executors[w].phase
    case Spawned => Start(w)
    case Handling => Return(w, Nil)
    case _ => Finish(w);
    assert Apply(s, e).executors[w] != s.executors[w];
  }
}
