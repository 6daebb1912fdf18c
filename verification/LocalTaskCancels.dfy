/** Cancel functions are called, and handlers run, exactly as often as the registry says. */
module LocalTaskCancels {
  import opened Wrappers
  import opened LocalTasks
  import opened LocalTaskRuns
  import opened LocalTaskGuarantees

  // ---------------------------------------------------------------- cancel functions

  /** The event cancels the job of executor w while it runs. */
  predicate CancelsRunning(s: System, e: Event, w: nat) {
    e.Cancel? && w < |s.executors| && s.executors[w].key == e.key && e.key in s.tasks && s.tasks[e.key].status.Running?
  }

  /** How often the job of executor w was cancelled while it ran. */
  function CancelledRunning(es: seq<Event>, w: nat): nat {
    if es == [] then 0
    else CancelledRunning(es[..|es| - 1], w) + (if CancelsRunning(Run(es[..|es| - 1]), es[|es| - 1], w) then 1 else 0)
  }

  /** The cancel function detached from a job is its own executor's, and there is one exactly while the job runs. */
  lemma {:induction false} DetachedIsOwn(s: System, key: Key, w: nat)
    requires Inv(s)
    ensures Detached(s.tasks, key) == Some(w) <==> CancelsRunning(s, Cancel(key), w)
  {
    if key in s.tasks {
      var v: nat :| Executes(s, v, key);
      assert OwnsTask(s, v);
      if w < |s.executors| && s.executors[w].key == key {
        assert Executes(s, w, key);
      }
    }
  }

  lemma {:induction false} PendingStep(s: System, e: Event, w: nat)
    requires Inv(s)
    ensures Apply(s, e).pending[w] ==
              s.pending[w] + (if CancelsRunning(s, e, w) then 1 else 0) - (if e == CallCancel(w) && w in s.pending then 1 else 0)
  {
    if e.Cancel? {
      DetachedIsOwn(s, e.key, w);
      CancelPends(s, e.key);
    } else {
      OthersPend(s, e);
    }
  }

  lemma CancelPends(s: System, key: Key)
    ensures var d := Detached(s.tasks, key);
            Apply(s, Cancel(key)).pending == if d.Some? then s.pending + multiset{d.value} else s.pending
  {
  }

  lemma OthersPend(s: System, e: Event)
    requires !e.Cancel?
    ensures Apply(s, e).pending == if e.CallCancel? && e.w in s.pending then s.pending - multiset{e.w} else s.pending
  {
  }

  /** Each cancel of a running job has its executor's cancel function called once, or leaves it waiting to be called. */
  lemma {:induction false} EveryCancelIsCalled(es: seq<Event>, w: nat)
    ensures CancelCalls(es, w) + Run(es).pending[w] == CancelledRunning(es, w)
  {
    if es != [] {
      var front := es[..|es| - 1];
      EveryCancelIsCalled(front, w);
      RunKeeps(front);
      PendingStep(Run(front), es[|es| - 1], w);
    }
  }

  // ---------------------------------------------------------------- handlers

  /** Only a start, by the executor of the job, calls the job's handler. */
  lemma {:induction false} StartStep(s: System, v: nat, w: nat)
    requires Inv(s) && w < |s.executors|
    ensures var key := s.executors[w].key;
            CallsHandler(s, Start(v), key) <==> v == w && s.executors[w].phase.Spawned? && Startable(s.tasks, key)
  {
    if v < |s.executors| && s.executors[v].key == s.executors[w].key {
      assert Executes(s, v, s.executors[w].key) && Executes(s, w, s.executors[w].key);
    }
  }

  /** How an executor moves on, once its job is not someone else's. */
  lemma {:induction false} PhaseStep(s: System, e: Event, w: nat)
    requires w < |s.executors| && Alone(s, w)
    ensures w < |Apply(s, e).executors|
    ensures var x, p := Apply(s, e).executors[w], s.executors[w].phase;
            && x.key == s.executors[w].key
            && (x.phase.Spawned? ==> p.Spawned?)
            && (x.phase.Handling? ==> p.Handling? || (p.Spawned? && e == Start(w) && Startable(s.tasks, x.key)))
            && (x.phase.Returned? ==> p.Handling? || p.Returned?)
            && (x.phase.Spawned? ==> e != Start(w))
  {
    match e
    case Start(_) =>
    case Return(_, _) =>
    case Finish(_) =>
    case Enqueue(_, _, _, _) =>
    case Expire(_) =>
    case Cancel(_) =>
    case CallCancel(_) =>
  }

  lemma {:induction false} NewIsSpawned(s: System, e: Event, w: nat)
    requires |s.executors| <= w < |Apply(s, e).executors|
    ensures var x := Apply(s, e).executors[w]; x.phase.Spawned? && x.key !in s.tasks && !CallsHandler(s, e, x.key)
  {
  }

  /** An executor runs its handler, or has the handler's verdict, only if the handler was called; one that waits has not called it. */
  lemma {:induction false} PhaseTellsHandled(es: seq<Event>, w: nat)
    requires w < |Run(es).executors|
    ensures var x := Run(es).executors[w];
            && (x.phase.Spawned? ==> Handled(es, x.key) == [])
            && (x.phase.Handling? || x.phase.Returned? ==> Handled(es, x.key) == [x.payload])
  {
    var front, e := es[..|es| - 1], es[|es| - 1];
    var s, key := Run(front), Run(es).executors[w].key;
    RunKeeps(front);
    RunKeeps(es);
    assert OwnsTask(Run(es), w);
    HandledAtMostOnce(es, key);
    if w < |s.executors| {
      ExecutorsAlone(s, w);
      PhaseStep(s, e, w);
      PhaseTellsHandled(front, w);
      if e.Start? {
        StartStep(s, e.w, w);
      }
    } else {
      NewIsSpawned(s, e, w);
      HandledAtMostOnce(front, key);
    }
  }
}
