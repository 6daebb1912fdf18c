/**
 Every interleaving of enqueue, start, finish and cancel: each event is one
 lock section, one handler call or return, or one call of a detached cancel
 function.
 */
module LocalTaskRuns {
  import opened Wrappers
  import opened LocalTasks

  /** ctx.Err() of an executor: the first cause stays. */
  datatype Context = Live | CancelledFirst | DeadlineFirst

  datatype Outcome = Nil | Error | Panic

  datatype Phase = Spawned | Handling | Returned(status: Status) | Gone

  datatype Executor = Executor(key: Key, payload: string, timeout: bool, phase: Phase, ctx: Context)

  /** pending holds the executors whose cancel function has been detached and not yet called. */
  datatype System = System(tasks: Tasks, executors: seq<Executor>, pending: multiset<nat>)

  datatype Event =
    | Enqueue(key: Key, name: string, payload: string, timeout: bool)
    | Start(w: nat)
    | Expire(w: nat)
    | Return(w: nat, outcome: Outcome)
    | Finish(w: nat)
    | Cancel(key: Key)
    | CallCancel(w: nat)

  function Verdict(ctx: Context, outcome: Outcome): Status {
    if outcome.Panic? then Failed
    else if ctx.DeadlineFirst? then Failed
    else if ctx.CancelledFirst? then Cancelled
    else if outcome.Error? then Failed
    else Succeeded
  }

  function Initial(): System {
    System(map[], [], multiset{})
  }

  /** An event that cannot happen in a state leaves it alone. */
  function Apply(s: System, e: Event): System {
    match e
    case Enqueue(key, name, payload, timeout) =>
      if key in s.tasks then s
      else
        s.(tasks := AfterEnqueue(s.tasks, key, name, payload),
           executors := s.executors + [Executor(key, payload, timeout, Spawned, Live)])
    case Start(w) => if w < |s.executors| && s.executors[w].phase.Spawned? then AfterStarting(s, w) else s
    case Expire(w) =>
      if w < |s.executors| && s.executors[w].timeout && s.executors[w].ctx.Live?
      then s.(executors := s.executors[w := s.executors[w].(ctx := DeadlineFirst)]) else s
    case Return(w, outcome) =>
      if w < |s.executors| && s.executors[w].phase.Handling?
      then
        var x := s.executors[w];
        s.(executors := s.executors[w := x.(phase := Returned(Verdict(x.ctx, outcome)))])
      else s
    case Finish(w) =>
      if w < |s.executors| && s.executors[w].phase.Returned?
      then
        var x := s.executors[w];
        s.(tasks := AfterFinish(s.tasks, x.key, x.phase.status), executors := s.executors[w := x.(phase := Gone)])
      else s
    case Cancel(key) =>
      s.(tasks := AfterCancel(s.tasks, key),
         pending := match Detached(s.tasks, key) case None => s.pending case Some(w) => s.pending + multiset{w})
    case CallCancel(w) =>
      if w in s.pending
      then
        s.(pending := s.pending - multiset{w},
           executors := if w < |s.executors| && s.executors[w].ctx.Live?
                        then s.executors[w := s.executors[w].(ctx := CancelledFirst)] else s.executors)
      else s
  }

  /** The executor asks the registry to start its job, and calls the handler only if it may. */
  function AfterStarting(s: System, w: nat): System
    requires w < |s.executors|
  {
    var x := s.executors[w];
    s.(tasks := AfterStart(s.tasks, x.key, w),
       executors := s.executors[w := x.(phase := if Startable(s.tasks, x.key) then Handling else Gone)])
  }

  function Run(es: seq<Event>): System {
    if es == [] then Initial() else Apply(Run(es[..|es| - 1]), es[|es| - 1])
  }

  // ---------------------------------------------------------------- what happened

  predicate CallsHandler(s: System, e: Event, key: Key) {
    && e.Start? && e.w < |s.executors| && s.executors[e.w].phase.Spawned?
    && s.executors[e.w].key == key && Startable(s.tasks, key)
  }

  /** The payloads handed to handlers of a job, in order. */
  function Handled(es: seq<Event>, key: Key): seq<string> {
    if es == [] then []
    else
      var s, e := Run(es[..|es| - 1]), es[|es| - 1];
      Handled(es[..|es| - 1], key) + (if CallsHandler(s, e, key) then [s.executors[e.w].payload] else [])
  }

  /** How often an executor's cancel function was called by cancelJob. */
  function CancelCalls(es: seq<Event>, w: nat): nat {
    if es == [] then 0
    else
      CancelCalls(es[..|es| - 1], w)
      + (if es[|es| - 1] == CallCancel(w) && w in Run(es[..|es| - 1]).pending then 1 else 0)
  }

  /** The name and payload a key was first enqueued with. */
  function FirstEnqueue(es: seq<Event>, key: Key): Option<(string, string)> {
    if es == [] then None
    else
      var first := FirstEnqueue(es[..|es| - 1], key);
      var e := es[|es| - 1];
      if first.None? && e.Enqueue? && e.key == key then Some((e.name, e.payload)) else first
  }

  // ---------------------------------------------------------------- the invariant

  predicate OwnsTask(s: System, w: nat)
    requires w < |s.executors|
  {
    var x := s.executors[w];
    && x.key in s.tasks
    && x.payload == s.tasks[x.key].payload
    && (x.phase.Spawned? ==> s.tasks[x.key].status.Queued? || s.tasks[x.key].status.Cancelled?)
    && (!x.phase.Spawned? ==> !s.tasks[x.key].status.Queued?)
    && (x.phase.Handling? || x.phase.Returned? ==>
          s.tasks[x.key].cancel == Some(w) || s.tasks[x.key].status.Cancelled?)
    && (s.tasks[x.key].status.Running? ==> s.tasks[x.key].cancel == Some(w) && !x.phase.Gone?)
    && (x.phase.Returned? ==> Terminal(x.phase.status))
  }

  /** The cancel function is there exactly while the job runs. */
  ghost predicate CancelWhileRunning(s: System) {
    forall key :: key in s.tasks ==> (s.tasks[key].cancel.Some? <==> s.tasks[key].status.Running?)
  }

  ghost predicate Executes(s: System, w: nat, key: Key) {
    w < |s.executors| && s.executors[w].key == key
  }

  /** Every job was handed to an executor, and no two executors have the same job. */
  ghost predicate OneExecutorEach(s: System) {
    && (forall key :: key in s.tasks ==> exists w: nat :: Executes(s, w, key))
    && (forall i: nat, j: nat, key :: Executes(s, i, key) && Executes(s, j, key) ==> i == j)
  }

  ghost predicate AllOwn(s: System) {
    forall w: nat :: w < |s.executors| ==> OwnsTask(s, w)
  }

  /** A detached cancel function is called at most once more, for a job that ran and was cancelled. */
  ghost predicate PendingOk(s: System) {
    forall w: nat :: w in s.pending ==> s.pending[w] == 1 && RanAndCancelled(s, w)
  }

  ghost predicate RanAndCancelled(s: System, w: nat) {
    && w < |s.executors|
    && s.executors[w].key in s.tasks
    && s.tasks[s.executors[w].key].status.Cancelled?
    && !s.executors[w].phase.Spawned?
  }

  ghost predicate Settled(s: System) {
    AllOwn(s) && CancelWhileRunning(s) && PendingOk(s)
  }

  ghost predicate Inv(s: System) {
    Settled(s) && OneExecutorEach(s)
  }

  predicate SameKeys(s: System, t: System) {
    && |t.executors| == |s.executors|
    && (forall w :: 0 <= w < |s.executors| ==> t.executors[w].key == s.executors[w].key)
    && t.tasks.Keys == s.tasks.Keys
  }

  lemma ExecutorsStay(s: System, t: System)
    requires OneExecutorEach(s) && SameKeys(s, t)
    ensures OneExecutorEach(t)
  {
    forall key | key in t.tasks
      ensures exists w: nat :: Executes(t, w, key)
    {
      var w: nat :| Executes(s, w, key);
      assert Executes(t, w, key);
    }
    assert forall w: nat, key :: Executes(t, w, key) ==> Executes(s, w, key);
  }

  lemma EnqueueAddsExecutor(s: System, e: Event)
    requires OneExecutorEach(s) && AllOwn(s) && e.Enqueue?
    ensures OneExecutorEach(Apply(s, e))
  {
    var t := Apply(s, e);
    if e.key !in s.tasks {
      forall key | key in t.tasks
        ensures exists w: nat :: Executes(t, w, key)
      {
        if key == e.key {
          assert Executes(t, |s.executors|, key);
        } else {
          var w: nat :| Executes(s, w, key);
          assert Executes(t, w, key);
        }
      }
      forall i: nat, j: nat, key | Executes(t, i, key) && Executes(t, j, key)
        ensures i == j
      {
        NotNew(s, e, i);
        NotNew(s, e, j);
      }
    }
  }

  lemma NotNew(s: System, e: Event, w: nat)
    requires AllOwn(s) && e.Enqueue? && e.key !in s.tasks
    ensures w < |s.executors| ==> s.executors[w].key != e.key && Executes(s, w, Apply(s, e).executors[w].key)
  {
    if w < |s.executors| {
      assert OwnsTask(s, w);
    }
  }

  lemma EnqueueKeeps(s: System, e: Event)
    requires Settled(s) && e.Enqueue?
    ensures Settled(Apply(s, e))
  {
    var t := Apply(s, e);
    forall w: nat | w < |t.executors|
      ensures OwnsTask(t, w)
    {
      if w < |s.executors| {
        assert OwnsTask(s, w);
      }
    }
  }

  /** No other executor has the job of executor w. */
  ghost predicate Alone(s: System, w: nat) {
    w < |s.executors| ==> forall v: nat :: v < |s.executors| && v != w ==> s.executors[v].key != s.executors[w].key
  }

  lemma ExecutorsAlone(s: System, w: nat)
    requires OneExecutorEach(s)
    ensures Alone(s, w)
  {
    if w < |s.executors| {
      forall v: nat | v < |s.executors| && v != w
        ensures s.executors[v].key != s.executors[w].key
      {
        assert Executes(s, v, s.executors[v].key) && Executes(s, w, s.executors[w].key);
      }
    }
  }

  lemma StartKeeps(s: System, e: Event)
    requires Settled(s) && e.Start? && Alone(s, e.w)
    ensures Settled(Apply(s, e))
  {
    var t := Apply(s, e);
    forall w: nat | w < |t.executors|
      ensures OwnsTask(t, w)
    {
      assert OwnsTask(s, w);
    }
  }

  lemma ExpireKeeps(s: System, e: Event)
    requires Settled(s) && e.Expire?
    ensures Settled(Apply(s, e))
  {
    var t := Apply(s, e);
    forall w: nat | w < |t.executors|
      ensures OwnsTask(t, w)
    {
      assert OwnsTask(s, w);
    }
  }

  lemma ReturnKeeps(s: System, e: Event)
    requires Settled(s) && e.Return?
    ensures Settled(Apply(s, e))
  {
    var t := Apply(s, e);
    forall w: nat | w < |t.executors|
      ensures OwnsTask(t, w)
    {
      assert OwnsTask(s, w);
    }
  }

  lemma CallKeeps(s: System, e: Event)
    requires Settled(s) && e.CallCancel?
    ensures Settled(Apply(s, e))
  {
    var t := Apply(s, e);
    forall w: nat | w < |t.executors|
      ensures OwnsTask(t, w)
    {
      assert OwnsTask(s, w);
    }
    forall w: nat | w in t.pending
      ensures t.pending[w] == 1 && RanAndCancelled(t, w)
    {
      assert w in s.pending && RanAndCancelled(s, w);
    }
  }

  lemma FinishKeeps(s: System, e: Event)
    requires Settled(s) && e.Finish? && Alone(s, e.w)
    ensures Settled(Apply(s, e))
  {
    var t := Apply(s, e);
    assert e.w < |s.executors| ==> OwnsTask(s, e.w);
    forall w: nat | w < |t.executors|
      ensures OwnsTask(t, w)
    {
      assert OwnsTask(s, w);
    }
  }

  lemma CancelKeeps(s: System, e: Event, v: nat)
    requires Settled(s) && e.Cancel? && (e.key in s.tasks ==> Executes(s, v, e.key))
    ensures Settled(Apply(s, e))
  {
    var t := Apply(s, e);
    forall w: nat | w < |t.executors|
      ensures OwnsTask(t, w)
    {
      assert OwnsTask(s, w);
    }
    if e.key in s.tasks {
      assert OwnsTask(s, v);
    }
  }

  lemma StepSettles(s: System, e: Event)
    requires Inv(s)
    ensures Settled(Apply(s, e))
  {
    match e
    case Enqueue(_, _, _, _) => EnqueueKeeps(s, e);
    case Start(w) =>
      ExecutorsAlone(s, w);
      StartKeeps(s, e);
    case Finish(w) =>
      ExecutorsAlone(s, w);
      FinishKeeps(s, e);
    case Cancel(key) =>
      var v: nat :| key in s.tasks ==> Executes(s, v, key);
      CancelKeeps(s, e, v);
    case Expire(_) => ExpireKeeps(s, e);
    case Return(_, _) => ReturnKeeps(s, e);
    case CallCancel(_) => CallKeeps(s, e);
  }

  lemma StepKeeps(s: System, e: Event)
    requires Inv(s)
    ensures Inv(Apply(s, e))
  {
    StepSettles(s, e);
    if e.Enqueue? {
      EnqueueAddsExecutor(s, e);
    } else {
      KeysStay(s, e);
      ExecutorsStay(s, Apply(s, e));
    }
  }

  lemma KeysStay(s: System, e: Event)
    requires !e.Enqueue?
    ensures SameKeys(s, Apply(s, e))
  {
    match e
    case Cancel(key) =>
      assert AfterCancel(s.tasks, key).Keys == s.tasks.Keys;
    case _ =>
  }

  lemma {:induction false} RunKeeps(es: seq<Event>)
    ensures Inv(Run(es))
  {
    if es != [] {
      RunKeeps(es[..|es| - 1]);
      StepKeeps(Run(es[..|es| - 1]), es[|es| - 1]);
    }
  }
}
