/** The process-local job registry: one map of jobs behind one lock, and what each operation does to it. */
module LocalTasks {
  import opened Wrappers

  datatype Key = Key(appRef: string, id: string)

  datatype Status = Queued | Running | Succeeded | Failed | Cancelled

  predicate Terminal(s: Status) {
    s.Succeeded? || s.Failed? || s.Cancelled?
  }

  /** What the registry holds for a key; cancel names the executor whose context it cancels. */
  datatype Task = Task(name: string, payload: string, status: Status, cancel: Option<nat>)

  type Tasks = map<Key, Task>

  // ---------------------------------------------------------------- the operations on values

  predicate Conflicts(tasks: Tasks, key: Key, name: string, payload: string) {
    key in tasks && !(tasks[key].name == name && tasks[key].payload == payload)
  }

  function AfterEnqueue(tasks: Tasks, key: Key, name: string, payload: string): Tasks {
    if key in tasks then tasks else tasks[key := Task(name, payload, Queued, None)]
  }

  predicate Startable(tasks: Tasks, key: Key) {
    key in tasks && tasks[key].status.Queued?
  }

  function AfterStart(tasks: Tasks, key: Key, cancel: nat): Tasks {
    if Startable(tasks, key) then tasks[key := tasks[key].(status := Running, cancel := Some(cancel))] else tasks
  }

  function AfterFinish(tasks: Tasks, key: Key, status: Status): Tasks {
    if key in tasks && tasks[key].status.Running?
    then tasks[key := tasks[key].(status := status, cancel := None)] else tasks
  }

  predicate Cancellable(tasks: Tasks, key: Key) {
    key in tasks && (tasks[key].status.Queued? || tasks[key].status.Running?)
  }

  function AfterCancel(tasks: Tasks, key: Key): Tasks {
    if Cancellable(tasks, key) then tasks[key := tasks[key].(status := Cancelled, cancel := None)] else tasks
  }

  /** The cancel function the caller is left to call once the lock is released. */
  function Detached(tasks: Tasks, key: Key): Option<nat> {
    if Cancellable(tasks, key) then tasks[key].cancel else None
  }

  // ---------------------------------------------------------------- the registry

  class LocalTaskJob {
    const key: Key
    const name: string
    const payload: string
    var status: Status
    var cancel: Option<nat>

    constructor (key: Key, name: string, payload: string)
      ensures this.key == key && this.name == name && this.payload == payload
      ensures status == Queued && cancel == None
    {
      this.key, this.name, this.payload := key, name, payload;
      status, cancel := Queued, None;
    }

    function View(): Task
      reads this
    {
      Task(name, payload, status, cancel)
    }
  }

  datatype JobStatus = JobStatus(jobId: string, status: Status, cancelled: bool)

  class LocalTaskRegistry {
    var jobs: map<Key, LocalTaskJob>

    /** Each job sits under its own key, so no two keys share a job. */
    ghost predicate Valid()
      reads this, jobs.Values
    {
      forall k :: k in jobs ==> jobs[k].key == k
    }

    ghost function View(): Tasks
      reads this, jobs.Values
    {
      map k | k in jobs :: jobs[k].View()
    }

    constructor ()
      ensures Valid() && View() == map[] && fresh(jobs.Values)
    {
      jobs := map[];
    }

    method Enqueue(key: Key, name: string, payload: string) returns (r: Option<(LocalTaskJob, bool)>)
      requires Valid()
      modifies this`jobs
      ensures Valid() && fresh(jobs.Values - old(jobs.Values))
      ensures View() == AfterEnqueue(old(View()), key, name, payload)
      ensures r.None? <==> Conflicts(old(View()), key, name, payload)
      ensures r.Some? ==> key in jobs && jobs[key] == r.value.0 && (r.value.1 <==> key !in old(jobs))
      ensures forall k :: k in old(jobs) ==> k in jobs && jobs[k] == old(jobs[k])
    {
      if key in jobs {
        var existing := jobs[key];
        if existing.name != name || existing.payload != payload {
          return None;
        }
        return Some((existing, false));
      }
      var job := new LocalTaskJob(key, name, payload);
      jobs := jobs[key := job];
      r := Some((job, true));
    }

    method Start(key: Key, cancel: nat) returns (ok: bool)
      requires Valid()
      modifies jobs.Values
      ensures Valid() && jobs == old(jobs)
      ensures View() == AfterStart(old(View()), key, cancel)
      ensures ok <==> Startable(old(View()), key)
    {
      if key !in jobs || jobs[key].status != Queued {
        return false;
      }
      var job := jobs[key];
      job.status := Running;
      job.cancel := Some(cancel);
      ok := true;
    }

    method Finish(key: Key, status: Status)
      requires Valid()
      modifies jobs.Values
      ensures Valid() && jobs == old(jobs)
      ensures View() == AfterFinish(old(View()), key, status)
    {
      if key !in jobs || jobs[key].status != Running {
        return;
      }
      var job := jobs[key];
      job.status := status;
      job.cancel := None;
    }

    method StatusOf(key: Key) returns (r: Option<JobStatus>)
      requires Valid()
      ensures r == if key in View() then Some(JobStatus(key.id, View()[key].status, View()[key].status.Cancelled?)) else None
    {
      if key !in jobs {
        return None;
      }
      var job := jobs[key];
      r := Some(JobStatus(job.key.id, job.status, job.status == Cancelled));
    }

    /** The part of cancelJob under the lock; the caller then calls what is returned, if anything. */
    method CancelJob(key: Key) returns (found: bool, cancel: Option<nat>)
      requires Valid()
      modifies jobs.Values
      ensures Valid() && jobs == old(jobs)
      ensures View() == AfterCancel(old(View()), key)
      ensures found <==> key in old(View())
      ensures cancel == Detached(old(View()), key)
    {
      if key !in jobs {
        return false, None;
      }
      var job := jobs[key];
      cancel := None;
      if job.status == Queued || job.status == Running {
        job.status := Cancelled;
        cancel := job.cancel;
        job.cancel := None;
      }
      found := true;
    }
  }
}
