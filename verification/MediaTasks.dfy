/**
 The background task manager as interleaved atomic steps: each critical
 section is one step, whichever caller or worker thread takes it.
 */
module MediaTasks {
  import opened Options
  import opened Sequences

  type Id = nat

  datatype Status = Queued | Running | Succeeded | Failed | Cancelled
  {
    predicate Terminal() {
      Succeeded? || Failed? || Cancelled?
    }
  }

  /** A task's published state and its cancellation flag. */
  datatype Task = Task(status: Status, flagged: bool)

  datatype Worker = Waiting | Working(id: Id) | Exited

  datatype State = State(tasks: map<Id, Task>, queue: seq<Id>, workers: seq<Worker>, stopping: bool)

  datatype Event =
    | Enqueue(id: Id)
    | Cancel(id: Id)
    | Take(w: nat)
    | Finish(w: nat, succeeded: bool)
    | Stop

  // ---- Steps ----------------------------------------------------------------------

  /** Identities held by the queue and by workers are those of tasks. */
  ghost predicate Closed(s: State) {
    && (forall i :: 0 <= i < |s.queue| ==> s.queue[i] in s.tasks)
    && (forall w :: 0 <= w < |s.workers| && s.workers[w].Working? ==> s.workers[w].id in s.tasks)
  }

  /** A new task has a new identity; a worker takes when it has nothing and finishes what it has. */
  ghost predicate Enabled(s: State, e: Event) {
    match e
    case Enqueue(id) => id !in s.tasks
    case Cancel(_) => true
    case Take(w) => w < |s.workers| && s.workers[w].Waiting?
    case Finish(w, _) => w < |s.workers| && s.workers[w].Working?
    case Stop => true
  }

  function Flagged(tasks: map<Id, Task>): map<Id, Task> {
    map id | id in tasks :: tasks[id].(flagged := true)
  }

  function Outcome(task: Task, succeeded: bool): Status {
    if task.flagged then Cancelled else if succeeded then Succeeded else Failed
  }

  function Next(s: State, e: Event): State
    requires Closed(s) && Enabled(s, e)
  {
    match e
    case Enqueue(id) =>
      if s.stopping then s
      else s.(tasks := s.tasks[id := Task(Queued, false)], queue := s.queue + [id])
    case Cancel(id) =>
      if id !in s.tasks || s.tasks[id].status.Terminal() then s
      else if s.tasks[id].status.Queued? then
        s.(tasks := s.tasks[id := Task(Cancelled, true)], queue := Without(s.queue, id))
      else s.(tasks := s.tasks[id := s.tasks[id].(flagged := true)])
    case Take(w) =>
      if s.queue == [] then if s.stopping then s.(workers := s.workers[w := Exited]) else s
      else
        var id := s.queue[0];
        if s.tasks[id].flagged then
          s.(tasks := s.tasks[id := s.tasks[id].(status := Cancelled)], queue := s.queue[1..])
        else
          s.(tasks := s.tasks[id := s.tasks[id].(status := Running)], queue := s.queue[1..],
             workers := s.workers[w := Working(id)])
    case Finish(w, succeeded) =>
      var id := s.workers[w].id;
      s.(tasks := s.tasks[id := s.tasks[id].(status := Outcome(s.tasks[id], succeeded))],
         workers := s.workers[w := Waiting])
    case Stop => s.(tasks := Flagged(s.tasks), stopping := true)
  }

  /** Whether a cancellation is accepted. */
  predicate Accepts(s: State, id: Id) {
    id in s.tasks && !s.tasks[id].status.Terminal()
  }

  /** The completion a step hands out: the task and the state it ended in. */
  function Handed(s: State, e: Event): Option<(Id, Status)>
    requires Closed(s) && Enabled(s, e)
  {
    match e
    case Cancel(id) => if Accepts(s, id) && s.tasks[id].status.Queued? then Some((id, Cancelled)) else None
    case Finish(w, succeeded) => Some((s.workers[w].id, Outcome(s.tasks[s.workers[w].id], succeeded)))
    case _ => None
  }

  // ---- The manager ------------------------------------------------------------------

  class MediaTaskManager {
    var tasks: map<Id, Task>
    var queue: seq<Id>
    var workers: seq<Worker>
    var stopping: bool

    constructor (concurrency: nat)
      requires concurrency > 0
      ensures Now() == State(map[], [], workers, false)
      ensures |workers| == concurrency && forall w :: 0 <= w < concurrency ==> workers[w] == Waiting
    {
      tasks, queue, workers, stopping := map[], [], seq(concurrency, w => Waiting), false;
    }

    function Now(): State
      reads this
    {
      State(tasks, queue, workers, stopping)
    }

    /** Refused once the manager is stopping. */
    method Enqueue(id: Id) returns (ok: bool)
      requires Closed(Now()) && Enabled(Now(), Event.Enqueue(id))
      modifies this
      ensures Now() == Next(old(Now()), Event.Enqueue(id))
      ensures ok == !old(stopping)
    {
      if stopping {
        return false;
      }
      tasks := tasks[id := Task(Queued, false)];
      queue := queue + [id];
      return true;
    }

    method Cancel(id: Id) returns (accepted: bool, completed: Option<(Id, Status)>)
      requires Closed(Now())
      modifies this
      ensures Now() == Next(old(Now()), Event.Cancel(id))
      ensures accepted == Accepts(old(Now()), id)
      ensures completed == Handed(old(Now()), Event.Cancel(id))
    {
      completed := None;
      if id !in tasks {
        return false, completed;
      }
      var task := tasks[id];
      if task.status == Succeeded || task.status == Failed || task.status == Status.Cancelled {
        return false, completed;
      }
      tasks := tasks[id := task.(flagged := true)];
      if task.status == Queued {
        tasks := tasks[id := tasks[id].(status := Status.Cancelled)];
        queue := Without(queue, id);
        completed := Some((id, Status.Cancelled));
      }
      return true, completed;
    }

    /** A waiting worker's turn at the queue. */
    method Take(w: nat)
      requires Closed(Now()) && Enabled(Now(), Event.Take(w))
      modifies this
      ensures Now() == Next(old(Now()), Event.Take(w))
    {
      if !stopping && queue == [] {
        return;
      }
      if stopping && queue == [] {
        workers := workers[w := Exited];
        return;
      }
      var id := queue[0];
      queue := queue[1..];
      if tasks[id].flagged {
        tasks := tasks[id := tasks[id].(status := Status.Cancelled)];
        return;
      }
      tasks := tasks[id := tasks[id].(status := Running)];
      workers := workers[w := Working(id)];
    }

    /** A worker's work has returned, or thrown, which counts as not succeeding. */
    method Finish(w: nat, succeeded: bool) returns (completed: (Id, Status))
      requires Closed(Now()) && Enabled(Now(), Event.Finish(w, succeeded))
      modifies this
      ensures Now() == Next(old(Now()), Event.Finish(w, succeeded))
      ensures Some(completed) == Handed(old(Now()), Event.Finish(w, succeeded))
    {
      var id := workers[w].id;
      var status;
      if tasks[id].flagged {
        status := Status.Cancelled;
      } else if succeeded {
        status := Succeeded;
      } else {
        status := Failed;
      }
      tasks := tasks[id := tasks[id].(status := status)];
      workers := workers[w := Waiting];
      return (id, status);
    }

    method Stop()
      modifies this
      ensures Closed(old(Now())) ==> Now() == Next(old(Now()), Event.Stop)
    {
      stopping := true;
      tasks := Flagged(tasks);
    }

    method Idle() returns (idle: bool)
      ensures idle <==> forall id :: id in tasks ==> tasks[id].status.Terminal()
    {
      var left := tasks.Keys;
      while left != {}
        invariant left <= tasks.Keys
        invariant forall id :: id in tasks.Keys - left ==> tasks[id].status.Terminal()
        decreases |left|
      {
        var id :| id in left;
        if tasks[id].status == Queued || tasks[id].status == Running {
          return false;
        }
        left := left - {id};
      }
      return true;
    }
  }
}
