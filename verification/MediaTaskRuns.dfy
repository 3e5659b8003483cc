/** What holds in every interleaving of the task manager's steps. */
module MediaTaskRuns {
  import opened Options
  import opened Sequences
  import opened MediaTasks

  /**
   A state with what has been observed on the way to it: tasks in the order
   they were added, those started in the order they were, those taken off
   the queue without starting, those whose cancellation was accepted, the
   completions handed out, and what the work of each finished task returned.
   */
  datatype Trace = Trace(state: State, order: seq<Id>, started: seq<Id>, dropped: set<Id>, accepted: set<Id>,
                         handed: seq<(Id, Status)>, returned: map<Id, bool>)

  ghost function Initial(concurrency: nat): Trace {
    Trace(State(map[], [], seq(concurrency, w => Waiting), false), [], [], {}, {}, [], map[])
  }

  ghost function Order(t: Trace, e: Event): seq<Id> {
    if e.Enqueue? && !t.state.stopping then t.order + [e.id] else t.order
  }

  /** The task a worker's turn takes off the queue. */
  ghost predicate Takes(t: Trace, e: Event) {
    e.Take? && t.state.queue != []
  }

  ghost function Started(t: Trace, e: Event): seq<Id>
    requires Closed(t.state)
  {
    if Takes(t, e) && !t.state.tasks[t.state.queue[0]].flagged then t.started + [t.state.queue[0]] else t.started
  }

  ghost function Dropped(t: Trace, e: Event): set<Id>
    requires Closed(t.state)
  {
    if Takes(t, e) && t.state.tasks[t.state.queue[0]].flagged then t.dropped + {t.state.queue[0]}
    else if e.Cancel? && Accepts(t.state, e.id) && t.state.tasks[e.id].status.Queued? then t.dropped + {e.id}
    else t.dropped
  }

  ghost function After(t: Trace, e: Event): Trace
    requires Closed(t.state) && Enabled(t.state, e)
  {
    var h := Handed(t.state, e);
    Trace(Next(t.state, e), Order(t, e), Started(t, e), Dropped(t, e),
          if e.Cancel? && Accepts(t.state, e.id) then t.accepted + {e.id} else t.accepted,
          if h.Some? then t.handed + [h.value] else t.handed,
          if e.Finish? then t.returned[t.state.workers[e.w].id := e.succeeded] else t.returned)
  }

  // ---- The invariants -----------------------------------------------------------------

  /** The order without those dropped. */
  ghost function Kept(order: seq<Id>, dropped: set<Id>): seq<Id> {
    if order == [] then []
    else Kept(order[..|order| - 1], dropped) + if order[|order| - 1] in dropped then [] else [order[|order| - 1]]
  }

  /** First in, first out: what started and what waits, in that order, is what was added and not dropped, in order. */
  ghost predicate FirstInFirstOut(t: Trace) {
    && Distinct(t.order)
    && (forall id :: id in t.state.tasks <==> id in t.order)
    && t.started + t.state.queue == Kept(t.order, t.dropped)
    && (forall id :: id in t.dropped ==> id in t.state.tasks)
  }

  /** The queue is the queued tasks. */
  ghost predicate QueueRight(s: State) {
    Closed(s) && forall id :: id in s.tasks ==> (s.tasks[id].status.Queued? <==> id in s.queue)
  }

  ghost predicate IsWorking(s: State, w: nat, id: Id) {
    w < |s.workers| && s.workers[w] == Working(id)
  }

  /** Each running task has a worker, and each busy worker a running task of its own. */
  ghost predicate WorkersMatch(s: State) {
    && (forall w, id :: IsWorking(s, w, id) ==> id in s.tasks && s.tasks[id].status.Running?)
    && (forall v, w, id :: IsWorking(s, v, id) && IsWorking(s, w, id) ==> v == w)
    && (forall id :: id in s.tasks && s.tasks[id].status.Running? ==> exists w :: IsWorking(s, w, id))
  }

  /** Until the manager stops: flagged exactly when accepted, and then running or cancelled. */
  ghost predicate Right(task: Task, accepted: bool) {
    && (task.flagged <==> accepted)
    && (task.status.Cancelled? ==> task.flagged)
    && (task.flagged ==> task.status.Running? || task.status.Cancelled?)
  }

  /** Cancelled, or running with the flag that will make it so. */
  ghost predicate Doomed(task: Task) {
    task.flagged && (task.status.Running? || task.status.Cancelled?)
  }

  /** Accepted cancellations, and until the manager stops only those, are flagged and are or will be cancelled. */
  ghost predicate CancelledRight(t: Trace) {
    && (forall id :: id in t.accepted ==> id in t.state.tasks && Doomed(t.state.tasks[id]))
    && (!t.state.stopping ==> forall id :: id in t.state.tasks ==> Right(t.state.tasks[id], id in t.accepted))
  }

  ghost predicate IsHanded(handed: seq<(Id, Status)>, id: Id) {
    exists i :: 0 <= i < |handed| && handed[i].0 == id
  }

  /** No task's completion is handed out twice, and what is handed out is the state it ends in. */
  ghost predicate HandedOnce(t: Trace) {
    && (forall i, j :: 0 <= i < j < |t.handed| ==> t.handed[i].0 != t.handed[j].0)
    && (forall i :: 0 <= i < |t.handed| ==>
          t.handed[i].0 in t.state.tasks && t.handed[i].1.Terminal() &&
          t.state.tasks[t.handed[i].0].status == t.handed[i].1)
    && (!t.state.stopping ==> forall id :: id in t.state.tasks && t.state.tasks[id].status.Terminal() ==> IsHanded(t.handed, id))
  }

  /** What a task's end says of its work: it is there when the work returned, and success is that it returned true. */
  ghost predicate EndRight(status: Status, returned: map<Id, bool>, id: Id) {
    && (status.Succeeded? ==> id in returned && returned[id])
    && (status.Failed? ==> id in returned && !returned[id])
    && (id in returned ==> status.Terminal())
  }

  ghost predicate ReturnedRight(t: Trace) {
    && (forall id :: id in t.returned ==> id in t.state.tasks)
    && (forall id :: id in t.state.tasks ==> EndRight(t.state.tasks[id].status, t.returned, id))
  }

  /** The work of the tasks that started, and of no other, is running or has returned. */
  ghost predicate StartedRight(t: Trace) {
    forall id :: id in t.started <==> id in t.returned || (id in t.state.tasks && t.state.tasks[id].status.Running?)
  }

  /** Destruction cancels: from then on every task is flagged. */
  ghost predicate StopFlags(s: State) {
    s.stopping ==> forall id :: id in s.tasks ==> s.tasks[id].flagged
  }

  ghost predicate ExitsLast(s: State) {
    forall w :: 0 <= w < |s.workers| && s.workers[w].Exited? ==> s.stopping && s.queue == []
  }

  ghost predicate Invariant(t: Trace) {
    && QueueRight(t.state)
    && FirstInFirstOut(t)
    && WorkersMatch(t.state)
    && CancelledRight(t)
    && HandedOnce(t)
    && ReturnedRight(t)
    && StartedRight(t)
    && StopFlags(t.state)
    && ExitsLast(t.state)
  }

  // ---- Sequences -----------------------------------------------------------------------

  lemma {:induction false} KeptSome(order: seq<Id>, dropped: set<Id>)
    ensures forall id :: id in Kept(order, dropped) <==> id in order && id !in dropped
    ensures Distinct(order) ==> Distinct(Kept(order, dropped))
  {
    if order != [] {
      var front, last := order[..|order| - 1], order[|order| - 1];
      KeptSome(front, dropped);
      assert order == front + [last];
      if Distinct(order) {
        assert last !in front;
        DistinctAppend(Kept(front, dropped), last);
      }
    }
  }

  lemma DistinctAppend(s: seq<Id>, x: Id)
    ensures Distinct(s) && x !in s ==> Distinct(s + [x])
  {
  }

  lemma {:induction false} KeptLess(order: seq<Id>, dropped: set<Id>, id: Id)
    ensures Kept(order, dropped + {id}) == Without(Kept(order, dropped), id)
  {
    if order != [] {
      var front, last := order[..|order| - 1], order[|order| - 1];
      KeptLess(front, dropped, id);
      WithoutJoin(Kept(front, dropped), if last in dropped then [] else [last], id);
    }
  }

  lemma {:induction false} WithoutSome(s: seq<Id>, id: Id)
    ensures forall k :: k in Without(s, id) <==> k in s && k != id
  {
    if s != [] {
      WithoutSome(s[1..], id);
      assert s == [s[0]] + s[1..];
    }
  }

  /** Dropping a waiting task takes it out of the queue and leaves the order of the rest. */
  lemma DropKeepsOrder(order: seq<Id>, started: seq<Id>, queue: seq<Id>, dropped: set<Id>, id: Id)
    requires Distinct(order) && started + queue == Kept(order, dropped) && id in queue
    ensures started + Without(queue, id) == Kept(order, dropped + {id})
    ensures queue[0] == id ==> Without(queue, id) == queue[1..]
  {
    KeptSome(order, dropped);
    KeptLess(order, dropped, id);
    WithoutJoin(started, queue, id);
    var i :| 0 <= i < |queue| && queue[i] == id;
    forall k | 0 <= k < |started|
      ensures started[k] != id
    {
      assert (started + queue)[k] == started[k] && (started + queue)[|started| + i] == id;
    }
    WithoutNone(started, id);
    if queue[0] == id {
      forall k | 0 <= k < |queue[1..]|
        ensures queue[1..][k] != id
      {
        assert (started + queue)[|started|] == id && (started + queue)[|started| + 1 + k] == queue[1..][k];
      }
      WithoutNone(queue[1..], id);
    }
  }

  // ---- Every step keeps the invariants -----------------------------------------------------

  lemma EnqueueOrder(t: Trace, id: Id)
    requires Invariant(t) && Enabled(t.state, Event.Enqueue(id))
    ensures FirstInFirstOut(After(t, Event.Enqueue(id)))
  {
    var s, n := t.state, After(t, Event.Enqueue(id));
    if !s.stopping {
      DistinctAppend(t.order, id);
      assert n.order[..|n.order| - 1] == t.order;
      assert id !in t.dropped;
      assert t.started + (s.queue + [id]) == (t.started + s.queue) + [id];
    }
  }

  lemma CancelOrder(t: Trace, id: Id)
    requires Invariant(t)
    ensures FirstInFirstOut(After(t, Event.Cancel(id)))
  {
    var s := t.state;
    if Accepts(s, id) && s.tasks[id].status.Queued? {
      DropKeepsOrder(t.order, t.started, s.queue, t.dropped, id);
    }
  }

  lemma TakeOrder(t: Trace, w: nat)
    requires Invariant(t) && Enabled(t.state, Event.Take(w))
    ensures FirstInFirstOut(After(t, Event.Take(w)))
  {
    var s, n := t.state, After(t, Event.Take(w));
    if s.queue != [] {
      var id := s.queue[0];
      assert id in s.queue && n.state.tasks.Keys == s.tasks.Keys;
      if s.tasks[id].flagged {
        DropKeepsOrder(t.order, t.started, s.queue, t.dropped, id);
      } else {
        assert s.queue == [id] + s.queue[1..];
        Associate(t.started, [id], s.queue[1..]);
        assert n.started + n.state.queue == t.started + s.queue;
      }
    }
  }

  lemma KeepsOrder(t: Trace, e: Event)
    requires Invariant(t) && Enabled(t.state, e)
    ensures FirstInFirstOut(After(t, e))
  {
    match e
    case Enqueue(id) => EnqueueOrder(t, id);
    case Cancel(id) => CancelOrder(t, id);
    case Take(w) => TakeOrder(t, w);
    case Finish(w, succeeded) => assert After(t, e).state.tasks.Keys == t.state.tasks.Keys;
    case Stop => assert After(t, e).state.tasks.Keys == t.state.tasks.Keys;
  }

  lemma QueueDistinct(t: Trace)
    requires FirstInFirstOut(t)
    ensures Distinct(t.state.queue)
  {
    KeptSome(t.order, t.dropped);
    var all := t.started + t.state.queue;
    forall i, j | 0 <= i < j < |t.state.queue|
      ensures t.state.queue[i] != t.state.queue[j]
    {
      assert all[|t.started| + i] == t.state.queue[i] && all[|t.started| + j] == t.state.queue[j];
    }
  }

  lemma CancelQueue(t: Trace, id: Id)
    requires Invariant(t)
    ensures QueueRight(Next(t.state, Event.Cancel(id)))
  {
    var s, n := t.state, Next(t.state, Event.Cancel(id));
    WithoutSome(s.queue, id);
    forall i | 0 <= i < |n.queue|
      ensures n.queue[i] in n.tasks
    {
      assert n.queue[i] in n.queue;
    }
  }

  lemma TakeQueue(t: Trace, w: nat)
    requires Invariant(t) && Enabled(t.state, Event.Take(w))
    ensures QueueRight(Next(t.state, Event.Take(w)))
  {
    var s := t.state;
    QueueDistinct(t);
    if s.queue != [] {
      assert s.queue == [s.queue[0]] + s.queue[1..];
      assert s.queue[0] in s.queue && s.queue[0] !in s.queue[1..];
    }
  }

  lemma FinishQueue(t: Trace, w: nat, succeeded: bool)
    requires Invariant(t) && Enabled(t.state, Event.Finish(w, succeeded))
    ensures QueueRight(Next(t.state, Event.Finish(w, succeeded)))
  {
    assert IsWorking(t.state, w, t.state.workers[w].id);
  }

  lemma EnqueueQueue(t: Trace, id: Id)
    requires Invariant(t) && Enabled(t.state, Event.Enqueue(id))
    ensures QueueRight(Next(t.state, Event.Enqueue(id)))
  {
  }

  lemma KeepsQueue(t: Trace, e: Event)
    requires Invariant(t) && Enabled(t.state, e)
    ensures QueueRight(Next(t.state, e))
  {
    match e
    case Enqueue(id) => EnqueueQueue(t, id);
    case Cancel(id) => CancelQueue(t, id);
    case Take(w) => TakeQueue(t, w);
    case Finish(w, succeeded) => FinishQueue(t, w, succeeded);
    case Stop =>
  }

  lemma KeepsWorkers(t: Trace, e: Event)
    requires Invariant(t) && Enabled(t.state, e)
    ensures WorkersMatch(Next(t.state, e)) && ExitsLast(Next(t.state, e))
  {
    var s, n := t.state, Next(t.state, e);
    forall w, id
      ensures e.Enqueue? || e.Cancel? || e.Stop? ==> (IsWorking(n, w, id) <==> IsWorking(s, w, id))
      ensures e.Take? && w != e.w ==> (IsWorking(n, w, id) <==> IsWorking(s, w, id))
      ensures e.Finish? && w != e.w ==> (IsWorking(n, w, id) <==> IsWorking(s, w, id))
    {
    }
    match e
    case Enqueue(id) => EnqueueWorkers(s, n, id);
    case Cancel(id) => WorkersStay(s, n);
    case Take(w) => TakeWorkers(t, w);
    case Finish(w, succeeded) => FinishWorkers(t, w, succeeded);
    case Stop => WorkersStay(s, n);
  }

  lemma WorkersStay(s: State, n: State)
    requires WorkersMatch(s) && n.workers == s.workers && n.tasks.Keys == s.tasks.Keys
    requires forall id :: id in s.tasks ==> (n.tasks[id].status.Running? <==> s.tasks[id].status.Running?)
    ensures WorkersMatch(n)
  {
    forall w, id
      ensures IsWorking(n, w, id) <==> IsWorking(s, w, id)
    {
    }
    forall id | id in n.tasks && n.tasks[id].status.Running?
      ensures exists w :: IsWorking(n, w, id)
    {
      var w :| IsWorking(s, w, id);
      assert IsWorking(n, w, id);
    }
  }

  lemma EnqueueWorkers(s: State, n: State, id: Id)
    requires WorkersMatch(s) && n.workers == s.workers && id !in s.tasks
    requires n.tasks == s.tasks || n.tasks == s.tasks[id := Task(Queued, false)]
    ensures WorkersMatch(n)
  {
    forall w, k
      ensures IsWorking(n, w, k) <==> IsWorking(s, w, k)
    {
    }
    forall k | k in n.tasks && n.tasks[k].status.Running?
      ensures exists w :: IsWorking(n, w, k)
    {
      var w :| IsWorking(s, w, k);
      assert IsWorking(n, w, k);
    }
  }

  lemma TakeWorkers(t: Trace, w: nat)
    requires Invariant(t) && Enabled(t.state, Event.Take(w))
    ensures WorkersMatch(Next(t.state, Event.Take(w))) && ExitsLast(Next(t.state, Event.Take(w)))
  {
    var s, n := t.state, Next(t.state, Event.Take(w));
    forall v, id
      ensures v != w ==> (IsWorking(n, v, id) <==> IsWorking(s, v, id))
      ensures !IsWorking(s, w, id)
    {
    }
    if s.queue != [] {
      assert s.queue[0] in s.queue;
    }
    forall id | id in n.tasks && n.tasks[id].status.Running?
      ensures exists v :: IsWorking(n, v, id)
    {
      if s.tasks[id].status.Running? {
        var v :| IsWorking(s, v, id);
        assert IsWorking(n, v, id);
      } else {
        assert IsWorking(n, w, id);
      }
    }
  }

  lemma FinishWorkers(t: Trace, w: nat, succeeded: bool)
    requires Invariant(t) && Enabled(t.state, Event.Finish(w, succeeded))
    ensures WorkersMatch(Next(t.state, Event.Finish(w, succeeded)))
  {
    var s, n := t.state, Next(t.state, Event.Finish(w, succeeded));
    var done := s.workers[w].id;
    assert IsWorking(s, w, done);
    forall v, id
      ensures IsWorking(n, v, id) <==> v != w && IsWorking(s, v, id)
    {
    }
    forall id | id in n.tasks && n.tasks[id].status.Running?
      ensures exists v :: IsWorking(n, v, id)
    {
      var v :| IsWorking(s, v, id);
      assert IsWorking(n, v, id);
    }
  }

  lemma TaskStaysRight(t: Trace, e: Event, id: Id)
    requires Invariant(t) && Enabled(t.state, e) && !After(t, e).state.stopping && id in After(t, e).state.tasks
    ensures Right(After(t, e).state.tasks[id], id in After(t, e).accepted)
  {
    var s := t.state;
    if id in s.tasks {
      assert Right(s.tasks[id], id in t.accepted);
    } else {
      assert id !in t.accepted;
    }
    if e.Take? && s.queue != [] {
      assert s.queue[0] in s.queue;
    }
    if e.Finish? {
      assert IsWorking(s, e.w, s.workers[e.w].id);
    }
  }

  lemma StaysDoomed(t: Trace, e: Event, id: Id)
    requires Invariant(t) && Enabled(t.state, e) && id in After(t, e).accepted
    ensures id in After(t, e).state.tasks && Doomed(After(t, e).state.tasks[id])
  {
    var s := t.state;
    if id in t.accepted {
      assert Doomed(s.tasks[id]);
    }
    if e.Take? && s.queue != [] {
      assert s.queue[0] in s.queue;
    }
  }

  lemma KeepsCancelled(t: Trace, e: Event)
    requires Invariant(t) && Enabled(t.state, e)
    ensures CancelledRight(After(t, e))
  {
    var n := After(t, e);
    if !n.state.stopping {
      forall id | id in n.state.tasks
        ensures Right(n.state.tasks[id], id in n.accepted)
      {
        TaskStaysRight(t, e, id);
      }
    }
    forall id | id in n.accepted
      ensures id in n.state.tasks && Doomed(n.state.tasks[id])
    {
      StaysDoomed(t, e, id);
    }
  }

  /** A state a task ends in never changes. */
  lemma TerminalStays(t: Trace, e: Event, id: Id)
    requires Invariant(t) && Enabled(t.state, e)
    requires id in t.state.tasks && t.state.tasks[id].status.Terminal()
    ensures id in Next(t.state, e).tasks && Next(t.state, e).tasks[id].status == t.state.tasks[id].status
  {
    var s := t.state;
    if e.Take? && s.queue != [] {
      assert s.queue[0] in s.queue;
    }
    if e.Finish? {
      assert IsWorking(s, e.w, s.workers[e.w].id);
    }
  }

  lemma HandedMore(handed: seq<(Id, Status)>, h: (Id, Status), id: Id)
    ensures IsHanded(handed + [h], id) <==> IsHanded(handed, id) || h.0 == id
  {
    var more := handed + [h];
    if IsHanded(handed, id) {
      var i :| 0 <= i < |handed| && handed[i].0 == id;
      assert more[i].0 == id;
    }
    assert more[|handed|] == h;
  }

  lemma KeepsHanded(t: Trace, e: Event)
    requires Invariant(t) && Enabled(t.state, e)
    ensures HandedOnce(After(t, e))
  {
    var s, n, h := t.state, After(t, e), Handed(t.state, e);
    forall i | 0 <= i < |t.handed|
      ensures t.handed[i].0 in n.state.tasks && n.state.tasks[t.handed[i].0].status == t.handed[i].1
    {
      TerminalStays(t, e, t.handed[i].0);
    }
    if e.Finish? {
      assert IsWorking(s, e.w, s.workers[e.w].id);
    }
    if e.Take? && s.queue != [] {
      assert s.queue[0] in s.queue;
    }
    if !n.state.stopping {
      forall id | id in n.state.tasks && n.state.tasks[id].status.Terminal()
        ensures IsHanded(n.handed, id)
      {
        if h.Some? {
          HandedMore(t.handed, h.value, id);
        }
      }
    }
  }

  lemma KeepsReturned(t: Trace, e: Event)
    requires Invariant(t) && Enabled(t.state, e)
    ensures ReturnedRight(After(t, e))
  {
    var s, n := t.state, After(t, e);
    if e.Take? && s.queue != [] {
      assert s.queue[0] in s.queue;
    }
    if e.Finish? {
      assert IsWorking(s, e.w, s.workers[e.w].id);
    }
    forall id | id in n.state.tasks
      ensures EndRight(n.state.tasks[id].status, n.returned, id)
    {
      assert id in s.tasks ==> EndRight(s.tasks[id].status, t.returned, id);
      assert id !in s.tasks ==> id !in t.returned;
    }
  }

  lemma KeepsFlags(s: State, e: Event)
    requires Closed(s) && StopFlags(s) && Enabled(s, e)
    ensures StopFlags(Next(s, e))
  {
  }

  lemma KeepsStarted(t: Trace, e: Event)
    requires Invariant(t) && Enabled(t.state, e)
    ensures StartedRight(After(t, e))
  {
    var s, n := t.state, After(t, e);
    if e.Take? && s.queue != [] {
      assert s.queue[0] in s.queue;
    }
    if e.Finish? {
      assert IsWorking(s, e.w, s.workers[e.w].id);
    }
    forall id
      ensures id in n.started <==> id in n.returned || (id in n.state.tasks && n.state.tasks[id].status.Running?)
    {
      assert id in t.started <==> id in t.returned || (id in s.tasks && s.tasks[id].status.Running?);
      assert id in t.returned ==> id in s.tasks;
    }
  }

  // ---- Runs ------------------------------------------------------------------------------

  lemma StepKeeps(t: Trace, e: Event)
    requires Invariant(t) && Enabled(t.state, e)
    ensures Invariant(After(t, e))
  {
    KeepsOrder(t, e);
    KeepsQueue(t, e);
    KeepsWorkers(t, e);
    KeepsCancelled(t, e);
    KeepsHanded(t, e);
    KeepsReturned(t, e);
    KeepsStarted(t, e);
    KeepsFlags(t.state, e);
  }

  /** Reachable by steps, in any order, from a manager with that many workers. */
  ghost predicate Reachable(concurrency: nat, t: Trace, steps: nat)
    decreases steps
  {
    if steps == 0 then t == Initial(concurrency)
    else exists u, e :: Reachable(concurrency, u, steps - 1) && IsStep(u, e, t)
  }

  ghost predicate IsStep(u: Trace, e: Event, t: Trace) {
    Closed(u.state) && Enabled(u.state, e) && t == After(u, e)
  }

  /** The invariants, and as many workers as at first. */
  ghost predicate Holds(concurrency: nat, t: Trace) {
    Invariant(t) && |t.state.workers| == concurrency
  }

  lemma StepHolds(concurrency: nat, u: Trace, e: Event, t: Trace)
    requires Holds(concurrency, u) && IsStep(u, e, t)
    ensures Holds(concurrency, t)
  {
    StepKeeps(u, e);
  }

  lemma {:induction false} AlwaysHolds(concurrency: nat, t: Trace, steps: nat)
    requires Reachable(concurrency, t, steps)
    ensures Holds(concurrency, t)
    decreases steps
  {
    if steps == 0 {
      InitialInvariant(concurrency);
    } else {
      var u, e :| Reachable(concurrency, u, steps - 1) && IsStep(u, e, t);
      AlwaysHolds(concurrency, u, steps - 1);
      StepHolds(concurrency, u, e, t);
    }
  }

  /** Every state that any interleaving reaches meets the invariants. */
  lemma AlwaysInvariant(concurrency: nat, t: Trace, steps: nat)
    requires Reachable(concurrency, t, steps)
    ensures Invariant(t) && |t.state.workers| == concurrency
  {
    AlwaysHolds(concurrency, t, steps);
  }

  lemma InitialInvariant(concurrency: nat)
    ensures Invariant(Initial(concurrency))
  {
  }

  // ---- What it means ----------------------------------------------------------------------

  /** Before destruction, a task that has ended ended cancelled exactly when a cancellation of it was accepted. */
  lemma CancelledIffAccepted(concurrency: nat, t: Trace, steps: nat, id: Id)
    requires Reachable(concurrency, t, steps) && !t.state.stopping
    requires id in t.state.tasks && t.state.tasks[id].status.Terminal()
    ensures t.state.tasks[id].status == Status.Cancelled <==> id in t.accepted
  {
    AlwaysInvariant(concurrency, t, steps);
    assert Right(t.state.tasks[id], id in t.accepted);
  }

  /** A task that succeeded is one whose work returned true, a failed one one whose work returned false or threw. */
  lemma EndTellsReturn(concurrency: nat, t: Trace, steps: nat, id: Id)
    requires Reachable(concurrency, t, steps) && id in t.state.tasks
    ensures t.state.tasks[id].status == Succeeded ==> id in t.returned && t.returned[id]
    ensures t.state.tasks[id].status == Failed ==> id in t.returned && !t.returned[id]
    ensures id in t.returned ==> t.state.tasks[id].status.Terminal()
  {
    AlwaysInvariant(concurrency, t, steps);
    assert EndRight(t.state.tasks[id].status, t.returned, id);
  }

  /** Before destruction, work that returned and was not to be cancelled has succeeded exactly when it returned true. */
  lemma ReturnDecidesEnd(concurrency: nat, t: Trace, steps: nat, id: Id)
    requires Reachable(concurrency, t, steps) && !t.state.stopping && id in t.returned && id !in t.accepted
    ensures id in t.state.tasks
    ensures t.state.tasks[id].status == if t.returned[id] then Succeeded else Failed
  {
    AlwaysInvariant(concurrency, t, steps);
    assert EndRight(t.state.tasks[id].status, t.returned, id);
    assert Right(t.state.tasks[id], id in t.accepted);
  }

  /** A task's work runs at most once, and never once it was taken off the queue without starting. */
  lemma WorkRunsOnce(concurrency: nat, t: Trace, steps: nat, id: Id)
    requires Reachable(concurrency, t, steps) && id in t.state.tasks
    ensures Distinct(t.started)
    ensures id in t.started <==> id in t.returned || t.state.tasks[id].status == Running
    ensures id in t.dropped ==> id !in t.started
  {
    AlwaysInvariant(concurrency, t, steps);
    KeptSome(t.order, t.dropped);
    assert forall i :: 0 <= i < |t.started| ==> (t.started + t.state.queue)[i] == t.started[i];
  }

  /** Only an accepted task is new, and none is forgotten. */
  lemma TasksAfter(s: State, e: Event)
    requires Closed(s) && Enabled(s, e)
    ensures Next(s, e).tasks.Keys == s.tasks.Keys + if e.Enqueue? && !s.stopping then {e.id} else {}
    ensures Next(s, e).stopping <==> s.stopping || e == Stop
  {
  }

  /** The manager stops exactly at its destruction, and from then on every task is flagged and none is added. */
  lemma StopTakesHold(concurrency: nat, t: Trace, steps: nat, e: Event, n: Trace)
    requires Reachable(concurrency, t, steps) && IsStep(t, e, n)
    ensures n.state.stopping <==> t.state.stopping || e == Stop
    ensures n.state.stopping ==>
              n.state.tasks.Keys == t.state.tasks.Keys && forall id :: id in n.state.tasks ==> n.state.tasks[id].flagged
  {
    AlwaysHolds(concurrency, t, steps);
    StepHolds(concurrency, t, e, n);
    TasksAfter(t.state, e);
    assert StopFlags(n.state);
  }

  /** Once the manager is stopping no work begins. */
  lemma NothingStartsStopping(concurrency: nat, t: Trace, steps: nat, e: Event, id: Id)
    requires Reachable(concurrency, t, steps) && t.state.stopping && Closed(t.state) && Enabled(t.state, e)
    requires id in Next(t.state, e).tasks && Next(t.state, e).tasks[id].status == Running
    ensures id in t.state.tasks && t.state.tasks[id].status == Running
  {
    AlwaysInvariant(concurrency, t, steps);
    if e.Take? && t.state.queue != [] {
      assert t.state.queue[0] in t.state.queue;
    }
  }

  /** Once the manager is stopping, whatever still ends ends cancelled. */
  lemma StoppingCancels(concurrency: nat, t: Trace, steps: nat, e: Event, id: Id)
    requires Reachable(concurrency, t, steps) && t.state.stopping && Closed(t.state) && Enabled(t.state, e)
    requires id in t.state.tasks && !t.state.tasks[id].status.Terminal() && id in Next(t.state, e).tasks
    requires Next(t.state, e).tasks[id].status.Terminal()
    ensures Next(t.state, e).tasks[id].status == Status.Cancelled
  {
    AlwaysInvariant(concurrency, t, steps);
  }

  /** An accepted cancellation always leads to a cancelled task, destruction or not. */
  lemma AcceptedEndsCancelled(concurrency: nat, t: Trace, steps: nat, id: Id)
    requires Reachable(concurrency, t, steps) && id in t.accepted
    ensures id in t.state.tasks
    ensures t.state.tasks[id].status.Terminal() ==> t.state.tasks[id].status == Status.Cancelled
  {
    AlwaysInvariant(concurrency, t, steps);
    assert Doomed(t.state.tasks[id]);
  }

  ghost function RunningTasks(s: State): set<Id> {
    set id | id in s.tasks && s.tasks[id].status.Running?
  }

  lemma {:induction false} BusyAtMost(s: State, k: nat) returns (busy: set<Id>)
    requires k <= |s.workers|
    ensures |busy| <= k
    ensures forall w: nat, id :: w < k && IsWorking(s, w, id) ==> id in busy
  {
    busy := {};
    if k > 0 {
      busy := BusyAtMost(s, k - 1);
      if s.workers[k - 1].Working? {
        busy := busy + {s.workers[k - 1].id};
      }
    }
  }

  lemma {:induction false} SubsetSize(a: set<Id>, b: set<Id>)
    requires a <= b
    ensures |a| <= |b|
  {
    if a != {} {
      var x :| x in a;
      SubsetSize(a - {x}, b - {x});
    }
  }

  /** Never more running tasks than workers. */
  lemma RunningAtMostWorkers(concurrency: nat, t: Trace, steps: nat)
    requires Reachable(concurrency, t, steps)
    ensures |RunningTasks(t.state)| <= concurrency
  {
    AlwaysInvariant(concurrency, t, steps);
    var busy := BusyAtMost(t.state, concurrency);
    forall id | id in RunningTasks(t.state)
      ensures id in busy
    {
      var w :| IsWorking(t.state, w, id);
    }
    SubsetSize(RunningTasks(t.state), busy);
  }

  /** The queue is exactly the queued tasks, once each, in the order they were added. */
  lemma QueueInOrder(concurrency: nat, t: Trace, steps: nat)
    requires Reachable(concurrency, t, steps)
    ensures forall id :: id in t.state.queue <==> id in t.state.tasks && t.state.tasks[id].status == Queued
    ensures t.started + t.state.queue == Kept(t.order, t.dropped) && Distinct(t.started + t.state.queue)
  {
    AlwaysInvariant(concurrency, t, steps);
    KeptSome(t.order, t.dropped);
    forall id | id in t.state.queue
      ensures id in t.state.tasks
    {
      var i :| 0 <= i < |t.state.queue| && t.state.queue[i] == id;
    }
  }

  /** A task's completion is handed out at most once, with the state it ended in; before destruction, exactly once. */
  lemma CompletedOnce(concurrency: nat, t: Trace, steps: nat, id: Id)
    requires Reachable(concurrency, t, steps) && id in t.state.tasks
    ensures !t.state.stopping ==> (t.state.tasks[id].status.Terminal() <==> IsHanded(t.handed, id))
    ensures forall i, j :: 0 <= i < |t.handed| && 0 <= j < |t.handed| && t.handed[i].0 == id && t.handed[j].0 == id ==>
              i == j && t.handed[i].1 == t.state.tasks[id].status
  {
    AlwaysInvariant(concurrency, t, steps);
  }

  /** What is left for a worker to do before it exits, in turns: return from its work, and exit. */
  ghost function TurnsOf(w: Worker): nat {
    match w
    case Working(_) => 2
    case Waiting => 1
    case Exited => 0
  }

  ghost function Turns(workers: seq<Worker>): nat {
    if workers == [] then 0 else Turns(workers[..|workers| - 1]) + TurnsOf(workers[|workers| - 1])
  }

  ghost function TurnsLeft(s: State): nat {
    |s.queue| + Turns(s.workers)
  }

  lemma {:induction false} TurnsUpdate(workers: seq<Worker>, w: nat, x: Worker)
    requires w < |workers|
    ensures Turns(workers[w := x]) == Turns(workers) - TurnsOf(workers[w]) + TurnsOf(x)
  {
    var n, front := |workers| - 1, workers[..|workers| - 1];
    if w < n {
      TurnsUpdate(front, w, x);
      assert workers[w := x][..n] == front[w := x];
    } else {
      assert workers[w := x][..n] == front;
    }
  }

  lemma {:induction false} NoTurns(workers: seq<Worker>)
    ensures Turns(workers) == 0 <==> forall w :: 0 <= w < |workers| ==> workers[w].Exited?
  {
    if workers != [] {
      NoTurns(workers[..|workers| - 1]);
    }
  }

  lemma {:induction false} WithoutShrinks(s: seq<Id>, id: Id)
    ensures |Without(s, id)| <= |s|
  {
    if s != [] {
      WithoutShrinks(s[1..], id);
    }
  }

  /**
   Destruction ends: once the manager is stopping no step adds a turn, every
   turn of a worker uses one up, and there are turns left exactly until the
   queue is empty and every worker has exited.
   */
  lemma StoppingEnds(concurrency: nat, t: Trace, steps: nat, e: Event)
    requires Reachable(concurrency, t, steps) && t.state.stopping && Closed(t.state) && Enabled(t.state, e)
    ensures Next(t.state, e).stopping && TurnsLeft(Next(t.state, e)) <= TurnsLeft(t.state)
    ensures e.Take? || e.Finish? ==> TurnsLeft(Next(t.state, e)) < TurnsLeft(t.state)
    ensures TurnsLeft(t.state) == 0 <==>
            t.state.queue == [] && forall w :: 0 <= w < |t.state.workers| ==> t.state.workers[w].Exited?
  {
    AlwaysInvariant(concurrency, t, steps);
    var s := t.state;
    NoTurns(s.workers);
    if e.Take? && s.queue == [] {
      TurnsUpdate(s.workers, e.w, Exited);
    } else if e.Take? {
      assert s.queue[0] in s.queue;
    } else if e.Finish? {
      TurnsUpdate(s.workers, e.w, Waiting);
    } else if e.Cancel? {
      WithoutShrinks(s.queue, e.id);
    }
  }

  /** When every worker has exited, which the destructor waits for, every task has ended. */
  lemma StoppedMeansEnded(concurrency: nat, t: Trace, steps: nat, id: Id)
    requires Reachable(concurrency, t, steps) && concurrency > 0
    requires forall w :: 0 <= w < |t.state.workers| ==> t.state.workers[w].Exited?
    requires id in t.state.tasks
    ensures t.state.tasks[id].status.Terminal()
  {
    AlwaysInvariant(concurrency, t, steps);
    assert t.state.workers[0].Exited?;
    forall w
      ensures !IsWorking(t.state, w, id)
    {
    }
  }
}
