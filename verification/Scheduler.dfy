/** The simple scheduler: tasks added between sweeps, and a sweep that runs the
    due tasks and erases them from the vector it goes through. */
module Scheduler {
  import opened Text

  /** A task, known by the event at which it was added. */
  datatype Task = Task(added: nat, time: int)

  function Due(tasks: seq<Task>, now: int): seq<Task> {
    if tasks == [] then []
    else if tasks[0].time <= now then [tasks[0]] + Due(tasks[1..], now)
    else Due(tasks[1..], now)
  }

  function Later(tasks: seq<Task>, now: int): seq<Task> {
    if tasks == [] then []
    else if tasks[0].time <= now then Later(tasks[1..], now)
    else [tasks[0]] + Later(tasks[1..], now)
  }

  class SimpleScheduler {
    var tasks: seq<Task>
    var running: bool

    constructor ()
      ensures tasks == [] && running
    {
      tasks, running := [], true;
    }

    method AddTask(task: Task)
      modifies this
      ensures tasks == old(tasks) + [task] && running == old(running)
    {
      tasks := tasks + [task];
    }

    /** One turn of the loop in `start`: the iterator stays where a task is
        erased and moves past a task that is kept. */
    method Sweep(now: int) returns (executed: seq<Task>)
      modifies this`tasks
      ensures executed == Due(old(tasks), now)
      ensures tasks == Later(old(tasks), now)
    {
      executed := [];
      var it := 0;
      while it < |tasks|
        invariant 0 <= it <= |tasks|
        invariant executed + Due(tasks[it..], now) == Due(old(tasks), now)
        invariant tasks[..it] + Later(tasks[it..], now) == Later(old(tasks), now)
        decreases |tasks| - it
      {
        SweepStep(tasks, it, now, executed);
        if tasks[it].time <= now {
          executed := executed + [tasks[it]];
          tasks := tasks[..it] + tasks[it + 1..];
        } else {
          it := it + 1;
        }
      }
      assert tasks[it..] == [] && tasks[..it] == tasks;
    }

    method Stop()
      modifies this
      ensures !running && tasks == old(tasks)
    {
      running := false;
    }
  }

  lemma SweepStep(tasks: seq<Task>, it: nat, now: int, executed: seq<Task>)
    requires it < |tasks|
    ensures var t, erased := tasks[it], tasks[..it] + tasks[it + 1..];
            if t.time <= now then
              && erased[..it] == tasks[..it] && erased[it..] == tasks[it + 1..]
              && executed + Due(tasks[it..], now) == executed + [t] + Due(tasks[it + 1..], now)
              && Later(tasks[it..], now) == Later(tasks[it + 1..], now)
            else
              && Due(tasks[it..], now) == Due(tasks[it + 1..], now)
              && tasks[..it] + Later(tasks[it..], now) == tasks[..it + 1] + Later(tasks[it + 1..], now)
  {
    var t := tasks[it];
    assert tasks[it..] == [t] + tasks[it + 1..];
    Cons(t, tasks[it + 1..]);
    if t.time <= now {
      Assoc(executed, [t], Due(tasks[it + 1..], now));
    } else {
      Assoc(tasks[..it], [t], Later(tasks[it + 1..], now));
      assert tasks[..it] + [t] == tasks[..it + 1];
    }
  }

  // -------------------------------------------------------------------- runs

  datatype Event = Add(time: int) | Sweep(now: int)

  /** A task run at an event. */
  datatype Execution = Execution(task: Task, at: nat)

  datatype State = State(pending: seq<Task>, executions: seq<Execution>)

  function Stamp(tasks: seq<Task>, at: nat): (r: seq<Execution>)
    ensures |r| == |tasks| && forall i | 0 <= i < |r| :: r[i] == Execution(tasks[i], at)
  {
    seq(|tasks|, i requires 0 <= i < |tasks| => Execution(tasks[i], at))
  }

  function Apply(s: State, e: Event, at: nat): State {
    match e
    case Add(time) => s.(pending := s.pending + [Task(at, time)])
    case Sweep(now) => State(Later(s.pending, now), s.executions + Stamp(Due(s.pending, now), at))
  }

  function After(events: seq<Event>): State {
    if events == [] then State([], [])
    else
      var n := |events| - 1;
      Apply(After(events[..n]), events[n], n)
  }

  /** `q` is the first sweep behind `p` that reaches the time of the task added
      at `p`. */
  predicate FirstDue(events: seq<Event>, p: nat, q: nat) {
    && p < q < |events|
    && events[p].Add? && events[q].Sweep? && events[p].time <= events[q].now
    && forall r | p < r < q :: events[r].Sweep? ==> events[r].now < events[p].time
  }

  /** No sweep has reached the time of the task added at `p`. */
  predicate NotYetDue(events: seq<Event>, p: nat) {
    && p < |events| && events[p].Add?
    && forall r | p < r < |events| :: events[r].Sweep? ==> events[r].now < events[p].time
  }

  lemma {:induction false} DueMembers(tasks: seq<Task>, now: int)
    ensures forall t :: t in Due(tasks, now) <==> t in tasks && t.time <= now
    ensures forall t :: t in Later(tasks, now) <==> t in tasks && now < t.time
    ensures multiset(Due(tasks, now)) + multiset(Later(tasks, now)) == multiset(tasks)
  {
    if tasks != [] {
      DueMembers(tasks[1..], now);
      assert tasks == [tasks[0]] + tasks[1..];
    }
  }

  predicate InAdditionOrder(tasks: seq<Task>) {
    forall i, j | 0 <= i < j < |tasks| :: tasks[i].added < tasks[j].added
  }

  lemma {:induction false} DueInOrder(tasks: seq<Task>, now: int)
    requires InAdditionOrder(tasks)
    ensures InAdditionOrder(Due(tasks, now)) && InAdditionOrder(Later(tasks, now))
  {
    if tasks != [] {
      var t, rest := tasks[0], tasks[1..];
      assert tasks == [t] + rest;
      OrderCons(t, rest);
      hide InAdditionOrder;
      DueInOrder(rest, now);
      DueMembers(rest, now);
      OrderCons(t, Due(rest, now));
      OrderCons(t, Later(rest, now));
    }
  }

  lemma OrderCons(t: Task, rest: seq<Task>)
    ensures InAdditionOrder([t] + rest) <==> InAdditionOrder(rest) && forall u <- rest :: t.added < u.added
  {
    var all := [t] + rest;
    assert forall i | 0 <= i < |rest| :: all[i + 1] == rest[i];
    if InAdditionOrder(all) {
      forall u <- rest
        ensures t.added < u.added
      {
        var i :| 0 <= i < |rest| && rest[i] == u;
        assert all[i + 1] == u && all[0] == t;
      }
    }
  }

  /** Executions go by sweep, and within a sweep in the order of addition. */
  predicate InRunOrder(executions: seq<Execution>) {
    forall i, j | 0 <= i < j < |executions| ::
      var a, b := executions[i], executions[j];
      a.at < b.at || (a.at == b.at && a.task.added < b.task.added)
  }

  function Tasks(executions: seq<Execution>): (r: seq<Task>)
    ensures |r| == |executions| && forall i | 0 <= i < |r| :: r[i] == executions[i].task
  {
    seq(|executions|, i requires 0 <= i < |executions| => executions[i].task)
  }

  function Additions(events: seq<Event>): seq<Task> {
    if events == [] then [] else
      var n := |events| - 1;
      Additions(events[..n]) + match events[n] case Add(time) => [Task(n, time)] case Sweep(_) => []
  }

  /** Nothing is lost and nothing is invented: what has run and what is pending
      make up, as a multiset, what was added. */
  lemma {:induction false} ConservesTasks(events: seq<Event>)
    ensures var s := After(events);
            multiset(Tasks(s.executions)) + multiset(s.pending) == multiset(Additions(events))
  {
    if events != [] {
      var n := |events| - 1;
      var s := After(events[..n]);
      ConservesTasks(events[..n]);
      ConservesStep(s, events[n], n);
    }
  }

  lemma ConservesStep(s: State, e: Event, n: nat)
    ensures var s' := Apply(s, e, n);
            multiset(Tasks(s'.executions)) + multiset(s'.pending)
            == multiset(Tasks(s.executions)) + multiset(s.pending)
               + (if e.Add? then multiset{Task(n, e.time)} else multiset{})
  {
    if e.Sweep? {
      var due := Due(s.pending, e.now);
      DueMembers(s.pending, e.now);
      assert Tasks(s.executions + Stamp(due, n)) == Tasks(s.executions) + due;
    }
  }

  /** Where a task is after a run: pending exactly while no sweep has reached its
      time, executed exactly at the first sweep that does. */
  ghost predicate Placed(events: seq<Event>, s: State) {
    && (forall t :: t in s.pending <==> NotYetDue(events, t.added) && events[t.added].time == t.time)
    && (forall e :: e in s.executions
                <==> FirstDue(events, e.task.added, e.at) && events[e.task.added].time == e.task.time)
  }

  lemma FirstDueStep(events: seq<Event>, n: nat, p: nat, q: nat)
    requires n + 1 == |events|
    ensures FirstDue(events, p, q) <==> (
              || FirstDue(events[..n], p, q)
              || (q == n && NotYetDue(events[..n], p) && events[n].Sweep? && events[p].time <= events[n].now))
  {
  }

  lemma NotYetDueStep(events: seq<Event>, n: nat, p: nat)
    requires n + 1 == |events|
    ensures NotYetDue(events, p) <==> (
              || (p == n && events[n].Add?)
              || (NotYetDue(events[..n], p) && (events[n].Sweep? ==> events[n].now < events[p].time)))
  {
  }

  /** Each task runs exactly once, in the first sweep after its addition whose
      clock reaches its time; until then it is pending. */
  lemma {:induction false} RunsWhenFirstDue(events: seq<Event>)
    ensures Placed(events, After(events))
    ensures InAdditionOrder(After(events).pending) && InRunOrder(After(events).executions)
  {
    if events != [] {
      var n := |events| - 1;
      RunsWhenFirstDue(events[..n]);
      OrderStep(events, n, After(events[..n]));
      PlacedStep(events, n, After(events[..n]));
    }
  }

  lemma OrderStep(events: seq<Event>, n: nat, s: State)
    requires n + 1 == |events| && Placed(events[..n], s)
    requires InAdditionOrder(s.pending) && InRunOrder(s.executions)
    ensures var s' := Apply(s, events[n], n); InAdditionOrder(s'.pending) && InRunOrder(s'.executions)
  {
    assert forall t <- s.pending :: NotYetDue(events[..n], t.added);
    assert forall e <- s.executions :: FirstDue(events[..n], e.task.added, e.at);
    if events[n].Sweep? {
      DueInOrder(s.pending, events[n].now);
    }
  }

  lemma PlacedStep(events: seq<Event>, n: nat, s: State)
    requires n + 1 == |events| && Placed(events[..n], s)
    ensures Placed(events, Apply(s, events[n], n))
  {
    var s' := Apply(s, events[n], n);
    if events[n].Sweep? {
      DueMembers(s.pending, events[n].now);
    }
    forall t
      ensures t in s'.pending <==> NotYetDue(events, t.added) && events[t.added].time == t.time
    {
      NotYetDueStep(events, n, t.added);
    }
    forall e
      ensures e in s'.executions <==> FirstDue(events, e.task.added, e.at) && events[e.task.added].time == e.task.time
    {
      FirstDueStep(events, n, e.task.added, e.at);
      StampMembers(if events[n].Sweep? then Due(s.pending, events[n].now) else [], n, e);
    }
  }

  lemma StampMembers(tasks: seq<Task>, at: nat, e: Execution)
    ensures e in Stamp(tasks, at) <==> e.task in tasks && e.at == at
  {
    if e.task in tasks && e.at == at {
      var i :| 0 <= i < |tasks| && tasks[i] == e.task;
      assert Stamp(tasks, at)[i] == e;
    }
  }
}
