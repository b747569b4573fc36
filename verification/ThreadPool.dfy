/** The thread pool over its blocking queue: client pushes, worker loops and the
    destructor, one atomic action a step. `pop` is atomic but for its wait: a
    worker that finds the queue empty goes to sleep, and a worker that is woken
    looks again. */
module ThreadPool {
  import opened Text

  datatype Task = Execute(id: nat) | Stop

  /** Ready: awake in `pop`, with nothing taken yet. */
  datatype Phase = Ready | Asleep | Executing(id: nat) | Stopped

  datatype Destructor = NotStarted | Pushing(i: nat) | Joining(i: nat) | Returned

  datatype State = State(
    queue: seq<Task>,
    workers: seq<Phase>,
    destructor: Destructor,
    pushed: seq<Task>,      // history: every task pushed, in order
    popped: seq<Task>,      // history: every task popped, in order
    finished: seq<nat>,     // history: tasks whose execution has ended
    takers: seq<nat>)       // history: the workers that took a Stop, in order

  datatype Step =
    | Push(task: Task, wake: nat)  // a client; `wake` is whom notify_one picks
    | Take(w: nat)
    | Spurious(w: nat)             // a wakeup without a notification
    | Finish(w: nat)
    | Destroy
    | PushStop(wake: nat)
    | Join

  function Init(n: nat): State {
    State([], seq(n, _ => Ready), NotStarted, [], [], [], [])
  }

  predicate IsAt(ws: seq<Phase>, w: nat, p: Phase) {
    w < |ws| && ws[w] == p
  }

  /** `notify_one` wakes a sleeper if there is one. */
  predicate MayWake(ws: seq<Phase>, wake: nat) {
    Asleep in ws ==> IsAt(ws, wake, Asleep)
  }

  predicate Enabled(s: State, step: Step) {
    match step
    case Push(_, wake) => s.destructor != Returned && MayWake(s.workers, wake)
    case Take(w) => IsAt(s.workers, w, Ready)
    case Spurious(w) => IsAt(s.workers, w, Asleep)
    case Finish(w) => w < |s.workers| && s.workers[w].Executing?
    case Destroy => s.destructor == NotStarted
    case PushStop(wake) => s.destructor.Pushing? && MayWake(s.workers, wake)
    case Join => s.destructor.Joining? && IsAt(s.workers, s.destructor.i, Stopped)
  }

  function Enqueue(s: State, task: Task, wake: nat): State {
    s.(queue := s.queue + [task], pushed := s.pushed + [task],
       workers := if IsAt(s.workers, wake, Asleep) then s.workers[wake := Ready] else s.workers)
  }

  function Dequeue(s: State, w: nat): State
    requires w < |s.workers|
  {
    if s.queue == [] then s.(workers := s.workers[w := Asleep])
    else
      var task := s.queue[0];
      s.(queue := s.queue[1..], popped := s.popped + [task],
         workers := s.workers[w := if task.Stop? then Stopped else Executing(task.id)],
         takers := if task.Stop? then s.takers + [w] else s.takers)
  }

  function NextPush(s: State, i: nat): Destructor {
    if i < |s.workers| then Pushing(i) else Returned
  }

  function Apply(s: State, step: Step): State
    requires Enabled(s, step)
  {
    match step
    case Push(task, wake) => Enqueue(s, task, wake)
    case Take(w) => Dequeue(s, w)
    case Spurious(w) => s.(workers := s.workers[w := Ready])
    case Finish(w) => s.(workers := s.workers[w := Ready], finished := s.finished + [s.workers[w].id])
    case Destroy => s.(destructor := NextPush(s, 0))
    case PushStop(wake) => Enqueue(s, Stop, wake).(destructor := Joining(s.destructor.i))
    case Join => s.(destructor := NextPush(s, s.destructor.i + 1))
  }

  predicate Possible(s: State, steps: seq<Step>)
    decreases |steps|
  {
    steps != [] ==> Enabled(s, steps[0]) && Possible(Apply(s, steps[0]), steps[1..])
  }

  function After(s: State, steps: seq<Step>): State
    requires Possible(s, steps)
    decreases |steps|
  {
    if steps == [] then s else After(Apply(s, steps[0]), steps[1..])
  }

  // -------------------------------------------------------------- invariants

  /** Tasks leave the queue in the order in which they came, none is lost. */
  ghost predicate Conserved(s: State) {
    s.pushed == s.popped + s.queue
  }

  /** Each popped task is being executed or has been, exactly once. */
  ghost predicate ExecutedOnce(s: State) {
    forall id :: multiset(s.finished)[id] + multiset(s.workers)[Executing(id)] == multiset(s.popped)[Execute(id)]
  }

  /** No lost wakeup: while some worker sleeps in `pop`, there is an awake worker
      at `pop` for every queued task. */
  ghost predicate NoneMissed(s: State) {
    Asleep in s.workers ==> |s.queue| <= multiset(s.workers)[Ready]
  }

  ghost predicate SomeoneRuns(ws: seq<Phase>) {
    exists w: nat :: w < |ws| && ws[w] != Stopped
  }

  /** The workers that have stopped are those that took a Stop, each one. */
  ghost predicate StopsTaken(s: State) {
    && (forall w: nat :: IsAt(s.workers, w, Stopped) <==> w in s.takers)
    && |s.takers| == multiset(s.popped)[Stop]
    && (s.popped != [] && s.popped[|s.popped| - 1].Execute? ==> SomeoneRuns(s.workers))
  }

  /** Joins already past. */
  function Joined(s: State): nat {
    match s.destructor
    case NotStarted => 0
    case Pushing(i) => i
    case Joining(i) => i
    case Returned => |s.workers|
  }

  /** Stops the destructor has pushed. */
  function OwnStops(s: State): nat {
    Joined(s) + if s.destructor.Joining? then 1 else 0
  }

  ghost predicate InOrder(s: State) {
    && Joined(s) <= |s.workers|
    && (s.destructor.Pushing? || s.destructor.Joining? ==> s.destructor.i < |s.workers|)
    && (forall w: nat :: w < Joined(s) ==> IsAt(s.workers, w, Stopped))
    && OwnStops(s) <= multiset(s.pushed)[Stop]
  }

  /** Nobody but the destructor has pushed a Stop. */
  ghost predicate OnlyOwnStops(s: State) {
    multiset(s.pushed)[Stop] == OwnStops(s)
  }

  /** The j-th Stop was taken by worker j, for every join that is past. */
  ghost predicate TakenInOrder(s: State) {
    OnlyOwnStops(s) ==> |s.takers| >= Joined(s) && forall j: nat :: j < Joined(s) ==> s.takers[j] == j
  }

  ghost predicate Inv(s: State) {
    && Conserved(s) && ExecutedOnce(s) && NoneMissed(s) && StopsTaken(s) && Distinct(s.takers)
    && InOrder(s) && TakenInOrder(s)
  }

  lemma InitInv(n: nat)
    ensures Inv(Init(n))
  {
    var ws := Init(n).workers;
    forall p | p != Ready
      ensures multiset(ws)[p] == 0
    {
      assert p in multiset(ws) ==> p in ws;
    }
  }

  /** How a worker's change of phase changes the counts. */
  lemma Updated(ws: seq<Phase>, w: nat, p: Phase)
    requires w < |ws|
    ensures multiset(ws[w := p]) == multiset(ws) - multiset{ws[w]} + multiset{p}
    ensures ws[w] in multiset(ws)
    ensures forall q :: q in ws[w := p] ==> q in ws || q == p
  {
  }

  /** The worker whose phase a step changes, if any. */
  function Mover(step: Step): nat {
    match step
    case Push(_, wake) => wake
    case Take(w) => w
    case Spurious(w) => w
    case Finish(w) => w
    case Destroy => 0
    case PushStop(wake) => wake
    case Join => 0
  }

  lemma MoverUpdated(s: State, step: Step)
    requires Enabled(s, step)
    ensures var s', w := Apply(s, step), Mover(step);
            || s'.workers == s.workers
            || (w < |s.workers| && s'.workers == s.workers[w := s'.workers[w]]
                && multiset(s'.workers) == multiset(s.workers) - multiset{s.workers[w]} + multiset{s'.workers[w]}
                && s.workers[w] in multiset(s.workers))
  {
    var s', w := Apply(s, step), Mover(step);
    if s'.workers != s.workers {
      Updated(s.workers, w, s'.workers[w]);
    }
  }

  lemma ConservedStep(s: State, step: Step)
    requires Conserved(s) && Enabled(s, step)
    ensures Conserved(Apply(s, step))
  {
  }

  lemma ExecutedOnceTake(s: State, w: nat, id: nat)
    requires ExecutedOnce(s) && IsAt(s.workers, w, Ready)
    ensures var s' := Dequeue(s, w);
            multiset(s'.finished)[id] + multiset(s'.workers)[Executing(id)] == multiset(s'.popped)[Execute(id)]
  {
    Updated(s.workers, w, Dequeue(s, w).workers[w]);
    assert multiset(s.finished)[id] + multiset(s.workers)[Executing(id)] == multiset(s.popped)[Execute(id)];
  }

  lemma ExecutedOnceFinish(s: State, w: nat, id: nat)
    requires ExecutedOnce(s) && Enabled(s, Finish(w))
    ensures var s' := Apply(s, Finish(w));
            multiset(s'.finished)[id] + multiset(s'.workers)[Executing(id)] == multiset(s'.popped)[Execute(id)]
  {
    Updated(s.workers, w, Ready);
    assert multiset(s.finished)[id] + multiset(s.workers)[Executing(id)] == multiset(s.popped)[Execute(id)];
  }

  lemma ExecutedOnceStep(s: State, step: Step)
    requires ExecutedOnce(s) && Enabled(s, step)
    ensures ExecutedOnce(Apply(s, step))
  {
    var s' := Apply(s, step);
    forall id
      ensures multiset(s'.finished)[id] + multiset(s'.workers)[Executing(id)] == multiset(s'.popped)[Execute(id)]
    {
      assert multiset(s.finished)[id] + multiset(s.workers)[Executing(id)] == multiset(s.popped)[Execute(id)];
      match step
      case Take(w) => ExecutedOnceTake(s, w, id);
      case Finish(w) => ExecutedOnceFinish(s, w, id);
      case _ => MoverUpdated(s, step);
    }
  }

  lemma NoneMissedStep(s: State, step: Step)
    requires NoneMissed(s) && Enabled(s, step)
    ensures NoneMissed(Apply(s, step))
  {
    MoverUpdated(s, step);
    var s' := Apply(s, step);
    assert Asleep in s.workers <==> Asleep in multiset(s.workers);
    assert Asleep in s'.workers <==> Asleep in multiset(s'.workers);
  }

  lemma StopsTakenStep(s: State, step: Step)
    requires StopsTaken(s) && Enabled(s, step)
    ensures StopsTaken(Apply(s, step))
  {
    if step.Take? && s.queue != [] {
      StopsTakenTake(s, step.w);
    } else {
      StopsTakenElse(s, step);
    }
  }

  lemma StopsTakenTake(s: State, w: nat)
    requires StopsTaken(s) && IsAt(s.workers, w, Ready) && s.queue != []
    ensures StopsTaken(Dequeue(s, w))
  {
    var s' := Dequeue(s, w);
    assert s'.popped[|s.popped|] == s.queue[0];
    assert s.queue[0].Execute? ==> s'.workers[w] != Stopped;
    hide SomeoneRuns;
    assert forall v: nat :: v in s'.takers <==> v in s.takers || (s.queue[0].Stop? && v == w);
  }

  /** Every other step stops nobody and pops nothing. */
  lemma StopsTakenElse(s: State, step: Step)
    requires StopsTaken(s) && Enabled(s, step) && !(step.Take? && s.queue != [])
    ensures StopsTaken(Apply(s, step))
  {
    var s' := Apply(s, step);
    assert s'.popped == s.popped && s'.takers == s.takers && |s'.workers| == |s.workers|;
    assert forall v: nat | v < |s.workers| :: s'.workers[v] == Stopped <==> s.workers[v] == Stopped;
    hide Apply, Enabled;
    if SomeoneRuns(s.workers) {
      var w: nat :| w < |s.workers| && s.workers[w] != Stopped;
      assert s'.workers[w] != Stopped;
    }
  }

  lemma TakersDiffer(s: State, step: Step)
    requires StopsTaken(s) && Distinct(s.takers) && Enabled(s, step)
    ensures Distinct(Apply(s, step).takers)
  {
    if step.Take? && s.queue != [] && s.queue[0].Stop? {
      assert !IsAt(s.workers, step.w, Stopped);
    }
  }

  lemma InOrderStep(s: State, step: Step)
    requires InOrder(s) && Enabled(s, step)
    ensures InOrder(Apply(s, step))
  {
    var s' := Apply(s, step);
    forall w: nat | w < Joined(s')
      ensures IsAt(s'.workers, w, Stopped)
    {
      assert w < Joined(s) ==> IsAt(s.workers, w, Stopped);
    }
  }

  /** At a join, the worker joined is the one that took the last Stop. */
  lemma JoinedTookLast(s: State)
    requires Conserved(s) && StopsTaken(s) && TakenInOrder(s) && OnlyOwnStops(s)
    requires s.destructor.Joining? && IsAt(s.workers, s.destructor.i, Stopped)
    ensures |s.takers| == s.destructor.i + 1 && s.takers[s.destructor.i] == s.destructor.i
  {
    var i := s.destructor.i;
    assert multiset(s.pushed) == multiset(s.popped) + multiset(s.queue);
    assert i in s.takers;
    var j: nat :| j < |s.takers| && s.takers[j] == i;
    assert j >= Joined(s);
  }

  /** A step never undoes a client's Stop, and only a join adds to the joins. */
  lemma OwnStopsBack(s: State, step: Step)
    requires InOrder(s) && Enabled(s, step)
    ensures OnlyOwnStops(Apply(s, step)) ==> OnlyOwnStops(s)
    ensures Joined(Apply(s, step)) == Joined(s) + if step.Join? then 1 else 0
  {
  }

  lemma TakersGrow(s: State, step: Step)
    requires Enabled(s, step)
    ensures var s' := Apply(s, step); |s.takers| <= |s'.takers| && s'.takers[..|s.takers|] == s.takers
  {
  }

  lemma TakenInOrderStep(s: State, step: Step)
    requires Conserved(s) && StopsTaken(s) && InOrder(s) && TakenInOrder(s) && Enabled(s, step)
    ensures TakenInOrder(Apply(s, step))
  {
    OwnStopsBack(s, step);
    TakersGrow(s, step);
    if step.Join? && OnlyOwnStops(s) {
      JoinedTookLast(s);
    }
    hide Conserved, StopsTaken, InOrder, OnlyOwnStops, Joined, Apply;
    var s' := Apply(s, step);
    if OnlyOwnStops(s') {
      forall j: nat | j < Joined(s')
        ensures j < |s'.takers| && s'.takers[j] == j
      {
        assert s'.takers[..|s.takers|] == s.takers;
      }
    }
  }

  lemma StepInv(s: State, step: Step)
    requires Inv(s) && Enabled(s, step)
    ensures Inv(Apply(s, step))
  {
    hide Conserved, ExecutedOnce, NoneMissed, StopsTaken, Distinct, InOrder, TakenInOrder, Apply, Enabled;
    ConservedStep(s, step);
    ExecutedOnceStep(s, step);
    NoneMissedStep(s, step);
    StopsTakenStep(s, step);
    TakersDiffer(s, step);
    InOrderStep(s, step);
    TakenInOrderStep(s, step);
  }

  lemma {:induction false} RunInv(s: State, steps: seq<Step>)
    requires Inv(s) && Possible(s, steps)
    ensures Inv(After(s, steps))
    decreases |steps|
  {
    hide Inv, Enabled, Apply;
    if steps != [] {
      StepInv(s, steps[0]);
      RunInv(Apply(s, steps[0]), steps[1..]);
    }
  }

  // -------------------------------------------------------- work gets done

  /** What a worker has still to do before it sleeps or stops. */
  function Load(p: Phase): nat {
    match p
    case Executing(_) => 2
    case Ready => 1
    case _ => 0
  }

  function Loads(ws: seq<Phase>): nat {
    if ws == [] then 0 else Load(ws[0]) + Loads(ws[1..])
  }

  lemma {:induction false} LoadsUpdated(ws: seq<Phase>, w: nat, p: Phase)
    requires w < |ws|
    ensures Loads(ws[w := p]) + Load(ws[w]) == Loads(ws) + Load(p)
  {
    if w > 0 {
      assert ws[w := p][1..] == ws[1..][w - 1 := p];
      LoadsUpdated(ws[1..], w - 1, p);
    } else {
      assert ws[w := p][1..] == ws[1..];
    }
  }

  function Workload(s: State): nat {
    3 * |s.queue| + Loads(s.workers)
  }

  /** The work a step brings. */
  function Brings(step: Step): nat {
    match step
    case Push(_, _) => 4
    case PushStop(_) => 4
    case Spurious(_) => 1
    case _ => 0
  }

  function AllBrought(steps: seq<Step>): nat {
    if steps == [] then 0 else Brings(steps[0]) + AllBrought(steps[1..])
  }

  /** The steps in which a worker does something. */
  function WorkSteps(steps: seq<Step>): nat {
    if steps == [] then 0 else (if steps[0].Take? || steps[0].Finish? then 1 else 0) + WorkSteps(steps[1..])
  }

  lemma WorkStep(s: State, step: Step)
    requires Enabled(s, step)
    ensures Workload(Apply(s, step)) + (if step.Take? || step.Finish? then 1 else 0) <= Workload(s) + Brings(step)
  {
    MoverUpdated(s, step);
    var s', w := Apply(s, step), Mover(step);
    if s'.workers != s.workers {
      LoadsUpdated(s.workers, w, s'.workers[w]);
    }
    hide Loads;
  }

  /** Any number of workers: what they can do is bounded by the work there was and
      the work that came, a worker that finds nothing going to sleep. */
  lemma {:induction false} WorkIsBounded(s: State, steps: seq<Step>)
    requires Possible(s, steps)
    ensures WorkSteps(steps) + Workload(After(s, steps)) <= Workload(s) + AllBrought(steps)
    decreases |steps|
  {
    hide Enabled, Apply, Workload, Brings;
    if steps != [] {
      WorkStep(s, steps[0]);
      WorkIsBounded(Apply(s, steps[0]), steps[1..]);
    }
  }

  /** A worker that wakes up without a notification looks again, and goes back to
      sleep if there is nothing: in all, nothing has changed. */
  lemma WakingInVain(s: State, w: nat)
    requires Enabled(s, Spurious(w))
    ensures Enabled(Apply(s, Spurious(w)), Take(w))
    ensures s.queue == [] ==> Apply(Apply(s, Spurious(w)), Take(w)) == s
  {
    assert s.workers[w := Ready][w := Asleep] == s.workers;
  }

  /** No worker can do anything. */
  predicate AtRest(s: State) {
    forall w: nat | w < |s.workers| :: !Enabled(s, Take(w)) && !Enabled(s, Finish(w))
  }

  /** And when no worker can do anything, nothing is left to do: every task pushed
      has been executed once, or else every worker has left with a Stop. */
  lemma RestIsDone(n: nat, steps: seq<Step>)
    requires Possible(Init(n), steps) && AtRest(After(Init(n), steps))
    ensures var s := After(Init(n), steps);
            || (s.queue == [] && forall id :: multiset(s.finished)[id] == multiset(s.pushed)[Execute(id)])
            || (forall p <- s.workers :: p == Stopped)
  {
    InitInv(n);
    RunInv(Init(n), steps);
    hide After, Init, StopsTaken, InOrder, TakenInOrder, Distinct;
    var s := After(Init(n), steps);
    forall p <- s.workers
      ensures p == Asleep || p == Stopped
    {
      var w: nat :| w < |s.workers| && s.workers[w] == p;
      assert !Enabled(s, Take(w)) && !Enabled(s, Finish(w));
    }
    if Asleep in s.workers {
      NobodyIs(s.workers, Ready);
      assert s.queue == [] && s.popped + [] == s.popped;
      forall id
        ensures multiset(s.finished)[id] == multiset(s.pushed)[Execute(id)]
      {
        NobodyIs(s.workers, Executing(id));
      }
    }
  }

  lemma NobodyIs(ws: seq<Phase>, p: Phase)
    requires p !in ws
    ensures multiset(ws)[p] == 0
  {
    assert p in multiset(ws) ==> p in ws;
  }

  // ---------------------------------------------------------------- shutdown

  /** The tasks up to and including the last Stop. */
  function ToLastStop(tasks: seq<Task>): seq<Task> {
    if tasks == [] then []
    else if tasks[|tasks| - 1].Stop? then tasks
    else ToLastStop(tasks[..|tasks| - 1])
  }

  lemma {:induction false} NothingBehind(a: seq<Task>, b: seq<Task>)
    requires Stop !in b && (a != [] ==> a[|a| - 1].Stop?)
    ensures ToLastStop(a + b) == a
    decreases |b|
  {
    if b == [] {
      assert a + b == a;
    } else {
      var n := |b| - 1;
      assert (a + b)[..|a| + n] == a + b[..n];
      assert (a + b)[|a| + n] == b[n] && b[n] in b;
      NothingBehind(a, b[..n]);
    }
  }

  /** Up to the last Stop is further than `a`, if there is one behind `a`. */
  lemma {:induction false} StopBehind(a: seq<Task>, b: seq<Task>)
    requires Stop in b
    ensures |ToLastStop(a + b)| > |a|
    decreases |b|
  {
    var n := |b| - 1;
    assert (a + b)[|a| + n] == b[n];
    if !b[n].Stop? {
      assert (a + b)[..|a| + n] == a + b[..n];
      var k :| 0 <= k < |b| && b[k] == Stop;
      assert b[..n][k] == Stop;
      StopBehind(a, b[..n]);
    }
  }

  lemma ToLastStopExactly(a: seq<Task>, b: seq<Task>)
    requires a != [] ==> a[|a| - 1].Stop?
    ensures a == ToLastStop(a + b) <==> Stop !in b
  {
    if Stop in b {
      StopBehind(a, b);
    } else {
      NothingBehind(a, b);
    }
  }

  /** A list of distinct numbers with exactly those below `n` in it has length `n`. */
  lemma AllTake(takers: seq<nat>, n: nat)
    requires Distinct(takers) && forall w: nat :: w in takers <==> w < n
    ensures |takers| == n
  {
    var all := seq(n, i => i);
    forall w: nat
      ensures w in all <==> w < n
    {
      assert w < n ==> all[w] == w;
    }
    DistinctCount(takers);
    DistinctCount(all);
    assert Members(takers) == Members(all);
  }

  function Members(a: seq<nat>): set<nat> {
    set w | w in a
  }

  lemma {:induction false} DistinctCount(a: seq<nat>)
    requires Distinct(a)
    ensures |Members(a)| == |a|
  {
    if a != [] {
      var front, last := a[..|a| - 1], a[|a| - 1];
      DistinctCount(front);
      MembersGrow(front, last);
      assert a == front + [last];
    }
  }

  lemma MembersGrow(a: seq<nat>, x: nat)
    requires x !in a
    ensures Members(a + [x]) == Members(a) + {x} && x !in Members(a)
  {
  }

  /** Draining, in every run of any number of workers, whoever pushes what: if
      the destructor returns, exactly as many Stops have been popped as there are
      workers, a Stop last; each Execute task in front of it has been executed
      once and no other; and what was popped is all that was pushed up to the
      last Stop exactly when nobody but the destructor pushed a Stop. */
  lemma DrainedOnReturn(n: nat, steps: seq<Step>)
    requires Possible(Init(n), steps) && After(Init(n), steps).destructor == Returned
    ensures var s := After(Init(n), steps);
            && s.pushed == s.popped + s.queue
            && multiset(s.popped)[Stop] == n
            && (s.popped != [] ==> s.popped[|s.popped| - 1] == Stop)
            && (forall id :: multiset(s.finished)[id] == multiset(s.popped)[Execute(id)])
            && (s.popped == ToLastStop(s.pushed) <==> OnlyOwnStops(s))
  {
    InitInv(n);
    RunInv(Init(n), steps);
    WorkersStay(Init(n), steps);
    assert |Init(n).workers| == n;
    hide After, Init;
    var s := After(Init(n), steps);
    AllStopped(s);
    ToLastStopExactly(s.popped, s.queue);
    assert multiset(s.pushed) == multiset(s.popped) + multiset(s.queue);
    assert Stop in s.queue <==> Stop in multiset(s.queue);
  }

  lemma AllStopped(s: State)
    requires s.destructor == Returned && InOrder(s) && StopsTaken(s) && Distinct(s.takers) && ExecutedOnce(s)
    ensures multiset(s.popped)[Stop] == |s.workers|
    ensures forall id :: multiset(s.finished)[id] == multiset(s.popped)[Execute(id)]
    ensures s.popped != [] ==> s.popped[|s.popped| - 1].Stop?
  {
    forall w: nat | w < |s.workers|
      ensures s.workers[w] == Stopped
    {
      assert IsAt(s.workers, w, Stopped);
    }
    assert !SomeoneRuns(s.workers);
    AllTake(s.takers, |s.workers|);
    forall id
      ensures multiset(s.finished)[id] == multiset(s.popped)[Execute(id)]
    {
      assert Executing(id) in multiset(s.workers) ==> Executing(id) in s.workers;
    }
  }

  /** With a client's Stop a task can be lost: the worker leaves with that Stop,
      and the destructor returns with the task still queued in front of its own. */
  lemma ClientStopLosesTask() returns (steps: seq<Step>)
    ensures Possible(Init(1), steps)
    ensures var s := After(Init(1), steps);
            && s.destructor == Returned
            && s.pushed == [Stop, Execute(7), Stop] && s.popped == [Stop] && s.finished == []
  {
    steps := [];
    var s := Init(1);
    hide After, Possible;
    var s1 := Apply(s, Push(Stop, 0));
    var s2 := Apply(s1, Push(Execute(7), 0));
    var s3 := Apply(s2, Take(0));
    var s4 := Apply(s3, Destroy);
    var s5 := Apply(s4, PushStop(0));
    var s6 := Apply(s5, Join);
    AfterNone(s6);
    AfterCons(s5, Join, []);
    AfterCons(s4, PushStop(0), [Join] + []);
    AfterCons(s3, Destroy, [PushStop(0)] + ([Join] + []));
    AfterCons(s2, Take(0), [Destroy] + ([PushStop(0)] + ([Join] + [])));
    AfterCons(s1, Push(Execute(7), 0), [Take(0)] + ([Destroy] + ([PushStop(0)] + ([Join] + []))));
    steps := [Push(Execute(7), 0)] + ([Take(0)] + ([Destroy] + ([PushStop(0)] + ([Join] + []))));
    AfterCons(s, Push(Stop, 0), steps);
    steps := [Push(Stop, 0)] + steps;
  }

  /** In every reachable state: tasks leave in push order, and no task waits
      while every worker that could take it sleeps. */
  lemma ReachableStates(n: nat, steps: seq<Step>)
    requires Possible(Init(n), steps)
    ensures var s := After(Init(n), steps);
            && s.pushed == s.popped + s.queue
            && (Asleep in s.workers ==> |s.queue| <= multiset(s.workers)[Ready])
  {
    InitInv(n);
    RunInv(Init(n), steps);
  }

  /** While only the destructor pushes Stops: past its i-th join the j-th Stop was
      taken by worker j for every j up to i, and at most one Stop is queued. */
  lemma StopsAreTakenInOrder(n: nat, steps: seq<Step>)
    requires Possible(Init(n), steps) && OnlyOwnStops(After(Init(n), steps))
    ensures var s := After(Init(n), steps);
            && |s.takers| >= Joined(s) && (forall j: nat :: j < Joined(s) ==> s.takers[j] == j)
            && multiset(s.queue)[Stop] <= 1
            && multiset(s.queue)[Stop] + |s.takers| == OwnStops(s)
  {
    InitInv(n);
    RunInv(Init(n), steps);
    hide After, Init;
    var s := After(Init(n), steps);
    assert multiset(s.pushed) == multiset(s.popped) + multiset(s.queue);
  }

  predicate NoClientStop(steps: seq<Step>) {
    forall st <- steps :: st.Push? ==> st.task.Execute?
  }

  /** The destructor waits for worker `i`, whose Stop another worker has taken. */
  ghost predicate Stuck(s: State, i: nat) {
    && s.destructor == Joining(i) && i < |s.workers|
    && !IsAt(s.workers, i, Stopped)
    && Stop !in s.queue
  }

  lemma {:induction false} StuckForever(s: State, i: nat, steps: seq<Step>)
    requires Stuck(s, i) && Possible(s, steps)
    requires NoClientStop(steps)
    ensures Stuck(After(s, steps), i)
    decreases |steps|
  {
    if steps != [] {
      StuckStep(s, i, steps[0]);
      StuckForever(Apply(s, steps[0]), i, steps[1..]);
    }
  }

  lemma StuckStep(s: State, i: nat, step: Step)
    requires Stuck(s, i) && Enabled(s, step) && (step.Push? ==> step.task.Execute?)
    ensures Stuck(Apply(s, step), i)
  {
    if step.Take? && s.queue != [] {
      assert s.queue[0] in s.queue;
    }
  }

  /** If a worker other than `i` takes the Stop meant for `i`, the destructor
      returns in no continuation in which clients push no Stop. */
  lemma WrongTakerNeverReturns(n: nat, before: seq<Step>, i: nat, later: seq<Step>)
    requires Possible(Init(n), before)
    requires var s := After(Init(n), before);
             && OnlyOwnStops(s) && s.destructor == Joining(i)
             && i < |s.takers| && s.takers[i] != i
             && Possible(s, later)
    requires NoClientStop(later)
    ensures After(After(Init(n), before), later).destructor != Returned
  {
    var s := After(Init(n), before);
    StopsAreTakenInOrder(n, before);
    InitInv(n);
    RunInv(Init(n), before);
    hide After, Init, Possible;
    assert |s.takers| == i + 1 && multiset(s.queue)[Stop] == 0;
    assert Stop in s.queue ==> Stop in multiset(s.queue);
    assert forall j: nat :: j < |s.takers| ==> s.takers[j] != i;
    StuckForever(s, i, later);
  }

  // ------------------------------------------ when the destructor must return

  lemma AfterNone(s: State)
    ensures Possible(s, []) && After(s, []) == s
  {
  }

  lemma AfterCons(s: State, step: Step, steps: seq<Step>)
    requires Enabled(s, step) && Possible(Apply(s, step), steps)
    ensures Possible(s, [step] + steps) && After(s, [step] + steps) == After(Apply(s, step), steps)
  {
    var all := [step] + steps;
    assert all[0] == step && all[1..] == steps;
  }

  lemma {:induction false} WorkersStay(s: State, steps: seq<Step>)
    requires Possible(s, steps)
    ensures |After(s, steps).workers| == |s.workers|
    decreases |steps|
  {
    if steps != [] {
      WorkersStay(Apply(s, steps[0]), steps[1..]);
    }
  }

  function FirstStop(q: seq<Task>): (k: nat)
    ensures k <= |q| && (k < |q| <==> Stop in q)
  {
    if q == [] || q[0].Stop? then 0 else 1 + FirstStop(q[1..])
  }

  lemma {:induction false} FirstStopStays(q: seq<Task>, task: Task)
    requires Stop in q
    ensures FirstStop(q + [task]) == FirstStop(q)
  {
    if !q[0].Stop? {
      assert (q + [task])[1..] == q[1..] + [task];
      FirstStopStays(q[1..], task);
    }
  }

  /** What is left to do for a pool of one worker, once the destructor has pushed
      its Stop: the tasks in front of the first Stop, and what is under way. What
      is pushed from here on does not count. */
  function Rank(s: State): nat {
    (if IsAt(s.workers, 0, Stopped) then 0 else 2 * FirstStop(s.queue) + 2)
    + (if s.workers != [] && s.workers[0].Executing? then 1 else 0)
    + (if s.destructor == Returned then 0 else 1)
  }

  /** The destructor is past its push, and the worker awake in front of a Stop. */
  predicate Closing(s: State) {
    && |s.workers| == 1
    && (s.destructor == Joining(0) || s.destructor == Returned)
    && (s.workers[0] != Stopped ==> Stop in s.queue && s.workers[0] != Asleep)
  }

  predicate ClosesInTime(s: State) {
    && |s.workers| == 1
    && (s.destructor.Pushing? ==> s.destructor.i == 0)
    && (s.destructor.Joining? || s.destructor.Returned? ==> Closing(s))
  }

  /** Every reachable state of a pool of one worker in which the destructor has
      pushed its Stop is a closing one, whatever clients have pushed. */
  lemma ClosingStarts(steps: seq<Step>)
    requires Possible(Init(1), steps)
    ensures var s := After(Init(1), steps);
            s.destructor.Joining? || s.destructor == Returned ==> Closing(s)
  {
    RunClosesInTime(Init(1), steps);
  }

  lemma {:induction false} RunClosesInTime(s: State, steps: seq<Step>)
    requires ClosesInTime(s) && Possible(s, steps)
    ensures ClosesInTime(After(s, steps))
    decreases |steps|
  {
    if steps != [] {
      if s.destructor.Joining? || s.destructor.Returned? {
        ClosingStays(s, steps[0]);
      }
      RunClosesInTime(Apply(s, steps[0]), steps[1..]);
    }
  }

  lemma ClosingStays(s: State, step: Step)
    requires Closing(s) && Enabled(s, step)
    ensures Closing(Apply(s, step))
  {
    if step.Take? {
      assert s.queue == [s.queue[0]] + s.queue[1..];
    }
  }

  /** Until it has returned, some step other than a client's is possible, ... */
  lemma ClosingGoesOn(s: State)
    requires Closing(s) && s.destructor != Returned
    ensures Enabled(s, Take(0)) || Enabled(s, Finish(0)) || Enabled(s, Join)
  {
  }

  /** ... every such step brings the return nearer, sleeping not being one, and
      no push puts it off. */
  lemma ClosingComesNearer(s: State, step: Step)
    requires Closing(s) && Enabled(s, step)
    ensures Rank(Apply(s, step)) + (if step.Push? then 0 else 1) <= Rank(s)
  {
    if step.Push? && Stop in s.queue {
      FirstStopStays(s.queue, step.task);
    }
    if step.Take? {
      assert s.queue == [s.queue[0]] + s.queue[1..];
    }
  }

  /** The steps of a run that are not a client's. */
  function Moves(steps: seq<Step>): nat {
    if steps == [] then 0 else (if steps[0].Push? then 0 else 1) + Moves(steps[1..])
  }

  /** One worker and tasks that end: however clients go on pushing, tasks or
      Stops, from the moment the destructor has pushed its Stop at most `Rank(s)`
      steps of worker and destructor are left, one of them is possible until the
      destructor has returned, and after that many it has. */
  lemma {:induction false} OneWorkerReturns(s: State, steps: seq<Step>)
    requires Closing(s) && Possible(s, steps)
    ensures Moves(steps) + Rank(After(s, steps)) <= Rank(s)
    ensures var s' := After(s, steps);
            || s'.destructor == Returned
            || (Moves(steps) < Rank(s) && (Enabled(s', Take(0)) || Enabled(s', Finish(0)) || Enabled(s', Join)))
    decreases |steps|
  {
    hide Enabled, Apply, Closing;
    if steps != [] {
      hide Rank;
      ClosingStays(s, steps[0]);
      ClosingComesNearer(s, steps[0]);
      OneWorkerReturns(Apply(s, steps[0]), steps[1..]);
    } else if s.destructor != Returned {
      ClosingGoesOn(s);
    }
  }

  /** From a closing state the pool can be run till its destructor returns. */
  lemma {:induction false} Finishes(s: State) returns (steps: seq<Step>)
    requires Closing(s)
    ensures Possible(s, steps) && (forall st <- steps :: !st.Push?)
    ensures After(s, steps).destructor == Returned
    decreases Rank(s)
  {
    hide Enabled, Apply, Closing, Rank, After, Possible;
    if s.destructor == Returned {
      AfterNone(s);
      return [];
    }
    ClosingGoesOn(s);
    var step := if Enabled(s, Take(0)) then Take(0) else if Enabled(s, Finish(0)) then Finish(0) else Join;
    ClosingStays(s, step);
    ClosingComesNearer(s, step);
    var rest := Finishes(Apply(s, step));
    AfterCons(s, step, rest);
    steps := [step] + rest;
  }

  // --------------------------------------------- when the destructor can hang

  /** No continuation in which clients push no Stop returns. */
  ghost predicate Hung(s: State) {
    forall later | Possible(s, later) && NoClientStop(later) :: After(s, later).destructor != Returned
  }

  ghost predicate CanHang(n: nat) {
    exists before :: Possible(Init(n), before) && OnlyOwnStops(After(Init(n), before)) && Hung(After(Init(n), before))
  }

  /** With two workers or more, the other one can take the first Stop. */
  lemma OtherTakesStop(n: nat) returns (steps: seq<Step>)
    requires n >= 2
    ensures Possible(Init(n), steps)
    ensures var s := After(Init(n), steps);
            OnlyOwnStops(s) && s.destructor == Joining(0) && |s.takers| == 1 && s.takers[0] != 0
  {
    steps := [Destroy] + ([PushStop(0)] + ([Take(1)] + []));
    var s0 := Init(n);
    assert Asleep !in s0.workers;
    var s1 := Apply(s0, Destroy);
    var s2 := Apply(s1, PushStop(0));
    assert s2.workers == s0.workers;
    var s3 := Apply(s2, Take(1));
    AfterCons(s2, Take(1), []);
    AfterCons(s1, PushStop(0), [Take(1)] + []);
    AfterCons(s0, Destroy, [PushStop(0)] + ([Take(1)] + []));
  }

  lemma HungWithTwo(n: nat)
    requires n >= 2
    ensures CanHang(n)
  {
    var before := OtherTakesStop(n);
    forall later | Possible(After(Init(n), before), later) && NoClientStop(later)
      ensures After(After(Init(n), before), later).destructor != Returned
    {
      WrongTakerNeverReturns(n, before, 0, later);
    }
  }

  /** A pool of one worker can return from whatever state it has reached. */
  lemma OneCanReturn(s: State) returns (steps: seq<Step>)
    requires ClosesInTime(s)
    ensures Possible(s, steps) && (forall st <- steps :: !st.Push?)
    ensures After(s, steps).destructor == Returned
  {
    hide After, Possible, Closing;
    if s.destructor == NotStarted {
      steps := OneCanReturn1(Apply(s, Destroy));
      AfterCons(s, Destroy, steps);
      steps := [Destroy] + steps;
    } else {
      steps := OneCanReturn1(s);
    }
  }

  lemma OneCanReturn1(s: State) returns (steps: seq<Step>)
    requires ClosesInTime(s) && s.destructor != NotStarted
    ensures Possible(s, steps) && (forall st <- steps :: !st.Push?)
    ensures After(s, steps).destructor == Returned
  {
    if s.destructor.Pushing? {
      steps := Finishes(Apply(s, PushStop(0)));
      AfterCons(s, PushStop(0), steps);
      steps := [PushStop(0)] + steps;
    } else {
      steps := Finishes(s);
    }
  }

  lemma SmallPoolCanReturn(n: nat, before: seq<Step>) returns (later: seq<Step>)
    requires n <= 1 && Possible(Init(n), before)
    ensures Possible(After(Init(n), before), later) && NoClientStop(later)
    ensures After(After(Init(n), before), later).destructor == Returned
  {
    var s := After(Init(n), before);
    if n == 1 {
      RunClosesInTime(Init(n), before);
      later := OneCanReturn(s);
    } else {
      InitInv(n);
      RunInv(Init(n), before);
      WorkersStay(Init(n), before);
      later := if s.destructor == Returned then [] else [Destroy] + [];
      if s.destructor != Returned {
        AfterCons(s, Destroy, []);
      }
    }
  }

  /** Exactly the pools of two workers or more can hang in their destructor: with
      one worker or none, every state that can be reached can be run to the end. */
  lemma CanHangExactly(n: nat)
    ensures CanHang(n) <==> n >= 2
  {
    if n >= 2 {
      HungWithTwo(n);
    } else {
      forall before | Possible(Init(n), before)
        ensures !Hung(After(Init(n), before))
      {
        var later := SmallPoolCanReturn(n, before);
      }
    }
  }

  // ------------------------------------------------------ the atomic actions

  /** The pool as an object. Each method is one stretch of code that runs under
      the queue's lock or touches one thread only, and is one step of a run. */
  class Pool {
    var queue: seq<Task>
    var workers: seq<Phase>
    var destructor: Destructor
    ghost var pushed: seq<Task>
    ghost var popped: seq<Task>
    ghost var finished: seq<nat>
    ghost var takers: seq<nat>

    ghost function Value(): State
      reads this
    {
      State(queue, workers, destructor, pushed, popped, finished, takers)
    }

    constructor (nThreads: nat)
      ensures Value() == Init(nThreads)
    {
      queue, destructor := [], NotStarted;
      var threads: seq<Phase> := [];
      for i := 0 to nThreads
        invariant threads == seq(i, _ => Ready)
      {
        threads := threads + [Ready];
      }
      workers := threads;
      pushed, popped, finished, takers := [], [], [], [];
    }

    /** `push` of the queue: append and notify one sleeper, if any. */
    method PushToQueue(task: Task, wake: nat)
      requires MayWake(workers, wake)
      modifies this`queue, this`workers, this`pushed
      ensures Value() == Enqueue(old(Value()), task, wake)
    {
      queue, pushed := queue + [task], pushed + [task];
      if wake < |workers| && workers[wake] == Asleep {
        workers := workers[wake := Ready];
      }
    }

    method Push(task: Task, wake: nat) returns (ok: bool)
      requires Enabled(Value(), Step.Push(task, wake))
      modifies this
      ensures ok && Value() == Apply(old(Value()), Step.Push(task, wake))
    {
      PushToQueue(task, wake);
      ok := true;
    }

    /** `pop`, up to its wait or its return, and what the worker does with the
        task: run it, or end. */
    method Pop(w: nat)
      requires Enabled(Value(), Take(w))
      modifies this
      ensures Value() == Apply(old(Value()), Take(w))
    {
      if queue == [] {
        workers := workers[w := Asleep];
        return;
      }
      var elem := queue[0];
      queue, popped := queue[1..], popped + [elem];
      match elem
      case Execute(id) =>
        workers := workers[w := Executing(id)];
      case Stop =>
        workers, takers := workers[w := Stopped], takers + [w];
    }

    /** The task a worker runs has ended; the worker is back at `pop`. */
    method TaskEnds(w: nat)
      requires Enabled(Value(), Finish(w))
      modifies this
      ensures Value() == Apply(old(Value()), Finish(w))
    {
      finished := finished + [workers[w].id];
      workers := workers[w := Ready];
    }

    method DestroyStart()
      requires Enabled(Value(), Destroy)
      modifies this
      ensures Value() == Apply(old(Value()), Destroy)
    {
      destructor := if 0 < |workers| then Pushing(0) else Returned;
    }

    /** One turn of the destructor's loop body: the push, or the join. */
    method DestroyTurn(wake: nat)
      requires Enabled(Value(), if destructor.Pushing? then PushStop(wake) else Join)
      modifies this
      ensures Value() == Apply(old(Value()), if old(destructor).Pushing? then PushStop(wake) else Join)
    {
      var i := destructor.i;
      if destructor.Pushing? {
        PushToQueue(Stop, wake);
        destructor := Joining(i);
      } else {
        destructor := if i + 1 < |workers| then Pushing(i + 1) else Returned;
      }
    }
  }
}
