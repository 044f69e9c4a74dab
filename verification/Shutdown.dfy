/**
 Shutting an IOManager down: stop, stopping, and the way the workers leave Scheduler::run
 (dag/scheduler.cpp) through the idle fiber of dag/ioscheduler.cpp.
 */
module Shutdown {
  import opened Runs
  import opened TaskQueue

  type Worker = nat

  /** Where a worker stands: the queue scan, a task, the idle fiber's stopping() test (whole,
      or behind its first or second read), the idle fiber past the test with callbacks of
      expired timers still in its local list, or out of run. */
  datatype Phase = Scanning | Working | Checking | SawNoTimers | SawNoEvents | Polling(cbs: nat) | Gone

  /** done: the idle fiber has terminated. */
  datatype Status = Status(phase: Phase, done: bool)

  datatype World = World(workers: map<Worker, Status>, queue: seq<Task>, active: int,
                         events: nat, timers: nat, stopping: bool)

  datatype Step =
    | OutsideTask(task: Task)
    | OutsideEvent
    | OutsideTimer
    | Stop
    | Take(w: Worker)
    | Spawn(w: Worker, task: Task)
    | AddEvent(w: Worker)
    | RemoveEvent(w: Worker, task: Task)
    | AddTimer(w: Worker)
    | RemoveTimer(w: Worker)
    | EndTask(w: Worker)
    | EnterIdle(w: Worker)
    | Check(w: Worker)
    | ReadTimers(w: Worker)
    | ReadEvents(w: Worker)
    | ReadRest(w: Worker)
    | Expire(w: Worker, fired: nat, left: nat)
    | Deliver(w: Worker, task: Task)
    | Dispatch(w: Worker, task: Task)
    | IdleYield(w: Worker)
    | Leave(w: Worker)

  predicate NoTaskFor(s: World, w: Worker) {
    FirstEligible(s.queue, w) == |s.queue|
  }

  /** Everything stopping() looks at. */
  predicate Quiet(s: World) {
    s.queue == [] && s.active == 0 && s.events == 0 && s.timers == 0
  }

  predicate In(s: World, w: Worker, phase: Phase) {
    w in s.workers && s.workers[w].phase == phase
  }

  /** `atomic`: stopping() is one step; otherwise its three reads are. */
  predicate Enabled(s: World, step: Step, atomic: bool) {
    match step
    case OutsideTask(_) => !s.stopping
    case OutsideEvent => !s.stopping
    case OutsideTimer => !s.stopping
    case Stop => true
    case Take(w) => In(s, w, Scanning) && !NoTaskFor(s, w)
    case Spawn(w, _) => In(s, w, Working)
    case AddEvent(w) => In(s, w, Working)
    case RemoveEvent(w, _) => In(s, w, Working) && s.events > 0
    case AddTimer(w) => In(s, w, Working)
    case RemoveTimer(w) => In(s, w, Working) && s.timers > 0
    case EndTask(w) => In(s, w, Working)
    case EnterIdle(w) => In(s, w, Scanning) && NoTaskFor(s, w) && !s.workers[w].done
    case Check(w) => In(s, w, Checking) && atomic
    case ReadTimers(w) => In(s, w, Checking) && !atomic
    case ReadEvents(w) => In(s, w, SawNoTimers)
    case ReadRest(w) => In(s, w, SawNoEvents)
    case Expire(w, fired, left) => In(s, w, Polling(0)) && (s.timers == 0 ==> fired == left == 0)
    case Deliver(w, _) => w in s.workers && s.workers[w].phase.Polling? && s.workers[w].phase.cbs > 0
    case Dispatch(w, _) => w in s.workers && s.workers[w].phase.Polling? && s.events > 0
    case IdleYield(w) => In(s, w, Polling(0))
    case Leave(w) => In(s, w, Scanning) && NoTaskFor(s, w) && s.workers[w].done
  }

  function MoveTo(s: World, w: Worker, phase: Phase): World
    requires w in s.workers
  {
    s.(workers := s.workers[w := s.workers[w].(phase := phase)])
  }

  function Terminate(s: World, w: Worker): World {
    s.(workers := s.workers[w := Status(Scanning, true)])
  }

  function Apply(s: World, step: Step, atomic: bool): World
    requires Enabled(s, step, atomic)
  {
    match step
    case OutsideTask(task) => s.(queue := Push(s.queue, task))
    case OutsideEvent => s.(events := s.events + 1)
    case OutsideTimer => s.(timers := s.timers + 1)
    case Stop => s.(stopping := true)
    case Take(w) =>
      MoveTo(s, w, Working).(queue := Without(s.queue, FirstEligible(s.queue, w)), active := s.active + 1)
    case Spawn(_, task) => s.(queue := Push(s.queue, task))
    case AddEvent(_) => s.(events := s.events + 1)
    case RemoveEvent(_, task) => s.(events := s.events - 1, queue := Push(s.queue, task))
    case AddTimer(_) => s.(timers := s.timers + 1)
    case RemoveTimer(_) => s.(timers := s.timers - 1)
    case EndTask(w) => MoveTo(s, w, Scanning).(active := s.active - 1)
    case EnterIdle(w) => MoveTo(s, w, Checking)
    case Check(w) => if s.stopping && Quiet(s) then Terminate(s, w) else MoveTo(s, w, Polling(0))
    case ReadTimers(w) => MoveTo(s, w, if s.timers == 0 then SawNoTimers else Polling(0))
    case ReadEvents(w) => MoveTo(s, w, if s.events == 0 then SawNoEvents else Polling(0))
    case ReadRest(w) =>
      if s.stopping && s.queue == [] && s.active == 0 then Terminate(s, w) else MoveTo(s, w, Polling(0))
    case Expire(w, fired, left) => MoveTo(s, w, Polling(fired)).(timers := left)
    case Deliver(w, task) => MoveTo(s, w, Polling(s.workers[w].phase.cbs - 1)).(queue := Push(s.queue, task))
    case Dispatch(w, task) => s.(events := s.events - 1, queue := Push(s.queue, task))
    case IdleYield(w) => MoveTo(s, w, Scanning)
    case Leave(w) => MoveTo(s, w, Gone)
  }

  // ---- the invariant ------------------------------------------------------------------

  ghost function Busy(s: World): set<Worker> {
    set w | w in s.workers.Keys && In(s, w, Working)
  }

  /** A terminated idle fiber is never entered again; only its worker leaves. */
  predicate StatusOk(x: Status) {
    && (x.done ==> x.phase == Scanning || x.phase == Working || x.phase == Gone)
    && (x.phase == Gone ==> x.done)
    && x.phase != SawNoTimers && x.phase != SawNoEvents
  }

  predicate AllDone(s: World) {
    forall w :: w in s.workers ==> s.workers[w].done
  }

  ghost predicate Inv(s: World) {
    && s.workers.Keys != {}
    && s.active == |Busy(s)|
    && (forall w :: w in s.workers ==> StatusOk(s.workers[w]))
    && (AllDone(s) ==> Quiet(s))
  }

  /** The active count follows the number of workers inside a task. */
  lemma BusyChanges(s: World, s': World, w: Worker)
    requires w in s.workers && s'.workers.Keys == s.workers.Keys
    requires forall v :: v in s.workers && v != w ==> s'.workers[v] == s.workers[v]
    ensures s.workers[w].phase == Working && s'.workers[w].phase != Working ==> |Busy(s')| == |Busy(s)| - 1
    ensures s.workers[w].phase != Working && s'.workers[w].phase == Working ==> |Busy(s')| == |Busy(s)| + 1
    ensures (s.workers[w].phase == Working <==> s'.workers[w].phase == Working) ==> |Busy(s')| == |Busy(s)|
  {
    assert forall v :: v in s.workers.Keys && v != w ==> (In(s', v, Working) <==> In(s, v, Working));
    if s.workers[w].phase == Working && s'.workers[w].phase != Working {
      assert Busy(s') == Busy(s) - {w};
    } else if s.workers[w].phase != Working && s'.workers[w].phase == Working {
      assert Busy(s') == Busy(s) + {w};
    } else {
      assert Busy(s') == Busy(s);
    }
  }

  lemma BusyCounts(s: World, w: Worker)
    requires In(s, w, Working)
    ensures |Busy(s)| > 0
  {
    assert w in Busy(s);
  }

  /** Steps that leave every worker where it is: they need an outside thread before the stop,
      a worker inside a task, or a worker inside its idle fiber. */
  predicate KeepsWorkers(step: Step) {
    match step
    case OutsideTask(_) => true
    case OutsideEvent => true
    case OutsideTimer => true
    case Stop => true
    case Spawn(_, _) => true
    case AddEvent(_) => true
    case RemoveEvent(_, _) => true
    case AddTimer(_) => true
    case RemoveTimer(_) => true
    case Dispatch(_, _) => true
    case _ => false
  }

  ghost predicate StoppingSince(s: World) {
    (exists w :: w in s.workers && s.workers[w].done) ==> s.stopping
  }

  lemma KeepingStep(s: World, step: Step)
    requires Inv(s) && StoppingSince(s) && Enabled(s, step, true) && KeepsWorkers(step)
    ensures Inv(Apply(s, step, true)) && StoppingSince(Apply(s, step, true))
  {
    var s' := Apply(s, step, true);
    assert Busy(s') == Busy(s);
    if step.Spawn? || step.AddEvent? || step.RemoveEvent? || step.AddTimer? || step.RemoveTimer? {
      BusyCounts(s, step.w);
    }
    var w :| w in s.workers.Keys;
    assert AllDone(s) ==> s.workers[w].done;
    assert step.Dispatch? ==> StatusOk(s.workers[step.w]);
  }

  lemma MovingCounts(s: World, step: Step)
    requires Inv(s) && Enabled(s, step, true) && !KeepsWorkers(step)
    ensures var s' := Apply(s, step, true);
      && s'.workers.Keys != {} && s'.active == |Busy(s')|
      && (forall w :: w in s'.workers ==> StatusOk(s'.workers[w]))
  {
    var s', w := Apply(s, step, true), step.w;
    assert StatusOk(s.workers[w]);
    BusyChanges(s, s', w);
    assert w in s'.workers.Keys;
  }

  /** A step of w that does not end its idle fiber. */
  lemma SameDone(s: World, s': World, w: Worker)
    requires w in s.workers && s'.workers.Keys == s.workers.Keys && s'.workers[w].done == s.workers[w].done
    requires forall v :: v in s.workers && v != w ==> s'.workers[v] == s.workers[v]
    ensures AllDone(s') <==> AllDone(s)
    ensures (exists v :: v in s'.workers && s'.workers[v].done) <==> exists v :: v in s.workers && s.workers[v].done
  {
    if v :| v in s.workers && s.workers[v].done {
      assert v in s'.workers && s'.workers[v].done;
    }
    if v :| v in s'.workers && s'.workers[v].done {
      assert v in s.workers && s.workers[v].done;
    }
  }

  /** The worker sees that everything is quiet, and its idle fiber ends. */
  predicate Ending(s: World, step: Step) {
    step.Check? && s.stopping && Quiet(s)
  }

  lemma MovesOne(s: World, step: Step)
    requires !KeepsWorkers(step) && step.w in s.workers && StatusOk(s.workers[step.w]) && Enabled(s, step, true)
    ensures var s', w := Apply(s, step, true), step.w;
      && s'.workers.Keys == s.workers.Keys && s'.stopping == s.stopping
      && (forall v :: v in s.workers && v != w ==> s'.workers[v] == s.workers[v])
      && (!Ending(s, step) ==> s'.workers[w].done == s.workers[w].done)
  {
    if step.Check? && Ending(s, step) {
      assert Apply(s, step, true) == Terminate(s, step.w);
    } else {
      var phase := Apply(s, step, true).workers[step.w].phase;
      assert Apply(s, step, true).workers == s.workers[step.w := s.workers[step.w].(phase := phase)];
    }
  }

  lemma EndsQuiet(s: World, step: Step)
    requires Ending(s, step) && Enabled(s, step, true)
    ensures Quiet(Apply(s, step, true))
  {
  }

  /** When every idle fiber has ended only Leave is left to do. */
  lemma QuietStays(s: World, step: Step)
    requires Inv(s) && AllDone(s) && Enabled(s, step, true) && !KeepsWorkers(step)
    ensures Quiet(Apply(s, step, true))
  {
    assert StatusOk(s.workers[step.w]) && s.workers[step.w].done;
    if step.EndTask? {
      BusyCounts(s, step.w);
    }
  }

  lemma MovingDone(s: World, step: Step)
    requires Inv(s) && StoppingSince(s) && Enabled(s, step, true) && !KeepsWorkers(step)
    ensures AllDone(Apply(s, step, true)) ==> Quiet(Apply(s, step, true))
    ensures StoppingSince(Apply(s, step, true))
  {
    assert StatusOk(s.workers[step.w]);
    MovesOne(s, step);
    if Ending(s, step) {
      EndsQuiet(s, step);
    } else {
      SameDone(s, Apply(s, step, true), step.w);
      if AllDone(s) {
        QuietStays(s, step);
      }
    }
  }

  lemma MovingStep(s: World, step: Step)
    requires Inv(s) && StoppingSince(s) && Enabled(s, step, true) && !KeepsWorkers(step)
    ensures Inv(Apply(s, step, true)) && StoppingSince(Apply(s, step, true))
  {
    MovingCounts(s, step);
    MovingDone(s, step);
  }

  /** The steps if stopping() were atomic. */
  function NextAtomic(s: World, step: Step): Option<World> {
    if Enabled(s, step, true) then Some(Apply(s, step, true)) else None
  }

  predicate Init(s: World) {
    && s.workers.Keys != {}
    && (forall w :: w in s.workers ==> s.workers[w] == Status(Scanning, false))
    && Quiet(s) && !s.stopping
  }

  lemma InitInv(s: World)
    requires Init(s)
    ensures Inv(s) && StoppingSince(s)
  {
    assert forall v :: v in s.workers.Keys ==> !In(s, v, Working);
    assert Busy(s) == {};
    var w :| w in s.workers.Keys;
    assert !s.workers[w].done;
  }

  lemma ReachableInv(init: World, steps: seq<Step>, s: World)
    requires Init(init) && Leads(NextAtomic, init, steps, s)
    ensures Inv(s) && StoppingSince(s)
  {
    var inv := (x: World) => Inv(x) && StoppingSince(x);
    InitInv(init);
    forall m, step | inv(m) && NextAtomic(m, step).Some?
      ensures inv(NextAtomic(m, step).value)
    {
      if KeepsWorkers(step) {
        KeepingStep(m, step);
      } else {
        MovingStep(m, step);
      }
    }
    Invariant(NextAtomic, inv, init, steps, s);
  }

  predicate AllGone(s: World) {
    forall w :: w in s.workers ==> s.workers[w].phase == Gone
  }

  /** With an atomic stopping() and nothing submitted from outside after the stop: once every
      worker has left run, no task, no registered event and no timer is left behind. */
  lemma NothingLeftBehind(init: World, steps: seq<Step>, s: World)
    requires Init(init) && Leads(NextAtomic, init, steps, s) && AllGone(s)
    ensures s.stopping && Quiet(s)
  {
    ReachableInv(init, steps, s);
    forall w | w in s.workers
      ensures s.workers[w].done
    {
      assert StatusOk(s.workers[w]);
    }
    var w :| w in s.workers.Keys;
    assert s.workers[w].done;
  }

  // ---- stopping() as it is: three reads -----------------------------------------------

  /** The steps of the code; `outside` says whether other threads add timers and events of their
      own before the stop (they may always submit tasks). */
  function NextRead(s: World, step: Step, outside: bool): Option<World> {
    if Enabled(s, step, false) && (outside || !(step.OutsideTimer? || step.OutsideEvent?)) then
      Some(Apply(s, step, false))
    else None
  }

  function Reads(outside: bool): (World, Step) -> Option<World> {
    (s, step) => NextRead(s, step, outside)
  }

  /** A single worker: what it has read stays true until it has read the rest. */
  predicate Solo(s: World, w: Worker) {
    && s.workers.Keys == {w}
    && var x := s.workers[w];
    && s.active == (if x.phase == Working then 1 else 0)
    && (x.phase == SawNoTimers ==> s.timers == 0)
    && (x.phase == SawNoEvents ==> s.timers == 0 && s.events == 0)
    && (x.done ==> Quiet(s) && s.stopping && (x.phase == Scanning || x.phase == Gone))
    && (x.phase == Gone ==> x.done)
  }

  lemma SoloStep(s: World, step: Step, w: Worker)
    requires Solo(s, w) && NextRead(s, step, false).Some?
    ensures Solo(Apply(s, step, false), w)
  {
  }

  lemma SoloLeavesNothing(init: World, steps: seq<Step>, s: World, w: Worker)
    requires Init(init) && init.workers.Keys == {w} && Leads(Reads(false), init, steps, s) && AllGone(s)
    ensures s.stopping && Quiet(s)
  {
    var inv := (x: World) => Solo(x, w);
    assert w in init.workers.Keys;
    forall m, step | inv(m) && Reads(false)(m, step).Some?
      ensures inv(Reads(false)(m, step).value)
    {
      SoloStep(m, step, w);
    }
    Invariant(Reads(false), inv, init, steps, s);
    assert w in s.workers.Keys;
  }

  // ---- runs that leave something behind -----------------------------------------------

  ghost predicate Reached(outside: bool, init: World, s: World) {
    Init(init) && Reachable(Reads(outside), init, s)
  }

  lemma Do(outside: bool, init: World, s: World, step: Step) returns (u: World)
    requires Reached(outside, init, s) && NextRead(s, step, outside).Some?
    ensures Reached(outside, init, u) && u == Apply(s, step, false)
  {
    u := Reach(Reads(outside), init, s, step);
  }

  /** The same status for all of vs. */
  function Assign(ws: map<Worker, Status>, vs: set<Worker>, x: Status): map<Worker, Status> {
    map w | w in ws :: if w in vs then x else ws[w]
  }

  lemma AssignMore(ws: map<Worker, Status>, vs: set<Worker>, v: Worker, x: Status)
    requires v in vs && v in ws
    ensures Assign(ws, vs - {v}, x)[v := x] == Assign(ws, vs, x)
  {
  }

  predicate Nothing(s: World) {
    s.queue == [] && s.active == 0 && s.events == 0
  }

  lemma OneLooks(outside: bool, init: World, s: World, v: Worker) returns (u: World)
    requires Reached(outside, init, s) && Nothing(s) && s.timers == 0
    requires v in s.workers && s.workers[v] == Status(Scanning, false)
    ensures Reached(outside, init, u) && u == s.(workers := s.workers[v := Status(SawNoTimers, false)])
  {
    var t := Do(outside, init, s, EnterIdle(v));
    u := Do(outside, init, t, ReadTimers(v));
  }

  lemma OneEnds(outside: bool, init: World, s: World, v: Worker) returns (u: World)
    requires Reached(outside, init, s) && Nothing(s) && s.stopping
    requires v in s.workers && s.workers[v] == Status(SawNoTimers, false)
    ensures Reached(outside, init, u) && u == s.(workers := s.workers[v := Status(Scanning, true)])
  {
    var t := Do(outside, init, s, ReadEvents(v));
    u := Do(outside, init, t, ReadRest(v));
  }

  /** All of vs read that there is no timer. */
  lemma {:induction false} AllLook(outside: bool, init: World, s: World, vs: set<Worker>) returns (u: World)
    requires Reached(outside, init, s) && Nothing(s) && s.timers == 0
    requires forall v :: v in vs ==> v in s.workers && s.workers[v] == Status(Scanning, false)
    ensures Reached(outside, init, u) && u == s.(workers := Assign(s.workers, vs, Status(SawNoTimers, false)))
    decreases |vs|
  {
    if |vs| > 0 {
      var v :| v in vs;
      var t := AllLook(outside, init, s, vs - {v});
      AssignMore(s.workers, vs, v, Status(SawNoTimers, false));
      u := OneLooks(outside, init, t, v);
    } else {
      u := s;
      assert Assign(s.workers, vs, Status(SawNoTimers, false)) == s.workers;
    }
  }

  /** All of vs, having read that there is no timer, read the rest and leave. */
  lemma {:induction false} AllLeave(outside: bool, init: World, s: World, vs: set<Worker>) returns (u: World)
    requires Reached(outside, init, s) && Nothing(s) && s.stopping
    requires forall v :: v in vs ==> v in s.workers && s.workers[v] == Status(SawNoTimers, false)
    ensures Reached(outside, init, u) && u == s.(workers := Assign(s.workers, vs, Status(Gone, true)))
    decreases |vs|
  {
    if |vs| > 0 {
      var v :| v in vs;
      var t := AllLeave(outside, init, s, vs - {v});
      AssignMore(s.workers, vs, v, Status(Gone, true));
      var t1 := OneEnds(outside, init, t, v);
      u := Do(outside, init, t1, Leave(v));
    } else {
      u := s;
      assert Assign(s.workers, vs, Status(Gone, true)) == s.workers;
    }
  }

  function Fresh(workers: set<Worker>): World {
    World(map w | w in workers :: Status(Scanning, false), [], 0, 0, 0, false)
  }

  /** A timer added from outside once every worker has read that there is none, and then the stop:
      the timer is left behind, by any number of workers. */
  lemma OutsideTimerIsLeft(workers: set<Worker>) returns (u: World)
    requires workers != {}
    ensures Reached(true, Fresh(workers), u) && AllGone(u) && u.timers == 1
  {
    var init := Fresh(workers);
    assert init.workers.Keys == workers;
    Start(Reads(true), init);
    var s1 := AllLook(true, init, init, workers);
    var s2 := Do(true, init, s1, OutsideTimer);
    var s3 := Do(true, init, s2, Stop);
    u := AllLeave(true, init, s3, workers);
  }

  /** Where two workers stand, all others being gone or yet to start. */
  predicate Pair(s: World, a: Worker, x: Status, b: Worker, y: Status) {
    a != b && a in s.workers && b in s.workers && s.workers[a] == x && s.workers[b] == y
  }

  /** Nobody else is in run. */
  predicate Rest(s: World, a: Worker, b: Worker) {
    forall w :: w in s.workers && w != a && w != b ==> s.workers[w] == Status(Gone, true)
  }

  const JOB := Task(OfCallback(0), -1)

  lemma OneJob(w: Worker)
    ensures FirstEligible([JOB], w) == 0 && Without([JOB], 0) == [] && Push([], JOB) == [JOB]
  {
  }

  /** a takes a task from outside. */
  lemma JobTaken(workers: set<Worker>, a: Worker) returns (u: World)
    requires a in workers
    ensures Reached(false, Fresh(workers), u)
    ensures u == Fresh(workers).(active := 1, workers := Fresh(workers).workers[a := Status(Working, false)])
  {
    var init := Fresh(workers);
    assert init.workers.Keys == workers;
    Start(Reads(false), init);
    OneJob(a);
    var s1 := Do(false, init, init, OutsideTask(JOB));
    u := Do(false, init, s1, Step.Take(a));
  }

  /** a adds a timer in a task. */
  lemma TimerAdded(workers: set<Worker>, a: Worker) returns (u: World)
    requires a in workers
    ensures Reached(false, Fresh(workers), u) && u == Fresh(workers).(timers := 1)
  {
    var init := Fresh(workers);
    var s2 := JobTaken(workers, a);
    var s3 := Do(false, init, s2, AddTimer(a));
    u := Do(false, init, s3, EndTask(a));
    assert u.workers == init.workers;
  }

  /** b takes it as expired and holds its callback. */
  lemma TimerExpires(workers: set<Worker>, a: Worker, b: Worker) returns (u: World)
    requires a in workers && b in workers && a != b
    ensures Reached(false, Fresh(workers), u) && Nothing(u) && u.timers == 0 && !u.stopping
    ensures u.workers == Fresh(workers).workers[b := Status(Polling(1), false)]
  {
    var init := Fresh(workers);
    var s4 := TimerAdded(workers, a);
    var s5 := Do(false, init, s4, EnterIdle(b));
    var s6 := Do(false, init, s5, ReadTimers(b));
    u := Do(false, init, s6, Expire(b, 1, 0));
  }

  /** The stop; everybody but b sees that nothing is left, and all but a and b leave. */
  lemma OthersLeave(workers: set<Worker>, a: Worker, b: Worker) returns (u: World)
    requires a in workers && b in workers && a != b
    ensures Reached(false, Fresh(workers), u) && Nothing(u) && u.timers == 0 && u.stopping && Rest(u, a, b)
    ensures Pair(u, a, Status(Scanning, true), b, Status(Polling(1), false))
  {
    var init, others := Fresh(workers), workers - {a, b};
    var s1 := TimerExpires(workers, a, b);
    var s2 := Do(false, init, s1, Stop);
    var s3 := AllLook(false, init, s2, others);
    var s4 := AllLeave(false, init, s3, others);
    var s5 := OneLooks(false, init, s4, a);
    u := OneEnds(false, init, s5, a);
  }

  /** b delivers the callback and a takes it, though its idle fiber has ended. */
  lemma TakenLate(workers: set<Worker>, a: Worker, b: Worker) returns (u: World)
    requires a in workers && b in workers && a != b
    ensures Reached(false, Fresh(workers), u) && u.queue == [] && u.active == 1 && u.events == 0 && u.timers == 0
    ensures u.stopping && Rest(u, a, b) && Pair(u, a, Status(Working, true), b, Status(Polling(0), false))
  {
    var init := Fresh(workers);
    OneJob(a);
    var s1 := OthersLeave(workers, a, b);
    var s2 := Do(false, init, s1, Deliver(b, JOB));
    u := Do(false, init, s2, Step.Take(a));
  }

  /** b reads that there is no timer and no event. */
  lemma ReadsNothing(workers: set<Worker>, a: Worker, b: Worker) returns (u: World)
    requires a in workers && b in workers && a != b
    ensures Reached(false, Fresh(workers), u) && u.queue == [] && u.active == 1 && u.events == 0 && u.timers == 0
    ensures u.stopping && Rest(u, a, b) && Pair(u, a, Status(Working, true), b, Status(SawNoEvents, false))
  {
    var init := Fresh(workers);
    var s1 := TakenLate(workers, a, b);
    var s2 := Do(false, init, s1, IdleYield(b));
    var s3 := Do(false, init, s2, EnterIdle(b));
    var s4 := Do(false, init, s3, ReadTimers(b));
    u := Do(false, init, s4, ReadEvents(b));
  }

  /** Then a adds a timer and ends its task. */
  lemma AddedInBetween(workers: set<Worker>, a: Worker, b: Worker) returns (u: World)
    requires a in workers && b in workers && a != b
    ensures Reached(false, Fresh(workers), u) && Nothing(u) && u.timers == 1
    ensures u.stopping && Rest(u, a, b) && Pair(u, a, Status(Scanning, true), b, Status(SawNoEvents, false))
  {
    var init := Fresh(workers);
    var s1 := ReadsNothing(workers, a, b);
    var s2 := Do(false, init, s1, AddTimer(a));
    u := Do(false, init, s2, EndTask(a));
  }

  /** Two workers or more and nothing from outside but tasks: a worker whose idle fiber has ended
      takes a late callback and adds a timer between the reads of another; the timer is left. */
  lemma InsideTimerIsLeft(workers: set<Worker>, a: Worker, b: Worker) returns (u: World)
    requires a in workers && b in workers && a != b
    ensures Reached(false, Fresh(workers), u) && AllGone(u) && u.timers == 1
  {
    var init := Fresh(workers);
    var s1 := AddedInBetween(workers, a, b);
    var s2 := Do(false, init, s1, ReadRest(b));
    var s3 := Do(false, init, s2, Leave(a));
    u := Do(false, init, s3, Leave(b));
  }

  /** Whatever the workers do, nothing is left when all of them have left run. */
  ghost predicate LeavesNothing(workers: set<Worker>, outside: bool) {
    forall init, steps, s ::
      Init(init) && init.workers.Keys == workers && Leads(Reads(outside), init, steps, s) && AllGone(s) ==>
        s.stopping && Quiet(s)
  }

  /** The code as it is leaves nothing behind exactly when there is a single worker and no thread
      outside adds timers or events. */
  lemma LeavesNothingIff(workers: set<Worker>, outside: bool)
    requires workers != {}
    ensures LeavesNothing(workers, outside) <==> |workers| == 1 && !outside
  {
    var a :| a in workers;
    if outside {
      var u := OutsideTimerIsLeft(workers);
      LeftBehind(workers, outside, u);
    } else if workers == {a} {
      forall init, steps, s | Init(init) && init.workers.Keys == workers && Leads(Reads(outside), init, steps, s)
                              && AllGone(s)
        ensures s.stopping && Quiet(s)
      {
        SoloLeavesNothing(init, steps, s, a);
      }
    } else {
      assert workers - {a} != {};
      var b :| b in workers - {a};
      assert {a, b} <= workers && |{a, b}| == 2;
      Larger({a, b}, workers);
      var u := InsideTimerIsLeft(workers, a, b);
      LeftBehind(workers, outside, u);
    }
  }

  lemma Larger(a: set<Worker>, b: set<Worker>)
    requires a <= b
    ensures |a| <= |b|
  {
    assert b == a + (b - a);
  }

  lemma LeftBehind(workers: set<Worker>, outside: bool, u: World)
    requires Reached(outside, Fresh(workers), u) && AllGone(u) && u.timers == 1
    ensures !LeavesNothing(workers, outside)
  {
    assert Fresh(workers).workers.Keys == workers;
    var steps :| Leads(Reads(outside), Fresh(workers), steps, u);
  }
}
