/**
 The fiber protocol of Scheduler::run (dag/scheduler.cpp) and Fiber::resume / yield /
 MainFunc (dag/fiber.cpp), as a step relation over any number of workers.  A fiber may be
 queued again before it has finished yielding; the per-fiber mutex keeps that safe.
 */
module FiberProtocol {
  import opened Runs
  import opened TaskQueue

  type Worker = int
  type FiberId = nat

  datatype FiberState = Ready | Running | Term

  /** saved: the stored context is complete.  live: the workers executing on its stack.  due: the
      callback given to the constructor or to reset has not begun.  entry: the stored context is the
      one that makecontext made, which begins it. */
  datatype Fiber = Fiber(state: FiberState, saved: bool, live: set<Worker>,
                         owner: Option<Worker>, resumer: Option<Worker>, due: bool, entry: bool)

  const NEW_FIBER := Fiber(Ready, true, {}, None, None, true, true)

  /** mutex: run locks the fiber's mutex.  careful: reset is called only on a fiber that nobody
      executes; its own assertion asks for state TERM alone. */
  datatype Rules = Rules(mutex: bool, careful: bool)

  const CODE := Rules(true, false)
  const CAREFUL := Rules(true, true)
  const NO_MUTEX := Rules(false, true)

  /** Where a worker stands in the loop of run; `cb` marks a fiber made for a callback. */
  datatype Phase =
    | Scan
    | Picked(f: FiberId, cb: bool)
    | Locked(f: FiberId, cb: bool)
    | Entering(f: FiberId)
    | Inside(f: FiberId)
    | Yielding(f: FiberId)
    | Back(f: FiberId)
    | Unlocked

  datatype World = World(workers: map<Worker, Phase>, fibers: map<FiberId, Fiber>, queue: seq<Task>)

  datatype Step =
    | Create(f: FiberId)
    | Reset(f: FiberId)
    | Submit(task: Task)
    | Take(w: Worker, fresh': FiberId)
    | Lock(w: Worker)
    | SkipTerminated(w: Worker)
    | Resume(w: Worker)
    | SwapIn(w: Worker)
    | StartYield(w: Worker)
    | Finish(w: Worker)
    | SwapOut(w: Worker)
    | Unlock(w: Worker)
    | EndTask(w: Worker)

  predicate At(s: World, w: Worker, f: FiberId) {
    w in s.workers && match s.workers[w]
                      case Scan => false
                      case Unlocked => false
                      case Picked(g, _) => g == f
                      case Locked(g, _) => g == f
                      case _ => s.workers[w].f == f
  }

  /** Only the worker that made a callback fiber knows it before it first runs. */
  predicate Unpublished(s: World, f: FiberId) {
    exists w :: w in s.workers && (s.workers[w] == Picked(f, true) || s.workers[w] == Locked(f, true))
  }

  /** Which steps the code can take.  The assertion of resume and the completeness of a
      context are not guards: they are what has to be proved. */
  predicate Enabled(s: World, step: Step, rules: Rules) {
    match step
    case Create(f) => f !in s.fibers
    case Reset(f) => f in s.fibers && s.fibers[f].state == Term && (rules.careful ==> s.fibers[f].live == {})
    case Submit(task) => task.body.OfFiber? ==> task.body.id in s.fibers && !Unpublished(s, task.body.id)
    case Take(w, fresh') =>
      && w in s.workers && s.workers[w] == Scan
      && FirstEligible(s.queue, w) < |s.queue|
      && fresh' !in s.fibers
      && (s.queue[FirstEligible(s.queue, w)].body.OfFiber? ==>
            s.queue[FirstEligible(s.queue, w)].body.id in s.fibers)
    case Lock(w) =>
      && w in s.workers && s.workers[w].Picked? && s.workers[w].f in s.fibers
      && (rules.mutex ==> s.fibers[s.workers[w].f].owner == None)
    case SkipTerminated(w) =>
      && w in s.workers && s.workers[w].Locked? && !s.workers[w].cb && s.workers[w].f in s.fibers
      && s.fibers[s.workers[w].f].state == Term
    case Resume(w) =>
      && w in s.workers && s.workers[w].Locked? && s.workers[w].f in s.fibers
      && (s.workers[w].cb || s.fibers[s.workers[w].f].state != Term)
    case SwapIn(w) => w in s.workers && s.workers[w].Entering? && s.workers[w].f in s.fibers
    case StartYield(w) => w in s.workers && s.workers[w].Inside? && s.workers[w].f in s.fibers
    case Finish(w) => w in s.workers && s.workers[w].Inside? && s.workers[w].f in s.fibers
    case SwapOut(w) => w in s.workers && s.workers[w].Yielding? && s.workers[w].f in s.fibers
    case Unlock(w) => w in s.workers && s.workers[w].Back? && s.workers[w].f in s.fibers
    case EndTask(w) => w in s.workers && s.workers[w].Unlocked?
  }

  function Move(s: World, w: Worker, phase: Phase, f: FiberId, fiber: Fiber): World {
    s.(workers := s.workers[w := phase], fibers := s.fibers[f := fiber])
  }

  function Apply(s: World, step: Step, rules: Rules): World
    requires Enabled(s, step, rules)
  {
    match step
    case Create(f) => s.(fibers := s.fibers[f := NEW_FIBER])
    case Reset(f) =>
      s.(fibers := s.fibers[f := s.fibers[f].(state := Ready, saved := true, due := true, entry := true)])
    case Submit(task) => s.(queue := Push(s.queue, task))
    case Take(w, fresh') =>
      var i := FirstEligible(s.queue, w);
      var rest := s.(queue := Without(s.queue, i));
      (match s.queue[i].body
       case OfFiber(f) => rest.(workers := s.workers[w := Picked(f, false)])
       case OfCallback(_) => Move(rest, w, Picked(fresh', true), fresh', NEW_FIBER)
       case Null => rest)
    case Lock(w) =>
      var p := s.workers[w];
      Move(s, w, Locked(p.f, p.cb), p.f, s.fibers[p.f].(owner := Some(w)))
    case SkipTerminated(w) =>
      s.(workers := s.workers[w := Back(s.workers[w].f)])
    case Resume(w) =>
      var f := s.workers[w].f;
      Move(s, w, Entering(f), f, s.fibers[f].(state := Running, resumer := Some(w)))
    case SwapIn(w) =>
      var f := s.workers[w].f;
      var x := s.fibers[f];
      Move(s, w, Inside(f), f, x.(saved := false, live := x.live + {w}, due := false, entry := false))
    case StartYield(w) =>
      var f := s.workers[w].f;
      Move(s, w, Yielding(f), f, s.fibers[f].(state := Ready))
    case Finish(w) =>
      var f := s.workers[w].f;
      Move(s, w, Yielding(f), f, s.fibers[f].(state := Term))
    case SwapOut(w) =>
      var f := s.workers[w].f;
      Move(s, w, Back(f), f, s.fibers[f].(saved := true, live := s.fibers[f].live - {w}, entry := false))
    case Unlock(w) =>
      var f := s.workers[w].f;
      Move(s, w, Unlocked, f, s.fibers[f].(owner := None))
    case EndTask(w) => s.(workers := s.workers[w := Scan])
  }

  // ---- the invariant ------------------------------------------------------------------

  /** Not being executed: its context is complete and on no stack. */
  predicate Resting(x: Fiber) {
    x.state != Running && x.saved && x.live == {}
  }

  /** Resumed by w, its context complete and not yet entered. */
  predicate Resumed(x: Fiber, w: Worker) {
    x.state == Running && x.saved && x.live == {} && x.owner == Some(w) && x.resumer == Some(w)
  }

  /** w executes on its stack. */
  predicate Occupied(x: Fiber, w: Worker) {
    x.live == {w} && x.owner == Some(w) && x.resumer == Some(w)
  }

  /** Nobody but w knows f. */
  ghost predicate Private(s: World, w: Worker, f: FiberId) {
    && (forall v :: v in s.workers && v != w ==> !At(s, v, f))
    && (forall i :: 0 <= i < |s.queue| ==> s.queue[i].body != OfFiber(f))
  }

  ghost predicate WorkerOk(s: World, w: Worker)
    requires w in s.workers
  {
    match s.workers[w]
    case Scan => true
    case Unlocked => true
    case Picked(f, cb) =>
      f in s.fibers && (cb ==> s.fibers[f] == NEW_FIBER && Private(s, w, f))
    case Locked(f, cb) =>
      && f in s.fibers && s.fibers[f].owner == Some(w) && Resting(s.fibers[f])
      && (cb ==> s.fibers[f].state == Ready && Private(s, w, f))
    case Entering(f) =>
      f in s.fibers && Resumed(s.fibers[f], w)
    case Inside(f) =>
      f in s.fibers && s.fibers[f].state == Running && Occupied(s.fibers[f], w)
    case Yielding(f) =>
      f in s.fibers && s.fibers[f].state != Running && Occupied(s.fibers[f], w)
    case Back(f) =>
      && f in s.fibers && s.fibers[f].owner == Some(w) && Resting(s.fibers[f])
  }

  /** Past the lock and before the unlock. */
  predicate Holding(p: Phase, f: FiberId) {
    match p
    case Locked(g, _) => g == f
    case Entering(g) => g == f
    case Inside(g) => g == f
    case Yielding(g) => g == f
    case Back(g) => g == f
    case _ => false
  }

  predicate FiberOk(s: World, f: FiberId)
    requires f in s.fibers
  {
    match s.fibers[f].owner
    case None => Resting(s.fibers[f])
    case Some(w) => w in s.workers && Holding(s.workers[w], f)
  }

  ghost predicate Inv(s: World) {
    && (forall w :: w in s.workers ==> WorkerOk(s, w))
    && (forall f :: f in s.fibers ==> FiberOk(s, f))
    && (forall i :: 0 <= i < |s.queue| && s.queue[i].body.OfFiber? ==> s.queue[i].body.id in s.fibers)
  }

  /** While w is at f and f is not held by another worker, the others can only wait for f. */
  lemma OthersWait(s: World, w: Worker, f: FiberId, v: Worker)
    requires Inv(s) && At(s, w, f) && At(s, v, f) && v != w && f in s.fibers
    requires s.fibers[f].owner == None || s.fibers[f].owner == Some(w)
    ensures s.workers[v] == Picked(f, false)
  {
    assert WorkerOk(s, v);
  }

  /** A worker's own move changes nothing for the others. */
  lemma MoveKeepsOthers(s: World, w: Worker, phase: Phase, f: FiberId, x: Fiber, v: Worker)
    requires Inv(s) && At(s, w, f) && f in s.fibers && v in s.workers && v != w
    requires s.fibers[f].owner == None || s.fibers[f].owner == Some(w)
    requires phase == Unlocked || At(Move(s, w, phase, f, x), w, f)
    ensures WorkerOk(Move(s, w, phase, f, x), v)
  {
    var s' := Move(s, w, phase, f, x);
    assert WorkerOk(s, v);
    if At(s, v, f) {
      OthersWait(s, w, f, v);
    } else {
      forall g | Private(s, v, g)
        ensures Private(s', v, g)
      {
        assert !At(s, w, g);
        assert forall u :: u in s'.workers && u != v && u != w ==> (At(s', u, g) <==> At(s, u, g));
      }
    }
  }

  /** The moves between taking a task and finishing it. */
  predicate IsMove(step: Step) {
    !(step.Create? || step.Reset? || step.Submit? || step.Take? || step.EndTask?)
  }

  lemma MovePreserves(s: World, step: Step)
    requires Inv(s) && Enabled(s, step, CODE) && IsMove(step)
    ensures Inv(Apply(s, step, CODE))
  {
    var s', w, f := Apply(s, step, CODE), step.w, s.workers[step.w].f;
    assert WorkerOk(s, w);
    assert s' == Move(s, w, s'.workers[w], f, s'.fibers[f]);
    forall v | v in s'.workers && v != w
      ensures WorkerOk(s', v)
    {
      MoveKeepsOthers(s, w, s'.workers[w], f, s'.fibers[f], v);
    }
    OwnMoveOk(s, step);
    forall g | g in s'.fibers
      ensures FiberOk(s', g)
    {
      assert FiberOk(s, g);
    }
  }

  lemma OwnMoveOk(s: World, step: Step)
    requires Inv(s) && Enabled(s, step, CODE) && IsMove(step)
    ensures WorkerOk(Apply(s, step, CODE), step.w)
    ensures FiberOk(Apply(s, step, CODE), s.workers[step.w].f)
  {
    assert WorkerOk(s, step.w);
    assert FiberOk(s, s.workers[step.w].f);
  }

  lemma WithoutIndex(q: seq<Task>, i: nat, j: nat)
    requires i < |q| && j < |q| - 1
    ensures Without(q, i)[j] == if j < i then q[j] else q[j + 1]
  {
  }

  /** A task leaves the queue: what is left was there before. */
  lemma ShorterQueue(s: World, i: nat)
    requires Inv(s) && i < |s.queue|
    ensures Inv(s.(queue := Without(s.queue, i)))
  {
    var s' := s.(queue := Without(s.queue, i));
    forall j | 0 <= j < |s'.queue|
      ensures s'.queue[j] in s.queue
    {
      WithoutIndex(s.queue, i, j);
    }
    forall v | v in s'.workers
      ensures WorkerOk(s', v)
    {
      assert WorkerOk(s, v);
      forall g | Private(s, v, g)
        ensures Private(s', v, g)
      {
        assert forall u :: u in s'.workers ==> (At(s', u, g) <==> At(s, u, g));
      }
    }
    forall g | g in s'.fibers
      ensures FiberOk(s', g)
    {
      assert FiberOk(s, g);
    }
  }

  /** A worker that holds nothing turns to a known fiber, or to none. */
  lemma TurnTo(s: World, w: Worker, phase: Phase)
    requires Inv(s) && w in s.workers && (s.workers[w] == Scan || s.workers[w] == Unlocked)
    requires phase == Scan || (phase.Picked? && !phase.cb && phase.f in s.fibers)
    requires phase.Picked? ==> !Unpublished(s, phase.f)
    ensures Inv(s.(workers := s.workers[w := phase]))
  {
    var s' := s.(workers := s.workers[w := phase]);
    forall v | v in s'.workers
      ensures WorkerOk(s', v)
    {
      assert WorkerOk(s, v);
      if v != w {
        forall g | Private(s, v, g) && (s.workers[v] == Picked(g, true) || s.workers[v] == Locked(g, true))
          ensures Private(s', v, g)
        {
          assert forall u :: u in s'.workers && u != w ==> (At(s', u, g) <==> At(s, u, g));
        }
      }
    }
    forall g | g in s'.fibers
      ensures FiberOk(s', g)
    {
      assert FiberOk(s, g);
    }
  }

  /** A queued fiber is not unpublished. */
  lemma QueuedIsPublished(s: World, i: nat)
    requires Inv(s) && i < |s.queue| && s.queue[i].body.OfFiber?
    ensures !Unpublished(s, s.queue[i].body.id)
  {
  }

  /** A fiber made for a callback is known to its maker only. */
  lemma MakeCallbackFiber(s: World, w: Worker, f: FiberId)
    requires Inv(s) && w in s.workers && s.workers[w] == Scan && f !in s.fibers
    ensures Inv(Move(s, w, Picked(f, true), f, NEW_FIBER))
  {
    var s' := Move(s, w, Picked(f, true), f, NEW_FIBER);
    forall v | v in s'.workers && v != w
      ensures WorkerOk(s', v) && !At(s', v, f)
    {
      assert WorkerOk(s, v);
      forall g | Private(s, v, g) && g != f
        ensures Private(s', v, g)
      {
        assert forall u :: u in s'.workers && u != w ==> (At(s', u, g) <==> At(s, u, g));
      }
    }
    forall g | g in s'.fibers
      ensures FiberOk(s', g)
    {
      assert g != f ==> FiberOk(s, g);
    }
  }

  lemma TakePreserves(s: World, w: Worker, fresh': FiberId)
    requires Inv(s) && Enabled(s, Step.Take(w, fresh'), CODE)
    ensures Inv(Apply(s, Step.Take(w, fresh'), CODE))
  {
    var i := FirstEligible(s.queue, w);
    var rest := s.(queue := Without(s.queue, i));
    ShorterQueue(s, i);
    match s.queue[i].body {
      case OfFiber(f) =>
        QueuedIsPublished(s, i);
        assert !Unpublished(rest, f);
        TurnTo(rest, w, Picked(f, false));
      case OfCallback(_) =>
        MakeCallbackFiber(rest, w, fresh');
      case Null =>
    }
  }

  /** Outside threads and running fibers: new fibers, reused fibers, new tasks. */
  lemma OutsidePreserves(s: World, step: Step)
    requires Inv(s) && Enabled(s, step, CODE) && (step.Create? || step.Reset? || step.Submit?)
    ensures Inv(Apply(s, step, CODE))
  {
    var s' := Apply(s, step, CODE);
    forall v | v in s'.workers
      ensures WorkerOk(s', v)
    {
      assert WorkerOk(s, v);
      forall g | Private(s, v, g) && (s.workers[v] == Picked(g, true) || s.workers[v] == Locked(g, true))
        ensures Private(s', v, g)
      {
        assert Unpublished(s, g);
        assert forall u :: u in s'.workers ==> (At(s', u, g) <==> At(s, u, g));
      }
    }
    forall g | g in s'.fibers
      ensures FiberOk(s', g)
    {
      assert g in s.fibers ==> FiberOk(s, g);
    }
  }

  /** Every step of the code keeps the invariant. */
  lemma InvPreserved(s: World, step: Step)
    requires Inv(s) && Enabled(s, step, CODE)
    ensures Inv(Apply(s, step, CODE))
  {
    match step {
      case Create(_) => OutsidePreserves(s, step);
      case Reset(_) => OutsidePreserves(s, step);
      case Submit(_) => OutsidePreserves(s, step);
      case Take(w, fresh') => TakePreserves(s, w, fresh');
      case EndTask(w) => TurnTo(s, w, Scan);
      case _ => MovePreserves(s, step);
    }
  }

  // ---- runs ---------------------------------------------------------------------------

  /** Workers in their loop, no fibers, no tasks. */
  predicate Init(s: World) {
    (forall w :: w in s.workers ==> s.workers[w] == Scan) && s.fibers == map[] && s.queue == []
  }

  function NextOf(s: World, step: Step, rules: Rules): Option<World> {
    if Enabled(s, step, rules) then Some(Apply(s, step, rules)) else None
  }

  function Under(rules: Rules): (World, Step) -> Option<World> {
    (s, step) => NextOf(s, step, rules)
  }

  /** Each step is taken by one worker or outside thread. */
  ghost predicate Reaches(init: World, steps: seq<Step>, rules: Rules, s: World) {
    Leads(Under(rules), init, steps, s)
  }

  lemma ReachableInv(init: World, steps: seq<Step>, s: World)
    requires Init(init) && Reaches(init, steps, CODE, s)
    ensures Inv(s)
  {
    forall m, step | Inv(m) && Under(CODE)(m, step).Some?
      ensures Inv(Under(CODE)(m, step).value)
    {
      InvPreserved(m, step);
    }
    Invariant(Under(CODE), Inv, init, steps, s);
  }

  /** In every interleaving a fiber's stack is executed by one worker at most, and by that
      worker only if it holds the fiber's mutex and resumed it last. */
  lemma NeverLiveTwice(init: World, steps: seq<Step>, s: World, f: FiberId, v: Worker, w: Worker)
    requires Init(init) && Reaches(init, steps, CODE, s)
    requires f in s.fibers && v in s.fibers[f].live && w in s.fibers[f].live
    ensures v == w && s.fibers[f].owner == Some(w) && s.fibers[f].resumer == Some(w)
  {
    ReachableInv(init, steps, s);
    assert FiberOk(s, f);
    match s.fibers[f].owner {
      case None =>
      case Some(u) => assert WorkerOk(s, u);
    }
  }

  /** The READY assertion of resume never fails. */
  lemma ResumeFindsReady(init: World, steps: seq<Step>, s: World, w: Worker)
    requires Init(init) && Reaches(init, steps, CODE, s) && Enabled(s, Resume(w), CODE)
    ensures s.fibers[s.workers[w].f].state == Ready
  {
    ReachableInv(init, steps, s);
    assert WorkerOk(s, w);
  }

  /** A fiber queued again before its yield was complete is entered only when its context has
      been saved and no worker is on its stack any more. */
  lemma EntersSavedContext(init: World, steps: seq<Step>, s: World, w: Worker)
    requires Init(init) && Reaches(init, steps, CODE, s) && Enabled(s, SwapIn(w), CODE)
    ensures s.fibers[s.workers[w].f].saved && s.fibers[s.workers[w].f].live == {}
  {
    ReachableInv(init, steps, s);
    assert WorkerOk(s, w);
  }

  /** yield leaves the fiber on the worker that last resumed it, and nowhere else. */
  lemma YieldsToResumer(init: World, steps: seq<Step>, s: World, w: Worker)
    requires Init(init) && Reaches(init, steps, CODE, s) && Enabled(s, SwapOut(w), CODE)
    ensures s.fibers[s.workers[w].f].resumer == Some(w)
    ensures Apply(s, SwapOut(w), CODE).fibers[s.workers[w].f].live == {}
  {
    ReachableInv(init, steps, s);
    assert WorkerOk(s, w);
  }

  // ---- reused fibers ------------------------------------------------------------------

  /** A callback that has not begun has a context that begins it, and nobody is on the stack. */
  predicate EntryOk(x: Fiber) {
    x.due ==> x.entry && x.live == {}
  }

  ghost predicate EntryInv(s: World) {
    forall f :: f in s.fibers ==> EntryOk(s.fibers[f])
  }

  lemma SameApply(s: World, step: Step)
    requires Enabled(s, step, CAREFUL)
    ensures Enabled(s, step, CODE) && Apply(s, step, CODE) == Apply(s, step, CAREFUL)
  {
  }

  lemma EntryPreserved(s: World, step: Step)
    requires Inv(s) && EntryInv(s) && Enabled(s, step, CAREFUL)
    ensures EntryInv(Apply(s, step, CAREFUL))
  {
    if step.SwapOut? {
      assert WorkerOk(s, step.w);
    }
  }

  /** If fibers are reset only when nobody executes them, a callback begins at its entry: resume
      never continues an ended run of a reused fiber. */
  lemma BeginsAtEntry(init: World, steps: seq<Step>, s: World, w: Worker)
    requires Init(init) && Reaches(init, steps, CAREFUL, s) && Enabled(s, SwapIn(w), CAREFUL)
    ensures s.fibers[s.workers[w].f].due ==> s.fibers[s.workers[w].f].entry
  {
    var inv := (x: World) => Inv(x) && EntryInv(x);
    forall m, step | inv(m) && Under(CAREFUL)(m, step).Some?
      ensures inv(Under(CAREFUL)(m, step).value)
    {
      SameApply(m, step);
      InvPreserved(m, step);
      EntryPreserved(m, step);
    }
    Invariant(Under(CAREFUL), inv, init, steps, s);
    assert EntryOk(s.fibers[s.workers[w].f]);
  }

  /** reset of a fiber in state TERM leaves it fit to begin its new callback exactly when nobody is on
      its stack any more; TERM is set before the fiber is left. */
  lemma ResetKeepsEntryIff(s: World, f: FiberId)
    requires Inv(s) && EntryInv(s) && Enabled(s, Reset(f), CODE)
    ensures EntryInv(Apply(s, Reset(f), CODE)) <==> s.fibers[f].live == {}
  {
    var u := Apply(s, Reset(f), CODE);
    assert EntryOk(u.fibers[f]) <==> s.fibers[f].live == {};
  }

  /** What an earlier reset loses, whatever the state: leaving the fiber stores the ended run over the
      new context, and the fiber is READY with its new callback due and no way to begin it. */
  lemma EarlyResetLosesContext(s: World, f: FiberId, w: Worker)
    requires Inv(s) && Enabled(s, Reset(f), CODE) && w in s.fibers[f].live
    ensures var r := Apply(s, Reset(f), CODE);
      && Enabled(r, SwapOut(w), CODE)
      && var x := Apply(r, SwapOut(w), CODE).fibers[f];
      && x.state == Ready && x.saved && x.due && !x.entry
  {
    assert FiberOk(s, f);
    assert WorkerOk(s, s.fibers[f].owner.value);
  }

  // ---- runs that go wrong -------------------------------------------------------------

  ghost predicate Reached(rules: Rules, init: World, s: World) {
    Init(init) && Reachable(Under(rules), init, s)
  }

  lemma Do(rules: Rules, init: World, s: World, step: Step) returns (u: World)
    requires Reached(rules, init, s) && Enabled(s, step, rules)
    ensures Reached(rules, init, u) && u == Apply(s, step, rules)
  {
    u := Reach(Under(rules), init, s, step);
  }

  const AGAIN := Task(OfFiber(0), -1)

  lemma OneTask(w: Worker)
    ensures FirstEligible([AGAIN], w) == 0 && Without([AGAIN], 0) == [] && Push([], AGAIN) == [AGAIN]
  {
  }

  function Two(): World {
    World(map[1 := Scan, 2 := Scan], map[], [])
  }

  /** Nobody has queued the fiber; the workers stand at one and two. */
  predicate Stands(s: World, one: Phase, two: Phase) {
    s.workers == map[1 := one, 2 := two] && s.queue == [] && 0 in s.fibers && 9 !in s.fibers
  }

  /** Worker w takes fiber 0 as soon as it is queued. */
  lemma Takes(rules: Rules, s: World, one: Phase, two: Phase, w: Worker) returns (u: World)
    requires Reached(rules, Two(), s) && Stands(s, one, two) && (w == 1 || w == 2) && s.workers[w] == Scan
    requires !Unpublished(s, 0)
    ensures Reached(rules, Two(), u) && u.fibers == s.fibers && u.queue == []
    ensures u.workers == s.workers[w := Picked(0, false)]
  {
    OneTask(w);
    var q := Do(rules, Two(), s, Step.Submit(AGAIN));
    u := Do(rules, Two(), q, Step.Take(w, 9));
  }

  /** Worker 1 takes a fresh fiber from the queue and enters it. */
  lemma FirstEnters(rules: Rules) returns (u: World)
    ensures Reached(rules, Two(), u) && Stands(u, Inside(0), Scan)
    ensures u.fibers[0] == Fiber(Running, false, {1}, Some(1), Some(1), false, false)
  {
    Start(Under(rules), Two());
    var s1 := Do(rules, Two(), Two(), Create(0));
    var s2 := Takes(rules, s1, Scan, Scan, 1);
    u := Enters(rules, s2, 1);
  }

  lemma Enters(rules: Rules, s: World, w: Worker) returns (u: World)
    requires Reached(rules, Two(), s) && w in s.workers && s.workers[w] == Picked(0, false) && 0 in s.fibers
    requires s.fibers[0].state == Ready && (rules.mutex ==> s.fibers[0].owner == None)
    ensures Reached(rules, Two(), u)
    ensures u == Move(s, w, Inside(0), 0, Fiber(Running, false, s.fibers[0].live + {w}, Some(w), Some(w), false, false))
  {
    var s1 := Do(rules, Two(), s, Lock(w));
    var s2 := Do(rules, Two(), s1, Resume(w));
    u := Do(rules, Two(), s2, SwapIn(w));
  }

  /** Without the mutex the protocol breaks: a fiber that queues itself and then yields is
      entered by a second worker while the first is still on its stack. */
  lemma MutexIsNeeded() returns (u: World)
    ensures Reached(NO_MUTEX, Two(), u) && 0 in u.fibers && u.fibers[0].live == {1, 2}
  {
    var s1 := FirstEnters(NO_MUTEX);
    var s2 := Takes(NO_MUTEX, s1, Inside(0), Scan, 2);
    var s3 := Do(NO_MUTEX, Two(), s2, StartYield(1));
    u := Enters(NO_MUTEX, s3, 2);
  }

  /** The fiber ends, another thread sees TERM and resets it, and only then is it left: leaving it
      stores the ended run over the new context. */
  lemma ResetTooSoon() returns (u: World)
    ensures Reached(CODE, Two(), u) && Stands(u, Back(0), Scan)
    ensures u.fibers[0] == Fiber(Ready, true, {}, Some(1), Some(1), true, false)
  {
    var s1 := FirstEnters(CODE);
    var s2 := Do(CODE, Two(), s1, Finish(1));
    var s3 := Do(CODE, Two(), s2, Reset(0));
    u := Do(CODE, Two(), s3, SwapOut(1));
  }

  /** Queued again, the reused fiber is entered in the middle of the ended run: its new callback is
      still due, but the context is not the one that begins it. */
  lemma ResetIsLost() returns (u: World, w: Worker)
    ensures Reached(CODE, Two(), u) && Enabled(u, SwapIn(w), CODE)
    ensures u.fibers[u.workers[w].f].due && !u.fibers[u.workers[w].f].entry
  {
    w := 2;
    var s1 := ResetTooSoon();
    var s2 := Do(CODE, Two(), s1, Unlock(1));
    var s3 := Takes(CODE, s2, Unlocked, Scan, 2);
    var s4 := Do(CODE, Two(), s3, Lock(2));
    u := Do(CODE, Two(), s4, Resume(2));
  }

  /** Every callback begins at its entry, in every run. */
  ghost predicate AllBeginAtEntry(rules: Rules) {
    forall init, steps, s, w ::
      Init(init) && Reaches(init, steps, rules, s) && Enabled(s, SwapIn(w), rules) ==>
        s.fibers[s.workers[w].f].due ==> s.fibers[s.workers[w].f].entry
  }

  /** Callbacks of reused fibers begin at their entry in every run exactly if fibers are reset only when
      nobody executes them. */
  lemma BeginsAtEntryIff(careful: bool)
    ensures AllBeginAtEntry(Rules(true, careful)) <==> careful
  {
    if careful {
      forall init, steps, s, w | Init(init) && Reaches(init, steps, CAREFUL, s) && Enabled(s, SwapIn(w), CAREFUL)
        ensures s.fibers[s.workers[w].f].due ==> s.fibers[s.workers[w].f].entry
      {
        BeginsAtEntry(init, steps, s, w);
      }
    } else {
      var u, w := ResetIsLost();
      var steps :| Leads(Under(CODE), Two(), steps, u);
      assert Reaches(Two(), steps, CODE, u);
    }
  }
}
