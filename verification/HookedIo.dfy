/**
 do_io (dag/hook.cpp): try the system call, and if it would block arm a timer, register for the
 event and yield; when woken either give up with ETIMEDOUT or try again.  All calls are on one fd
 and event, by any number of fibers, and a call may still have timer callbacks in flight when it
 tries again or has returned.  The timer set keeps one timer per deadline, so that a timer can be
 dropped, or erased when another one with its deadline is cancelled (dag/timer.cpp).  Every
 lock-protected operation and every access to the shared timer_info is one step.
 */
module HookedIo {
  import opened Runs

  type CallId = nat
  type TimerId = nat

  datatype Outcome = Value | TimedOut | Failed

  datatype Phase =
    | Trying                  // about to make the system call
    | Armed                   // timer added, event not yet
    | Waiting                 // registered and yielded
    | Resumed                 // running again, own timer not yet cancelled
    | Checking                // about to look at tinfo->cancelled
    | Done(outcome: Outcome)

  datatype Call = Call(phase: Phase, timed: bool, cancelled: bool, timer: Option<TimerId>)

  datatype Stage =
    | Pending                 // in the timer set
    | Out                     // not in the set: its deadline was taken, or it was erased for another
    | Taken                   // callback scheduled by an expiry
    | Testing                 // callback holds the timer_info
    | Marking                 // cancelled was not set
    | Cancelling              // cancelled is set, cancelEvent still to come
    | Over

  /** early is a record of the past: the timer fired before its call returned. */
  datatype Timer = Timer(owner: CallId, key: nat, stage: Stage, early: bool, marked: bool)

  /** registered: the call whose fiber waits for the event; woken: calls put in the run queue. */
  datatype World = World(
    calls: map<CallId, Call>, timers: map<TimerId, Timer>, registered: Option<CallId>, woken: set<CallId>)

  datatype Step =
    | Begin(c: CallId, timed: bool)
    | Finish(c: CallId)                  // the system call does not block
    | Arm(c: CallId, t: TimerId, key: nat, taken: bool)  // taken: by a timer of somebody else
    | Register(c: CallId)
    | RegisterFails(c: CallId)
    | Ready                              // the event happens, or somebody else cancels it
    | Resume(c: CallId)
    | CancelTimer(c: CallId)
    | Check(c: CallId)
    | Evict(t: TimerId)                  // somebody else cancels a timer with this deadline
    | Fire(t: TimerId)
    | Lock(t: TimerId)
    | Test(t: TimerId)
    | Mark(t: TimerId)
    | CancelEvent(t: TimerId, ok: bool)  // ok: what epoll_ctl answers

  predicate Phased(s: World, c: CallId, p: Phase) {
    c in s.calls && s.calls[c].phase == p
  }

  predicate Staged(s: World, t: TimerId, g: Stage) {
    t in s.timers && s.timers[t].stage == g && s.timers[t].owner in s.calls
  }

  predicate Enabled(s: World, step: Step) {
    match step
    case Begin(c, _) => c !in s.calls
    case Finish(c) => Phased(s, c, Trying)
    case Arm(c, t, _, _) => Phased(s, c, Trying) && t !in s.timers
    case Register(c) => Phased(s, c, Armed) && s.registered == None
    case RegisterFails(c) => Phased(s, c, Armed) && s.registered == None
    case Ready => s.registered != None
    case Resume(c) => Phased(s, c, Waiting) && c in s.woken
    case CancelTimer(c) => Phased(s, c, Resumed)
    case Check(c) => Phased(s, c, Checking)
    case Evict(t) => Staged(s, t, Pending)
    case Fire(t) => Staged(s, t, Pending)
    case Lock(t) => Staged(s, t, Taken)
    case Test(t) => Staged(s, t, Testing)
    case Mark(t) => Staged(s, t, Marking)
    case CancelEvent(t, _) => Staged(s, t, Cancelling)
  }

  predicate InProgress(s: World, c: CallId) {
    c in s.calls && !s.calls[c].phase.Done?
  }

  function SetPhase(s: World, c: CallId, p: Phase): World
    requires c in s.calls
  {
    s.(calls := s.calls[c := s.calls[c].(phase := p)])
  }

  function SetStage(s: World, t: TimerId, g: Stage): World
    requires t in s.timers
  {
    s.(timers := s.timers[t := s.timers[t].(stage := g)])
  }

  /** The deadline is taken by another timer of these calls. */
  predicate KeyHeld(s: World, key: nat) {
    exists t :: t in s.timers && s.timers[t].stage == Pending && s.timers[t].key == key
  }

  /** Whoever holds the deadline is erased from the set. */
  function EraseHolder(timers: map<TimerId, Timer>, key: nat): map<TimerId, Timer> {
    map t | t in timers ::
      if timers[t].stage == Pending && timers[t].key == key then timers[t].(stage := Out) else timers[t]
  }

  /** timer->cancel(): a callback that was already taken still runs; a timer that is not in the set
      takes the holder of its deadline out. */
  function DropTimer(s: World, c: CallId): World
    requires c in s.calls
  {
    match s.calls[c].timer
    case None => s
    case Some(t) =>
      if t !in s.timers then s
      else if s.timers[t].stage == Pending then SetStage(s, t, Over)
      else if s.timers[t].stage == Out then
        s.(timers := EraseHolder(s.timers, s.timers[t].key)[t := s.timers[t].(stage := Over)])
      else s
  }

  /** The registered fiber goes to the run queue. */
  function Trigger(s: World): World {
    match s.registered
    case None => s
    case Some(c) => s.(registered := None, woken := s.woken + {c})
  }

  function Apply(s: World, step: Step): World
    requires Enabled(s, step)
  {
    match step
    case Begin(c, timed) => s.(calls := s.calls[c := Call(Trying, timed, false, None)])
    case Finish(c) => SetPhase(s, c, Done(Value))
    case Arm(c, t, key, taken) =>
      if s.calls[c].timed then
        s.(calls := s.calls[c := s.calls[c].(phase := Armed, timer := Some(t))],
           timers := s.timers[t := Timer(c, key, if taken || KeyHeld(s, key) then Out else Pending, false, false)])
      else SetPhase(s, c, Armed)
    case Register(c) => SetPhase(s, c, Waiting).(registered := Some(c))
    case RegisterFails(c) => SetPhase(DropTimer(s, c), c, Done(Failed))
    case Ready => Trigger(s)
    case Resume(c) => SetPhase(s, c, Resumed).(woken := s.woken - {c})
    case CancelTimer(c) => SetPhase(DropTimer(s, c), c, Checking)
    case Check(c) => SetPhase(s, c, if s.calls[c].cancelled then Done(TimedOut) else Trying)
    case Evict(t) => SetStage(s, t, Out)
    case Fire(t) =>
      s.(timers := s.timers[t := s.timers[t].(stage := Taken, early := InProgress(s, s.timers[t].owner))])
    case Lock(t) => SetStage(s, t, if InProgress(s, s.timers[t].owner) then Testing else Over)
    case Test(t) => SetStage(s, t, if s.calls[s.timers[t].owner].cancelled then Over else Marking)
    case Mark(t) =>
      var c := s.timers[t].owner;
      s.(timers := s.timers[t := s.timers[t].(stage := Cancelling, marked := true)],
         calls := s.calls[c := s.calls[c].(cancelled := true)])
    case CancelEvent(t, ok) => if ok then Trigger(SetStage(s, t, Over)) else SetStage(s, t, Over)
  }

  function Next(s: World, step: Step): Option<World> {
    if Enabled(s, step) then Some(Apply(s, step)) else None
  }

  function Start(): World {
    World(map[], map[], None, {})
  }

  // ---- the invariant ------------------------------------------------------------------

  /** A timer of the call fired while the call was in progress, and told it so. */
  predicate Witness(s: World, c: CallId, t: TimerId) {
    t in s.timers && s.timers[t].owner == c && s.timers[t].marked && s.timers[t].early
  }

  /** Whoever gives up, or is about to, has a witness. */
  ghost predicate Justified(s: World, c: CallId)
    requires c in s.calls
  {
    s.calls[c].phase == Done(TimedOut) || (s.calls[c].cancelled && !s.calls[c].phase.Done?) ==>
      exists t :: Witness(s, c, t)
  }

  /** A waiting call is either registered or in the run queue. */
  predicate Linked(s: World, c: CallId)
    requires c in s.calls
  {
    var call := s.calls[c];
    && (s.registered == Some(c) ==> call.phase == Waiting)
    && (c in s.woken ==> call.phase == Waiting && s.registered != Some(c))
    && (call.phase == Waiting ==> s.registered == Some(c) || c in s.woken)
    && (call.timed && call.phase in {Armed, Waiting, Resumed} ==> call.timer.Some?)
    && (!call.timed ==> call.timer == None)
    && (call.timer.Some? ==> call.timer.value in s.timers && s.timers[call.timer.value].owner == c)
  }

  ghost predicate TimerOk(s: World, t: TimerId)
    requires t in s.timers
  {
    var timer := s.timers[t];
    && timer.owner in s.calls
    && var call := s.calls[timer.owner];
    && (timer.marked ==> call.cancelled)
    && (timer.stage in {Pending, Out, Taken, Testing, Marking} ==> !timer.marked)
    && (timer.stage == Cancelling ==> timer.marked)
    && (timer.stage in {Pending, Out} ==> call.phase in {Armed, Waiting, Resumed} && call.timer == Some(t))
    && (timer.stage in {Taken, Testing, Marking, Cancelling} && !call.phase.Done? ==> timer.early)
    && (timer.stage == Over && call.timer == Some(t) && call.phase in {Armed, Waiting} ==> call.cancelled)
  }

  ghost predicate Inv(s: World) {
    && (forall c :: c in s.calls ==> Linked(s, c))
    && (forall c :: c in s.calls ==> Justified(s, c))
    && (forall t :: t in s.timers ==> TimerOk(s, t))
    && (s.registered.Some? ==> s.registered.value in s.calls)
    && (forall c :: c in s.woken ==> c in s.calls)
  }

  // ---- every step keeps it ------------------------------------------------------------

  /** What cancelling somebody's timer can do to a timer. */
  predicate Weakened(x: Timer, y: Timer) {
    && y == x.(stage := y.stage)
    && (y.stage == x.stage || (x.stage == Pending && y.stage == Out) || (x.stage in {Pending, Out} && y.stage == Over))
  }

  /** Only the call's own timer is over; somebody else's can at most be erased. */
  lemma DropFacts(s: World, c: CallId)
    requires c in s.calls
    ensures var u := DropTimer(s, c);
      && u == s.(timers := u.timers) && u.timers.Keys == s.timers.Keys
      && (forall t :: t in s.timers ==> Weakened(s.timers[t], u.timers[t]))
      && (forall t :: t in s.timers && s.calls[c].timer != Some(t) && u.timers[t].stage == Over ==>
            s.timers[t].stage == Over)
      && (s.calls[c].timer.Some? && s.calls[c].timer.value in s.timers ==>
            u.timers[s.calls[c].timer.value].stage !in {Pending, Out})
      && (forall t :: t in s.timers && u.timers[t] != s.timers[t] ==> s.calls[c].timer == Some(t) || Erases(s, c, t))
  {
  }

  /** Cancelling the call's timer, which is not in the set, erases t, which has its deadline. */
  predicate Erases(s: World, c: CallId, t: TimerId) {
    && c in s.calls && s.calls[c].timer.Some? && s.calls[c].timer.value in s.timers && t in s.timers
    && s.timers[s.calls[c].timer.value].stage == Out && s.timers[t].stage == Pending
    && s.timers[t].key == s.timers[s.calls[c].timer.value].key
  }

  /** Steps that are neither of a call nor cancel a timer. */
  predicate OfTimer(step: Step) {
    step.Fire? || step.Lock? || step.Test? || step.Mark? || step.CancelEvent? || step.Ready? || step.Evict?
  }

  predicate Drops(step: Step) {
    step.CancelTimer? || step.RegisterFails?
  }

  lemma LinkedByTimer(s: World, step: Step, c: CallId)
    requires Inv(s) && Enabled(s, step) && c in Apply(s, step).calls && OfTimer(step)
    ensures Linked(Apply(s, step), c)
  {
    assert Linked(s, c);
  }

  lemma LinkedByCall(s: World, step: Step, c: CallId)
    requires Inv(s) && Enabled(s, step) && c in Apply(s, step).calls && !OfTimer(step) && !Drops(step)
    ensures Linked(Apply(s, step), c)
  {
    assert c in s.calls ==> Linked(s, c);
  }

  lemma LinkedByDrop(s: World, step: Step, c: CallId)
    requires Inv(s) && Enabled(s, step) && c in Apply(s, step).calls && Drops(step)
    ensures Linked(Apply(s, step), c)
  {
    DropFacts(s, step.c);
    assert Linked(s, c);
  }

  lemma TimerByTimer(s: World, step: Step, t: TimerId)
    requires Inv(s) && Enabled(s, step) && t in Apply(s, step).timers && OfTimer(step)
    ensures TimerOk(Apply(s, step), t)
  {
    assert TimerOk(s, t);
  }

  lemma TimerByCall(s: World, step: Step, t: TimerId)
    requires Inv(s) && Enabled(s, step) && t in Apply(s, step).timers && !OfTimer(step) && !Drops(step)
    ensures TimerOk(Apply(s, step), t)
  {
    assert t in s.timers ==> TimerOk(s, t) && Linked(s, s.timers[t].owner);
  }

  lemma TimerByDrop(s: World, step: Step, t: TimerId)
    requires Inv(s) && Enabled(s, step) && t in Apply(s, step).timers && Drops(step)
    ensures TimerOk(Apply(s, step), t)
  {
    DropFacts(s, step.c);
    assert TimerOk(s, t) && Linked(s, s.timers[t].owner) && Linked(s, step.c);
  }

  /** The past does not change. */
  lemma WitnessKeeps(s: World, step: Step, c: CallId, t: TimerId)
    requires Inv(s) && Enabled(s, step) && Witness(s, c, t)
    ensures Witness(Apply(s, step), c, t)
  {
    assert TimerOk(s, t);
    if Drops(step) {
      DropFacts(s, step.c);
    }
  }

  lemma JustifiedKeeps(s: World, step: Step, c: CallId)
    requires Inv(s) && Enabled(s, step) && c in Apply(s, step).calls
    ensures Justified(Apply(s, step), c)
  {
    var u := Apply(s, step);
    if c in s.calls && exists t :: Witness(s, c, t) {
      var t :| Witness(s, c, t);
      WitnessKeeps(s, step, c, t);
    } else {
      assert c in s.calls ==> Justified(s, c);
      if Drops(step) {
        DropFacts(s, step.c);
      } else if step.Mark? && s.timers[step.t].owner == c && InProgress(s, c) {
        assert TimerOk(s, step.t);
        assert Witness(u, c, step.t);
      }
    }
  }

  lemma LinksKeep(s: World, step: Step)
    requires Inv(s) && Enabled(s, step)
    ensures var u := Apply(s, step);
      && (forall c :: c in u.calls ==> Linked(u, c)) && (forall t :: t in u.timers ==> TimerOk(u, t))
  {
    var u := Apply(s, step);
    forall c | c in u.calls
      ensures Linked(u, c)
    {
      if OfTimer(step) {
        LinkedByTimer(s, step, c);
      } else if Drops(step) {
        LinkedByDrop(s, step, c);
      } else {
        LinkedByCall(s, step, c);
      }
    }
    forall t | t in u.timers
      ensures TimerOk(u, t)
    {
      if OfTimer(step) {
        TimerByTimer(s, step, t);
      } else if Drops(step) {
        TimerByDrop(s, step, t);
      } else {
        TimerByCall(s, step, t);
      }
    }
  }

  lemma NamesKeep(s: World, step: Step)
    requires Inv(s) && Enabled(s, step)
    ensures var u := Apply(s, step);
      && (u.registered.Some? ==> u.registered.value in u.calls) && (forall c :: c in u.woken ==> c in u.calls)
  {
    if Drops(step) {
      DropFacts(s, step.c);
    }
  }

  lemma StepKeepsInv(s: World, step: Step)
    requires Inv(s) && Enabled(s, step)
    ensures Inv(Apply(s, step))
  {
    LinksKeep(s, step);
    NamesKeep(s, step);
    forall c | c in Apply(s, step).calls
      ensures Justified(Apply(s, step), c)
    {
      JustifiedKeeps(s, step, c);
    }
  }

  lemma RunKeepsInv(steps: seq<Step>, u: World)
    requires Leads(Next, Start(), steps, u)
    ensures Inv(u)
  {
    forall s, step | Inv(s) && Next(s, step).Some?
      ensures Inv(Next(s, step).value)
    {
      StepKeepsInv(s, step);
    }
    Invariant(Next, Inv, Start(), steps, u);
  }

  /** A call gives up with ETIMEDOUT only if a timer that it armed itself fired before it returned. */
  lemma TimeoutIsOwn(steps: seq<Step>, u: World, c: CallId)
    requires Leads(Next, Start(), steps, u) && Phased(u, c, Done(TimedOut))
    ensures exists t :: t in u.timers && u.timers[t].owner == c && u.timers[t].early && u.timers[t].marked
  {
    RunKeepsInv(steps, u);
    assert Justified(u, c);
    var t :| Witness(u, c, t);
  }

  /** A callback left over from another call can wake the registered call, and nothing else: the
      call's own timer_info is untouched, and unless its own timer has marked it, it tries again. */
  lemma StaleCallbackRetries(s: World, t: TimerId, c: CallId)
    requires Inv(s) && Enabled(s, CancelEvent(t, true)) && s.registered == Some(c) && s.timers[t].owner != c
    ensures var u := Apply(s, CancelEvent(t, true));
      && u.calls == s.calls && c in u.woken && u.registered == None
      && Enabled(u, Resume(c))
      && var v := Apply(u, Resume(c));
      && Enabled(v, CancelTimer(c))
      && var w := Apply(v, CancelTimer(c));
      && Enabled(w, Check(c))
      && Apply(w, Check(c)).calls[c].phase == if s.calls[c].cancelled then Done(TimedOut) else Trying
  {
    var u := Apply(s, CancelEvent(t, true));
    assert Linked(s, c);
    DropFacts(Apply(u, Resume(c)), c);
  }

  /** A call that has returned leaves no timer in the set, no registration and no wake-up. */
  lemma NothingLeftOver(steps: seq<Step>, u: World, c: CallId)
    requires Leads(Next, Start(), steps, u) && c in u.calls && u.calls[c].phase.Done?
    ensures u.registered != Some(c) && c !in u.woken
    ensures forall t :: t in u.timers && u.timers[t].owner == c ==> u.timers[t].stage != Pending
  {
    RunKeepsInv(steps, u);
    assert Linked(u, c);
    assert forall t :: t in u.timers ==> TimerOk(u, t);
  }
}
