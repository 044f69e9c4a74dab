/**
 What can wake a call that waits in do_io (dag/hook.cpp): when its own timers can, how it loses that
 prospect, and runs in which its timeout is lost.
 */
module HookedWaits {
  import opened Runs
  import opened HookedIo

  /** A callback of the call that is past its test and will cancel the event. */
  predicate IsClosing(s: World, c: CallId, t: TimerId) {
    t in s.timers && s.timers[t].owner == c && s.timers[t].stage in {Marking, Cancelling}
  }

  /** A timer of the call that has yet to be tested: in the set, or its callback in flight. */
  predicate IsAhead(s: World, c: CallId, t: TimerId) {
    t in s.timers && s.timers[t].owner == c && s.timers[t].stage in {Pending, Taken, Testing}
  }

  predicate Closing(s: World, c: CallId) {
    exists t :: t in s.timers && IsClosing(s, c, t)
  }

  predicate Ahead(s: World, c: CallId) {
    exists t :: t in s.timers && IsAhead(s, c, t)
  }

  /** The condition under which a timer of its own can wake the call. */
  predicate WillWake(s: World, c: CallId)
    requires c in s.calls
  {
    Closing(s, c) || (!s.calls[c].cancelled && Ahead(s, c))
  }

  /** The steps of the call's own timers, with cancelEvent accepted. */
  function NextOwn(s: World, step: Step, c: CallId): Option<World> {
    if Enabled(s, step)
       && (step.Fire? || step.Lock? || step.Test? || step.Mark? || (step.CancelEvent? && step.ok))
       && s.timers[step.t].owner == c
    then Some(Apply(s, step)) else None
  }

  function Own(c: CallId): (World, Step) -> Option<World> {
    (s, step) => NextOwn(s, step, c)
  }

  /** All steps but the event itself and the callbacks of other calls' timers. */
  function NextQuiet(s: World, step: Step, c: CallId): Option<World> {
    if Enabled(s, step) && !step.Ready? && (step.CancelEvent? ==> s.timers[step.t].owner == c)
    then Some(Apply(s, step)) else None
  }

  function Quiet(c: CallId): (World, Step) -> Option<World> {
    (s, step) => NextQuiet(s, step, c)
  }

  ghost predicate OwnReached(s: World, c: CallId, u: World) {
    Reachable(Own(c), s, u)
  }

  lemma OwnStep(s: World, c: CallId, m: World, step: Step) returns (u: World)
    requires OwnReached(s, c, m) && NextOwn(m, step, c).Some?
    ensures OwnReached(s, c, u) && u == Apply(m, step)
  {
    u := Reach(Own(c), s, m, step);
  }

  /** A closing callback ends in a wake-up. */
  lemma ClosingWakes(s: World, c: CallId, m: World, t: TimerId) returns (u: World)
    requires OwnReached(s, c, m) && c in m.calls && m.registered == Some(c) && IsClosing(m, c, t)
    ensures OwnReached(s, c, u) && c in u.woken
  {
    var n := m;
    if m.timers[t].stage == Marking {
      n := OwnStep(s, c, m, Mark(t));
    }
    u := OwnStep(s, c, n, CancelEvent(t, true));
  }

  /** A timer that is ahead gets past its test, if nobody has marked the call. */
  lemma AheadCloses(s: World, c: CallId, t: TimerId) returns (u: World)
    requires InProgress(s, c) && !s.calls[c].cancelled && s.registered == Some(c) && IsAhead(s, c, t)
    ensures OwnReached(s, c, u) && c in u.calls && u.registered == Some(c) && IsClosing(u, c, t)
  {
    Runs.Start(Own(c), s);
    var a := s;
    if s.timers[t].stage == Pending {
      a := OwnStep(s, c, s, Fire(t));
    }
    var b := a;
    if a.timers[t].stage == Taken {
      b := OwnStep(s, c, a, Lock(t));
    }
    u := OwnStep(s, c, b, Test(t));
  }

  lemma WillWakeWakes(s: World, c: CallId) returns (u: World)
    requires Inv(s) && c in s.calls && s.registered == Some(c) && WillWake(s, c)
    ensures OwnReached(s, c, u) && c in u.woken
  {
    assert Linked(s, c);
    Runs.Start(Own(c), s);
    if Closing(s, c) {
      var t :| t in s.timers && IsClosing(s, c, t);
      u := ClosingWakes(s, c, s, t);
    } else {
      var t :| t in s.timers && IsAhead(s, c, t);
      var m := AheadCloses(s, c, t);
      u := ClosingWakes(s, c, m, t);
    }
  }

  /** Registered, with no timer of its own that could wake it. */
  ghost predicate Stranded(s: World, c: CallId) {
    Inv(s) && c in s.calls && s.registered == Some(c) && !WillWake(s, c)
  }

  /** What may happen to a timer of a call that waits: nothing gets ahead again, and nothing closes
      but what was ahead of a call not marked. */
  lemma OwnTimers(s: World, step: Step, c: CallId, t: TimerId)
    requires Inv(s) && Enabled(s, step) && c in s.calls && s.registered == Some(c) && !Drops(step)
    ensures IsAhead(Apply(s, step), c, t) ==> IsAhead(s, c, t)
    ensures IsClosing(Apply(s, step), c, t) ==> IsClosing(s, c, t) || (IsAhead(s, c, t) && !s.calls[c].cancelled)
  {
    assert Linked(s, c);
  }

  lemma OwnTimersDrop(s: World, step: Step, c: CallId, t: TimerId)
    requires Inv(s) && Enabled(s, step) && c in s.calls && s.registered == Some(c) && Drops(step)
    ensures IsAhead(Apply(s, step), c, t) ==> IsAhead(s, c, t)
    ensures IsClosing(Apply(s, step), c, t) ==> IsClosing(s, c, t)
  {
    DropFacts(s, step.c);
  }

  lemma CallStays(s: World, step: Step, c: CallId)
    requires Inv(s) && c in s.calls && s.registered == Some(c) && Enabled(s, step)
    ensures c in Apply(s, step).calls && (s.calls[c].cancelled ==> Apply(s, step).calls[c].cancelled)
    ensures !step.Ready? && !step.CancelEvent? ==> Apply(s, step).registered == Some(c)
  {
    assert Linked(s, c);
    if Drops(step) {
      DropFacts(s, step.c);
    }
  }

  /** While a call is registered, no step gives it a prospect it did not have. */
  lemma NeverGained(s: World, step: Step, c: CallId)
    requires Inv(s) && c in s.calls && s.registered == Some(c) && Enabled(s, step)
    ensures c in Apply(s, step).calls && (WillWake(Apply(s, step), c) ==> WillWake(s, c))
  {
    var u := Apply(s, step);
    CallStays(s, step, c);
    forall t | t in u.timers && (IsClosing(u, c, t) || IsAhead(u, c, t))
      ensures IsAhead(u, c, t) ==> IsAhead(s, c, t)
      ensures IsClosing(u, c, t) ==> IsClosing(s, c, t) || (IsAhead(s, c, t) && !s.calls[c].cancelled)
    {
      if Drops(step) {
        OwnTimersDrop(s, step, c, t);
      } else {
        OwnTimers(s, step, c, t);
      }
    }
  }

  lemma StrandedStays(s: World, step: Step, c: CallId)
    requires Stranded(s, c) && NextQuiet(s, step, c).Some?
    ensures Stranded(Apply(s, step), c)
  {
    StepKeepsInv(s, step);
    NeverGained(s, step, c);
    CallStays(s, step, c);
    if step.CancelEvent? {
      assert IsClosing(s, c, step.t);
    }
  }

  /** Nothing but the event, or a callback of another call, wakes a stranded call. */
  lemma StrandedForever(s: World, c: CallId, steps: seq<Step>, u: World)
    requires Stranded(s, c) && Leads(Quiet(c), s, steps, u)
    ensures Stranded(u, c) && c !in u.woken
  {
    var inv := (x: World) => Stranded(x, c);
    forall m, step | inv(m) && Quiet(c)(m, step).Some?
      ensures inv(Quiet(c)(m, step).value)
    {
      StrandedStays(m, step, c);
    }
    Invariant(Quiet(c), inv, s, steps, u);
    assert Linked(u, c);
  }

  /** In every reachable state: the timers of a registered call can wake it exactly if WillWake holds;
      otherwise no run without the event and without other calls' callbacks wakes it. */
  lemma WakesIff(before: seq<Step>, s: World, c: CallId)
    requires Leads(Next, HookedIo.Start(), before, s) && c in s.calls && s.registered == Some(c)
    ensures WillWake(s, c) <==> exists steps, u :: Leads(Own(c), s, steps, u) && c in u.woken
    ensures WillWake(s, c) <==> exists steps, u :: Leads(Quiet(c), s, steps, u) && c in u.woken
  {
    RunKeepsInv(before, s);
    if WillWake(s, c) {
      var u := WillWakeWakes(s, c);
      var steps :| Leads(Own(c), s, steps, u);
      Widen(Own(c), Quiet(c), s, steps, u);
    } else {
      forall steps, u | Leads(Quiet(c), s, steps, u)
        ensures c !in u.woken
      {
        StrandedForever(s, c, steps, u);
      }
      forall steps, u | Leads(Own(c), s, steps, u)
        ensures c !in u.woken
      {
        Widen(Own(c), Quiet(c), s, steps, u);
        StrandedForever(s, c, steps, u);
      }
    }
  }

  lemma RegisterSame(s: World, c: CallId)
    requires Enabled(s, Register(c))
    ensures WillWake(Apply(s, Register(c)), c) <==> WillWake(s, c)
  {
    var u := Apply(s, Register(c));
    assert forall t :: IsClosing(u, c, t) <==> IsClosing(s, c, t);
    assert forall t :: IsAhead(u, c, t) <==> IsAhead(s, c, t);
  }

  /** When a call with a timeout registers, its timers can wake it exactly if a callback that is past
      its test has still to cancel the event, or nobody has marked the call and its timer is not out
      of the set, or an earlier one is still in flight. */
  lemma AtRegistration(before: seq<Step>, s: World, c: CallId)
    requires Leads(Next, HookedIo.Start(), before, s) && Enabled(s, Register(c)) && s.calls[c].timed
    ensures s.calls[c].timer.Some? && s.calls[c].timer.value in s.timers
    ensures WillWake(Apply(s, Register(c)), c) <==>
      || Closing(s, c)
      || (!s.calls[c].cancelled && (s.timers[s.calls[c].timer.value].stage != Out || Ahead(s, c)))
  {
    RunKeepsInv(before, s);
    assert Linked(s, c);
    var own := s.calls[c].timer.value;
    assert TimerOk(s, own);
    RegisterSame(s, c);
    assert s.timers[own].stage == Marking ==> IsClosing(s, c, own);
    assert s.timers[own].stage in {Pending, Taken, Testing} ==> IsAhead(s, c, own);
  }

  /** How a registered call can lose its prospect: somebody erases its timer from the set, by
      cancelling another timer with that deadline, or epoll_ctl refuses the callback's cancelEvent. */
  predicate Hits(s: World, step: Step, c: CallId) {
    || (step.Evict? && step.t in s.timers && s.timers[step.t].owner == c)
    || (Drops(step) && exists t :: t in s.timers && s.timers[t].owner == c && Erases(s, step.c, t))
    || (step.CancelEvent? && !step.ok && step.t in s.timers && s.timers[step.t].owner == c)
  }

  lemma ProspectAt(s: World, step: Step, c: CallId, t: TimerId)
    requires Inv(s) && Enabled(s, step) && c in s.calls && s.registered == Some(c) && !Hits(s, step, c)
    requires Apply(s, step).registered == Some(c) && OfTimer(step)
    ensures IsClosing(s, c, t) ==> IsClosing(Apply(s, step), c, t)
    ensures IsAhead(s, c, t) && !s.calls[c].cancelled ==>
      IsAhead(Apply(s, step), c, t) || IsClosing(Apply(s, step), c, t)
  {
    assert Linked(s, c);
  }

  lemma ProspectCall(s: World, step: Step, c: CallId, t: TimerId)
    requires Enabled(s, step) && !Drops(step) && !OfTimer(step)
    ensures IsClosing(s, c, t) ==> IsClosing(Apply(s, step), c, t)
    ensures IsAhead(s, c, t) ==> IsAhead(Apply(s, step), c, t)
  {
  }

  lemma ProspectDrop(s: World, step: Step, c: CallId, t: TimerId)
    requires Inv(s) && Enabled(s, step) && c in s.calls && s.registered == Some(c) && !Hits(s, step, c) && Drops(step)
    ensures IsClosing(s, c, t) ==> IsClosing(Apply(s, step), c, t)
    ensures IsAhead(s, c, t) ==> IsAhead(Apply(s, step), c, t)
  {
    DropFacts(s, step.c);
    assert Linked(s, c) && Linked(s, step.c);
  }

  lemma ProspectOf(s: World, step: Step, c: CallId, t: TimerId)
    requires Inv(s) && Enabled(s, step) && c in s.calls && s.registered == Some(c) && !Hits(s, step, c)
    requires Apply(s, step).registered == Some(c)
    ensures IsClosing(s, c, t) ==> IsClosing(Apply(s, step), c, t)
    ensures IsAhead(s, c, t) && !s.calls[c].cancelled ==>
      IsAhead(Apply(s, step), c, t) || IsClosing(Apply(s, step), c, t)
  {
    if Drops(step) {
      ProspectDrop(s, step, c, t);
    } else if OfTimer(step) {
      ProspectAt(s, step, c, t);
    } else {
      ProspectCall(s, step, c, t);
    }
  }

  /** While a call is registered its prospect changes only by a hit, and then only to the worse. */
  lemma ProspectStays(before: seq<Step>, s: World, step: Step, c: CallId)
    requires Leads(Next, HookedIo.Start(), before, s) && c in s.calls && s.registered == Some(c)
    requires Enabled(s, step) && Apply(s, step).registered == Some(c)
    ensures c in Apply(s, step).calls && (WillWake(Apply(s, step), c) ==> WillWake(s, c))
    ensures !Hits(s, step, c) ==> (WillWake(Apply(s, step), c) <==> WillWake(s, c))
  {
    RunKeepsInv(before, s);
    NeverGained(s, step, c);
    CallStays(s, step, c);
    if !Hits(s, step, c) {
      ProspectKept(s, step, c);
    }
  }

  lemma ProspectKept(s: World, step: Step, c: CallId)
    requires Inv(s) && c in s.calls && s.registered == Some(c) && Enabled(s, step)
    requires Apply(s, step).registered == Some(c) && !Hits(s, step, c)
    ensures c in Apply(s, step).calls && (WillWake(s, c) ==> WillWake(Apply(s, step), c))
  {
    var u := Apply(s, step);
    CallStays(s, step, c);
    if step.Mark? && s.timers[step.t].owner == c {
      assert IsClosing(s, c, step.t);
    }
    if Closing(s, c) {
      var t :| t in s.timers && IsClosing(s, c, t);
      ProspectOf(s, step, c, t);
    } else if Ahead(s, c) && !s.calls[c].cancelled {
      var t :| t in s.timers && IsAhead(s, c, t);
      ProspectOf(s, step, c, t);
      assert u.calls[c].cancelled == s.calls[c].cancelled;
    }
  }

  // ---- timeouts that are lost ---------------------------------------------------------

  ghost predicate Reached(s: World) {
    Reachable(Next, HookedIo.Start(), s)
  }

  lemma Do(s: World, step: Step) returns (u: World)
    requires Reached(s) && Enabled(s, step)
    ensures Reached(u) && u == Apply(s, step)
  {
    u := Reach(Next, HookedIo.Start(), s, step);
  }

  /** A call with a timeout that waits, and that nothing wakes but the event or another call. */
  ghost predicate TimeoutLost(u: World, c: CallId) {
    && Reached(u) && Phased(u, c, Waiting) && u.calls[c].timed && u.registered == Some(c)
    && forall steps, v :: Leads(Quiet(c), u, steps, v) ==> c !in v.woken
  }

  lemma StrandedIsLost(u: World, c: CallId)
    requires Reached(u) && c in u.calls && u.registered == Some(c) && !WillWake(u, c) && u.calls[c].timed
    ensures TimeoutLost(u, c)
  {
    var before :| Leads(Next, HookedIo.Start(), before, u);
    RunKeepsInv(before, u);
    assert Linked(u, c);
    forall steps, v | Leads(Quiet(c), u, steps, v)
      ensures c !in v.woken
    {
      StrandedForever(u, c, steps, v);
    }
  }

  /** Call 0 has armed its timer 0. */
  lemma ArmedOnce() returns (u: World)
    ensures Reached(u) && u.registered == None && u.woken == {}
    ensures u.calls == map[0 := Call(Armed, true, false, Some(0))]
    ensures u.timers == map[0 := Timer(0, 5, Pending, false, false)]
  {
    Runs.Start(Next, HookedIo.Start());
    var s1 := Do(HookedIo.Start(), Begin(0, true));
    u := Do(s1, Arm(0, 0, 5, false));
  }

  lemma Marked(s: World) returns (u: World)
    requires Reached(s) && 0 in s.calls && 0 in s.timers && s.timers[0] == Timer(0, 5, Pending, false, false)
    requires !s.calls[0].cancelled && InProgress(s, 0) && s.timers.Keys == {0}
    ensures Reached(u) && u.registered == s.registered && u.timers.Keys == {0} && u.timers[0].owner == 0
    ensures u.timers[0].stage == Cancelling && 0 in u.calls && u.calls[0] == s.calls[0].(cancelled := true)
  {
    var s1 := Do(s, Fire(0));
    var s2 := Do(s1, Lock(0));
    var s3 := Do(s2, Test(0));
    u := Do(s3, Mark(0));
  }

  /** The callback runs between addConditionTimer and addEvent: there is no event to cancel yet. */
  lemma LostTooSoon() returns (u: World)
    ensures TimeoutLost(u, 0)
  {
    var s1 := ArmedOnce();
    var s2 := Marked(s1);
    var s3 := Do(s2, CancelEvent(0, true));
    u := Do(s3, Register(0));
    assert !WillWake(u, 0);
    StrandedIsLost(u, 0);
  }

  /** epoll_ctl refuses the callback's cancelEvent. */
  lemma LostRefused() returns (u: World)
    ensures TimeoutLost(u, 0)
  {
    var s1 := ArmedOnce();
    var s2 := Do(s1, Register(0));
    var s3 := Marked(s2);
    u := Do(s3, CancelEvent(0, false));
    assert !WillWake(u, 0);
    StrandedIsLost(u, 0);
  }

  /** A second call has armed a timer for the same deadline, which the set has dropped. */
  lemma ArmedTwice() returns (u: World)
    ensures Reached(u) && u.registered == None && u.woken == {}
    ensures u.calls == map[0 := Call(Armed, true, false, Some(0)), 1 := Call(Armed, true, false, Some(1))]
    ensures u.timers == map[0 := Timer(0, 5, Pending, false, false), 1 := Timer(1, 5, Out, false, false)]
  {
    var s1 := ArmedOnce();
    var s2 := Do(s1, Begin(1, true));
    assert KeyHeld(s2, 5) by {
      assert 0 in s2.timers;
    }
    u := Do(s2, Arm(1, 1, 5, false));
  }

  /** Two calls with the same deadline: the second one has no timer. */
  lemma LostDropped() returns (u: World)
    ensures TimeoutLost(u, 1)
  {
    var s1 := ArmedTwice();
    u := Do(s1, Register(1));
    assert !WillWake(u, 1);
    StrandedIsLost(u, 1);
  }

  /** The second call is woken while the first one waits. */
  lemma SecondResumed() returns (u: World)
    ensures Reached(u) && u.registered == Some(0)
    ensures u.calls == map[0 := Call(Waiting, true, false, Some(0)), 1 := Call(Resumed, true, false, Some(1))]
    ensures u.timers == map[0 := Timer(0, 5, Pending, false, false), 1 := Timer(1, 5, Out, false, false)]
  {
    var s1 := ArmedTwice();
    var s2 := Do(s1, Register(1));
    var s3 := Do(s2, Ready);
    var s4 := Do(s3, Resume(1));
    u := Do(s4, Register(0));
  }

  /** It cancels its timer, which was dropped, and so erases the timer of the first call. */
  lemma LostErased() returns (u: World)
    ensures TimeoutLost(u, 0)
  {
    var s1 := SecondResumed();
    u := Do(s1, CancelTimer(1));
    assert u.timers[0].stage == Out && u.timers[1].stage == Over;
    assert !WillWake(u, 0);
    StrandedIsLost(u, 0);
  }
}
