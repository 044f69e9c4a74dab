/**
 The wake-up protocol between addTimer and the idle loop (dag/timer.cpp, dag/ioscheduler.cpp):
 whether a worker that sleeps in epoll_wait past a timer's deadline is always about to be woken.
 A worker is idle from the increment of m_idleThreadCount to its decrement.  Every critical
 section, and every system call, is one step; the clock never goes back.
 */
module Tickle {
  import opened Runs
  import opened Timers
  import opened TimerExpiry

  type Worker = nat

  /** MAX_TIMEOUT of the idle loop, in milliseconds. */
  const MAX_WAIT: nat := 5000

  /** Where an idle worker is.  since is the time getNextTimer read, wait the timeout in
      milliseconds, saw whether epoll_wait reported the pipe. */
  datatype Phase =
    | Looking
    | Armed(since: Time, wait: nat)
    | Blocked(since: Time, wait: nat)
    | Woken(saw: bool)
    | Handling(saw: bool)
    | Leaving

  /** flying: tickle() called, idle count not yet read; writing: read, byte not yet written;
      edge: the pipe became readable and epoll_wait has not reported it (EPOLLET). */
  datatype World = World(
    m: Manager, clock: Time, idle: map<Worker, Phase>, flying: nat, writing: nat, pipe: nat, edge: bool)

  datatype Step =
    | EnterIdle(w: Worker)
    | LeaveIdle(w: Worker)
    | Stopping
    | NextTimer(w: Worker)
    | Wait(w: Worker)
    | Interrupted(w: Worker)
    | Wake(w: Worker, saw: bool)
    | ListExpired(w: Worker, now: Time)
    | Drain(w: Worker)
    | CallTickle
    | TestIdle
    | WriteByte
    | AddTimer(id: Id, ms: nat, cb: nat, recurring: bool, now: Time)
    | CancelTimer(id: Id)
    | RefreshTimer(id: Id)
    | TakeOutTimer(id: Id)
    | RewriteTimer(id: Id, ms: nat, fromNow: bool, now: Time)
    | PutBackTimer(id: Id)
    | Tick(to: Time)

  predicate At(s: World, w: Worker, p: Phase) {
    w in s.idle && s.idle[w] == p
  }

  predicate Enabled(s: World, step: Step) {
    Known(s.m.recs, s.m.order) &&
    match step
    case EnterIdle(w) => w !in s.idle
    case LeaveIdle(w) => At(s, w, Leaving) || At(s, w, Looking)
    case Stopping => true
    case NextTimer(w) => At(s, w, Looking)
    case Wait(w) => w in s.idle && s.idle[w].Armed?
    case Interrupted(w) => w in s.idle && s.idle[w].Blocked?
    case Wake(w, saw) => w in s.idle && s.idle[w].Blocked? && (saw ==> s.edge && s.pipe > 0)
    case ListExpired(w, now) =>
      w in s.idle && s.idle[w].Woken? && now <= s.clock && Ends(s.m, now, Rollover(s.m, s.clock))
    case Drain(w) => w in s.idle && s.idle[w].Handling?
    case CallTickle => true
    case TestIdle => s.flying > 0
    case WriteByte => s.writing > 0
    case AddTimer(id, _, _, _, now) => id !in s.m.recs && now <= s.clock
    case CancelTimer(id) => id in s.m.recs
    case RefreshTimer(id) => id in s.m.recs
    case TakeOutTimer(id) => id in s.m.recs
    case RewriteTimer(id, _, _, now) => id in s.m.recs && id !in s.m.order && now <= s.clock
    case PutBackTimer(id) => id in s.m.recs
    case Tick(to) => s.clock <= to
  }

  function Move(s: World, w: Worker, p: Phase): World {
    s.(idle := s.idle[w := p])
  }

  function Apply(s: World, step: Step): World
    requires Enabled(s, step)
  {
    match step
    case EnterIdle(w) => Move(s, w, Looking)
    case LeaveIdle(w) => s.(idle := s.idle - {w})
    case Stopping => s.(m := s.m.(tickled := false))
    case NextTimer(w) => Move(s.(m := s.m.(tickled := false)), w, Armed(s.clock, SleepFor(s.m, s.clock)))
    case Wait(w) => Move(s, w, Blocked(s.idle[w].since, s.idle[w].wait))
    case Interrupted(w) => Move(s, w, Looking)
    case Wake(w, saw) => Move(s.(edge := s.edge && !saw), w, Woken(saw))
    case ListExpired(w, now) =>
      Move(s.(m := Expire(s.m, now, s.clock).0), w, Handling(s.idle[w].saw))
    case Drain(w) => Move(s.(pipe := if s.idle[w].saw then 0 else s.pipe), w, Leaving)
    case CallTickle => s.(flying := s.flying + 1)
    case TestIdle => s.(flying := s.flying - 1, writing := if s.idle != map[] then s.writing + 1 else s.writing)
    case WriteByte => s.(writing := s.writing - 1, pipe := s.pipe + 1, edge := true)
    case AddTimer(id, ms, cb, recurring, now) =>
      var (m, atFront) := Add(s.m, id, ms, cb, recurring, now);
      Posted(s, m, atFront)
    case CancelTimer(id) => s.(m := Cancel(s.m, id).0)
    case RefreshTimer(id) => s.(m := Refresh(s.m, id, s.clock).0)
    case TakeOutTimer(id) => s.(m := TakeOut(s.m, id))
    case RewriteTimer(id, ms, fromNow, now) => s.(m := Rewrite(s.m, id, ms, fromNow, now))
    case PutBackTimer(id) =>
      var (m, atFront) := AddToSet(s.m, id);
      Posted(s, m, atFront)
    case Tick(to) => s.(clock := to)
  }

  /** The new timer set; onTimerInsertedAtFront is called if the timer is in front. */
  function Posted(s: World, m: Manager, atFront: bool): World {
    s.(m := m, flying := if atFront then s.flying + 1 else s.flying)
  }

  /** The timeout passed to epoll_wait. */
  function SleepFor(m: Manager, now: Time): (wait: nat)
    requires Known(m.recs, m.order)
  {
    var timeout := NextTimeout(m, now);
    if timeout == None || timeout.value > MAX_WAIT then MAX_WAIT else timeout.value
  }

  // ---- the invariant ------------------------------------------------------------------

  /** A tickle is on its way, or lies in the pipe and epoll_wait will report it. */
  predicate Pending(s: World) {
    s.flying > 0 || s.writing > 0 || (s.pipe > 0 && s.edge)
  }

  predicate NoneBefore(m: Manager, t: Time) {
    forall x :: x in m.order ==> x in m.recs && m.recs[x].next >= t
  }

  /** Every period began in the past. */
  predicate Begun(m: Manager, clock: Time) {
    forall x :: x in m.recs ==> m.recs[x].next <= Deadline(clock, m.recs[x].ms)
  }

  /** Asleep, or about to be: no timer is due before the end of the sleep, or a tickle is pending;
      and a tickle that m_tickled announces is pending. */
  predicate Covered(s: World, p: Phase) {
    (p.Armed? || p.Blocked?) ==>
      && p.since <= s.clock
      && (p.wait == 0 || NoneBefore(s.m, Deadline(p.since, p.wait)) || Pending(s))
      && (s.m.tickled ==> Pending(s))
  }

  /** An unreported byte in the pipe is never forgotten. */
  predicate Reported(s: World, p: Phase) {
    !(p.Woken? && p.saw) && !(p.Handling? && p.saw) ==> (s.pipe > 0 ==> s.edge)
  }

  ghost predicate Inv(s: World) {
    && Ok(s.m) && Begun(s.m, s.clock) && s.m.previous <= s.clock
    && (s.idle == map[] && s.pipe > 0 ==> s.edge)
    && forall w :: w in s.idle ==> Covered(s, s.idle[w]) && Reported(s, s.idle[w])
  }

  /** At most one worker is idle. */
  predicate Alone(s: World) {
    forall v, w :: v in s.idle && w in s.idle ==> v == w
  }

  // ---- the timer set ------------------------------------------------------------------

  /** What a change of the timer set must do to keep a sleeper covered. */
  ghost predicate Announced(m: Manager, m': Manager, atFront: bool, clock: Time) {
    && Ok(m') && Begun(m', clock) && m'.previous == m.previous
    && (m'.tickled ==> m.tickled || atFront)
    && (m.tickled || atFront || forall t :: NoneBefore(m, t) ==> NoneBefore(m', t))
  }

  /** Inserting a timer that is not in front leaves nothing earlier than before. */
  lemma InsertAnnounced(m: Manager, id: Id, t: Time)
    requires Ok(m) && id in m.recs && NoneBefore(m, t)
    requires !m.tickled && !AddToSet(m, id).1
    ensures NoneBefore(AddToSet(m, id).0, t)
  {
    InsertSorted(m.recs, m.order, id);
    assert m.order[0] in m.order;
  }

  lemma AddAnnounced(m: Manager, id: Id, ms: nat, cb: nat, recurring: bool, now: Time, clock: Time)
    requires Ok(m) && Begun(m, clock) && id !in m.recs && now <= clock
    ensures Announced(m, Add(m, id, ms, cb, recurring, now).0, Add(m, id, ms, cb, recurring, now).1, clock)
  {
    AddOk(m, id, ms, cb, recurring, now);
    var m1 := m.(recs := m.recs[id := Timer(recurring, ms, Deadline(now, ms), Some(cb))]);
    ReplaceOutside(m.recs, m.order, id, m1.recs[id]);
    assert Ok(m1);
    forall t | !m.tickled && !AddToSet(m1, id).1 && NoneBefore(m, t)
      ensures NoneBefore(AddToSet(m1, id).0, t)
    {
      assert NoneBefore(m1, t);
      InsertAnnounced(m1, id, t);
    }
  }

  lemma CancelAnnounced(m: Manager, id: Id, clock: Time)
    requires Ok(m) && Begun(m, clock) && id in m.recs
    ensures Announced(m, Cancel(m, id).0, false, clock)
  {
    CancelOk(m, id);
    EraseOk(m, id);
  }

  /** refresh on a clock that has not gone back since the period began. */
  lemma RefreshAnnounced(m: Manager, id: Id, clock: Time)
    requires Ok(m) && Begun(m, clock) && id in m.recs
    ensures Announced(m, Refresh(m, id, clock).0, false, clock)
  {
    RefreshOk(m, id, clock);
    if Refresh(m, id, clock).1 {
      forall t | NoneBefore(m, t)
        ensures NoneBefore(Refresh(m, id, clock).0, t)
      {
        RefreshLater(m, id, clock, t);
      }
    }
  }

  lemma RefreshLater(m: Manager, id: Id, now: Time, t: Time)
    requires Ok(m) && id in m.recs && Refresh(m, id, now).1
    requires NoneBefore(m, t) && m.recs[id].next <= Deadline(now, m.recs[id].ms)
    ensures NoneBefore(Refresh(m, id, now).0, t)
  {
    var recs := m.recs[id := m.recs[id].(next := Deadline(now, m.recs[id].ms))];
    var order := Erase(m.recs, m.order, m.recs[id].next);
    RefreshIs(m, id, now, recs, order);
    HasKeyMeans(m.recs, m.order, m.recs[id].next);
    EraseOk(m, id);
    InsertSorted(recs, order, id);
  }

  /** refresh moves the deadline earlier exactly when the clock was set back by more than the time
      since the period began. */
  lemma RefreshEarlierIff(m: Manager, id: Id, now: Time)
    requires Known(m.recs, m.order) && id in m.recs && Refresh(m, id, now).1
    ensures Refresh(m, id, now).0.recs[id].next < m.recs[id].next
       <==> now < m.recs[id].next - Ticks(m.recs[id].ms)
  {
  }

  /** The three steps of reset: out of the set, a new deadline while out of it, and back. */
  lemma TakeOutAnnounced(m: Manager, id: Id, clock: Time)
    requires Ok(m) && Begun(m, clock) && id in m.recs
    ensures Announced(m, TakeOut(m, id), false, clock)
  {
    TakeOutOk(m, id);
    EraseOk(m, id);
  }

  lemma RewriteAnnounced(m: Manager, id: Id, ms: nat, fromNow: bool, now: Time, clock: Time)
    requires Ok(m) && Begun(m, clock) && id in m.recs && id !in m.order && now <= clock
    ensures Announced(m, Rewrite(m, id, ms, fromNow, now), false, clock)
  {
    RewriteOk(m, id, ms, fromNow, now);
  }

  lemma PutBackAnnounced(m: Manager, id: Id, clock: Time)
    requires Ok(m) && Begun(m, clock) && id in m.recs
    ensures Announced(m, AddToSet(m, id).0, AddToSet(m, id).1, clock)
  {
    AddToSetOk(m, id);
    forall t | !m.tickled && !AddToSet(m, id).1 && NoneBefore(m, t)
      ensures NoneBefore(AddToSet(m, id).0, t)
    {
      InsertAnnounced(m, id, t);
    }
  }

  lemma PostedKeeps(s: World, m: Manager, atFront: bool)
    requires Inv(s) && Announced(s.m, m, atFront, s.clock)
    ensures Inv(Posted(s, m, atFront))
  {
    var u := Posted(s, m, atFront);
    forall w | w in u.idle
      ensures Covered(u, u.idle[w]) && Reported(u, u.idle[w])
    {
      assert Covered(s, s.idle[w]);
    }
  }

  // ---- the worker ---------------------------------------------------------------------

  /** No timer is due before the end of a positive sleep; the sleep lasts five seconds, or ends within
      a millisecond of the first deadline. */
  lemma SleepIsShort(m: Manager, now: Time)
    requires Ok(m)
    ensures SleepFor(m, now) == 0 || NoneBefore(m, Deadline(now, SleepFor(m, now)))
    ensures SleepFor(m, now) < 5000 ==>
      exists x :: x in m.order && x in m.recs && m.recs[x].next - now < (SleepFor(m, now) + 1) * 1_000_000
    ensures SleepFor(m, now) <= 5000
  {
    assert m.order != [] ==> m.order[0] in m.order;
    if SleepFor(m, now) != 0 {
      forall x | x in m.order
        ensures m.recs[x].next >= Deadline(now, SleepFor(m, now))
      {
        var i :| 0 <= i < |m.order| && m.order[i] == x;
        assert i > 0 ==> m.recs[m.order[0]].next < m.recs[m.order[i]].next;
      }
    }
  }

  lemma ExpireBegun(m: Manager, now: Time, clock: Time)
    requires Ok(m) && Begun(m, clock) && now <= clock && Ends(m, now, Rollover(m, clock))
    ensures Ok(Expire(m, now, clock).0) && Begun(Expire(m, now, clock).0, clock)
    ensures Expire(m, now, clock).0.previous == clock
  {
    ExpireMeans(m, now, clock);
  }

  lemma EnterKeeps(s: World, w: Worker)
    requires Inv(s) && Enabled(s, EnterIdle(w)) && Alone(Apply(s, EnterIdle(w)))
    ensures Inv(Apply(s, EnterIdle(w)))
  {
    var u := Apply(s, EnterIdle(w));
    assert w in u.idle;
    forall v
      ensures v !in s.idle
    {
      assert v in s.idle ==> v in u.idle;
    }
  }

  lemma LeaveKeeps(s: World, w: Worker)
    requires Inv(s) && Alone(s) && Enabled(s, LeaveIdle(w))
    ensures Inv(Apply(s, LeaveIdle(w)))
  {
    assert Reported(s, s.idle[w]);
    assert forall v :: v !in Apply(s, LeaveIdle(w)).idle;
  }

  lemma WorkerKeeps(s: World, step: Step)
    requires Inv(s) && Alone(s) && Enabled(s, step)
    requires step.NextTimer? || step.Wait? || step.Interrupted? || step.Wake? || step.Drain?
    ensures Inv(Apply(s, step))
  {
    var u := Apply(s, step);
    assert Covered(s, s.idle[step.w]) && Reported(s, s.idle[step.w]);
    assert step.w in u.idle;
    if step.NextTimer? {
      SleepIsShort(s.m, s.clock);
    }
    forall v | v in u.idle
      ensures Covered(u, u.idle[v]) && Reported(u, u.idle[v])
    {
      assert v == step.w;
    }
  }

  lemma ExpiryKeeps(s: World, w: Worker, now: Time)
    requires Inv(s) && Alone(s) && Enabled(s, ListExpired(w, now))
    ensures Inv(Apply(s, ListExpired(w, now)))
  {
    ExpireBegun(s.m, now, s.clock);
  }

  lemma PipeKeeps(s: World, step: Step)
    requires Inv(s) && Enabled(s, step)
    requires step.Stopping? || step.CallTickle? || step.TestIdle? || step.WriteByte? || step.Tick?
    ensures Inv(Apply(s, step))
  {
    var u := Apply(s, step);
    forall w | w in u.idle
      ensures Covered(u, u.idle[w]) && Reported(u, u.idle[w])
    {
      assert Covered(s, s.idle[w]) && Reported(s, s.idle[w]);
    }
  }

  lemma StepKeepsInv(s: World, step: Step)
    requires Inv(s) && Alone(s) && Enabled(s, step) && Alone(Apply(s, step))
    ensures Inv(Apply(s, step))
  {
    match step
    case EnterIdle(w) => EnterKeeps(s, w);
    case LeaveIdle(w) => LeaveKeeps(s, w);
    case ListExpired(w, now) => ExpiryKeeps(s, w, now);
    case Stopping => PipeKeeps(s, step);
    case CallTickle => PipeKeeps(s, step);
    case TestIdle => PipeKeeps(s, step);
    case WriteByte => PipeKeeps(s, step);
    case Tick(_) => PipeKeeps(s, step);
    case AddTimer(id, ms, cb, recurring, now) =>
      AddAnnounced(s.m, id, ms, cb, recurring, now, s.clock);
      PostedKeeps(s, Add(s.m, id, ms, cb, recurring, now).0, Add(s.m, id, ms, cb, recurring, now).1);
    case CancelTimer(id) =>
      CancelAnnounced(s.m, id, s.clock);
      PostedKeeps(s, Cancel(s.m, id).0, false);
    case RefreshTimer(id) =>
      RefreshAnnounced(s.m, id, s.clock);
      PostedKeeps(s, Refresh(s.m, id, s.clock).0, false);
    case TakeOutTimer(id) =>
      TakeOutAnnounced(s.m, id, s.clock);
      PostedKeeps(s, TakeOut(s.m, id), false);
    case RewriteTimer(id, ms, fromNow, now) =>
      RewriteAnnounced(s.m, id, ms, fromNow, now, s.clock);
      PostedKeeps(s, Rewrite(s.m, id, ms, fromNow, now), false);
    case PutBackTimer(id) =>
      PutBackAnnounced(s.m, id, s.clock);
      PostedKeeps(s, AddToSet(s.m, id).0, AddToSet(s.m, id).1);
    case _ => WorkerKeeps(s, step);
  }

  // ---- runs ---------------------------------------------------------------------------

  function Start(clock: Time): World {
    World(Manager(map[], [], false, clock), clock, map[], 0, 0, 0, false)
  }

  /** Steps after which at most one worker is idle. */
  function NextAlone(s: World, step: Step): Option<World> {
    if Enabled(s, step) && Alone(Apply(s, step)) then Some(Apply(s, step)) else None
  }

  lemma RunKeepsInv(clock: Time, steps: seq<Step>, u: World)
    requires Leads(NextAlone, Start(clock), steps, u)
    ensures Inv(u)
  {
    var inv := (s: World) => Inv(s) && Alone(s);
    forall s, step | inv(s) && NextAlone(s, step).Some?
      ensures inv(NextAlone(s, step).value)
    {
      StepKeepsInv(s, step);
    }
    Invariant(NextAlone, inv, Start(clock), steps, u);
  }

  /** w sleeps, or is about to, beyond the deadline of x. */
  predicate Overslept(u: World, w: Worker, x: Id) {
    && w in u.idle && (u.idle[w].Armed? || u.idle[w].Blocked?) && u.idle[w].wait > 0
    && x in u.m.order && x in u.m.recs && u.m.recs[x].next < Deadline(u.idle[w].since, u.idle[w].wait)
  }

  /** A sleeper is never left to oversleep: if a timer is due before the end of its sleep, a tickle
      is on its way or lies unreported in the pipe. */
  lemma SleeperIsTickled(clock: Time, steps: seq<Step>, u: World, w: Worker, x: Id)
    requires Leads(NextAlone, Start(clock), steps, u) && Overslept(u, w, x)
    ensures u.flying > 0 || u.writing > 0 || (u.pipe > 0 && u.edge)
  {
    RunKeepsInv(clock, steps, u);
    assert Covered(u, u.idle[w]);
  }

  /** The same by the clock: when a timer is due, a blocked worker's sleep is over or it is being
      woken; and a byte in the pipe is never one that epoll_wait has already reported. */
  lemma NoOversleep(clock: Time, steps: seq<Step>, u: World, w: Worker, x: Id)
    requires Leads(NextAlone, Start(clock), steps, u)
    requires w in u.idle && u.idle[w].Blocked?
    ensures u.pipe > 0 ==> u.edge
    ensures x in u.m.order && x in u.m.recs && u.m.recs[x].next <= u.clock ==>
      u.clock >= Deadline(u.idle[w].since, u.idle[w].wait) || Pending(u)
  {
    RunKeepsInv(clock, steps, u);
    assert Covered(u, u.idle[w]) && Reported(u, u.idle[w]);
  }

  // ---- how many workers ---------------------------------------------------------------

  /** The steps of a pool of n workers. */
  function NextOf(s: World, step: Step, n: nat): Option<World> {
    if Enabled(s, step) && (step.EnterIdle? ==> step.w < n) then Some(Apply(s, step)) else None
  }

  function Pool(n: nat): (World, Step) -> Option<World> {
    (s, step) => NextOf(s, step, n)
  }

  ghost predicate Reached(u: World) {
    Reachable(Pool(2), Start(0), u)
  }

  lemma Do(s: World, step: Step) returns (u: World)
    requires Reached(s) && Enabled(s, step) && (step.EnterIdle? ==> step.w < 2)
    ensures Reached(u) && u == Apply(s, step)
  {
    u := Reach(Pool(2), Start(0), s, step);
  }

  /** Nothing has happened yet but workers falling idle. */
  predicate Quiet(s: World) {
    s.m == Manager(map[], [], false, 0) && s.clock == 0 && s.flying == 0 && s.writing == 0
  }

  /** A worker goes to sleep for five seconds. */
  lemma FallAsleep(s: World, w: Worker, v: Worker) returns (u: World)
    requires Reached(s) && Quiet(s) && w !in s.idle && v != w && w < 2
    ensures Reached(u) && Quiet(u) && At(u, w, Blocked(0, 5000)) && u.pipe == s.pipe && u.edge == s.edge
    ensures v in u.idle <==> v in s.idle
    ensures v in s.idle ==> u.idle[v] == s.idle[v]
  {
    var s1 := Do(s, EnterIdle(w));
    var s2 := Do(s1, NextTimer(w));
    u := Do(s2, Wait(w));
  }

  /** A task wakes the other worker, which gets as far as the expired timers. */
  lemma OneHandling() returns (u: World)
    ensures Reached(u) && Quiet(u) && At(u, 0, Blocked(0, 5000)) && At(u, 1, Handling(true)) && u.pipe == 1 && !u.edge
  {
    Runs.Start(Pool(2), Start(0));
    var s1 := FallAsleep(Start(0), 0, 1);
    var s2 := FallAsleep(s1, 1, 0);
    var s3 := Tickled(s2);
    u := Wakes(s3);
  }

  lemma Tickled(s: World) returns (u: World)
    requires Reached(s) && Known(s.m.recs, s.m.order) && 0 in s.idle && s.writing == 0
    ensures Reached(u) && u == s.(pipe := s.pipe + 1, edge := true)
  {
    var s1 := Do(s, CallTickle);
    u := Flies(s1);
  }

  lemma Flies(s: World) returns (u: World)
    requires Reached(s) && Known(s.m.recs, s.m.order) && 0 in s.idle && s.writing == 0 && s.flying > 0
    ensures Reached(u) && u == s.(flying := s.flying - 1, pipe := s.pipe + 1, edge := true)
  {
    var s1 := Do(s, TestIdle);
    u := Do(s1, WriteByte);
  }

  lemma Wakes(s: World) returns (u: World)
    requires Reached(s) && Quiet(s) && At(s, 0, Blocked(0, 5000)) && At(s, 1, Blocked(0, 5000)) && s.pipe > 0 && s.edge
    ensures Reached(u) && Quiet(u) && At(u, 0, Blocked(0, 5000)) && At(u, 1, Handling(true))
    ensures u.pipe == s.pipe && !u.edge
  {
    var s1 := Do(s, Wake(1, true));
    u := Do(s1, ListExpired(1, 0));
  }

  lemma FirstTimer(s: World) returns (u: World)
    requires Reached(s) && Quiet(s)
    ensures Reached(u) && Known(u.m.recs, u.m.order) && 7 in u.m.order && u.m.recs[7].next == Deadline(0, 10)
    ensures u == s.(m := u.m, flying := 1)
  {
    u := Do(s, AddTimer(7, 10, 1, false, 0));
    InsertSorted(u.m.recs, [], 7);
  }

  /** With two idle workers the promise fails: one worker drains the byte that was meant for the
      other, which sleeps on while a timer falls due. */
  lemma TwoIdleWorkersOversleep() returns (u: World)
    ensures Reached(u) && Overslept(u, 0, 7) && !Pending(u)
  {
    var s0 := OneHandling();
    var s1 := FirstTimer(s0);
    var s2 := Flies(s1);
    u := Do(s2, Drain(1));
  }

  lemma SmallPoolKeepsInv(n: nat, clock: Time, steps: seq<Step>, u: World)
    requires n <= 1 && Leads(Pool(n), Start(clock), steps, u)
    ensures Inv(u)
  {
    var inv := (s: World) => Inv(s) && forall w :: w in s.idle ==> w < n;
    forall s, step | inv(s) && Pool(n)(s, step).Some?
      ensures inv(Pool(n)(s, step).value)
    {
      var t := Apply(s, step);
      assert forall w :: w in t.idle ==> w < n;
      assert Alone(s) && Alone(t);
      StepKeepsInv(s, step);
    }
    Invariant(Pool(n), inv, Start(clock), steps, u);
  }

  /** Every sleeper of a pool is always tickled in time. */
  ghost predicate AllTickled(n: nat) {
    forall clock, steps, u, w, x :: Leads(Pool(n), Start(clock), steps, u) && Overslept(u, w, x) ==> Pending(u)
  }

  /** The wake-up protocol works for a pool of n workers exactly when n is at most one. */
  lemma AllTickledIff(n: nat)
    ensures AllTickled(n) <==> n <= 1
  {
    if n <= 1 {
      forall clock, steps, u, w, x | Leads(Pool(n), Start(clock), steps, u) && Overslept(u, w, x)
        ensures Pending(u)
      {
        SmallPoolKeepsInv(n, clock, steps, u);
        assert Covered(u, u.idle[w]);
      }
    } else {
      var u := TwoIdleWorkersOversleep();
      var steps :| Leads(Pool(2), Start(0), steps, u);
      Widen(Pool(2), Pool(n), Start(0), steps, u);
    }
  }
}
