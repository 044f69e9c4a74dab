/**
 The event bookkeeping of IOManager (dag/ioscheduler.cpp): per-descriptor masks and event
 contexts, the kernel's interest masks, the pending counter and the tasks triggered events
 put in the queue.  Each operation that the code does under a descriptor's mutex is one step.
 */
module IOEvents {
  import opened Runs
  import opened TaskQueue

  datatype Event = Read | Write

  /** A set of events, as fd_ctx->events and as the mask handed to epoll_ctl. */
  datatype Mask = Mask(read: bool, write: bool) {
    predicate Has(e: Event) {
      if e == Read then read else write
    }

    predicate Empty() {
      !read && !write
    }

    function With(e: Event): Mask {
      if e == Read then this.(read := true) else this.(write := true)
    }

    function Minus(e: Event): Mask {
      if e == Read then this.(read := false) else this.(write := false)
    }

    function Bits(): nat {
      (if read then 1 else 0) + (if write then 1 else 0)
    }
  }

  /** An event context: Null when scheduler, fiber and callback are all unset. */
  datatype Fd = Fd(events: Mask, readCtx: Body, writeCtx: Body) {
    function Ctx(e: Event): Body {
      if e == Read then readCtx else writeCtx
    }

    function SetCtx(e: Event, body: Body): Fd {
      if e == Read then this.(readCtx := body) else this.(writeCtx := body)
    }

    /** A context is in use exactly when its bit is set. */
    predicate Ok() {
      (events.read <==> readCtx != Null) && (events.write <==> writeCtx != Null)
    }

    /** How many registrations of this descriptor wait with b. */
    function Count(b: Body): nat {
      (if events.read && readCtx == b then 1 else 0) + (if events.write && writeCtx == b then 1 else 0)
    }
  }

  const IDLE_FD := Fd(Mask(false, false), Null, Null)

  /** kernel: the interest mask epoll holds for each registered descriptor.  added and deleted
      record successful addEvent calls and registrations dropped by delEvent. */
  datatype Io = Io(fds: seq<Fd>, kernel: map<nat, Mask>, pending: int, queue: seq<Task>,
                   added: multiset<Body>, deleted: multiset<Body>)

  // ---- sums over the table ------------------------------------------------------------

  function Bits(fds: seq<Fd>): nat {
    if fds == [] then 0 else Bits(fds[..|fds| - 1]) + fds[|fds| - 1].events.Bits()
  }

  function Waiting(fds: seq<Fd>, b: Body): nat {
    if fds == [] then 0 else Waiting(fds[..|fds| - 1], b) + fds[|fds| - 1].Count(b)
  }

  function Queued(q: seq<Task>, b: Body): nat {
    if q == [] then 0 else Queued(q[..|q| - 1], b) + (if q[|q| - 1].body == b then 1 else 0)
  }

  lemma {:induction false} UpdateBits(fds: seq<Fd>, i: nat, x: Fd)
    requires i < |fds|
    ensures Bits(fds[i := x]) == Bits(fds) - fds[i].events.Bits() + x.events.Bits()
  {
    var n := |fds| - 1;
    if i < n {
      UpdateBits(fds[..n], i, x);
      assert fds[i := x][..n] == fds[..n][i := x];
    } else {
      assert fds[i := x][..n] == fds[..n];
    }
  }

  lemma {:induction false} UpdateWaiting(fds: seq<Fd>, i: nat, x: Fd, b: Body)
    requires i < |fds|
    ensures Waiting(fds[i := x], b) == Waiting(fds, b) - fds[i].Count(b) + x.Count(b)
  {
    var n := |fds| - 1;
    if i < n {
      UpdateWaiting(fds[..n], i, x, b);
      assert fds[i := x][..n] == fds[..n][i := x];
    } else {
      assert fds[i := x][..n] == fds[..n];
    }
  }

  lemma {:induction false} GrownSums(fds: seq<Fd>, more: seq<Fd>, b: Body)
    requires forall j :: 0 <= j < |more| ==> more[j] == IDLE_FD
    ensures Bits(fds + more) == Bits(fds) && Waiting(fds + more, b) == Waiting(fds, b)
  {
    if more == [] {
      assert fds + more == fds;
    } else {
      var n := |more| - 1;
      GrownSums(fds, more[..n], b);
      assert (fds + more)[..|fds + more| - 1] == fds + more[..n];
    }
  }

  lemma QueuedSnoc(q: seq<Task>, task: Task, b: Body)
    ensures Queued(q + [task], b) == Queued(q, b) + (if task.body == b then 1 else 0)
  {
    assert (q + [task])[..|q|] == q;
  }

  // ---- the operations -----------------------------------------------------------------

  /** contextResize: the table only grows, by unused contexts. */
  function Resize(fds: seq<Fd>, size: nat): (r: seq<Fd>)
    ensures |fds| <= size ==> |r| == size && fds <= r
    ensures forall j :: |fds| <= j < |r| ==> r[j] == IDLE_FD
  {
    if size <= |fds| then fds else Resize(fds, size - 1) + [IDLE_FD]
  }

  /** The table addEvent works on: fd * 1.5 contexts if fd has none yet. */
  function Ensure(fds: seq<Fd>, fd: nat): seq<Fd> {
    if fd < |fds| then fds else Resize(fds, fd * 3 / 2)
  }

  /** epoll_ctl: ADD, MOD and DEL in one; an empty mask takes the descriptor out. */
  function Kernel(kernel: map<nat, Mask>, fd: nat, mask: Mask): map<nat, Mask> {
    if mask.Empty() then kernel - {fd} else kernel[fd := mask]
  }

  /** triggerEvent, without its assertion: clear the bit, queue the waiter, reset the context. */
  function Trigger(s: Io, fd: nat, e: Event): Io
    requires fd < |s.fds|
  {
    var x := s.fds[fd];
    s.(fds := s.fds[fd := Fd(x.events.Minus(e), x.readCtx, x.writeCtx).SetCtx(e, Null)],
       queue := Push(s.queue, Task(x.Ctx(e), -1)),
       pending := s.pending - 1)
  }

  /** addEvent; `ok` is what epoll_ctl answers. */
  function Add(s: Io, fd: nat, e: Event, body: Body, ok: bool): Io
    requires fd < |Ensure(s.fds, fd)|
  {
    var t := s.(fds := Ensure(s.fds, fd));
    if !ok then t
    else
      var mask := t.fds[fd].events.With(e);
      t.(fds := t.fds[fd := Fd(mask, t.fds[fd].readCtx, t.fds[fd].writeCtx).SetCtx(e, body)],
         kernel := Kernel(s.kernel, fd, mask),
         pending := s.pending + 1,
         added := s.added + multiset{body})
  }

  /** delEvent: carries on when epoll_ctl fails. */
  function Del(s: Io, fd: nat, e: Event, ok: bool): Io
    requires fd < |s.fds|
  {
    var x := s.fds[fd];
    if !x.events.Has(e) then s
    else
      var mask := x.events.Minus(e);
      s.(fds := s.fds[fd := Fd(mask, x.readCtx, x.writeCtx).SetCtx(e, Null)],
         kernel := if ok then Kernel(s.kernel, fd, mask) else s.kernel,
         pending := s.pending - 1,
         deleted := s.deleted + multiset{x.Ctx(e)})
  }

  function Cancel(s: Io, fd: nat, e: Event, ok: bool): Io
    requires fd < |s.fds|
  {
    if !s.fds[fd].events.Has(e) || !ok then s
    else Trigger(s.(kernel := Kernel(s.kernel, fd, s.fds[fd].events.Minus(e))), fd, e)
  }

  function TriggerIf(s: Io, fd: nat, e: Event, cond: bool): Io
    requires fd < |s.fds|
  {
    if cond then Trigger(s, fd, e) else s
  }

  function CancelAll(s: Io, fd: nat, ok: bool): Io
    requires fd < |s.fds|
  {
    var mask := s.fds[fd].events;
    if mask.Empty() || !ok then s
    else
      var t := s.(kernel := s.kernel - {fd});
      TriggerIf(TriggerIf(t, fd, Read, mask.read), fd, Write, mask.write)
  }

  /** What idle makes of an epoll event: errors count as every registered event. */
  function RealEvents(x: Fd, reported: Mask, error: bool): Mask {
    Mask(reported.read || (error && x.events.read), reported.write || (error && x.events.write))
  }

  function Left(x: Fd, seen: Mask): Mask {
    Mask(x.events.read && !seen.read, x.events.write && !seen.write)
  }

  /** One event of the dispatch loop in idle. */
  function Dispatch(s: Io, fd: nat, reported: Mask, error: bool, ok: bool): Io
    requires fd < |s.fds|
  {
    var x := s.fds[fd];
    var seen := RealEvents(x, reported, error);
    if Left(x, seen) == x.events || !ok then s
    else
      var t := s.(kernel := Kernel(s.kernel, fd, Left(x, seen)));
      TriggerIf(TriggerIf(t, fd, Read, seen.read), fd, Write, seen.write)
  }

  /** The assertion of triggerEvent in the dispatch loop: every event it triggers is registered. */
  predicate DispatchAsserts(s: Io, fd: nat, reported: Mask, error: bool, ok: bool)
    requires fd < |s.fds|
  {
    var x := s.fds[fd];
    var seen := RealEvents(x, reported, error);
    Left(x, seen) != x.events && ok ==> (seen.read ==> x.events.read) && (seen.write ==> x.events.write)
  }

  // ---- the invariant ------------------------------------------------------------------

  predicate FdOk(s: Io, fd: nat)
    requires fd < |s.fds|
  {
    && s.fds[fd].Ok()
    && (fd in s.kernel <==> !s.fds[fd].events.Empty())
    && (fd in s.kernel ==> s.kernel[fd] == s.fds[fd].events)
  }

  /** Every successful addEvent with b is accounted for: still registered, triggered into the
      queue, or silently deleted. */
  predicate Accounted(s: Io, b: Body) {
    s.added[b] == Waiting(s.fds, b) + Queued(s.queue, b) + s.deleted[b]
  }

  /** The counter equals the registered bits, and no registration is lost. */
  ghost predicate Balanced(s: Io) {
    s.pending == Bits(s.fds) && forall b :: Accounted(s, b)
  }

  /** Table and kernel agree on every descriptor. */
  ghost predicate Agreed(s: Io) {
    && (forall fd: nat :: fd in s.kernel ==> fd < |s.fds|)
    && (forall fd: nat :: fd < |s.fds| ==> FdOk(s, fd))
  }

  ghost predicate Inv(s: Io) {
    |s.fds| >= 32 && Agreed(s) && Balanced(s)
  }

  /** One descriptor changes, and the kernel with it. */
  lemma AgreedUpdate(s: Io, fd: nat, x: Fd, t: Io)
    requires Agreed(s) && fd < |s.fds| && x.Ok()
    requires t.fds == s.fds[fd := x] && t.kernel == Kernel(s.kernel, fd, x.events)
    ensures Agreed(t)
  {
    forall g: nat | g < |t.fds|
      ensures FdOk(t, g)
    {
      assert FdOk(s, g);
    }
  }

  lemma AgreedGrown(s: Io, t: Io)
    requires Agreed(s) && s.fds <= t.fds && t.kernel == s.kernel
    requires forall j :: |s.fds| <= j < |t.fds| ==> t.fds[j] == IDLE_FD
    ensures Agreed(t)
  {
    forall g: nat | g < |t.fds|
      ensures FdOk(t, g)
    {
      assert g < |s.fds| ==> FdOk(s, g);
    }
  }

  lemma BalancedGrown(s: Io, t: Io)
    requires Balanced(s) && s.fds <= t.fds && t == s.(fds := t.fds)
    requires forall j :: |s.fds| <= j < |t.fds| ==> t.fds[j] == IDLE_FD
    ensures Balanced(t)
  {
    var more := t.fds[|s.fds|..];
    assert s.fds + more == t.fds;
    forall b
      ensures Accounted(t, b)
    {
      GrownSums(s.fds, more, b);
      assert Accounted(s, b);
    }
    GrownSums(s.fds, more, Null);
  }

  lemma AddKeepsInv(s: Io, fd: nat, e: Event, body: Body, ok: bool)
    requires Inv(s) && body != Null
    requires fd < |Ensure(s.fds, fd)| && !Ensure(s.fds, fd)[fd].events.Has(e)
    ensures Inv(Add(s, fd, e, body, ok))
  {
    var t := s.(fds := Ensure(s.fds, fd));
    AgreedGrown(s, t);
    BalancedGrown(s, t);
    if ok {
      var u := Add(s, fd, e, body, ok);
      assert FdOk(t, fd);
      AgreedUpdate(t, fd, u.fds[fd], u);
      UpdateBits(t.fds, fd, u.fds[fd]);
      forall b
        ensures Accounted(u, b)
      {
        assert Accounted(t, b);
        UpdateWaiting(t.fds, fd, u.fds[fd], b);
      }
    }
  }

  lemma DelKeepsInv(s: Io, fd: nat, e: Event)
    requires Inv(s) && fd < |s.fds|
    ensures Inv(Del(s, fd, e, true))
  {
    assert FdOk(s, fd);
    if s.fds[fd].events.Has(e) {
      var u := Del(s, fd, e, true);
      AgreedUpdate(s, fd, u.fds[fd], u);
      UpdateBits(s.fds, fd, u.fds[fd]);
      forall b
        ensures Accounted(u, b)
      {
        assert Accounted(s, b);
        UpdateWaiting(s.fds, fd, u.fds[fd], b);
      }
    }
  }

  /** A triggered registration moves from the table to the end of the queue, once. */
  lemma TriggerBalances(s: Io, fd: nat, e: Event)
    requires fd < |s.fds| && Balanced(s) && s.fds[fd].events.Has(e) && s.fds[fd].Ctx(e) != Null
    ensures Balanced(Trigger(s, fd, e))
    ensures Trigger(s, fd, e).queue == s.queue + [Task(s.fds[fd].Ctx(e), -1)]
  {
    var u, task := Trigger(s, fd, e), Task(s.fds[fd].Ctx(e), -1);
    UpdateBits(s.fds, fd, u.fds[fd]);
    forall b
      ensures Accounted(u, b)
    {
      assert Accounted(s, b);
      UpdateWaiting(s.fds, fd, u.fds[fd], b);
      QueuedSnoc(s.queue, task, b);
    }
  }

  /** Two guarded triggers of registered events, the kernel mask already updated. */
  lemma TriggersKeepInv(s: Io, fd: nat, seen: Mask, mask: Mask)
    requires Inv(s) && fd < |s.fds|
    requires (seen.read ==> s.fds[fd].events.read) && (seen.write ==> s.fds[fd].events.write)
    requires mask == Left(s.fds[fd], seen)
    ensures var t := s.(kernel := Kernel(s.kernel, fd, mask));
      Inv(TriggerIf(TriggerIf(t, fd, Read, seen.read), fd, Write, seen.write))
  {
    var t := s.(kernel := Kernel(s.kernel, fd, mask));
    assert FdOk(s, fd);
    assert forall b :: Accounted(s, b) ==> Accounted(t, b);
    var t1 := TriggerIf(t, fd, Read, seen.read);
    if seen.read {
      TriggerBalances(t, fd, Read);
    }
    var t2 := TriggerIf(t1, fd, Write, seen.write);
    if seen.write {
      TriggerBalances(t1, fd, Write);
    }
    AgreedUpdate(s, fd, t2.fds[fd], t2);
  }

  lemma CancelKeepsInv(s: Io, fd: nat, e: Event, ok: bool)
    requires Inv(s) && fd < |s.fds|
    ensures Inv(Cancel(s, fd, e, ok))
  {
    var only := Mask(e == Read, e == Write);
    if s.fds[fd].events.Has(e) && ok {
      TriggersKeepInv(s, fd, only, s.fds[fd].events.Minus(e));
    }
  }

  lemma CancelAllKeepsInv(s: Io, fd: nat, ok: bool)
    requires Inv(s) && fd < |s.fds|
    ensures Inv(CancelAll(s, fd, ok))
    ensures ok ==> CancelAll(s, fd, ok).fds[fd].events.Empty()
  {
    var mask := s.fds[fd].events;
    if !mask.Empty() && ok {
      TriggersKeepInv(s, fd, mask, Mask(false, false));
    }
  }

  lemma DispatchKeepsInv(s: Io, fd: nat, reported: Mask, error: bool, ok: bool)
    requires Inv(s) && fd < |s.fds| && DispatchAsserts(s, fd, reported, error, ok)
    ensures Inv(Dispatch(s, fd, reported, error, ok))
  {
    var seen := RealEvents(s.fds[fd], reported, error);
    if Left(s.fds[fd], seen) != s.fds[fd].events && ok {
      TriggersKeepInv(s, fd, seen, Left(s.fds[fd], seen));
    }
  }

  // ---- where the code does not keep it ------------------------------------------------

  /** delEvent after a failed epoll_ctl: the kernel keeps watching an event that the
      bookkeeping has dropped.  The invariant survives exactly when the call succeeded or
      there was nothing to delete. */
  lemma DelKeepsInvIff(s: Io, fd: nat, e: Event, ok: bool)
    requires Inv(s) && fd < |s.fds|
    ensures Inv(Del(s, fd, e, ok)) <==> ok || !s.fds[fd].events.Has(e)
  {
    assert FdOk(s, fd);
    if ok {
      DelKeepsInv(s, fd, e);
    } else if s.fds[fd].events.Has(e) {
      var t := Del(s, fd, e, ok);
      assert !FdOk(t, fd);
    }
  }

  lemma StartInv()
    ensures Inv(Io(Resize([], 32), map[], 0, [], multiset{}, multiset{}))
  {
    var s, t := Io([], map[], 0, [], multiset{}, multiset{}), Io(Resize([], 32), map[], 0, [], multiset{}, multiset{});
    AgreedGrown(s, t);
    BalancedGrown(s, t);
  }

  // ---- runs ---------------------------------------------------------------------------

  /** An event that epoll_wait has reported and idle has yet to dispatch.  gone: the reported
      events that have been removed since, and not been added again. */
  datatype Report = Report(fd: nat, mask: Mask, error: bool, gone: Mask)

  datatype Sys = Sys(io: Io, reports: seq<Report>)

  datatype Step =
    | AddEvent(fd: nat, e: Event, body: Body, ok: bool)
    | DelEvent(fd: nat, e: Event)
    | CancelEvent(fd: nat, e: Event, ok: bool)
    | CancelAllEvents(fd: nat, ok: bool)
    | Wait(fd: nat, mask: Mask, error: bool)
    | DispatchEvent(k: nat, ok: bool)

  /** The steps that neither abort nor leave the table, with a delEvent the kernel accepts.
      epoll_wait reports events of the interest mask, and errors whether asked for or not. */
  predicate Enabled(s: Sys, step: Step) {
    match step
    case AddEvent(fd, e, body, ok) =>
      body != Null && fd < |Ensure(s.io.fds, fd)| && !Ensure(s.io.fds, fd)[fd].events.Has(e)
    case DelEvent(fd, _) => fd < |s.io.fds|
    case CancelEvent(fd, _, _) => fd < |s.io.fds|
    case CancelAllEvents(fd, _) => fd < |s.io.fds|
    case Wait(fd, mask, error) =>
      fd in s.io.kernel && (mask.read ==> s.io.kernel[fd].read) && (mask.write ==> s.io.kernel[fd].write)
    case DispatchEvent(k, ok) => k < |s.reports| && s.reports[k].fd < |s.io.fds| && Dispatchable(s, k, ok)
  }

  /** Dispatching the k-th report does not fail the assertion of triggerEvent. */
  predicate Dispatchable(s: Sys, k: nat, ok: bool)
    requires k < |s.reports| && s.reports[k].fd < |s.io.fds|
  {
    DispatchAsserts(s.io, s.reports[k].fd, s.reports[k].mask, s.reports[k].error, ok)
  }

  function Changed(s: Sys, step: Step): Io
    requires Enabled(s, step)
  {
    match step
    case AddEvent(fd, e, body, ok) => Add(s.io, fd, e, body, ok)
    case DelEvent(fd, e) => Del(s.io, fd, e, true)
    case CancelEvent(fd, e, ok) => Cancel(s.io, fd, e, ok)
    case CancelAllEvents(fd, ok) => CancelAll(s.io, fd, ok)
    case Wait(_, _, _) => s.io
    case DispatchEvent(k, ok) => Dispatch(s.io, s.reports[k].fd, s.reports[k].mask, s.reports[k].error, ok)
  }

  function EventsOf(s: Io, fd: nat): Mask {
    if fd < |s.fds| then s.fds[fd].events else Mask(false, false)
  }

  /** Removed, added again, or as it was. */
  function Lost(reported: bool, gone: bool, before: bool, after: bool): bool {
    reported && (if before && !after then true else if !before && after then false else gone)
  }

  function Note(r: Report, before: Mask, after: Mask): Report {
    r.(gone := Mask(Lost(r.mask.read, r.gone.read, before.read, after.read),
                    Lost(r.mask.write, r.gone.write, before.write, after.write)))
  }

  function NoteAll(rs: seq<Report>, s: Io, t: Io): (us: seq<Report>)
    ensures |us| == |rs|
    ensures forall i :: 0 <= i < |rs| ==> us[i] == Note(rs[i], EventsOf(s, rs[i].fd), EventsOf(t, rs[i].fd))
  {
    if rs == [] then []
    else
      var r := rs[|rs| - 1];
      NoteAll(rs[..|rs| - 1], s, t) + [Note(r, EventsOf(s, r.fd), EventsOf(t, r.fd))]
  }

  function Apply(s: Sys, step: Step): Sys
    requires Enabled(s, step)
  {
    var t := Changed(s, step);
    match step
    case Wait(fd, mask, error) => Sys(t, s.reports + [Report(fd, mask, error, Mask(false, false))])
    case DispatchEvent(k, _) => Sys(t, NoteAll(s.reports[..k] + s.reports[k + 1..], s.io, t))
    case _ => Sys(t, NoteAll(s.reports, s.io, t))
  }

  function Next(s: Sys, step: Step): Option<Sys> {
    if Enabled(s, step) then Some(Apply(s, step)) else None
  }

  /** The constructor's 32 contexts. */
  function Fresh(): Sys {
    Sys(Io(Resize([], 32), map[], 0, [], multiset{}, multiset{}), [])
  }

  /** What a report has noted is so. */
  predicate ReportOk(s: Io, r: Report) {
    && r.fd < |s.fds|
    && (r.gone.read <==> r.mask.read && !s.fds[r.fd].events.read)
    && (r.gone.write <==> r.mask.write && !s.fds[r.fd].events.write)
  }

  ghost predicate SysInv(s: Sys) {
    Inv(s.io) && forall i :: 0 <= i < |s.reports| ==> ReportOk(s.io, s.reports[i])
  }

  lemma ChangedKeeps(s: Sys, step: Step)
    requires SysInv(s) && Enabled(s, step)
    ensures Inv(Changed(s, step)) && |s.io.fds| <= |Changed(s, step).fds|
  {
    match step {
      case AddEvent(fd, e, body, ok) => AddKeepsInv(s.io, fd, e, body, ok);
      case DelEvent(fd, e) => DelKeepsInv(s.io, fd, e);
      case CancelEvent(fd, e, ok) => CancelKeepsInv(s.io, fd, e, ok);
      case CancelAllEvents(fd, ok) => CancelAllKeepsInv(s.io, fd, ok);
      case Wait(_, _, _) =>
      case DispatchEvent(k, ok) =>
        var r := s.reports[k];
        DispatchKeepsInv(s.io, r.fd, r.mask, r.error, ok);
    }
  }

  lemma NoteOk(s: Io, t: Io, r: Report)
    requires ReportOk(s, r) && |s.fds| <= |t.fds|
    ensures ReportOk(t, Note(r, EventsOf(s, r.fd), EventsOf(t, r.fd)))
  {
  }

  lemma StepKeepsInv(s: Sys, step: Step)
    requires SysInv(s) && Enabled(s, step)
    ensures SysInv(Apply(s, step))
  {
    var t, u := Changed(s, step), Apply(s, step);
    ChangedKeeps(s, step);
    forall i | 0 <= i < |u.reports|
      ensures ReportOk(t, u.reports[i])
    {
      if step.Wait? {
        assert FdOk(s.io, step.fd);
      } else {
        var r := s.reports[if step.DispatchEvent? && i >= step.k then i + 1 else i];
        NoteOk(s.io, t, r);
      }
    }
  }

  /** In every run, failed epoll_ctl calls in add, cancel and dispatch included: the counter is
      the number of registered bits, contexts follow bits, the kernel's masks are the table's,
      added registrations are waiting, queued or deleted, and what reports have noted is so. */
  lemma EveryRunKeepsInv(steps: seq<Step>, s: Sys)
    requires Leads(Next, Fresh(), steps, s)
    ensures SysInv(s)
  {
    StartInv();
    forall m, step | SysInv(m) && Next(m, step).Some?
      ensures SysInv(Next(m, step).value)
    {
      StepKeepsInv(m, step);
    }
    Invariant(Next, SysInv, Fresh(), steps, s);
  }

  /** Dispatching a report is safe exactly when none of the reported events has been removed since
      epoll_wait returned, or all of them have and no error makes other events count as reported,
      or epoll_ctl refuses. */
  lemma DispatchSafeIff(steps: seq<Step>, s: Sys, k: nat, ok: bool)
    requires Leads(Next, Fresh(), steps, s) && k < |s.reports|
    ensures s.reports[k].fd < |s.io.fds|
    ensures var r := s.reports[k];
      Dispatchable(s, k, ok) <==>
        || r.gone.Empty()
        || (r.gone == r.mask && !(r.error && !s.io.fds[r.fd].events.Empty()))
        || !ok
  {
    EveryRunKeepsInv(steps, s);
    assert ReportOk(s.io, s.reports[k]);
  }

  // ---- runs that go wrong -------------------------------------------------------------

  ghost predicate Reached(s: Sys) {
    SysInv(s) && Reachable(Next, Fresh(), s)
  }

  lemma Do(s: Sys, step: Step) returns (u: Sys)
    requires Reached(s) && Enabled(s, step)
    ensures Reached(u) && u == Apply(s, step)
  {
    StepKeepsInv(s, step);
    u := Reach(Next, Fresh(), s, step);
  }

  lemma Begin() returns (s: Sys)
    ensures Reached(s) && s == Fresh()
  {
    StartInv();
    s := Fresh();
    Runs.Start(Next, s);
  }

  /** Reading is registered on descriptor 0. */
  lemma Reading() returns (s: Sys)
    ensures Reached(s) && s.reports == [] && s.io.fds[0].events == Mask(true, false)
  {
    var f := Begin();
    s := Do(f, AddEvent(0, Read, OfCallback(1), true));
  }

  /** A delEvent that epoll_ctl refuses: the kernel keeps an event that the table has dropped. */
  lemma DelBreaksInv() returns (s: Sys)
    ensures Reached(s) && s.io.fds[0].events.Has(Read) && !Inv(Del(s.io, 0, Read, false))
  {
    s := Reading();
    DelKeepsInvIff(s.io, 0, Read, false);
  }

  /** Both events are reported, another thread cancels one of them, the report is dispatched: the
      assertion of triggerEvent fails. */
  lemma StaleReportAborts() returns (s: Sys)
    ensures Reached(s) && |s.reports| == 1 && s.reports[0].fd < |s.io.fds| && !Dispatchable(s, 0, true)
  {
    var a := Reading();
    assert FdOk(a.io, 0);
    var b := Do(a, AddEvent(0, Write, OfCallback(2), true));
    assert FdOk(b.io, 0) && b.io.fds[0].events == Mask(true, true);
    var c := Do(b, Wait(0, Mask(true, true), false));
    s := Do(c, CancelEvent(0, Write, true));
    assert s.io.fds[0].events == Mask(true, false);
  }
}
