/**
 IOManager's event methods (dag/ioscheduler.cpp) as code, against the value-level steps of
 IOEvents.  What epoll_ctl answers is a parameter.
 */
module IOManagers {
  import opened TaskQueue
  import opened IOEvents

  datatype Ctl = CtlAdd | CtlMod | CtlDel

  datatype Result = Done | Refused | Aborted

  class IOManager {
    var fds: seq<Fd>
    var kernel: map<nat, Mask>
    var pending: int
    var queue: seq<Task>
    ghost var added: multiset<Body>
    ghost var deleted: multiset<Body>

    ghost function View(): Io
      reads this
    {
      Io(fds, kernel, pending, queue, added, deleted)
    }

    constructor ()
      ensures Inv(View())
      ensures fds == seq(32, i => Fd(Mask(false, false), Null, Null)) && kernel == map[] && pending == 0 && queue == []
    {
      fds, kernel, pending, queue := Resize([], 32), map[], 0, [];
      added, deleted := multiset{}, multiset{};
      new;
      StartInv();
    }

    /** epoll_ctl: ADD is meant for descriptors epoll does not know, MOD and DEL for those it
        does; a refused call changes nothing. */
    method EpollCtl(op: Ctl, fd: nat, mask: Mask, ok: bool) returns (rt: bool)
      requires op == CtlAdd <==> fd !in kernel
      requires op == CtlDel <==> mask.Empty()
      modifies this`kernel
      ensures rt == ok
      ensures kernel == if ok then Kernel(old(kernel), fd, mask) else old(kernel)
    {
      rt := ok;
      if ok {
        kernel := if op == CtlDel then kernel - {fd} else kernel[fd := mask];
      }
    }

    /** triggerEvent, and the --m_pendingEvenCount that goes with each call. */
    method TriggerEvent(fd: nat, e: Event)
      requires fd < |fds| && fds[fd].events.Has(e)
      modifies this`fds, this`queue, this`pending
      ensures View() == Trigger(old(View()), fd, e)
    {
      var x := fds[fd];
      var task := Task(x.Ctx(e), -1);
      x := x.(events := x.events.Minus(e));
      if task.body != Null {
        queue := queue + [task];
      }
      fds := fds[fd := x.SetCtx(e, Null)];
      pending := pending - 1;
    }

    /** How addEvent finds the context of fd: the table grows to 1.5 times fd if it ends before. */
    method EnsureContext(fd: nat)
      requires |fds| >= 32
      modifies this`fds
      ensures |fds| == (if fd < |old(fds)| then |old(fds)| else fd * 3 / 2) && fd < |fds|
      ensures forall g :: 0 <= g < |fds| ==> fds[g] == At(old(fds), g)
      ensures fds == Ensure(old(fds), fd)
    {
      if fd >= |fds| {
        fds := Resize(fds, fd * 3 / 2);
      }
    }

    /** The rest of addEvent, once the descriptor has a context. */
    method Register(fd: nat, e: Event, body: Body, ok: bool) returns (r: Result)
      requires Inv(View()) && body != Null && fd < |fds|
      modifies this
      ensures r == Aborted <==> (e == Read && old(fds)[fd].events.read) || (e == Write && old(fds)[fd].events.write)
      ensures r == Done <==> ok && r != Aborted
      ensures r != Done ==> View() == old(View())
      ensures var x := old(fds)[fd];
        && (r == Done && e == Read ==> fds == old(fds)[fd := Fd(Mask(true, x.events.write), body, x.writeCtx)])
        && (r == Done && e == Write ==> fds == old(fds)[fd := Fd(Mask(x.events.read, true), x.readCtx, body)])
      ensures r == Done ==> kernel == old(kernel)[fd := fds[fd].events] && pending == old(pending) + 1
      ensures queue == old(queue)
      ensures r != Aborted ==> View() == Add(old(View()), fd, e, body, ok) && Inv(View())
    {
      assert FdOk(View(), fd);
      var x := fds[fd];
      if x.events.Has(e) {
        return Aborted;
      }
      AddKeepsInv(View(), fd, e, body, ok);
      var op := if x.events.Empty() then CtlAdd else CtlMod;
      var rt := EpollCtl(op, fd, x.events.With(e), ok);
      if !rt {
        return Refused;
      }
      pending := pending + 1;
      fds := fds[fd := x.(events := x.events.With(e)).SetCtx(e, body)];
      added := added + multiset{body};
      return Done;
    }

    /** addEvent: body is the callback, or the running fiber if there is none. */
    method AddEvent(fd: nat, e: Event, body: Body, ok: bool) returns (r: Result)
      requires Inv(View()) && body != Null
      modifies this
      ensures |fds| == (if fd < |old(fds)| then |old(fds)| else fd * 3 / 2) && fd < |fds|
      ensures r == Aborted <==>
        && fd < |old(fds)|
        && ((e == Read && old(fds)[fd].events.read) || (e == Write && old(fds)[fd].events.write))
      ensures r == Done <==> ok && r != Aborted
      ensures forall g :: 0 <= g < |fds| && (r == Done ==> g != fd) ==> fds[g] == At(old(fds), g)
      ensures var x := At(old(fds), fd);
        && (r == Done && e == Read ==> fds[fd] == Fd(Mask(true, x.events.write), body, x.writeCtx))
        && (r == Done && e == Write ==> fds[fd] == Fd(Mask(x.events.read, true), x.readCtx, body))
      ensures kernel == if r == Done then old(kernel)[fd := fds[fd].events] else old(kernel)
      ensures pending == old(pending) + (if r == Done then 1 else 0) && queue == old(queue)
      ensures r != Aborted ==> View() == Add(old(View()), fd, e, body, ok) && Inv(View())
    {
      EnsureContext(fd);
      AddGrown(old(View()), fd, e, body, ok, View());
      r := Register(fd, e, body, ok);
    }

    method DelEvent(fd: nat, e: Event, ok: bool) returns (r: bool)
      requires Inv(View()) && fd < |fds|
      modifies this
      ensures r <==> (e == Read && old(fds)[fd].events.read) || (e == Write && old(fds)[fd].events.write)
      ensures var x := old(fds)[fd];
        && (r && e == Read ==> fds == old(fds)[fd := Fd(Mask(false, x.events.write), Null, x.writeCtx)])
        && (r && e == Write ==> fds == old(fds)[fd := Fd(Mask(x.events.read, false), x.readCtx, Null)])
      ensures r && ok ==> kernel == Watched(old(kernel), fd, fds[fd].events)
      ensures r && !ok ==> kernel == old(kernel)
      ensures r ==> pending == old(pending) - 1 && queue == old(queue)
      ensures !r ==> View() == old(View())
      ensures View() == Del(old(View()), fd, e, ok)
      ensures Inv(View()) <==> ok || !r
    {
      DelKeepsInvIff(View(), fd, e, ok);
      assert FdOk(View(), fd);
      var x := fds[fd];
      if !x.events.Has(e) {
        return false;
      }
      var left := x.events.Minus(e);
      var op := if left.Empty() then CtlDel else CtlMod;
      var rt := EpollCtl(op, fd, left, ok);
      pending := pending - 1;
      deleted := deleted + multiset{x.Ctx(e)};
      fds := fds[fd := x.(events := left).SetCtx(e, Null)];
      return true;
    }

    method CancelEvent(fd: nat, e: Event, ok: bool) returns (r: bool)
      requires Inv(View()) && fd < |fds|
      modifies this
      ensures r <==> ok && ((e == Read && old(fds)[fd].events.read) || (e == Write && old(fds)[fd].events.write))
      ensures var x := old(fds)[fd];
        && (r && e == Read ==>
              && fds == old(fds)[fd := Fd(Mask(false, x.events.write), Null, x.writeCtx)]
              && queue == old(queue) + [Task(x.readCtx, -1)])
        && (r && e == Write ==>
              && fds == old(fds)[fd := Fd(Mask(x.events.read, false), x.readCtx, Null)]
              && queue == old(queue) + [Task(x.writeCtx, -1)])
      ensures r ==> kernel == Watched(old(kernel), fd, fds[fd].events) && pending == old(pending) - 1
      ensures !r ==> View() == old(View())
      ensures View() == Cancel(old(View()), fd, e, ok) && Inv(View())
    {
      CancelKeepsInv(View(), fd, e, ok);
      assert FdOk(View(), fd);
      var x := fds[fd];
      if !x.events.Has(e) {
        return false;
      }
      var left := x.events.Minus(e);
      var op := if left.Empty() then CtlDel else CtlMod;
      var rt := EpollCtl(op, fd, left, ok);
      if !rt {
        return false;
      }
      TriggerEvent(fd, e);
      return true;
    }

    method CancelAllEvents(fd: nat, ok: bool) returns (r: bool)
      requires Inv(View()) && fd < |fds|
      modifies this
      ensures r <==> ok && (old(fds)[fd].events.read || old(fds)[fd].events.write)
      ensures r ==> fds == old(fds)[fd := Fd(Mask(false, false), Null, Null)] && kernel == old(kernel) - {fd}
      ensures var x := old(fds)[fd];
        r ==> && queue == old(queue) + (if x.events.read then [Task(x.readCtx, -1)] else [])
                                     + (if x.events.write then [Task(x.writeCtx, -1)] else [])
              && pending == old(pending) - (if x.events.read && x.events.write then 2 else 1)
      ensures !r ==> View() == old(View())
      ensures View() == CancelAll(old(View()), fd, ok) && Inv(View())
    {
      CancelAllKeepsInv(View(), fd, ok);
      assert FdOk(View(), fd);
      if fds[fd].events.Empty() {
        return false;
      }
      var rt := EpollCtl(CtlDel, fd, Mask(false, false), ok);
      if !rt {
        return false;
      }
      if fds[fd].events.read {
        TriggerEvent(fd, Read);
      }
      if fds[fd].events.write {
        TriggerEvent(fd, Write);
      }
      return true;
    }

    /** The triggers of the dispatch loop; aborted if the assertion of triggerEvent fails. */
    method TriggerSeen(fd: nat, seen: Mask) returns (aborted: bool)
      requires fd < |fds| && fds[fd].Ok()
      modifies this`fds, this`queue, this`pending
      ensures var x := old(fds)[fd];
        && (aborted <==> (seen.read && !x.events.read) || (seen.write && !x.events.write))
        && (!aborted ==>
              && fds == old(fds)[fd := Fd(Mask(x.events.read && !seen.read, x.events.write && !seen.write),
                                          if seen.read then Null else x.readCtx,
                                          if seen.write then Null else x.writeCtx)]
              && queue == old(queue) + (if seen.read then [Task(x.readCtx, -1)] else [])
                                     + (if seen.write then [Task(x.writeCtx, -1)] else [])
              && pending == old(pending) - (if seen.read then 1 else 0) - (if seen.write then 1 else 0))
      ensures !aborted ==>
        View() == TriggerIf(TriggerIf(old(View()), fd, Read, seen.read), fd, Write, seen.write)
    {
      if seen.read {
        if !fds[fd].events.read {
          return true;
        }
        TriggerEvent(fd, Read);
      }
      if seen.write {
        if !fds[fd].events.write {
          return true;
        }
        TriggerEvent(fd, Write);
      }
      return false;
    }

    /** One round of the dispatch loop of idle; aborted if the assertion of triggerEvent fails. */
    method DispatchEvent(fd: nat, reported: Mask, error: bool, ok: bool) returns (aborted: bool)
      requires Inv(View()) && fd < |fds|
      modifies this
      ensures var x := old(fds)[fd];
        var read, write := x.events.read && (reported.read || error), x.events.write && (reported.write || error);
        && (aborted <==>
              && ok && (read || write)
              && ((reported.read && !x.events.read) || (reported.write && !x.events.write)))
        && (!aborted && ok && (read || write) ==>
              && fds == old(fds)[fd := Fd(Mask(x.events.read && !read, x.events.write && !write),
                                          if read then Null else x.readCtx, if write then Null else x.writeCtx)]
              && queue == old(queue) + (if read then [Task(x.readCtx, -1)] else [])
                                     + (if write then [Task(x.writeCtx, -1)] else [])
              && kernel == Watched(old(kernel), fd, fds[fd].events)
              && pending == old(pending) - (if read && write then 2 else 1))
        && (!ok || !(read || write) ==> View() == old(View()))
      ensures aborted <==> !DispatchAsserts(old(View()), fd, reported, error, ok)
      ensures !aborted ==> View() == Dispatch(old(View()), fd, reported, error, ok) && Inv(View())
    {
      if DispatchAsserts(View(), fd, reported, error, ok) {
        DispatchKeepsInv(View(), fd, reported, error, ok);
      }
      assert FdOk(View(), fd);
      var x := fds[fd];
      var seen := reported;
      if error {
        seen := Mask(seen.read || x.events.read, seen.write || x.events.write);
      }
      if !(x.events.read && seen.read) && !(x.events.write && seen.write) {
        return false;
      }
      var left := Mask(x.events.read && !seen.read, x.events.write && !seen.write);
      var op := if left.Empty() then CtlDel else CtlMod;
      var rt := EpollCtl(op, fd, left, ok);
      if !rt {
        return false;
      }
      aborted := TriggerSeen(fd, seen);
    }
  }

  /** Adding to the grown table is adding. */
  lemma AddGrown(s: Io, fd: nat, e: Event, body: Body, ok: bool, t: Io)
    requires Inv(s) && t == s.(fds := Ensure(s.fds, fd)) && fd < |t.fds|
    ensures Inv(t) && Add(t, fd, e, body, ok) == Add(s, fd, e, body, ok)
  {
    AgreedGrown(s, t);
    BalancedGrown(s, t);
  }

  /** A descriptor beyond the table has an unused context. */
  function At(fds: seq<Fd>, fd: nat): Fd {
    if fd < |fds| then fds[fd] else Fd(Mask(false, false), Null, Null)
  }

  /** epoll watches a descriptor for the events left, and forgets it if there are none. */
  function Watched(kernel: map<nat, Mask>, fd: nat, left: Mask): map<nat, Mask> {
    if left.read || left.write then kernel[fd := left] else kernel - {fd}
  }
}
