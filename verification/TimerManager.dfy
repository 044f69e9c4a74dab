/**
 TimerManager and Timer as code (dag/timer.cpp): each method is proved against the function of
 the same operation.
 */
module TimerManagers {
  import opened Runs
  import opened Timers
  import opened TimerExpiry

  class TimerManager {
    var recs: map<Id, Timer>
    var order: seq<Id>
    var tickled: bool
    var previous: Time

    ghost function View(): Manager
      reads this
    {
      Manager(recs, order, tickled, previous)
    }

    constructor (now: Time)
      ensures Ok(View()) && View() == Manager(map[], [], false, now)
    {
      recs, order, tickled, previous := map[], [], false, now;
    }

    /** std::set::lower_bound on the deadlines. */
    method FindFrom(key: Time) returns (p: nat)
      requires Sorted(recs, order)
      ensures p == LowerBound(recs, order, key)
    {
      p := 0;
      while p < |order| && recs[order[p]].next < key
        invariant p <= |order|
        invariant forall j :: 0 <= j < p ==> recs[order[j]].next < key
      {
        p := p + 1;
      }
      var q := LowerBound(recs, order, key);
    }

    /** std::set::insert: dropped if the deadline is taken; p is where the deadline is then. */
    method InsertTimer(id: Id) returns (p: nat)
      requires Sorted(recs, order) && id in recs
      modifies this`order
      ensures order == Insert(recs, old(order), id)
      ensures p == LowerBound(recs, old(order), recs[id].next)
    {
      p := FindFrom(recs[id].next);
      if p == |order| || recs[order[p]].next != recs[id].next {
        order := Put(order, p, id);
      }
    }

    /** The deadline's entry is erased, whichever timer holds it. */
    method EraseKey(key: Time) returns (found: bool)
      requires Sorted(recs, order)
      modifies this`order
      ensures order == Erase(recs, old(order), key) && found == HasKey(recs, old(order), key)
    {
      var p := FindFrom(key);
      found := p < |order| && recs[order[p]].next == key;
      if found {
        order := Cut(order, p);
      }
    }

    /** addTimer(timer): true if the caller has to tickle. */
    method AddTimer(id: Id) returns (atFront: bool)
      requires Ok(View()) && id in recs
      modifies this`order, this`tickled
      ensures (View(), atFront) == AddToSet(old(View()), id)
      ensures Ok(View())
      ensures forall x :: x != id ==> (x in order <==> x in old(order))
      ensures id in order <==> id in old(order) || forall x :: x in old(order) ==> recs[x].next != recs[id].next
      ensures atFront <==> !old(tickled) && forall x :: x in old(order) ==> recs[x].next >= recs[id].next
    {
      InsertSorted(recs, order, id);
      HasKeyMeans(recs, order, recs[id].next);
      FrontMeans(recs, order, recs[id].next);
      var p := InsertTimer(id);
      atFront := p == 0 && !tickled;
      if atFront {
        tickled := true;
      }
    }

    /** addTimer(ms, cb, recurring): a new timer object, then addTimer(timer). */
    method NewTimer(id: Id, ms: nat, cb: nat, recurring: bool, now: Time) returns (atFront: bool)
      requires Ok(View()) && id !in recs
      modifies this`recs, this`order, this`tickled
      ensures (View(), atFront) == Add(old(View()), id, ms, cb, recurring, now)
      ensures Ok(View())
      ensures id in recs && recs == old(recs)[id := recs[id]]
      ensures recs[id].ms == ms && recs[id].cb == Some(cb) && recs[id].recurring == recurring
      ensures recs[id].next - now == ms * 1_000_000
      ensures forall x :: x != id ==> (x in order <==> x in old(order))
      ensures id in order <==> forall x :: x in old(order) ==> recs[x].next != recs[id].next
      ensures atFront <==> !old(tickled) && forall x :: x in old(order) ==> recs[x].next >= recs[id].next
    {
      var t := Timer(recurring, ms, Deadline(now, ms), Some(cb));
      ReplaceOutside(recs, order, id, t);
      recs := recs[id := t];
      atFront := AddTimer(id);
    }

    method CancelTimer(id: Id) returns (ok: bool)
      requires Ok(View()) && id in recs
      modifies this`recs, this`order
      ensures (View(), ok) == Cancel(old(View()), id)
      ensures Ok(View())
      ensures ok <==> old(recs)[id].cb != None
      ensures ok ==> recs == old(recs)[id := old(recs)[id].(cb := None)]
      ensures ok ==> forall x :: x in order <==> x in old(order) && old(recs)[x].next != old(recs)[id].next
      ensures !ok ==> recs == old(recs) && order == old(order)
    {
      CancelOk(View(), id);
      EraseSorted(recs, order, recs[id].next);
      if recs[id].cb == None {
        return false;
      }
      var found := EraseKey(recs[id].next);
      recs := recs[id := recs[id].(cb := None)];
      return true;
    }

    /** A timer out of the set gets a new deadline and is inserted. */
    method InsertAt(ghost s: Manager, id: Id, now: Time)
      requires Ok(s) && id in s.recs && CanReset(s, id) && View() == TakeOut(s, id)
      modifies this`recs, this`order
      ensures View() == Refresh(s, id, now).0
    {
      RefreshIs(s, id, now, recs[id := recs[id].(next := Deadline(now, recs[id].ms))], order);
      recs := recs[id := recs[id].(next := Deadline(now, recs[id].ms))];
      var p := InsertTimer(id);
    }

    method RefreshTimer(id: Id, now: Time) returns (ok: bool)
      requires Ok(View()) && id in recs
      modifies this`recs, this`order
      ensures Ok(View()) && View() == Refresh(old(View()), id, now).0
      ensures ok <==> old(recs)[id].cb != None && exists x ::
        x in old(order) && old(recs)[x].next == old(recs)[id].next
      ensures !ok ==> View() == old(View())
      ensures Spared(old(recs), id, recs) && recs[id].ms == old(recs)[id].ms
      ensures ok ==> recs[id].next - now == recs[id].ms * 1_000_000
      ensures ok ==> Moved(old(recs), old(order), id, recs, order)
    {
      RefreshMeans(View(), id, now);
      CanResetMeans(View(), id);
      ok := ResetErase(id);
      if ok {
        InsertAt(old(View()), id, now);
      }
    }

    /** How refresh and reset begin, under the lock: false if there is no callback or no such deadline. */
    method ResetErase(id: Id) returns (ok: bool)
      requires Ok(View()) && id in recs
      modifies this`order
      ensures ok <==> CanReset(old(View()), id)
      ensures View() == if ok then TakeOut(old(View()), id) else old(View())
      ensures Ok(View())
      ensures ok <==> recs[id].cb != None && exists x :: x in old(order) && recs[x].next == recs[id].next
      ensures ok ==> forall x :: x in order <==> x in old(order) && recs[x].next != recs[id].next
    {
      EraseSorted(recs, order, recs[id].next);
      CanResetMeans(View(), id);
      if recs[id].cb == None {
        return false;
      }
      ok := EraseKey(recs[id].next);
    }

    /** The rest of reset: period and deadline without the lock, then addTimer. */
    method ResetInsert(id: Id, ms: nat, fromNow: bool, now: Time) returns (atFront: bool)
      requires Ok(View()) && id in recs && id !in order
      modifies this`recs, this`order, this`tickled
      ensures (View(), atFront) == PutBack(old(View()), id, ms, fromNow, now)
      ensures Ok(View()) && Spared(old(recs), id, recs) && recs[id].ms == ms
      ensures fromNow ==> recs[id].next - now == ms * 1_000_000
      ensures !fromNow ==> recs[id].next - old(recs)[id].next == (ms - old(recs)[id].ms) * 1_000_000
      ensures forall x :: x != id ==> (x in order <==> x in old(order))
      ensures id in order <==> forall x :: x in old(order) ==> recs[x].next != recs[id].next
      ensures atFront <==> !old(tickled) && forall x :: x in old(order) ==> recs[x].next >= recs[id].next
    {
      RewriteOk(View(), id, ms, fromNow, now);
      var t := Rearmed(recs[id], ms, fromNow, now);
      RearmedMeans(recs[id], ms, fromNow, now, t);
      recs := recs[id := t];
      atFront := AddTimer(id);
    }

    /** reset with nobody in between: true, and whether the caller has to tickle. */
    method ResetTimer(id: Id, ms: nat, fromNow: bool, now: Time) returns (ok: bool, atFront: bool)
      requires Ok(View()) && id in recs
      modifies this`recs, this`order, this`tickled
      ensures Ok(View()) && Spared(old(recs), id, recs)
      ensures ok <==>
        || (ms == old(recs)[id].ms && !fromNow)
        || (old(recs)[id].cb != None && exists x :: x in old(order) && old(recs)[x].next == old(recs)[id].next)
      ensures (ms == old(recs)[id].ms && !fromNow) || !ok ==> View() == old(View()) && !atFront
      ensures ok ==> recs[id].ms == ms
      ensures ok && fromNow ==> recs[id].next - now == ms * 1_000_000
      ensures ok && !fromNow ==> recs[id].next - old(recs)[id].next == (ms - old(recs)[id].ms) * 1_000_000
      ensures ok && !(ms == old(recs)[id].ms && !fromNow) ==> Moved(old(recs), old(order), id, recs, order)
      ensures !(ms == old(recs)[id].ms && !fromNow) && ok ==>
        (View(), atFront) == PutBack(TakeOut(old(View()), id), id, ms, fromNow, now)
    {
      CanResetMeans(View(), id);
      if ms == recs[id].ms && !fromNow {
        return true, false;
      }
      atFront := false;
      ok := ResetErase(id);
      if ok {
        atFront := ResetInsert(id, ms, fromNow, now);
        ResetMeans(old(View()), id, ms, fromNow, now, View());
      }
    }

    /** getNextTimer at time now: None without timers; otherwise nobody is due before the timeout,
        a whole number of milliseconds, has passed, and somebody is before one more has. */
    method GetNextTimer(now: Time) returns (timeout: Option<nat>)
      requires Ok(View())
      modifies this`tickled
      ensures View() == old(View()).(tickled := false)
      ensures timeout == None <==> order == []
      ensures timeout.Some? && timeout.value > 0 ==>
        forall x :: x in order ==> recs[x].next - now >= timeout.value * 1_000_000
      ensures timeout.Some? ==> exists x :: x in order && recs[x].next - now < (timeout.value + 1) * 1_000_000
      ensures timeout == NextTimeout(View(), now)
    {
      FrontFirst(recs, order);
      tickled := false;
      if order == [] {
        return None;
      }
      var time := recs[order[0]].next;
      assert order[0] in order;
      if now >= time {
        return Some(0);
      }
      return Some(Millis(time - now));
    }

    /** The body of the expiry loop. */
    method FireFrontTimer(now: Time)
      requires Ok(View()) && order != []
      modifies this`recs, this`order
      ensures View() == Fire(old(View()), now)
    {
      var id, t := order[0], recs[order[0]];
      order := order[1..];
      if t.recurring {
        FireRecurring(old(View()), now, recs[id := t.(next := Deadline(now, t.ms))]);
        TailOk(old(View()), id, t.(next := Deadline(now, t.ms)));
        recs := recs[id := t.(next := Deadline(now, t.ms))];
        var p := InsertTimer(id);
      } else {
        FireOneShot(old(View()), now);
        recs := recs[id := t.(cb := None)];
      }
    }

    /** The loop of listExpiredCb. */
    method TakeDue(now: Time, rollover: bool) returns (cbs: seq<Option<nat>>)
      requires Ok(View()) && Ends(View(), now, rollover)
      modifies this`recs, this`order
      ensures View() == Rounds(old(View()), now, DueCount(old(View()), now, rollover))
      ensures cbs == DueCallbacks(old(View()), now, rollover)
    {
      ghost var s, i := View(), 0;
      LoopStart(s, now, rollover);
      cbs := [];
      while order != [] && (rollover || recs[order[0]].next <= now)
        invariant LoopOf(s, now, rollover)(i, View(), cbs)
        invariant Ok(View())
        decreases |s.order| - i
      {
        LoopRound(s, now, rollover, i, i + 1, View(), cbs);
        cbs := cbs + [recs[order[0]].cb];
        FireFrontTimer(now);
        i := i + 1;
      }
      LoopExit(s, now, rollover, i, View(), cbs);
    }

    /** listExpiredCb; now is read before the lock is taken, clock under it. */
    method ListExpired(now: Time, clock: Time) returns (cbs: seq<Option<nat>>)
      requires Ok(View()) && Ends(View(), now, Rollover(View(), clock))
      modifies this
      ensures var over := clock < old(previous) - 3_600_000_000_000;
        && |cbs| <= |old(order)|
        && (forall i :: 0 <= i < |old(order)| ==> (i < |cbs| <==> over || old(recs)[old(order)[i]].next <= now))
        && (forall i :: 0 <= i < |cbs| ==> cbs[i] == old(recs)[old(order)[i]].cb)
      ensures Expired(old(View()), now, |cbs|, View()) && previous == clock
      ensures View() == Expire(old(View()), now, clock).0
      ensures cbs == DueCallbacks(old(View()), now, Rollover(old(View()), clock))
    {
      var rollover := clock < previous - HOUR;
      ExpireMeans(View(), now, clock);
      DueAre(View(), now, rollover);
      CalmSame(View(), clock, now, rollover, DueCount(View(), now, rollover));
      previous := clock;
      cbs := TakeDue(now, rollover);
    }
  }

  /** The callbacks of the due timers, front first. */
  function DueCallbacks(s: Manager, now: Time, rollover: bool): seq<Option<nat>>
    requires Ok(s)
  {
    Callbacks(s.recs, s.order[..DueCount(s, now, rollover)])
  }

  lemma FrontMeans(recs: map<Id, Timer>, order: seq<Id>, key: Time)
    requires Sorted(recs, order)
    ensures LowerBound(recs, order, key) == 0 <==> forall x :: x in order ==> recs[x].next >= key
  {
    FrontFirst(recs, order);
    if order != [] {
      assert order[0] in order;
    }
  }

  lemma FrontFirst(recs: map<Id, Timer>, order: seq<Id>)
    requires Sorted(recs, order)
    ensures forall x :: x in order ==> recs[order[0]].next <= recs[x].next
  {
    forall x | x in order
      ensures recs[order[0]].next <= recs[x].next
    {
      var i :| 0 <= i < |order| && order[i] == x;
      assert i > 0 ==> recs[order[0]].next < recs[order[i]].next;
    }
  }

  /** i rounds have led from s to t and delivered cbs. */
  ghost predicate InLoop(s: Manager, now: Time, rollover: bool, i: nat, t: Manager, cbs: seq<Option<nat>>) {
    && Ok(s) && Ends(s, now, rollover) && t == Rounds(s, now, i)
    && Mid(s, now, rollover, DueCount(s, now, rollover), i, t)
    && Delivered(s, i, cbs)
  }

  /** InLoop, as a property of the rounds done, the state and the callbacks. */
  ghost function LoopOf(s: Manager, now: Time, rollover: bool): (nat, Manager, seq<Option<nat>>) -> bool {
    (i: nat, t: Manager, cbs: seq<Option<nat>>) => InLoop(s, now, rollover, i, t, cbs)
  }

  /** cbs holds the callbacks of the first i timers. */
  ghost predicate Delivered(s: Manager, i: nat, cbs: seq<Option<nat>>)
    requires Ok(s)
  {
    i <= |s.order| && |cbs| == i && forall j :: 0 <= j < i ==> cbs[j] == s.recs[s.order[j]].cb
  }

  lemma LoopStart(s: Manager, now: Time, rollover: bool)
    requires Ok(s) && Ends(s, now, rollover)
    ensures LoopOf(s, now, rollover)(0, s, [])
  {
    MidStart(s, now, rollover);
  }

  lemma LoopRound(s: Manager, now: Time, rollover: bool, i: nat, next: nat, t: Manager, cbs: seq<Option<nat>>)
    requires LoopOf(s, now, rollover)(i, t, cbs) && Ok(t) && Guard(t, now, rollover) && next == i + 1
    ensures i < |s.order| && Ok(Fire(t, now))
    ensures LoopOf(s, now, rollover)(next, Fire(t, now), cbs + [t.recs[t.order[0]].cb])
  {
    MidRound(s, now, rollover, i, next, t, cbs);
    RoundsNext(s, now, next, t);
  }

  lemma MidRound(s: Manager, now: Time, rollover: bool, i: nat, next: nat, t: Manager, cbs: seq<Option<nat>>)
    requires Ok(s) && Ends(s, now, rollover) && Mid(s, now, rollover, DueCount(s, now, rollover), i, t)
    requires Delivered(s, i, cbs) && Ok(t) && Guard(t, now, rollover) && next == i + 1
    ensures i < |s.order| && Ok(Fire(t, now))
    ensures Mid(s, now, rollover, DueCount(s, now, rollover), next, Fire(t, now))
    ensures Delivered(s, next, cbs + [t.recs[t.order[0]].cb])
  {
    var k := DueCount(s, now, rollover);
    MidGuard(s, now, rollover, k, i, t);
    FrontOfMid(s, now, rollover, k, i, t);
    MidStep(s, now, rollover, k, i, t);
  }

  lemma FrontOfMid(s: Manager, now: Time, rollover: bool, k: nat, i: nat, t: Manager)
    requires Ok(s) && k == DueCount(s, now, rollover) && Mid(s, now, rollover, k, i, t) && i < k
    ensures t.order != [] && t.order[0] in t.recs
    ensures t.recs[t.order[0]].cb == s.recs[s.order[i]].cb
  {
    RestOrder(s, now, rollover, k, i, t);
  }

  lemma LoopExit(s: Manager, now: Time, rollover: bool, i: nat, t: Manager, cbs: seq<Option<nat>>)
    requires LoopOf(s, now, rollover)(i, t, cbs) && Ok(t) && !Guard(t, now, rollover)
    ensures i == DueCount(s, now, rollover) && t == Rounds(s, now, i)
    ensures cbs == DueCallbacks(s, now, rollover)
  {
    MidGuard(s, now, rollover, DueCount(s, now, rollover), i, t);
    assert forall j :: 0 <= j < i ==> s.order[..i][j] == s.order[j];
  }

  /** The callbacks of the timers, in order. */
  function Callbacks(recs: map<Id, Timer>, ids: seq<Id>): (cbs: seq<Option<nat>>)
    requires forall i :: 0 <= i < |ids| ==> ids[i] in recs
    ensures |cbs| == |ids| && forall i :: 0 <= i < |ids| ==> cbs[i] == recs[ids[i]].cb
  {
    if ids == [] then []
    else Callbacks(recs, ids[..|ids| - 1]) + [recs[ids[|ids| - 1]].cb]
  }
}
