/**
 TimerManager (dag/timer.cpp): timers in an ordered set that looks only at their deadlines.
 Time is in clock ticks; a millisecond is 1,000,000 ticks (the clock counts nanoseconds).  Reading
 the clock is a parameter.
 */
module Timers {
  import opened Runs

  type Id = nat
  type Time = int

  const HOUR := 3_600_000_000_000

  /** Milliseconds as clock ticks. */
  function Ticks(ms: nat): nat {
    ms * 1_000_000
  }

  /** The deadline ms milliseconds after a point in time. */
  function Deadline(start: Time, ms: nat): Time {
    start + Ticks(ms)
  }

  /** Whole milliseconds in a stretch of time. */
  function Millis(ticks: nat): nat {
    ticks / 1_000_000
  }

  datatype Timer = Timer(recurring: bool, ms: nat, next: Time, cb: Option<nat>)

  /** recs: every timer object; order: m_timers, front first. */
  datatype Manager = Manager(recs: map<Id, Timer>, order: seq<Id>, tickled: bool, previous: Time)

  // ---- the ordered set ----------------------------------------------------------------

  predicate Known(recs: map<Id, Timer>, order: seq<Id>) {
    forall i :: 0 <= i < |order| ==> order[i] in recs
  }

  /** std::set with a comparator on m_next alone: one timer per deadline. */
  predicate Sorted(recs: map<Id, Timer>, order: seq<Id>) {
    Known(recs, order) &&
    forall i, j :: 0 <= i < j < |order| ==> recs[order[i]].next < recs[order[j]].next
  }

  /** The first position whose deadline is not before key. */
  function LowerBound(recs: map<Id, Timer>, order: seq<Id>, key: Time): (p: nat)
    requires Known(recs, order)
    ensures p <= |order|
    ensures forall j :: 0 <= j < p ==> recs[order[j]].next < key
    ensures p < |order| ==> recs[order[p]].next >= key
  {
    if order == [] || recs[order[0]].next >= key then 0
    else 1 + LowerBound(recs, order[1..], key)
  }

  predicate HasKey(recs: map<Id, Timer>, order: seq<Id>, key: Time)
    requires Known(recs, order)
  {
    var p := LowerBound(recs, order, key);
    p < |order| && recs[order[p]].next == key
  }

  /** m_timers.erase(find(...)): whatever timer has that deadline. */
  function Erase(recs: map<Id, Timer>, order: seq<Id>, key: Time): seq<Id>
    requires Known(recs, order)
  {
    var p := LowerBound(recs, order, key);
    if HasKey(recs, order, key) then Cut(order, p) else order
  }

  /** m_timers.insert(id): dropped if its deadline is taken. */
  function Insert(recs: map<Id, Timer>, order: seq<Id>, id: Id): seq<Id>
    requires Known(recs, order) && id in recs
  {
    var p := LowerBound(recs, order, recs[id].next);
    if HasKey(recs, order, recs[id].next) then order else Put(order, p, id)
  }

  /** A sequence without the element at position p. */
  function Cut(order: seq<Id>, p: nat): (r: seq<Id>)
    requires p < |order|
    ensures |r| == |order| - 1
    ensures forall i :: 0 <= i < p ==> r[i] == order[i]
    ensures forall i :: p <= i < |r| ==> r[i] == order[i + 1]
  {
    order[..p] + order[p + 1..]
  }

  lemma CutMembers(order: seq<Id>, p: nat, x: Id)
    requires p < |order|
    ensures x in order <==> x in Cut(order, p) || x == order[p]
  {
    assert order == order[..p] + [order[p]] + order[p + 1..];
  }

  lemma CutSorted(recs: map<Id, Timer>, order: seq<Id>, p: nat)
    requires Sorted(recs, order) && p < |order|
    ensures Sorted(recs, Cut(order, p)) && order[p] !in Cut(order, p)
  {
    var r := Cut(order, p);
    forall i, j | 0 <= i < j < |r|
      ensures r[i] in recs && r[j] in recs && recs[r[i]].next < recs[r[j]].next
    {
      assert r[i] == order[if i < p then i else i + 1] && r[j] == order[if j < p then j else j + 1];
    }
    forall i | 0 <= i < |r|
      ensures r[i] in recs && r[i] != order[p]
    {
      var a := if i < p then i else i + 1;
      assert r[i] == order[a] && (a < p ==> recs[order[a]].next < recs[order[p]].next);
      assert a > p ==> recs[order[p]].next < recs[order[a]].next;
    }
  }

  lemma EraseSorted(recs: map<Id, Timer>, order: seq<Id>, key: Time)
    requires Sorted(recs, order)
    ensures Sorted(recs, Erase(recs, order, key))
    ensures forall x :: x in Erase(recs, order, key) <==> x in order && recs[x].next != key
  {
    if HasKey(recs, order, key) {
      CutSorted(recs, order, LowerBound(recs, order, key));
    }
    forall x
      ensures x in Erase(recs, order, key) <==> x in order && recs[x].next != key
    {
      EraseMember(recs, order, key, x);
    }
  }

  lemma EraseMember(recs: map<Id, Timer>, order: seq<Id>, key: Time, x: Id)
    requires Sorted(recs, order)
    ensures x in Erase(recs, order, key) <==> x in order && recs[x].next != key
  {
    var p := LowerBound(recs, order, key);
    if HasKey(recs, order, key) {
      CutMembers(order, p, x);
      CutSorted(recs, order, p);
      if x in order {
        UniqueKey(recs, order, p, x);
      }
    } else if x in order {
      NoKey(recs, order, key, x);
    }
  }

  lemma UniqueKey(recs: map<Id, Timer>, order: seq<Id>, p: nat, x: Id)
    requires Sorted(recs, order) && p < |order| && x in order
    ensures recs[x].next == recs[order[p]].next <==> x == order[p]
  {
    var j :| 0 <= j < |order| && order[j] == x;
    assert j < p ==> recs[order[j]].next < recs[order[p]].next;
    assert p < j ==> recs[order[p]].next < recs[order[j]].next;
  }

  lemma NoKey(recs: map<Id, Timer>, order: seq<Id>, key: Time, x: Id)
    requires Sorted(recs, order) && !HasKey(recs, order, key) && x in order
    ensures recs[x].next != key
  {
    var j, p :| 0 <= j < |order| && order[j] == x && p == LowerBound(recs, order, key);
    assert p < j ==> recs[order[p]].next < recs[order[j]].next;
  }

  /** A sequence with one element put in at position p. */
  function Put(order: seq<Id>, p: nat, id: Id): (r: seq<Id>)
    requires p <= |order|
    ensures |r| == |order| + 1
    ensures forall i :: 0 <= i < p ==> r[i] == order[i]
    ensures r[p] == id
    ensures forall i :: p < i < |r| ==> r[i] == order[i - 1]
  {
    order[..p] + [id] + order[p..]
  }

  lemma PutMembers(order: seq<Id>, p: nat, id: Id)
    requires p <= |order|
    ensures forall x :: x in Put(order, p, id) <==> x in order || x == id
  {
    assert order == order[..p] + order[p..];
  }

  lemma PutSorted(recs: map<Id, Timer>, order: seq<Id>, p: nat, id: Id)
    requires Sorted(recs, order) && id in recs && p <= |order|
    requires forall j :: 0 <= j < p ==> recs[order[j]].next < recs[id].next
    requires forall j :: p <= j < |order| ==> recs[id].next < recs[order[j]].next
    ensures Sorted(recs, Put(order, p, id))
  {
    var r := Put(order, p, id);
    forall i, j | 0 <= i < j < |r|
      ensures r[i] in recs && r[j] in recs && recs[r[i]].next < recs[r[j]].next
    {
      var a := if i < p then i else i - 1;
      var b := if j < p then j else j - 1;
      assert i != p ==> r[i] == order[a];
      assert j != p ==> r[j] == order[b];
    }
    assert forall i :: 0 <= i < |r| ==> r[i] in recs;
  }

  lemma InsertSorted(recs: map<Id, Timer>, order: seq<Id>, id: Id)
    requires Sorted(recs, order) && id in recs
    ensures Sorted(recs, Insert(recs, order, id))
    ensures HasKey(recs, order, recs[id].next) ==> Insert(recs, order, id) == order
    ensures !HasKey(recs, order, recs[id].next) ==>
      forall x :: x in Insert(recs, order, id) <==> x in order || x == id
  {
    var key := recs[id].next;
    var p := LowerBound(recs, order, key);
    if !HasKey(recs, order, key) {
      assert forall j :: p < j < |order| ==> recs[order[p]].next < recs[order[j]].next;
      PutSorted(recs, order, p, id);
      PutMembers(order, p, id);
    }
  }

  lemma HasKeyMeans(recs: map<Id, Timer>, order: seq<Id>, key: Time)
    requires Sorted(recs, order)
    ensures HasKey(recs, order, key) <==> exists x :: x in order && recs[x].next == key
  {
    var p := LowerBound(recs, order, key);
    if HasKey(recs, order, key) {
      assert order[p] in order;
    }
  }

  // ---- the operations -----------------------------------------------------------------

  /** addTimer(timer): insert, and ask for a tickle if it is in front and none was asked for. */
  function AddToSet(s: Manager, id: Id): (Manager, bool)
    requires Known(s.recs, s.order) && id in s.recs
  {
    var atFront := LowerBound(s.recs, s.order, s.recs[id].next) == 0 && !s.tickled;
    (s.(order := Insert(s.recs, s.order, id), tickled := s.tickled || atFront), atFront)
  }

  /** addTimer(ms, cb, recurring) at time now. */
  function Add(s: Manager, id: Id, ms: nat, cb: nat, recurring: bool, now: Time): (Manager, bool)
    requires Known(s.recs, s.order) && id !in s.recs
  {
    AddToSet(s.(recs := s.recs[id := Timer(recurring, ms, Deadline(now, ms), Some(cb))]), id)
  }

  function Cancel(s: Manager, id: Id): (Manager, bool)
    requires Known(s.recs, s.order) && id in s.recs
  {
    if s.recs[id].cb == None then (s, false)
    else (s.(recs := s.recs[id := s.recs[id].(cb := None)],
             order := Erase(s.recs, s.order, s.recs[id].next)), true)
  }

  function Refresh(s: Manager, id: Id, now: Time): (Manager, bool)
    requires Known(s.recs, s.order) && id in s.recs
  {
    if s.recs[id].cb == None || !HasKey(s.recs, s.order, s.recs[id].next) then (s, false)
    else
      var order := Erase(s.recs, s.order, s.recs[id].next);
      var recs := s.recs[id := s.recs[id].(next := Deadline(now, s.recs[id].ms))];
      (s.(recs := recs, order := Insert(recs, order, id)), true)
  }

  /** The first half of reset may go on: the timer has a callback and somebody has its deadline. */
  predicate CanReset(s: Manager, id: Id)
    requires Known(s.recs, s.order) && id in s.recs
  {
    s.recs[id].cb != None && HasKey(s.recs, s.order, s.recs[id].next)
  }

  /** The first half of reset: the holder of the timer's deadline leaves the set. */
  function TakeOut(s: Manager, id: Id): Manager
    requires Known(s.recs, s.order) && id in s.recs
  {
    s.(order := Erase(s.recs, s.order, s.recs[id].next))
  }

  /** Where reset counts the new period from. */
  function StartOf(t: Timer, fromNow: bool, now: Time): Time {
    if fromNow then now else t.next - Ticks(t.ms)
  }

  /** The period and the deadline that reset gives a timer. */
  function Rearmed(t: Timer, ms: nat, fromNow: bool, now: Time): Timer {
    t.(ms := ms, next := Deadline(StartOf(t, fromNow, now), ms))
  }

  /** reset without the lock: the timer's period and deadline change. */
  function Rewrite(s: Manager, id: Id, ms: nat, fromNow: bool, now: Time): Manager
    requires id in s.recs
  {
    s.(recs := s.recs[id := Rearmed(s.recs[id], ms, fromNow, now)])
  }

  /** The rest of reset: new period and deadline, then addTimer; the last component says whether a
      tickle was asked for. */
  function PutBack(s: Manager, id: Id, ms: nat, fromNow: bool, now: Time): (Manager, bool)
    requires Known(s.recs, s.order) && id in s.recs
  {
    AddToSet(Rewrite(s, id, ms, fromNow, now), id)
  }

  /** getNextTimer: milliseconds to the front deadline, None for no timer. */
  function NextTimeout(s: Manager, now: Time): Option<nat>
    requires Known(s.recs, s.order)
  {
    if s.order == [] then None
    else if now >= s.recs[s.order[0]].next then Some(0)
    else Some(Millis(s.recs[s.order[0]].next - now))
  }

  /** One round of the expiry loop: take the front timer, re-arm it or drop its callback. */
  function Fire(s: Manager, now: Time): Manager
    requires Known(s.recs, s.order) && s.order != []
  {
    var id, rest := s.order[0], s.order[1..];
    var t := s.recs[id];
    if t.recurring then
      var recs := s.recs[id := t.(next := Deadline(now, t.ms))];
      s.(recs := recs, order := Insert(recs, rest, id))
    else s.(recs := s.recs[id := t.(cb := None)], order := rest)
  }

  /** Every timer in the set is known, and they are in order. */
  predicate Ok(s: Manager) {
    Sorted(s.recs, s.order)
  }

  lemma TailSorted(recs: map<Id, Timer>, order: seq<Id>)
    requires Sorted(recs, order) && order != []
    ensures Sorted(recs, order[1..]) && order[0] !in order[1..]
  {
    assert forall i :: 0 <= i < |order[1..]| ==> order[1..][i] == order[i + 1];
  }

  lemma TailMembers(order: seq<Id>)
    requires order != []
    ensures forall x :: x in order <==> x == order[0] || x in order[1..]
  {
    assert order == [order[0]] + order[1..];
  }

  /** A record that is not in the set can be replaced. */
  lemma ReplaceOutside(recs: map<Id, Timer>, order: seq<Id>, id: Id, t: Timer)
    requires Sorted(recs, order) && id !in order
    ensures Sorted(recs[id := t], order)
    ensures forall i :: 0 <= i < |order| ==> recs[id := t][order[i]] == recs[order[i]]
  {
  }

  lemma FireRecurring(s: Manager, now: Time, recs: map<Id, Timer>)
    requires Known(s.recs, s.order) && s.order != [] && s.recs[s.order[0]].recurring
    requires recs == s.recs[s.order[0] := s.recs[s.order[0]].(next := Deadline(now, s.recs[s.order[0]].ms))]
    ensures Known(recs, s.order[1..])
    ensures Fire(s, now) == s.(recs := recs, order := Insert(recs, s.order[1..], s.order[0]))
  {
  }

  lemma FireOneShot(s: Manager, now: Time)
    requires Known(s.recs, s.order) && s.order != [] && !s.recs[s.order[0]].recurring
    ensures Fire(s, now) == s.(recs := s.recs[s.order[0] := s.recs[s.order[0]].(cb := None)], order := s.order[1..])
  {
  }

  lemma FireOk(s: Manager, now: Time)
    requires Ok(s) && s.order != []
    ensures Ok(Fire(s, now))
    ensures Fire(s, now).recs.Keys == s.recs.Keys
  {
    var id, t := s.order[0], s.recs[s.order[0]];
    if t.recurring {
      var recs := s.recs[id := t.(next := Deadline(now, t.ms))];
      FireRecurring(s, now, recs);
      TailOk(s, id, recs[id]);
      InsertSorted(recs, s.order[1..], id);
    } else {
      FireOneShot(s, now);
      TailOk(s, id, t.(cb := None));
    }
  }

  /** The timers behind the front one do not notice a change of it. */
  lemma TailOk(s: Manager, id: Id, t: Timer)
    requires Ok(s) && s.order != [] && id == s.order[0]
    ensures Sorted(s.recs[id := t], s.order[1..])
  {
    TailSorted(s.recs, s.order);
    ReplaceOutside(s.recs, s.order[1..], id, t);
  }

  // ---- every operation keeps the set in order -----------------------------------------

  lemma AddOk(s: Manager, id: Id, ms: nat, cb: nat, recurring: bool, now: Time)
    requires Ok(s) && id !in s.recs
    ensures Ok(Add(s, id, ms, cb, recurring, now).0)
  {
    var t := Timer(recurring, ms, Deadline(now, ms), Some(cb));
    ReplaceOutside(s.recs, s.order, id, t);
    InsertSorted(s.recs[id := t], s.order, id);
  }

  /** After erasing its deadline a timer is not in the set, wherever it was before. */
  lemma EraseOk(s: Manager, id: Id)
    requires Ok(s) && id in s.recs
    ensures var order := Erase(s.recs, s.order, s.recs[id].next);
      && Sorted(s.recs, order) && id !in order
      && (forall x :: x in order ==> x in s.order)
  {
    EraseSorted(s.recs, s.order, s.recs[id].next);
  }

  lemma CancelOk(s: Manager, id: Id)
    requires Ok(s) && id in s.recs
    ensures Ok(Cancel(s, id).0)
    ensures Cancel(s, id).0.recs[id].cb == None
    ensures Cancel(s, id).1 <==> s.recs[id].cb != None
  {
    EraseOk(s, id);
    var order := Erase(s.recs, s.order, s.recs[id].next);
    ReplaceOutside(s.recs, order, id, s.recs[id].(cb := None));
  }

  /** Erase a timer's deadline, change the timer, insert it again. */
  lemma MoveOk(s: Manager, id: Id, t: Timer)
    requires Ok(s) && id in s.recs
    ensures var recs, order := s.recs[id := t], Erase(s.recs, s.order, s.recs[id].next);
      Known(recs, order) && Sorted(recs, Insert(recs, order, id))
  {
    EraseOk(s, id);
    var order := Erase(s.recs, s.order, s.recs[id].next);
    ReplaceOutside(s.recs, order, id, t);
    InsertSorted(s.recs[id := t], order, id);
  }

  lemma RefreshOk(s: Manager, id: Id, now: Time)
    requires Ok(s) && id in s.recs
    ensures Ok(Refresh(s, id, now).0)
  {
    if Refresh(s, id, now).1 {
      MoveOk(s, id, s.recs[id].(next := Deadline(now, s.recs[id].ms)));
    }
  }

  lemma RefreshIs(s: Manager, id: Id, now: Time, recs: map<Id, Timer>, order: seq<Id>)
    requires Ok(s) && id in s.recs && s.recs[id].cb != None && HasKey(s.recs, s.order, s.recs[id].next)
    requires recs == s.recs[id := s.recs[id].(next := Deadline(now, s.recs[id].ms))]
    requires order == Erase(s.recs, s.order, s.recs[id].next)
    ensures Sorted(recs, order)
    ensures Refresh(s, id, now) == (s.(recs := recs, order := Insert(recs, order, id)), true)
  {
    EraseOk(s, id);
    ReplaceOutside(s.recs, order, id, recs[id]);
  }

  lemma TakeOutOk(s: Manager, id: Id)
    requires Ok(s) && id in s.recs
    ensures Ok(TakeOut(s, id)) && id !in TakeOut(s, id).order
  {
    EraseOk(s, id);
  }

  /** A timer that is not in the set when its deadline changes. */
  lemma RewriteOk(s: Manager, id: Id, ms: nat, fromNow: bool, now: Time)
    requires Ok(s) && id in s.recs && id !in s.order
    ensures Ok(Rewrite(s, id, ms, fromNow, now))
  {
    ReplaceOutside(s.recs, s.order, id, Rearmed(s.recs[id], ms, fromNow, now));
  }

  /** addTimer(timer): the timer is in the set unless another one has its deadline. */
  lemma AddToSetOk(s: Manager, id: Id)
    requires Ok(s) && id in s.recs
    ensures var m := AddToSet(s, id).0;
      && Ok(m) && m.recs == s.recs
      && (id in m.order <==> id in s.order || !HasKey(s.recs, s.order, s.recs[id].next))
      && (forall x :: x != id ==> (x in m.order <==> x in s.order))
  {
    InsertSorted(s.recs, s.order, id);
  }

  // ---- what the operations mean -------------------------------------------------------

  /** Nobody but id is written to, and of id neither its callback nor whether it recurs. */
  ghost predicate Spared(recs: map<Id, Timer>, id: Id, after: map<Id, Timer>)
    requires id in recs
  {
    && after.Keys == recs.Keys && (forall x :: x in recs && x != id ==> after[x] == recs[x])
    && after[id].cb == recs[id].cb && after[id].recurring == recs[id].recurring
  }

  /** The holder of id's deadline has left, and id stands in the set unless its new one is taken. */
  ghost predicate Moved(recs: map<Id, Timer>, order: seq<Id>, id: Id, recs': map<Id, Timer>, order': seq<Id>)
    requires Known(recs, order) && Known(recs', order') && id in recs && id in recs'
  {
    && (forall x :: x != id ==> (x in order' <==> x in order && recs[x].next != recs[id].next))
    && (id in order' <==> forall x :: x in order' && x != id ==> recs'[x].next != recs'[id].next)
  }

  lemma RearmedMeans(t: Timer, ms: nat, fromNow: bool, now: Time, u: Timer)
    requires u == Rearmed(t, ms, fromNow, now)
    ensures u.ms == ms && u.cb == t.cb && u.recurring == t.recurring
    ensures fromNow ==> u.next - now == ms * 1_000_000
    ensures !fromNow ==> u.next - t.next == (ms - t.ms) * 1_000_000
  {
  }

  /** Insert a timer that was taken out, with another deadline. */
  lemma MovedBack(recs: map<Id, Timer>, order: seq<Id>, id: Id, recs': map<Id, Timer>, rest: seq<Id>)
    requires Sorted(recs, order) && id in recs && rest == Erase(recs, order, recs[id].next)
    requires Spared(recs, id, recs')
    ensures Sorted(recs', rest) && Sorted(recs', Insert(recs', rest, id))
    ensures Moved(recs, order, id, recs', Insert(recs', rest, id))
  {
    EraseSorted(recs, order, recs[id].next);
    ReplaceOutside(recs, rest, id, recs'[id]);
    assert recs' == recs[id := recs'[id]];
    InsertSorted(recs', rest, id);
    HasKeyMeans(recs', rest, recs'[id].next);
  }

  /** refresh: the period begins anew. */
  lemma RefreshMeans(s: Manager, id: Id, now: Time)
    requires Ok(s) && id in s.recs
    ensures var (m, ok) := Refresh(s, id, now);
      && (ok <==> s.recs[id].cb != None && exists x :: x in s.order && s.recs[x].next == s.recs[id].next)
      && (!ok ==> m == s)
      && Ok(m) && Spared(s.recs, id, m.recs) && m.recs[id].ms == s.recs[id].ms
      && (ok ==> m.recs[id].next - now == m.recs[id].ms * 1_000_000 && Moved(s.recs, s.order, id, m.recs, m.order))
  {
    HasKeyMeans(s.recs, s.order, s.recs[id].next);
    if Refresh(s, id, now).1 {
      MovedBack(s.recs, s.order, id, Refresh(s, id, now).0.recs, Erase(s.recs, s.order, s.recs[id].next));
    }
  }

  /** reset with nobody in between, once it has found its deadline in the set. */
  lemma ResetMeans(s: Manager, id: Id, ms: nat, fromNow: bool, now: Time, m: Manager)
    requires Ok(s) && id in s.recs && Known(s.recs, TakeOut(s, id).order)
    requires m == PutBack(TakeOut(s, id), id, ms, fromNow, now).0
    ensures Ok(m) && Spared(s.recs, id, m.recs) && Moved(s.recs, s.order, id, m.recs, m.order)
    ensures m.recs[id] == Rearmed(s.recs[id], ms, fromNow, now)
  {
    MovedBack(s.recs, s.order, id, m.recs, TakeOut(s, id).order);
  }

  lemma CanResetMeans(s: Manager, id: Id)
    requires Ok(s) && id in s.recs
    ensures CanReset(s, id)
       <==> s.recs[id].cb != None && exists x :: x in s.order && s.recs[x].next == s.recs[id].next
  {
    HasKeyMeans(s.recs, s.order, s.recs[id].next);
  }
}
