/**
 What holds over every run of adding, cancelling, refreshing, resetting and expiring timers
 (dag/timer.cpp).  reset takes the lock twice and changes the
 timer without it in between: three steps, with anything in between.
 */
module TimerRuns {
  import opened Runs
  import opened Timers
  import opened TimerExpiry

  datatype Op =
    | OpAdd(id: Id, ms: nat, cb: nat, recurring: bool, now: Time)
    | OpCancel(id: Id)
    | OpRefresh(id: Id, now: Time)
    | OpResetErase(id: Id, ms: nat, fromNow: bool)
    | OpResetWrite(k: nat, now: Time)
    | OpResetInsert(k: nat)
    | OpNext
    | OpExpire(now: Time, clock: Time)

  /** A reset between its critical sections.  written: period and deadline have been changed;
      cleared: the timer's callback has gone since the first one; back: the timer has been put in
      the set since. */
  datatype Half = Half(id: Id, ms: nat, fromNow: bool, written: bool, cleared: bool, back: bool)

  /** The manager; the timers whose callbacks were delivered; the timers cancelled; the resets in
      progress; the timers that a reset inserted after their callback had gone; whether a reset has
      changed the deadline of a timer inside the set, which std::set forbids. */
  datatype State = State(m: Manager, delivered: seq<Id>, cancelled: set<Id>, halves: seq<Half>, late: set<Id>,
                         broken: bool)

  /** A new timer is a new object; an expiry has to return; a broken set promises nothing. */
  predicate Enabled(s: State, op: Op) {
    !s.broken && Known(s.m.recs, s.m.order) &&
    match op
    case OpAdd(id, _, _, _, _) => id !in s.m.recs
    case OpCancel(id) => id in s.m.recs
    case OpRefresh(id, _) => id in s.m.recs
    case OpResetErase(id, ms, fromNow) => id in s.m.recs && (ms != s.m.recs[id].ms || fromNow)
    case OpResetWrite(k, _) => k < |s.halves| && s.halves[k].id in s.m.recs && !s.halves[k].written
    case OpResetInsert(k) => k < |s.halves| && s.halves[k].id in s.m.recs && s.halves[k].written
    case OpNext => true
    case OpExpire(now, clock) => Ends(s.m, now, Rollover(s.m, clock))
  }

  /** The timer set after the operation. */
  function Managed(s: State, op: Op): Manager
    requires Enabled(s, op)
  {
    match op
    case OpAdd(id, ms, cb, recurring, now) => Add(s.m, id, ms, cb, recurring, now).0
    case OpCancel(id) => Cancel(s.m, id).0
    case OpRefresh(id, now) => Refresh(s.m, id, now).0
    case OpResetErase(id, _, _) => if CanReset(s.m, id) then TakeOut(s.m, id) else s.m
    case OpResetWrite(k, now) =>
      var h := s.halves[k];
      if h.id in s.m.order then s.m else Rewrite(s.m, h.id, h.ms, h.fromNow, now)
    case OpResetInsert(k) => AddToSet(s.m, s.halves[k].id).0
    case OpNext => s.m.(tickled := false)
    case OpExpire(now, clock) => Expire(s.m, now, clock).0
  }

  /** What a reset in progress has seen happen to its timer. */
  function Note(h: Half, before: Manager, after: Manager): (r: Half)
    ensures r.id == h.id && r.ms == h.ms && r.fromNow == h.fromNow && r.written == h.written
  {
    var gone := && h.id in before.recs && before.recs[h.id].cb != None
                && h.id in after.recs && after.recs[h.id].cb == None;
    h.(cleared := h.cleared || gone, back := h.back || (h.id !in before.order && h.id in after.order))
  }

  function NoteAll(hs: seq<Half>, before: Manager, after: Manager): (r: seq<Half>)
    ensures |r| == |hs| && forall i :: 0 <= i < |hs| ==> r[i] == Note(hs[i], before, after)
  {
    if hs == [] then [] else NoteAll(hs[..|hs| - 1], before, after) + [Note(hs[|hs| - 1], before, after)]
  }

  /** The resets in progress once the operation has begun or ended one. */
  function Halves(s: State, op: Op): seq<Half>
    requires Enabled(s, op)
  {
    match op
    case OpResetErase(id, ms, fromNow) =>
      if CanReset(s.m, id) then s.halves + [Half(id, ms, fromNow, false, false, false)] else s.halves
    case OpResetWrite(k, _) => s.halves[k := s.halves[k].(written := true)]
    case OpResetInsert(k) => s.halves[..k] + s.halves[k + 1..]
    case _ => s.halves
  }

  function Apply(s: State, op: Op): State
    requires Enabled(s, op)
  {
    var m := Managed(s, op);
    var hs := NoteAll(Halves(s, op), s.m, m);
    match op
    case OpCancel(id) =>
      State(m, s.delivered, if Cancel(s.m, id).1 then s.cancelled + {id} else s.cancelled, hs, s.late, false)
    case OpResetWrite(k, _) => State(m, s.delivered, s.cancelled, hs, s.late, s.halves[k].id in s.m.order)
    case OpResetInsert(k) =>
      var h := s.halves[k];
      State(m, s.delivered, s.cancelled, hs, if h.cleared then s.late + {h.id} else s.late, false)
    case OpExpire(now, clock) =>
      State(m, s.delivered + Called(s.m.recs, Expire(s.m, now, clock).1), s.cancelled, hs, s.late, false)
    case _ => State(m, s.delivered, s.cancelled, hs, s.late, false)
  }

  function Next(s: State, op: Op): Option<State> {
    if Enabled(s, op) then Some(Apply(s, op)) else None
  }

  function Fresh(now: Time): State {
    State(Manager(map[], [], false, now), [], {}, [], {}, false)
  }

  // ---- counting deliveries ------------------------------------------------------------

  function Count(ids: seq<Id>, id: Id): nat {
    if ids == [] then 0 else Count(ids[..|ids| - 1], id) + (if ids[|ids| - 1] == id then 1 else 0)
  }

  /** The timers that have a callback to deliver; a null one is dropped by the scheduler. */
  function Called(recs: map<Id, Timer>, ids: seq<Id>): seq<Id> {
    if ids == [] then []
    else
      var id := ids[|ids| - 1];
      Called(recs, ids[..|ids| - 1]) + (if id in recs && recs[id].cb != None then [id] else [])
  }

  lemma {:induction false} CountConcat(a: seq<Id>, b: seq<Id>, id: Id)
    ensures Count(a + b, id) == Count(a, id) + Count(b, id)
  {
    if b == [] {
      assert a + b == a;
    } else {
      assert (a + b)[..|a + b| - 1] == a + b[..|b| - 1];
      CountConcat(a, b[..|b| - 1], id);
    }
  }

  lemma {:induction false} CountAbsent(ids: seq<Id>, id: Id)
    requires id !in ids
    ensures Count(ids, id) == 0
  {
    if ids != [] {
      CountAbsent(ids[..|ids| - 1], id);
    }
  }

  lemma {:induction false} CountCalled(recs: map<Id, Timer>, ids: seq<Id>, id: Id)
    ensures Count(Called(recs, ids), id) == if id in recs && recs[id].cb != None then Count(ids, id) else 0
  {
    if ids != [] {
      var n := |ids| - 1;
      var last := if ids[n] in recs && recs[ids[n]].cb != None then [ids[n]] else [];
      CountCalled(recs, ids[..n], id);
      CountConcat(Called(recs, ids[..n]), last, id);
      assert |last| == 1 ==> last[..0] == [];
    }
  }

  lemma {:induction false} CountPrefix(recs: map<Id, Timer>, order: seq<Id>, k: nat, id: Id)
    requires Sorted(recs, order) && k <= |order|
    ensures Count(order[..k], id) <= 1
  {
    if k > 0 {
      CountPrefix(recs, order, k - 1, id);
      assert order[..k][..k - 1] == order[..k - 1];
      if order[k - 1] == id {
        NotYetFired(recs, order, k - 1);
        CountAbsent(order[..k - 1], id);
      }
    }
  }

  // ---- the invariant ------------------------------------------------------------------

  /** A timer whose callback is gone: cancelled, or a one-shot that has fired. */
  predicate Spent(s: State, id: Id) {
    id in s.cancelled || (id in s.m.recs && !s.m.recs[id].recurring && Count(s.delivered, id) > 0)
  }

  predicate InvAt(s: State, id: Id) {
    && (Spent(s, id) || id in s.late ==> id in s.m.recs && s.m.recs[id].cb == None)
    && (Count(s.delivered, id) > 0 ==> id in s.m.recs)
    && (id in s.m.recs && !s.m.recs[id].recurring ==> Count(s.delivered, id) <= 1)
    && (id in s.m.order && id in s.m.recs && s.m.recs[id].cb == None ==> id in s.late)
  }

  /** What a reset in progress has noted is so. */
  predicate HalfOk(m: Manager, h: Half) {
    h.id in m.recs && (h.cleared <==> m.recs[h.id].cb == None) && (h.id in m.order ==> h.back)
  }

  predicate HalvesOk(m: Manager, hs: seq<Half>) {
    forall i :: 0 <= i < |hs| ==> HalfOk(m, hs[i])
  }

  ghost predicate Inv(s: State) {
    Ok(s.m) && HalvesOk(s.m, s.halves) && forall id :: InvAt(s, id)
  }

  // ---- every operation keeps it -------------------------------------------------------

  /** What an operation may do to a timer: a callback that goes takes the timer out of the set, and
      only `inserted` comes into it without one. */
  predicate Evolves(m: Manager, m': Manager, inserted: set<Id>, x: Id) {
    && (x in m.recs ==>
          && x in m'.recs && m'.recs[x].recurring == m.recs[x].recurring
          && (m'.recs[x].cb == m.recs[x].cb || m'.recs[x].cb == None)
          && (m.recs[x].cb != None && m'.recs[x].cb == None ==> x !in m'.order))
    && (x !in m.recs && x in m'.recs ==> m'.recs[x].cb != None)
    && (x in m'.order && x !in m.order ==> (x in m'.recs && m'.recs[x].cb != None) || x in inserted)
  }

  function Inserted(s: State, op: Op): set<Id>
    requires Enabled(s, op)
  {
    if op.OpResetInsert? then {s.halves[op.k].id} else {}
  }

  lemma AddEvolves(m: Manager, id: Id, ms: nat, cb: nat, recurring: bool, now: Time, x: Id)
    requires Ok(m) && id !in m.recs
    ensures Evolves(m, Add(m, id, ms, cb, recurring, now).0, {}, x)
  {
    var t := Timer(recurring, ms, Deadline(now, ms), Some(cb));
    ReplaceOutside(m.recs, m.order, id, t);
    InsertSorted(m.recs[id := t], m.order, id);
  }

  lemma CancelEvolves(m: Manager, id: Id, x: Id)
    requires Ok(m) && id in m.recs
    ensures Evolves(m, Cancel(m, id).0, {}, x)
  {
    EraseOk(m, id);
  }

  lemma RefreshEvolves(m: Manager, id: Id, now: Time, x: Id)
    requires Ok(m) && id in m.recs
    ensures Evolves(m, Refresh(m, id, now).0, {}, x)
  {
    if CanReset(m, id) {
      var recs := m.recs[id := m.recs[id].(next := Deadline(now, m.recs[id].ms))];
      var order := Erase(m.recs, m.order, m.recs[id].next);
      RefreshIs(m, id, now, recs, order);
      EraseOk(m, id);
      InsertSorted(recs, order, id);
    }
  }

  lemma ExpireEvolves(m: Manager, now: Time, clock: Time, x: Id)
    requires Ok(m) && Ends(m, now, Rollover(m, clock))
    ensures Evolves(m, Expire(m, now, clock).0, {}, x)
  {
    ExpireMeans(m, now, clock);
  }

  lemma OpEvolves(s: State, op: Op, x: Id)
    requires Ok(s.m) && Enabled(s, op)
    ensures Evolves(s.m, Managed(s, op), Inserted(s, op), x)
  {
    match op
    case OpAdd(id, ms, cb, recurring, now) => AddEvolves(s.m, id, ms, cb, recurring, now, x);
    case OpCancel(id) => CancelEvolves(s.m, id, x);
    case OpRefresh(id, now) => RefreshEvolves(s.m, id, now, x);
    case OpResetErase(id, _, _) => EraseOk(s.m, id);
    case OpResetWrite(k, now) =>
      if s.halves[k].id !in s.m.order {
        RewriteOk(s.m, s.halves[k].id, s.halves[k].ms, s.halves[k].fromNow, now);
      }
    case OpResetInsert(k) => AddToSetOk(s.m, s.halves[k].id);
    case OpNext =>
    case OpExpire(now, clock) => ExpireEvolves(s.m, now, clock, x);
  }

  lemma OpOk(s: State, op: Op)
    requires Ok(s.m) && Enabled(s, op)
    ensures Ok(Managed(s, op))
  {
    match op
    case OpAdd(id, ms, cb, recurring, now) => AddOk(s.m, id, ms, cb, recurring, now);
    case OpCancel(id) => CancelOk(s.m, id);
    case OpRefresh(id, now) => RefreshOk(s.m, id, now);
    case OpResetErase(id, _, _) => TakeOutOk(s.m, id);
    case OpResetWrite(k, now) =>
      if s.halves[k].id !in s.m.order {
        RewriteOk(s.m, s.halves[k].id, s.halves[k].ms, s.halves[k].fromNow, now);
      }
    case OpResetInsert(k) => AddToSetOk(s.m, s.halves[k].id);
    case OpNext =>
    case OpExpire(now, clock) => ExpireMeans(s.m, now, clock);
  }

  /** The step of reset without the lock: the new period counts from now, or from where the old one
      began; nothing else of any timer changes. */
  lemma WriteMeans(s: State, k: nat, now: Time)
    requires Enabled(s, OpResetWrite(k, now)) && s.halves[k].id !in s.m.order
    ensures var h, m := s.halves[k], Managed(s, OpResetWrite(k, now));
      && m == s.m.(recs := m.recs) && m.recs.Keys == s.m.recs.Keys
      && (forall x :: x in s.m.recs && x != h.id ==> m.recs[x] == s.m.recs[x])
      && m.recs[h.id] == s.m.recs[h.id].(ms := h.ms, next := m.recs[h.id].next)
      && (h.fromNow ==> m.recs[h.id].next - now == h.ms * 1_000_000)
      && (!h.fromNow ==> m.recs[h.id].next - s.m.recs[h.id].next == (h.ms - s.m.recs[h.id].ms) * 1_000_000)
  {
    var h := s.halves[k];
    RearmedMeans(s.m.recs[h.id], h.ms, h.fromNow, now, Managed(s, OpResetWrite(k, now)).recs[h.id]);
  }

  lemma NoteOk(h: Half, m: Manager, m': Manager, inserted: set<Id>)
    requires HalfOk(m, h) && Evolves(m, m', inserted, h.id)
    ensures HalfOk(m', Note(h, m, m'))
  {
  }

  lemma HalvesKeep(s: State, op: Op)
    requires Inv(s) && Enabled(s, op)
    ensures HalvesOk(Managed(s, op), Apply(s, op).halves)
  {
    var m, hs := Managed(s, op), Halves(s, op);
    forall i | 0 <= i < |hs|
      ensures HalfOk(m, Note(hs[i], s.m, m))
    {
      if i < |s.halves| && (hs[i] == s.halves[i] || op.OpResetWrite?) {
        assert HalfOk(s.m, s.halves[i]);
        OpEvolves(s, op, hs[i].id);
        NoteOk(hs[i], s.m, m, Inserted(s, op));
      } else if op.OpResetInsert? {
        assert hs[i] == s.halves[i + 1];
        OpEvolves(s, op, hs[i].id);
        NoteOk(hs[i], s.m, m, Inserted(s, op));
      } else {
        TakeOutOk(s.m, op.id);
      }
    }
  }

  /** Deliveries only come from an expiry, of timers that have a callback. */
  lemma ExpireCounts(s: State, now: Time, clock: Time, id: Id)
    requires Inv(s) && Enabled(s, OpExpire(now, clock))
    ensures var c, c' := Count(s.delivered, id), Count(Apply(s, OpExpire(now, clock)).delivered, id);
      var m' := Managed(s, OpExpire(now, clock));
      && c <= c' <= c + 1
      && (c' > c ==> id in s.m.recs && s.m.recs[id].cb != None && id in m'.recs)
      && (c' > c && !s.m.recs[id].recurring ==> m'.recs[id].cb == None)
  {
    var ids := Expire(s.m, now, clock).1;
    ExpireMeans(s.m, now, clock);
    CountConcat(s.delivered, Called(s.m.recs, ids), id);
    CountCalled(s.m.recs, ids, id);
    if id in ids {
      CountPrefix(s.m.recs, s.m.order, |ids|, id);
    } else {
      CountAbsent(ids, id);
    }
  }

  lemma OpCounts(s: State, op: Op, id: Id)
    requires Inv(s) && Enabled(s, op)
    ensures var c, c', m' := Count(s.delivered, id), Count(Apply(s, op).delivered, id), Managed(s, op);
      && c <= c' <= c + 1
      && (c' > c ==> id in s.m.recs && s.m.recs[id].cb != None && id in m'.recs)
      && (c' > c && !s.m.recs[id].recurring ==> m'.recs[id].cb == None)
  {
    if op.OpExpire? {
      ExpireCounts(s, op.now, op.clock, id);
    }
  }

  lemma KeepsAt(s: State, op: Op, id: Id)
    requires Inv(s) && Enabled(s, op)
    ensures InvAt(Apply(s, op), id)
  {
    assert InvAt(s, id);
    OpEvolves(s, op, id);
    OpCounts(s, op, id);
    if op.OpResetInsert? {
      assert HalfOk(s.m, s.halves[op.k]);
    }
    if op.OpCancel? {
      CancelOk(s.m, op.id);
    }
  }

  lemma StepKeepsInv(s: State, op: Op)
    requires Inv(s) && Enabled(s, op)
    ensures Inv(Apply(s, op))
  {
    OpOk(s, op);
    HalvesKeep(s, op);
    forall id
      ensures InvAt(Apply(s, op), id)
    {
      KeepsAt(s, op, id);
    }
  }

  lemma RunKeepsInv(now: Time, ops: seq<Op>, u: State)
    requires Leads(Next, Fresh(now), ops, u)
    ensures Inv(u)
  {
    forall m, op | Inv(m) && Next(m, op).Some?
      ensures Inv(Next(m, op).value)
    {
      StepKeepsInv(m, op);
    }
    Invariant(Next, Inv, Fresh(now), ops, u);
  }

  // ---- over every run -----------------------------------------------------------------

  /** The set is in order, and a timer in it lacks a callback exactly if a reset inserted it after
      its callback had gone: cancelled, or fired, between the halves of that reset. */
  lemma CallbackIff(now: Time, ops: seq<Op>, u: State, x: Id)
    requires Leads(Next, Fresh(now), ops, u) && x in u.m.order
    ensures Ok(u.m) && x in u.m.recs
    ensures u.m.recs[x].cb == None <==> x in u.late
  {
    RunKeepsInv(now, ops, u);
    assert InvAt(u, x);
  }

  /** A reset changes the deadline of a timer inside the set only if somebody put the timer back,
      by refresh or by another reset, since it was taken out. */
  lemma BrokenMeans(now: Time, ops: seq<Op>, s: State, k: nat, at: Time)
    requires Leads(Next, Fresh(now), ops, s) && Enabled(s, OpResetWrite(k, at))
    ensures Apply(s, OpResetWrite(k, at)).broken ==> s.halves[k].back
  {
    RunKeepsInv(now, ops, s);
    assert HalfOk(s.m, s.halves[k]);
  }

  /** A one-shot's callback is delivered at most once. */
  lemma OneShotAtMostOnce(now: Time, ops: seq<Op>, u: State, id: Id)
    requires Leads(Next, Fresh(now), ops, u) && id in u.m.recs && !u.m.recs[id].recurring
    ensures Count(u.delivered, id) <= 1
    ensures Count(u.delivered, id) == 1 ==> u.m.recs[id].cb == None && (id in u.m.order ==> id in u.late)
  {
    RunKeepsInv(now, ops, u);
    assert InvAt(u, id);
  }

  predicate Silent(s: State, id: Id, n: nat) {
    id in s.m.recs && s.m.recs[id].cb == None && Count(s.delivered, id) == n
  }

  /** After a cancel that returned true, no expiry delivers the timer's callback, whatever follows. */
  lemma CancelledIsSilent(now: Time, before: seq<Op>, s: State, id: Id, after: seq<Op>, u: State)
    requires Leads(Next, Fresh(now), before, s) && Enabled(s, OpCancel(id)) && Cancel(s.m, id).1
    requires Leads(Next, Apply(s, OpCancel(id)), after, u)
    ensures Count(u.delivered, id) == Count(s.delivered, id)
  {
    var c, n := Apply(s, OpCancel(id)), Count(s.delivered, id);
    RunKeepsInv(now, before, s);
    StepKeepsInv(s, OpCancel(id));
    CancelOk(s.m, id);
    var inv := (x: State) => Inv(x) && Silent(x, id, n);
    forall m, op | inv(m) && Next(m, op).Some?
      ensures inv(Next(m, op).value)
    {
      StepKeepsInv(m, op);
      OpEvolves(m, op, id);
      OpCounts(m, op, id);
    }
    Invariant(Next, inv, c, after, u);
  }

  // ---- when a cancelled timer stays out of the set ------------------------------------

  predicate Open(s: State, id: Id) {
    exists k :: 0 <= k < |s.halves| && s.halves[k].id == id
  }

  /** Cancelled, not in the set, and no reset on its way to insert it. */
  predicate Absent(s: State, id: Id) {
    id in s.m.recs && s.m.recs[id].cb == None && id !in s.m.order && !Open(s, id)
  }

  lemma AbsentStays(s: State, op: Op, id: Id)
    requires Inv(s) && Enabled(s, op) && Absent(s, id)
    ensures Absent(Apply(s, op), id)
  {
    OpEvolves(s, op, id);
    var hs := Halves(s, op);
    forall k | 0 <= k < |hs|
      ensures hs[k].id != id
    {
      if op.OpResetInsert? {
        assert hs[k] == s.halves[if k < op.k then k else k + 1];
      }
    }
    if op.OpResetInsert? {
      assert s.halves[op.k].id != id;
    }
  }

  lemma AbsentForever(s: State, ops: seq<Op>, u: State, id: Id)
    requires Inv(s) && Absent(s, id) && Leads(Next, s, ops, u)
    ensures Absent(u, id)
  {
    var inv := (x: State) => Inv(x) && Absent(x, id);
    forall m, op | inv(m) && Next(m, op).Some?
      ensures inv(Next(m, op).value)
    {
      StepKeepsInv(m, op);
      AbsentStays(m, op, id);
    }
    Invariant(Next, inv, s, ops, u);
  }

  /** A timer object that does not exist yet. */
  lemma {:induction false} NewId(ids: set<Id>) returns (z: Id)
    ensures forall x :: x in ids ==> x < z
    decreases |ids|
  {
    if ids == {} {
      z := 0;
    } else {
      var y :| y in ids;
      z := NewId(ids - {y});
      z := if z > y then z else y + 1;
      assert forall x :: x in ids ==> x == y || x in ids - {y};
    }
  }

  /** Adding a timer at a deadline and cancelling it frees the deadline, whoever held it. */
  lemma FreeUp(s: State, d: Time) returns (ops: seq<Op>, u: State)
    requires Inv(s) && !s.broken
    ensures Leads(Next, s, ops, u) && Inv(u) && !u.broken
    ensures forall x :: x in s.m.recs ==> x in u.m.recs && u.m.recs[x] == s.m.recs[x]
    ensures forall x :: x in u.m.order ==> x in s.m.order
    ensures !HasKey(u.m.recs, u.m.order, d)
    ensures |u.halves| == |s.halves| && forall k :: 0 <= k < |s.halves| ==>
      u.halves[k].id == s.halves[k].id && u.halves[k].written == s.halves[k].written
  {
    var z := NewId(s.m.recs.Keys);
    var a, c := OpAdd(z, 0, 0, false, d), OpCancel(z);
    assert z !in s.m.recs.Keys;
    var t := Apply(s, a);
    StepKeepsInv(s, a);
    u := Apply(t, c);
    StepKeepsInv(t, c);
    assert Leads(Next, s, [], s);
    Then(Next, s, [], s, a, t);
    Then(Next, s, [] + [a], t, c, u);
    ops := [] + [a] + [c];
    AddThenCancel(s.m, z, d);
  }

  lemma AddThenCancel(m: Manager, z: Id, d: Time)
    requires Ok(m) && z !in m.recs
    ensures var a := Add(m, z, 0, 0, false, d).0;
      && Ok(a) && z in a.recs && a.recs == m.recs[z := Timer(false, 0, d, Some(0))]
      && var c := Cancel(a, z).0;
      && Ok(c) && c.recs == a.recs[z := Timer(false, 0, d, None)] && !HasKey(c.recs, c.order, d)
      && (forall x :: x in c.order ==> x in m.order)
  {
    var a := Add(m, z, 0, 0, false, d).0;
    AddOk(m, z, 0, 0, false, d);
    AddEvolvesOrder(m, z, d);
    var c := Cancel(a, z).0;
    CancelOk(a, z);
    EraseSorted(a.recs, a.order, d);
    HasKeyMeans(c.recs, c.order, d);
  }

  lemma AddEvolvesOrder(m: Manager, z: Id, d: Time)
    requires Ok(m) && z !in m.recs
    ensures var a := Add(m, z, 0, 0, false, d).0;
      a.recs == m.recs[z := Timer(false, 0, d, Some(0))] && forall x :: x in a.order ==> x in m.order || x == z
  {
    var t := Timer(false, 0, d, Some(0));
    ReplaceOutside(m.recs, m.order, z, t);
    InsertSorted(m.recs[z := t], m.order, z);
  }

  /** A reset about to insert its timer can be made to find the deadline free. */
  lemma ComesBackSoon(s: State, k: nat) returns (ops: seq<Op>, u: State)
    requires Inv(s) && !s.broken && k < |s.halves| && s.halves[k].written
    ensures Leads(Next, s, ops, u) && s.halves[k].id in u.m.order
  {
    var id := s.halves[k].id;
    assert HalfOk(s.m, s.halves[k]);
    var before, t := FreeUp(s, s.m.recs[id].next);
    u := Apply(t, OpResetInsert(k));
    AddToSetOk(t.m, id);
    Then(Next, s, before, t, OpResetInsert(k), u);
    ops := before + [OpResetInsert(k)];
  }

  /** A reset in progress can still put its timer in the set. */
  lemma ComesBack(s: State, k: nat) returns (ops: seq<Op>, u: State)
    requires Inv(s) && !s.broken && k < |s.halves| && s.halves[k].id !in s.m.order
    ensures Leads(Next, s, ops, u) && s.halves[k].id in u.m.order
  {
    if s.halves[k].written {
      ops, u := ComesBackSoon(s, k);
    } else {
      var op := OpResetWrite(k, 0);
      assert HalfOk(s.m, s.halves[k]);
      var t := Apply(s, op);
      StepKeepsInv(s, op);
      assert Leads(Next, s, [], s);
      Then(Next, s, [], s, op, t);
      assert Halves(s, op)[k].written;
      ops, u := ComesBackSoon(t, k);
      Join(Next, s, [] + [op], t, ops, u);
      ops := [op] + ops;
    }
  }

  /** A timer just cancelled stays out of the set in every continuation exactly when no reset of it
      is in progress. */
  lemma StaysOutIff(now: Time, before: seq<Op>, s: State, id: Id)
    requires Leads(Next, Fresh(now), before, s) && Enabled(s, OpCancel(id)) && Cancel(s.m, id).1
    ensures (forall after, u :: Leads(Next, Apply(s, OpCancel(id)), after, u) ==> id !in u.m.order)
       <==> !Open(s, id)
  {
    var c := Apply(s, OpCancel(id));
    RunKeepsInv(now, before, s);
    StepKeepsInv(s, OpCancel(id));
    CancelOk(s.m, id);
    EraseOk(s.m, id);
    if Open(s, id) {
      var k :| 0 <= k < |s.halves| && s.halves[k].id == id;
      assert c.halves[k].id == id;
      var after, u := ComesBack(c, k);
    } else {
      forall after, u | Leads(Next, c, after, u)
        ensures id !in u.m.order
      {
        AbsentForever(c, after, u, id);
      }
    }
  }

  /** Cancelling takes out the timer that holds the deadline.  The other timers stay exactly when
      the cancelled timer holds it itself, or nobody does; a timer that was dropped for a taken
      deadline takes the holder of that deadline with it. */
  lemma CancelSparesOthersIff(s: Manager, id: Id)
    requires Ok(s) && id in s.recs && s.recs[id].cb != None
    ensures (forall x :: x in s.order && x != id ==> x in Cancel(s, id).0.order)
       <==> id in s.order || !HasKey(s.recs, s.order, s.recs[id].next)
  {
    EraseSorted(s.recs, s.order, s.recs[id].next);
    HasKeyMeans(s.recs, s.order, s.recs[id].next);
    if id in s.order {
      forall x | x in s.order && x != id
        ensures s.recs[x].next != s.recs[id].next
      {
        DistinctKeys(s.recs, s.order, x, id);
      }
    }
  }

  // ---- runs that go wrong -------------------------------------------------------------

  ghost predicate Reached(s: State) {
    Inv(s) && Reachable(Next, Fresh(0), s)
  }

  lemma Do(s: State, op: Op) returns (u: State)
    requires Reached(s) && Enabled(s, op)
    ensures Reached(u) && u == Apply(s, op)
  {
    StepKeepsInv(s, op);
    u := Reach(Next, Fresh(0), s, op);
  }

  lemma Begin() returns (s: State)
    ensures Reached(s) && s == Fresh(0)
  {
    s := Fresh(0);
    Runs.Start(Next, s);
  }

  /** Where a new timer goes. */
  lemma AddMeans(m: Manager, id: Id, ms: nat, cb: nat, recurring: bool, now: Time)
    requires Ok(m) && id !in m.recs
    ensures var u, t := Add(m, id, ms, cb, recurring, now).0, Timer(recurring, ms, Deadline(now, ms), Some(cb));
      && u.recs == m.recs[id := t]
      && (id in u.order <==> !HasKey(m.recs, m.order, t.next))
      && (forall x :: x != id ==> (x in u.order <==> x in m.order))
  {
    var t := Timer(recurring, ms, Deadline(now, ms), Some(cb));
    ReplaceOutside(m.recs, m.order, id, t);
    InsertSorted(m.recs[id := t], m.order, id);
    HasKeyMeans(m.recs, m.order, t.next);
    HasKeyMeans(m.recs[id := t], m.order, t.next);
  }

  /** One timer, number 1, ten milliseconds from time 0. */
  lemma OneTimer(ms: nat) returns (s: State)
    ensures Reached(s) && !s.broken && s.halves == [] && s.m.order == [1]
    ensures s.m.recs == map[1 := Timer(true, ms, Deadline(0, ms), Some(5))]
  {
    var f := Begin();
    AddMeans(f.m, 1, ms, 5, true, 0);
    s := Do(f, OpAdd(1, ms, 5, true, 0));
    assert s.m.order == [1];
  }

  /** It has been taken out by a reset. */
  lemma HalfReset() returns (s: State)
    ensures Reached(s) && !s.broken && s.m.order == []
    ensures s.m.recs == map[1 := Timer(true, 10, Deadline(0, 10), Some(5))]
    ensures s.halves == [Half(1, 20, true, false, false, false)]
  {
    var a := OneTimer(10);
    HasKeyMeans(a.m.recs, a.m.order, Deadline(0, 10));
    EraseSorted(a.m.recs, a.m.order, Deadline(0, 10));
    s := Do(a, OpResetErase(1, 20, true));
    assert s.m.order == [] by {
      assert forall x :: x !in s.m.order;
    }
  }

  lemma CancelInBetween() returns (s: State, c: State)
    ensures Reached(s) && 1 in s.m.recs && Cancel(s.m, 1).1 && Next(s, OpCancel(1)) == Some(c)
    ensures Reached(c) && !c.broken && c.m.order == [] && c.m.recs == map[1 := Timer(true, 10, Deadline(0, 10), None)]
    ensures |c.halves| == 1 && c.halves[0].id == 1 && c.halves[0].ms == 20
    ensures c.halves[0].fromNow && !c.halves[0].written
  {
    s := HalfReset();
    CancelOk(s.m, 1);
    EraseOk(s.m, 1);
    c := Do(s, OpCancel(1));
    assert c.m.order == [] by {
      assert forall x :: x !in c.m.order;
    }
  }

  /** A cancel while a reset is in progress: the timer ends up in the set with no callback, though
      the cancel returned true, and nobody can cancel it any more. */
  lemma CancelledAndBack() returns (s: State, c: State, w: State, u: State)
    ensures Reached(s) && 1 in s.m.recs && Cancel(s.m, 1).1 && Next(s, OpCancel(1)) == Some(c)
    ensures Next(c, OpResetWrite(0, 0)) == Some(w) && Next(w, OpResetInsert(0)) == Some(u) && Reached(u)
    ensures 1 in u.m.order && 1 in u.m.recs && u.m.recs[1].cb == None && u.m.recs[1].recurring
  {
    s, c := CancelInBetween();
    w := Do(c, OpResetWrite(0, 0));
    AddToSetOk(w.m, 1);
    HasKeyMeans(w.m.recs, w.m.order, w.m.recs[1].next);
    u := Do(w, OpResetInsert(0));
  }

  /** A refresh while a reset is in progress, when another timer has taken the old deadline: reset
      changes a deadline inside the set. */
  lemma DeadlineChangedInSet() returns (u: State)
    ensures Reached(u) && u.broken
  {
    var s := HalfReset();
    AddMeans(s.m, 2, 10, 6, false, 0);
    HasKeyMeans(s.m.recs, s.m.order, Deadline(0, 10));
    var a := Do(s, OpAdd(2, 10, 6, false, 0));
    HasKeyMeans(a.m.recs, a.m.order, Deadline(0, 10));
    RefreshInserts(a.m, 1, 3);
    var r := Do(a, OpRefresh(1, 3));
    u := Do(r, OpResetWrite(0, 3));
  }

  lemma RefreshInserts(m: Manager, id: Id, now: Time)
    requires Ok(m) && id in m.recs && CanReset(m, id)
    requires forall x :: x in m.order ==> m.recs[x].next == m.recs[id].next
    ensures id in Refresh(m, id, now).0.order && id in Refresh(m, id, now).0.recs
  {
    var recs := m.recs[id := m.recs[id].(next := Deadline(now, m.recs[id].ms))];
    var order := Erase(m.recs, m.order, m.recs[id].next);
    RefreshIs(m, id, now, recs, order);
    EraseSorted(m.recs, m.order, m.recs[id].next);
    HasKeyMeans(recs, order, recs[id].next);
    InsertSorted(recs, order, id);
  }

  /** A recurring timer of period zero: the expiry loop never ends. */
  lemma ZeroPeriodNeverEnds() returns (s: State)
    ensures Reached(s) && !LoopEnds(s.m, 0, false)
  {
    s := OneTimer(0);
    LoopEndsIff(s.m, 0, false);
    DueMeans(s.m, 0, 0);
    assert Again(s.m, false, 0) && !Crowded(s.m, 0, 0);
  }

  /** A second timer of the same period, one tick later. */
  lemma TwoTimers() returns (s: State)
    ensures Reached(s) && 1 in s.m.order && 2 in s.m.order
    ensures s.m.recs == map[1 := Timer(true, 10, Deadline(0, 10), Some(5)),
                            2 := Timer(true, 10, Deadline(1, 10), Some(6))]
  {
    var a := OneTimer(10);
    AddMeans(a.m, 2, 10, 6, true, 1);
    HasKeyMeans(a.m.recs, a.m.order, Deadline(1, 10));
    s := Do(a, OpAdd(2, 10, 6, true, 1));
  }

  lemma SamePeriod(m: Manager, now: Time, i: nat, j: nat)
    requires Ok(m) && i < j < |m.order| && m.recs[m.order[i]].next <= now && m.recs[m.order[j]].next <= now
    requires m.recs[m.order[i]].recurring && m.recs[m.order[j]].recurring
    requires m.recs[m.order[i]].ms == m.recs[m.order[j]].ms
    ensures !Distinct(m, now, DueCount(m, now, false))
  {
    DueMeans(m, now, i);
    DueMeans(m, now, j);
  }

  lemma EarlierFirst(m: Manager, i: nat, j: nat)
    requires Ok(m) && i < |m.order| && j < |m.order| && m.recs[m.order[i]].next < m.recs[m.order[j]].next
    ensures i < j
  {
  }

  /** Two recurring timers of equal period that are due together: one of them is lost. */
  lemma EqualPeriodsLose() returns (s: State, now: Time)
    ensures Reached(s) && Ends(s.m, now, false)
    ensures !KeptAll(s.m, DueCount(s.m, now, false), Rounds(s.m, now, DueCount(s.m, now, false)))
  {
    s := TwoTimers();
    now := Deadline(2, 10);
    var i :| 0 <= i < |s.m.order| && s.m.order[i] == 1;
    var j :| 0 <= j < |s.m.order| && s.m.order[j] == 2;
    EarlierFirst(s.m, i, j);
    SamePeriod(s.m, now, i, j);
    OrdinaryEnds(s.m, now, false);
    NoTimerLostIff(s.m, now, false);
  }

  /** Two timers of equal deadline: cancelling the second, which was dropped, takes out the first. */
  lemma CancelHitsAnother() returns (s: State)
    ensures Reached(s) && 1 in s.m.order && 2 in s.m.recs && s.m.recs[2].cb != None
    ensures 1 !in Cancel(s.m, 2).0.order
  {
    var a := OneTimer(10);
    AddMeans(a.m, 2, 10, 6, true, 0);
    HasKeyMeans(a.m.recs, a.m.order, Deadline(0, 10));
    s := Do(a, OpAdd(2, 10, 6, true, 0));
    EraseSorted(s.m.recs, s.m.order, Deadline(0, 10));
  }
}
