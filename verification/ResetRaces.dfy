/**
 When a reset can change the deadline of a timer inside the timer set (dag/timer.cpp): reset takes
 the timer out under the lock, but writes its deadline without, and others may have put it back.
 */
module ResetRaces {
  import opened Runs
  import opened Timers
  import opened TimerExpiry
  import opened TimerRuns

  /** The j-th reset is of this timer and has yet to write its deadline. */
  predicate Unwritten(s: State, j: nat, id: Id) {
    j < |s.halves| && s.halves[j].id == id && !s.halves[j].written
  }

  /** The j-th reset writes the timer's deadline, and that breaks the set. */
  predicate Breaks(s: State, j: nat, at: Time, id: Id) {
    Unwritten(s, j, id) && Enabled(s, OpResetWrite(j, at)) && Apply(s, OpResetWrite(j, at)).broken
  }

  /** Some continuation ends in a reset of the timer breaking the set. */
  ghost predicate Breakable(s: State, id: Id) {
    exists ops, u, j, at :: Leads(Next, s, ops, u) && Breaks(u, j, at, id)
  }

  /** More than one reset of the timer is in progress. */
  predicate Another(s: State, id: Id) {
    exists i, j :: 0 <= i < j < |s.halves| && s.halves[i].id == id && s.halves[j].id == id
  }

  lemma InSetBreaks(s: State, ops: seq<Op>, u: State, j: nat, id: Id)
    requires Leads(Next, s, ops, u) && Inv(u) && !u.broken && Unwritten(u, j, id) && id in u.m.order
    ensures Breakable(s, id)
  {
    assert HalfOk(u.m, u.halves[j]);
    assert Breaks(u, j, 0, id);
  }

  // ---- a timer with a callback --------------------------------------------------------

  /** refresh at the time that gives the timer its old deadline puts it in the set. */
  lemma RefreshInPlace(m: Manager, id: Id, now: Time)
    requires Ok(m) && id in m.recs && CanReset(m, id) && now == m.recs[id].next - Ticks(m.recs[id].ms)
    ensures id in Refresh(m, id, now).0.order
  {
    var d := m.recs[id].next;
    var recs := m.recs[id := m.recs[id].(next := Deadline(now, m.recs[id].ms))];
    var order := Erase(m.recs, m.order, d);
    RefreshIs(m, id, now, recs, order);
    EraseOk(m, id);
    EraseSorted(m.recs, m.order, d);
    HasKeyMeans(recs, order, d);
    InsertSorted(recs, order, id);
  }

  /** A timer added at the same deadline lets refresh go on, whether or not it is dropped. */
  lemma AddedHolds(m: Manager, z: Id, id: Id)
    requires Ok(m) && z !in m.recs && id in m.recs && m.recs[id].cb != None
    ensures var a := Add(m, z, 0, 0, false, m.recs[id].next).0;
      Ok(a) && id in a.recs && a.recs[id] == m.recs[id] && CanReset(a, id)
  {
    var d := m.recs[id].next;
    var a := Add(m, z, 0, 0, false, d).0;
    AddOk(m, z, 0, 0, false, d);
    AddMeans(m, z, 0, 0, false, d);
    HasKeyMeans(m.recs, m.order, d);
    HasKeyMeans(a.recs, a.order, d);
    if HasKey(m.recs, m.order, d) {
      var x :| x in m.order && m.recs[x].next == d;
      assert x in a.order && a.recs[x].next == d;
    } else {
      assert z in a.order && a.recs[z].next == d;
    }
  }

  /** Other operations leave the resets in progress as they are. */
  lemma Unmoved(s: State, op: Op, k: nat, id: Id)
    requires Enabled(s, op) && (op.OpAdd? || op.OpRefresh?) && Unwritten(s, k, id)
    ensures Unwritten(Apply(s, op), k, id) && !Apply(s, op).broken && Apply(s, op).m == Managed(s, op)
  {
  }

  lemma HolderAdded(s: State, k: nat, id: Id) returns (op: Op, t: State)
    requires Inv(s) && !s.broken && Unwritten(s, k, id) && id in s.m.recs && s.m.recs[id].cb != None
    ensures Next(s, op) == Some(t) && Inv(t) && !t.broken && Unwritten(t, k, id)
    ensures id in t.m.recs && CanReset(t.m, id)
  {
    var z := NewId(s.m.recs.Keys);
    assert z !in s.m.recs.Keys;
    op := OpAdd(z, 0, 0, false, s.m.recs[id].next);
    AddedHolds(s.m, z, id);
    StepKeepsInv(s, op);
    Unmoved(s, op, k, id);
    t := Apply(s, op);
  }

  lemma Refreshed(t: State, k: nat, id: Id) returns (op: Op, u: State)
    requires Inv(t) && !t.broken && Unwritten(t, k, id) && id in t.m.recs && CanReset(t.m, id)
    ensures Next(t, op) == Some(u) && Inv(u) && !u.broken && Unwritten(u, k, id) && id in u.m.order
  {
    var now := t.m.recs[id].next - Ticks(t.m.recs[id].ms);
    op := OpRefresh(id, now);
    u := Apply(t, op);
    StepKeepsInv(t, op);
    Unmoved(t, op, k, id);
    RefreshInPlace(t.m, id, now);
    assert u.m == Refresh(t.m, id, now).0;
  }

  lemma BroughtBack(s: State, k: nat, id: Id)
    requires Inv(s) && !s.broken && Unwritten(s, k, id) && id in s.m.recs && s.m.recs[id].cb != None
    ensures Breakable(s, id)
  {
    var a, t := HolderAdded(s, k, id);
    var r, u := Refreshed(t, k, id);
    assert Leads(Next, s, [], s);
    Then(Next, s, [], s, a, t);
    Then(Next, s, [] + [a], t, r, u);
    InSetBreaks(s, [] + [a] + [r], u, k, id);
  }

  // ---- two resets of one timer --------------------------------------------------------

  /** Its deadline being free, a reset inserts the timer; the others move up. */
  lemma InsertsNow(t: State, k: nat, j: nat, id: Id) returns (u: State, i: nat)
    requires Inv(t) && !t.broken && Unwritten(t, k, id) && j < |t.halves| && j != k && id in t.m.recs
    requires t.halves[j].id == id && t.halves[j].written && !HasKey(t.m.recs, t.m.order, t.m.recs[id].next)
    ensures Next(t, OpResetInsert(j)) == Some(u) && Inv(u) && !u.broken && Unwritten(u, i, id) && id in u.m.order
  {
    var op := OpResetInsert(j);
    i := if k < j then k else k - 1;
    MovedUp(t.halves, j, k, i);
    AddToSetOk(t.m, id);
    StepKeepsInv(t, op);
    u := Apply(t, op);
  }

  lemma MovedUp(hs: seq<Half>, j: nat, k: nat, i: nat)
    requires j < |hs| && k < |hs| && j != k && i == if k < j then k else k - 1
    ensures i < |hs[..j] + hs[j + 1..]| && (hs[..j] + hs[j + 1..])[i] == hs[k]
  {
  }

  lemma OtherInserts(s: State, k: nat, j: nat, id: Id)
    requires Inv(s) && !s.broken && Unwritten(s, k, id) && j < |s.halves| && j != k
    requires s.halves[j].id == id && s.halves[j].written
    ensures Breakable(s, id)
  {
    assert HalfOk(s.m, s.halves[j]);
    var ops, t := FreeUp(s, s.m.recs[id].next);
    var u, i := InsertsNow(t, k, j, id);
    Then(Next, s, ops, t, OpResetInsert(j), u);
    InSetBreaks(s, ops + [OpResetInsert(j)], u, i, id);
  }

  lemma OtherWrites(s: State, k: nat, j: nat, id: Id)
    requires Inv(s) && !s.broken && Unwritten(s, k, id) && j != k && Unwritten(s, j, id) && id !in s.m.order
    ensures Breakable(s, id)
  {
    var op := OpResetWrite(j, 0);
    assert HalfOk(s.m, s.halves[j]);
    var t := Apply(s, op);
    StepKeepsInv(s, op);
    assert Halves(s, op)[j].written && Halves(s, op)[k] == s.halves[k];
    OtherInserts(t, k, j, id);
    assert Leads(Next, s, [], s);
    Then(Next, s, [], s, op, t);
    BreakableAfter(s, [] + [op], t, id);
  }

  lemma BreakableAfter(s: State, ops: seq<Op>, t: State, id: Id)
    requires Leads(Next, s, ops, t) && Breakable(t, id)
    ensures Breakable(s, id)
  {
    var more, u, j, at :| Leads(Next, t, more, u) && Breaks(u, j, at, id);
    Join(Next, s, ops, t, more, u);
  }

  lemma TwoBreak(s: State, k: nat, id: Id)
    requires Inv(s) && !s.broken && Unwritten(s, k, id) && Another(s, id) && id !in s.m.order
    ensures Breakable(s, id)
  {
    var i, i' :| 0 <= i < i' < |s.halves| && s.halves[i].id == id && s.halves[i'].id == id;
    var j := if i == k then i' else i;
    if s.halves[j].written {
      OtherInserts(s, k, j, id);
    } else {
      OtherWrites(s, k, j, id);
    }
  }

  // ---- nobody left to bring it back ---------------------------------------------------

  /** No callback, at most one reset in progress, and the timer out of the set until it has written. */
  predicate Lone(s: State, id: Id) {
    && id in s.m.recs && s.m.recs[id].cb == None && !Another(s, id)
    && (id in s.m.order ==> forall j :: 0 <= j < |s.halves| ==> !Unwritten(s, j, id))
  }

  lemma NoOtherAt(s: State, op: Op, id: Id, i: nat, j: nat)
    requires Enabled(s, op) && id in s.m.recs && s.m.recs[id].cb == None && i < j < |Halves(s, op)|
    requires Halves(s, op)[i].id == id && Halves(s, op)[j].id == id
    ensures Another(s, id)
  {
    var hs := Halves(s, op);
    var a := if op.OpResetInsert? && i >= op.k then i + 1 else i;
    var b := if op.OpResetInsert? && j >= op.k then j + 1 else j;
    assert hs[i].id == s.halves[a].id && hs[j].id == s.halves[b].id;
  }

  lemma NoOther(s: State, op: Op, id: Id)
    requires Inv(s) && Enabled(s, op) && Lone(s, id)
    ensures !Another(Apply(s, op), id)
  {
    var hs := Halves(s, op);
    forall i, j | 0 <= i < j < |hs| && hs[i].id == id && hs[j].id == id
      ensures false
    {
      NoOtherAt(s, op, id, i, j);
    }
  }

  lemma StillOut(s: State, op: Op, id: Id)
    requires Inv(s) && Enabled(s, op) && Lone(s, id) && id in Managed(s, op).order
    ensures forall j :: 0 <= j < |Halves(s, op)| ==> Halves(s, op)[j].id == id ==> Halves(s, op)[j].written
  {
    var hs := Halves(s, op);
    OpEvolves(s, op, id);
    forall j | 0 <= j < |hs| && hs[j].id == id
      ensures hs[j].written
    {
      if op.OpResetInsert? {
        var b := if j < op.k then j else j + 1;
        assert hs[j] == s.halves[b];
        assert s.halves[op.k].id == id ==> Another(s, id);
        assert !Unwritten(s, b, id);
      } else {
        assert id in s.m.order;
        assert j < |s.halves| ==> !Unwritten(s, j, id);
      }
    }
  }

  lemma LoneStays(s: State, op: Op, id: Id)
    requires Inv(s) && Enabled(s, op) && Lone(s, id)
    ensures Lone(Apply(s, op), id)
  {
    NoOther(s, op, id);
    OpEvolves(s, op, id);
    if id in Managed(s, op).order {
      StillOut(s, op, id);
    }
  }

  lemma LoneIsSafe(s: State, id: Id)
    requires Inv(s) && Lone(s, id)
    ensures !Breakable(s, id)
  {
    var inv := (x: State) => Inv(x) && Lone(x, id);
    forall m, op | inv(m) && Next(m, op).Some?
      ensures inv(Next(m, op).value)
    {
      StepKeepsInv(m, op);
      LoneStays(m, op, id);
    }
    forall ops, u, j, at | Leads(Next, s, ops, u)
      ensures !Breaks(u, j, at, id)
    {
      Invariant(Next, inv, s, ops, u);
    }
  }

  // ---- the exact condition ------------------------------------------------------------

  /** A reset of a timer that has yet to write its deadline can still come to do so inside the set
      exactly if the timer is in the set, or has a callback, so that refresh can put it back, or
      another reset of it is in progress. */
  lemma BreakableIff(now: Time, before: seq<Op>, s: State, k: nat, id: Id)
    requires Leads(Next, Fresh(now), before, s) && !s.broken && Unwritten(s, k, id)
    ensures id in s.m.recs
    ensures Breakable(s, id) <==> id in s.m.order || s.m.recs[id].cb != None || Another(s, id)
  {
    RunKeepsInv(now, before, s);
    assert HalfOk(s.m, s.halves[k]);
    if id in s.m.order {
      assert Leads(Next, s, [], s);
      InSetBreaks(s, [], s, k, id);
    } else if s.m.recs[id].cb != None {
      BroughtBack(s, k, id);
    } else if Another(s, id) {
      TwoBreak(s, k, id);
    } else {
      LoneIsSafe(s, id);
    }
  }

  /** So every reset can be broken when it has just taken its timer out. */
  lemma EveryResetCanBreak(now: Time, before: seq<Op>, s: State, id: Id, ms: nat, fromNow: bool)
    requires Leads(Next, Fresh(now), before, s) && Enabled(s, OpResetErase(id, ms, fromNow)) && CanReset(s.m, id)
    ensures Breakable(Apply(s, OpResetErase(id, ms, fromNow)), id)
  {
    var op := OpResetErase(id, ms, fromNow);
    RunKeepsInv(now, before, s);
    StepKeepsInv(s, op);
    assert Halves(s, op)[|s.halves|] == Half(id, ms, fromNow, false, false, false);
    BroughtBack(Apply(s, op), |s.halves|, id);
  }
}
