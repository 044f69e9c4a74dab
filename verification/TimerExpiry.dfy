/**
 TimerManager::listExpiredCb (dag/timer.cpp): which callbacks it returns and what it leaves.
 */
module TimerExpiry {
  import opened Runs
  import opened Timers

  /** The condition of the expiry loop. */
  predicate Guard(s: Manager, now: Time, rollover: bool)
    requires Known(s.recs, s.order)
  {
    s.order != [] && (rollover || s.recs[s.order[0]].next <= now)
  }

  /** How many timers are due: all of them after a clock rollover. */
  function DueCount(s: Manager, now: Time, rollover: bool): (k: nat)
    requires Known(s.recs, s.order)
    ensures k <= |s.order|
  {
    if rollover then |s.order| else LowerBound(s.recs, s.order, now + 1)
  }

  /** Re-armed in this call, the i-th timer would be due again at once. */
  predicate Again(s: Manager, rollover: bool, i: nat)
    requires Known(s.recs, s.order) && i < |s.order|
  {
    s.recs[s.order[i]].recurring && (rollover || s.recs[s.order[i]].ms == 0)
  }

  /** The new deadline of the i-th timer lies behind its old one and is held by another timer. */
  predicate Crowded(s: Manager, now: Time, i: nat)
    requires Known(s.recs, s.order) && i < |s.order|
  {
    var slot := Deadline(now, s.recs[s.order[i]].ms);
    s.recs[s.order[i]].next < slot && HasKey(s.recs, s.order, slot)
  }

  /** The first n timers do not keep the loop going: who would be due again is crowded out. */
  predicate Calm(s: Manager, now: Time, rollover: bool, n: nat)
    requires Known(s.recs, s.order) && n <= |s.order|
  {
    forall i :: 0 <= i < n && Again(s, rollover, i) ==> Crowded(s, now, i)
  }

  /** What makes the loop end. */
  predicate Ends(s: Manager, now: Time, rollover: bool)
    requires Known(s.recs, s.order)
  {
    Calm(s, now, rollover, DueCount(s, now, rollover))
  }

  function Fired(t: Timer, now: Time): Timer {
    if t.recurring then t.(next := Deadline(now, t.ms)) else t.(cb := None)
  }

  /** The records after i rounds: the first i timers have fired. */
  ghost predicate MidRecs(s: Manager, now: Time, i: nat, t: Manager)
    requires i <= |s.order|
  {
    && t.recs.Keys == s.recs.Keys
    && forall x :: x in s.recs ==>
         t.recs[x] == if x in s.order[..i] then Fired(s.recs[x], now) else s.recs[x]
  }

  /** The state after i rounds of the loop, k timers being due. */
  ghost predicate Mid(s: Manager, now: Time, rollover: bool, k: nat, i: nat, t: Manager) {
    && Ok(t) && Known(s.recs, s.order) && i <= k <= |s.order| && k - i <= |t.order|
    && t.tickled == s.tickled && t.previous == s.previous
    && (forall j :: 0 <= j < k - i ==> t.order[j] == s.order[i + j])
    && (rollover ==> |t.order| == k - i)
    && (!rollover ==> forall j :: k - i <= j < |t.order| ==> t.recs[t.order[j]].next > now)
    && MidRecs(s, now, i, t)
    && (forall x :: x in s.order[k..] ==> x in t.order)
    && (forall x :: x in t.order ==> x in s.order)
    && Recurs(s, i, t)
  }

  /** A timer that has fired and is in the set is a recurring one. */
  predicate Recurs(s: Manager, i: nat, t: Manager)
    requires Known(s.recs, s.order) && i <= |s.order|
  {
    forall x :: x in t.order && x in s.order[..i] ==> s.recs[x].recurring
  }

  lemma MidStart(s: Manager, now: Time, rollover: bool)
    requires Ok(s)
    ensures Mid(s, now, rollover, DueCount(s, now, rollover), 0, s)
  {
    var k := DueCount(s, now, rollover);
    assert forall j :: k < j < |s.order| ==> s.recs[s.order[k]].next < s.recs[s.order[j]].next;
  }

  lemma MidGuard(s: Manager, now: Time, rollover: bool, k: nat, i: nat, t: Manager)
    requires Ok(s) && k == DueCount(s, now, rollover) && Mid(s, now, rollover, k, i, t)
    ensures Guard(t, now, rollover) <==> i < k
  {
    if i < k {
      assert t.order[0] == s.order[i + 0];
      NotYetFired(s.recs, s.order, i);
    }
  }

  lemma NotYetFired(recs: map<Id, Timer>, order: seq<Id>, i: nat)
    requires Sorted(recs, order) && i < |order|
    ensures order[i] !in order[..i]
  {
  }

  /** A timer re-armed beyond now goes behind the d timers that are still due. */
  lemma RearmOrder(recs: map<Id, Timer>, rest: seq<Id>, id: Id, now: Time, d: nat)
    requires Sorted(recs, rest) && id in recs && recs[id].next > now && d <= |rest|
    requires forall j :: 0 <= j < d ==> recs[rest[j]].next <= now
    requires forall j :: d <= j < |rest| ==> recs[rest[j]].next > now
    ensures var r := Insert(recs, rest, id);
      && d <= |r| && Known(recs, r)
      && (forall j :: 0 <= j < d ==> r[j] == rest[j])
      && (forall j :: d <= j < |r| ==> recs[r[j]].next > now)
      && (forall x :: x in rest ==> x in r)
      && (forall x :: x in r ==> x in rest || x == id)
  {
    var r, p := Insert(recs, rest, id), LowerBound(recs, rest, recs[id].next);
    InsertSorted(recs, rest, id);
    assert p >= d;
    if !HasKey(recs, rest, recs[id].next) {
      assert r == Put(rest, p, id);
      forall j | d <= j < |r|
        ensures recs[r[j]].next > now
      {
        var a := if j < p then j else j - 1;
        assert j != p ==> r[j] == rest[a];
      }
    }
  }

  /** The timers behind the front one: first those still due, unfired. */
  lemma RestOrder(s: Manager, now: Time, rollover: bool, k: nat, i: nat, t: Manager)
    requires Ok(s) && k == DueCount(s, now, rollover) && Mid(s, now, rollover, k, i, t) && i < k
    ensures t.order[0] == s.order[i] && t.recs[t.order[0]] == s.recs[s.order[i]]
    ensures var rest := t.order[1..];
      && Sorted(t.recs, rest) && t.order[0] !in rest && k - i - 1 <= |rest|
      && (!rollover ==> forall j :: 0 <= j < k - i - 1 ==> t.recs[rest[j]].next <= now)
      && (!rollover ==> forall j :: k - i - 1 <= j < |rest| ==> t.recs[rest[j]].next > now)
  {
    var rest := t.order[1..];
    TailSorted(t.recs, t.order);
    assert t.order[0] == s.order[i + 0];
    NotYetFired(s.recs, s.order, i);
    if !rollover {
      forall j | 0 <= j < k - i - 1
        ensures t.recs[rest[j]].next <= now
      {
        assert rest[j] == t.order[j + 1] == s.order[i + (j + 1)];
        NotYetFired(s.recs, s.order, i + (j + 1));
        assert s.order[i + (j + 1)] !in s.order[..i];
      }
      forall j | k - i - 1 <= j < |rest|
        ensures t.recs[rest[j]].next > now
      {
        assert rest[j] == t.order[j + 1];
      }
    }
  }

  /** A timer crowded out of its new deadline when the loop began still is when it fires: the
      holder of the deadline comes later. */
  lemma HolderRemains(s: Manager, now: Time, rollover: bool, k: nat, i: nat, t: Manager, slot: Time)
    requires Ok(s) && k == DueCount(s, now, rollover) && Mid(s, now, rollover, k, i, t) && i < k
    requires s.recs[s.order[i]].next < slot && HasKey(s.recs, s.order, slot)
    ensures exists x :: x in t.order[1..] && x in t.recs && t.recs[x].next == slot
  {
    var j, rest := LowerBound(s.recs, s.order, slot), t.order[1..];
    var x := s.order[j];
    PrefixFree(s.recs, s.order, i, j);
    RestOrder(s, now, rollover, k, i, t);
    TailMembers(t.order);
    if j < k {
      assert t.order[j - i] == s.order[i + (j - i)];
    } else {
      assert s.order[k..][j - k] == x;
    }
    assert x in rest;
  }

  lemma CrowdedOut(s: Manager, now: Time, rollover: bool, k: nat, i: nat, t: Manager)
    requires Ok(s) && k == DueCount(s, now, rollover) && Mid(s, now, rollover, k, i, t) && i < k
    requires Again(s, rollover, i) && Crowded(s, now, i)
    ensures Fire(t, now).order == t.order[1..]
  {
    var u, id, rest := Fire(t, now), t.order[0], t.order[1..];
    RestOrder(s, now, rollover, k, i, t);
    HolderRemains(s, now, rollover, k, i, t, Deadline(now, s.recs[s.order[i]].ms));
    ReplaceOutside(t.recs, rest, id, u.recs[id]);
    HasKeyMeans(u.recs, rest, u.recs[id].next);
  }

  /** The order after a round: the due timers still waiting come first, unchanged. */
  lemma RoundOrder(s: Manager, now: Time, rollover: bool, k: nat, i: nat, t: Manager)
    requires Ok(s) && k == DueCount(s, now, rollover) && Mid(s, now, rollover, k, i, t) && i < k
    requires Again(s, rollover, i) ==> Crowded(s, now, i)
    ensures var u := Fire(t, now);
      && k - i - 1 <= |u.order| && Known(u.recs, u.order)
      && (forall j :: 0 <= j < k - i - 1 ==> u.order[j] == t.order[j + 1])
      && (rollover ==> |u.order| == k - i - 1)
      && (!rollover ==> forall j :: k - i - 1 <= j < |u.order| ==> u.recs[u.order[j]].next > now)
      && (forall x :: x in t.order && x != t.order[0] ==> x in u.order)
      && (forall x :: x in u.order ==> x in t.order)
  {
    var u, id, rest := Fire(t, now), t.order[0], t.order[1..];
    RestOrder(s, now, rollover, k, i, t);
    assert t.order == [id] + rest;
    ReplaceOutside(t.recs, rest, id, u.recs[id]);
    if Again(s, rollover, i) {
      CrowdedOut(s, now, rollover, k, i, t);
    } else if t.recs[id].recurring {
      RearmOrder(u.recs, rest, id, now, k - i - 1);
    }
  }

  lemma RoundRecords(s: Manager, now: Time, i: nat, t: Manager)
    requires Ok(s) && i < |s.order| && MidRecs(s, now, i, t)
    requires t.order != [] && t.order[0] == s.order[i] && Known(t.recs, t.order)
    ensures MidRecs(s, now, i + 1, Fire(t, now))
  {
    NotYetFired(s.recs, s.order, i);
    assert s.order[..i + 1] == s.order[..i] + [s.order[i]];
  }

  lemma RoundRecurs(s: Manager, now: Time, rollover: bool, k: nat, i: nat, t: Manager)
    requires Ok(s) && k == DueCount(s, now, rollover) && Mid(s, now, rollover, k, i, t) && i < k
    requires Again(s, rollover, i) ==> Crowded(s, now, i)
    ensures Recurs(s, i + 1, Fire(t, now))
  {
    RestOrder(s, now, rollover, k, i, t);
    RoundOrder(s, now, rollover, k, i, t);
    assert s.order[..i + 1] == s.order[..i] + [s.order[i]];
  }

  lemma MidStep(s: Manager, now: Time, rollover: bool, k: nat, i: nat, t: Manager)
    requires Ok(s) && k == DueCount(s, now, rollover) && Mid(s, now, rollover, k, i, t) && i < k
    requires Again(s, rollover, i) ==> Crowded(s, now, i)
    ensures Mid(s, now, rollover, k, i + 1, Fire(t, now))
    ensures t.order[0] == s.order[i] && t.recs[t.order[0]].cb == s.recs[s.order[i]].cb
  {
    var u := Fire(t, now);
    FireOk(t, now);
    RestOrder(s, now, rollover, k, i, t);
    RoundOrder(s, now, rollover, k, i, t);
    RoundRecords(s, now, i, t);
    RoundRecurs(s, now, rollover, k, i, t);
    forall j | 0 <= j < k - (i + 1)
      ensures u.order[j] == s.order[i + 1 + j]
    {
      assert t.order[j + 1] == s.order[i + (j + 1)];
    }
    forall x | x in s.order[k..]
      ensures x in u.order
    {
      SuffixMember(s.recs, s.order, i, k, x);
    }
  }

  lemma SuffixMember(recs: map<Id, Timer>, order: seq<Id>, i: nat, k: nat, x: Id)
    requires Sorted(recs, order) && i < k <= |order| && x in order[k..]
    ensures x != order[i]
  {
    var j :| 0 <= j < |order[k..]| && order[k..][j] == x;
    assert recs[order[i]].next < recs[order[k + j]].next;
  }

  // ---- the whole call -----------------------------------------------------------------

  /** n rounds of the loop body. */
  function Rounds(s: Manager, now: Time, n: nat): Manager {
    Iterate(RoundAt(now), s, n)
  }

  function RoundAt(now: Time): Manager -> Manager {
    (t: Manager) => if Known(t.recs, t.order) && t.order != [] then Fire(t, now) else t
  }

  /** detectClockRollover, with its own reading of the clock. */
  predicate Rollover(s: Manager, clock: Time) {
    clock < s.previous - HOUR
  }

  /** listExpiredCb at time now: the state it leaves and the timers whose callbacks it returns. */
  function Expire(s: Manager, now: Time, clock: Time): (Manager, seq<Id>)
    requires Known(s.recs, s.order)
  {
    var k := DueCount(s, now, Rollover(s, clock));
    (Rounds(s.(previous := clock), now, k), s.order[..k])
  }

  /** Mid, as a property of the number of rounds and the state. */
  ghost function MidOf(s: Manager, now: Time, rollover: bool, k: nat): (nat, Manager) -> bool {
    (j: nat, x: Manager) => Mid(s, now, rollover, k, j, x)
  }

  lemma MidPasses(s: Manager, now: Time, rollover: bool, k: nat, i: nat)
    requires Ok(s) && k == DueCount(s, now, rollover) && i <= k && Calm(s, now, rollover, i)
    ensures forall j: nat, x ::
      j < i && MidOf(s, now, rollover, k)(j, x) ==> MidOf(s, now, rollover, k)(j + 1, RoundAt(now)(x))
  {
    forall j: nat, x | j < i && MidOf(s, now, rollover, k)(j, x)
      ensures MidOf(s, now, rollover, k)(j + 1, RoundAt(now)(x))
    {
      MidOnward(s, now, rollover, k, i, j, j + 1, x);
    }
  }

  lemma RoundsPass(s: Manager, now: Time, rollover: bool, k: nat, i: nat)
    requires Ok(s) && k == DueCount(s, now, rollover) && i <= k && Calm(s, now, rollover, i)
    ensures MidOf(s, now, rollover, k)(i, Rounds(s, now, i))
  {
    MidStart(s, now, rollover);
    MidPasses(s, now, rollover, k, i);
    Rounded(RoundAt(now), MidOf(s, now, rollover, k), s, i);
  }

  lemma MidIs(s: Manager, now: Time, rollover: bool, k: nat, i: nat, t: Manager)
    requires MidOf(s, now, rollover, k)(i, t)
    ensures Mid(s, now, rollover, k, i, t)
  {
  }

  lemma RoundsMid(s: Manager, now: Time, rollover: bool, k: nat, i: nat, t: Manager)
    requires Ok(s) && k == DueCount(s, now, rollover) && i <= k && Calm(s, now, rollover, i) && t == Rounds(s, now, i)
    ensures Mid(s, now, rollover, k, i, t)
  {
    RoundsPass(s, now, rollover, k, i);
    MidIs(s, now, rollover, k, i, t);
  }

  lemma MidOnward(s: Manager, now: Time, rollover: bool, k: nat, i: nat, j: nat, next: nat, t: Manager)
    requires Ok(s) && k == DueCount(s, now, rollover) && j < i <= k && Calm(s, now, rollover, i) && next == j + 1
    requires MidOf(s, now, rollover, k)(j, t)
    ensures MidOf(s, now, rollover, k)(next, RoundAt(now)(t))
  {
    MidIs(s, now, rollover, k, j, t);
    MidNext(s, now, rollover, k, j, next, t);
    FiresAt(t, now);
  }

  lemma FiresAt(t: Manager, now: Time)
    requires Known(t.recs, t.order) && t.order != []
    ensures RoundAt(now)(t) == Fire(t, now)
  {
  }

  lemma MidNext(s: Manager, now: Time, rollover: bool, k: nat, i: nat, next: nat, t: Manager)
    requires Ok(s) && k == DueCount(s, now, rollover) && Mid(s, now, rollover, k, i, t) && i < k && next == i + 1
    requires Again(s, rollover, i) ==> Crowded(s, now, i)
    ensures t.order != [] && Mid(s, now, rollover, k, next, Fire(t, now))
  {
    MidStep(s, now, rollover, k, i, t);
  }

  lemma RoundsNext(s: Manager, now: Time, n: nat, t: Manager)
    requires n > 0 && t == Rounds(s, now, n - 1) && Known(t.recs, t.order) && t.order != []
    ensures Rounds(s, now, n) == Fire(t, now)
  {
  }

  /** The due timers are the ones with a deadline up to now, in increasing order of deadline. */
  lemma DueMeans(s: Manager, now: Time, i: nat)
    requires Ok(s) && i < |s.order|
    ensures i < DueCount(s, now, false) <==> s.recs[s.order[i]].next <= now
    ensures i + 1 < |s.order| ==> s.recs[s.order[i]].next < s.recs[s.order[i + 1]].next
  {
    var k := DueCount(s, now, false);
    if k <= i {
      assert k < i ==> s.recs[s.order[k]].next < s.recs[s.order[i]].next;
    }
  }

  lemma CalmSame(s: Manager, clock: Time, now: Time, rollover: bool, n: nat)
    requires Known(s.recs, s.order) && n <= |s.order|
    ensures Calm(s.(previous := clock), now, rollover, n) <==> Calm(s, now, rollover, n)
  {
    assert forall i :: 0 <= i < n ==> Again(s.(previous := clock), rollover, i) == Again(s, rollover, i);
    assert forall i :: 0 <= i < n ==> Crowded(s.(previous := clock), now, i) == Crowded(s, now, i);
  }

  /** What is left when the first k timers were due: they have left the set or have a new deadline;
      nothing else has changed. */
  ghost predicate Expired(s: Manager, now: Time, k: nat, t: Manager)
    requires Known(s.recs, s.order) && k <= |s.order|
  {
    && Ok(t) && t.tickled == s.tickled && t.recs.Keys == s.recs.Keys
    && (forall x :: x in s.recs && x !in s.order[..k] ==> t.recs[x] == s.recs[x])
    && (forall x :: x in s.order[..k] && s.recs[x].recurring ==>
          t.recs[x] == s.recs[x].(next := t.recs[x].next) && t.recs[x].next - now == t.recs[x].ms * 1_000_000)
    && (forall x :: x in s.order[..k] && !s.recs[x].recurring ==>
          t.recs[x] == s.recs[x].(cb := None) && x !in t.order)
    && (forall x :: x in s.order[k..] ==> x in t.order)
    && (forall x :: x in t.order ==> x in s.order)
  }

  /** What listExpiredCb leaves behind: after a clock that has gone back by more than an hour every
      timer was due, otherwise those with a deadline up to now. */
  lemma ExpireMeans(s: Manager, now: Time, clock: Time)
    requires Ok(s) && Ends(s, now, Rollover(s, clock))
    ensures var (t, due) := Expire(s, now, clock);
      && |due| <= |s.order| && due == s.order[..|due|]
      && (forall i :: 0 <= i < |s.order| ==>
            (i < |due| <==> clock < s.previous - 3_600_000_000_000 || s.recs[s.order[i]].next <= now))
      && Expired(s, now, |due|, t) && t.previous == clock
  {
    var s1 := s.(previous := clock);
    var k, t := DueCount(s, now, Rollover(s, clock)), Expire(s, now, clock).0;
    CalmSame(s, clock, now, Rollover(s, clock), k);
    RoundsMid(s1, now, Rollover(s, clock), k, k, t);
    assert Recurs(s1, k, t);
    DueAre(s, now, Rollover(s, clock));
  }

  lemma DueAre(s: Manager, now: Time, rollover: bool)
    requires Ok(s)
    ensures forall i :: 0 <= i < |s.order| ==>
      (i < DueCount(s, now, rollover) <==> rollover || s.recs[s.order[i]].next <= now)
  {
    forall i | 0 <= i < |s.order|
      ensures i < DueCount(s, now, rollover) <==> rollover || s.recs[s.order[i]].next <= now
    {
      if !rollover {
        DueMeans(s, now, i);
      }
    }
  }

  // ---- lost timers --------------------------------------------------------------------

  /** No due recurring timer has a period of zero or is re-armed to a deadline that is taken. */
  predicate Distinct(s: Manager, now: Time, k: nat)
    requires Known(s.recs, s.order) && k <= |s.order|
  {
    && (forall i :: 0 <= i < k && s.recs[s.order[i]].recurring ==> s.recs[s.order[i]].ms > 0)
    && (forall i, j :: 0 <= i < j < k && s.recs[s.order[i]].recurring && s.recs[s.order[j]].recurring ==>
          s.recs[s.order[i]].ms != s.recs[s.order[j]].ms)
    && (forall i, j :: 0 <= i < k <= j < |s.order| && s.recs[s.order[i]].recurring ==>
          s.recs[s.order[j]].next != Deadline(now, s.recs[s.order[i]].ms))
  }

  /** The first i of the due timers, as far as they recur, are in the set again. */
  predicate KeptAll(s: Manager, i: nat, t: Manager)
    requires Known(s.recs, s.order) && i <= |s.order|
  {
    forall j :: 0 <= j < i && s.recs[s.order[j]].recurring ==> s.order[j] in t.order
  }

  lemma FreeDeadline(s: Manager, now: Time, k: nat, i: nat, t: Manager, x: Id)
    requires Ok(s) && k == DueCount(s, now, false) && Ends(s, now, false) && Distinct(s, now, k)
    requires Mid(s, now, false, k, i, t) && i < k && s.recs[s.order[i]].recurring
    requires x in t.order && x != s.order[i]
    ensures t.recs[x].next != Deadline(now, s.recs[s.order[i]].ms)
  {
    var j :| 0 <= j < |s.order| && s.order[j] == x;
    NotYetFired(s.recs, s.order, j);
    if j < i {
      assert s.order[..i][j] == x;
      assert t.recs[x] == Fired(s.recs[x], now) && s.recs[x].recurring;
    } else {
      assert x !in s.order[..i] by { PrefixFree(s.recs, s.order, i, j); }
      DueMeans(s, now, j);
    }
  }

  lemma PrefixFree(recs: map<Id, Timer>, order: seq<Id>, i: nat, j: nat)
    requires Sorted(recs, order) && i <= j < |order|
    ensures order[j] !in order[..i]
  {
  }

  /** The front timer, if it recurs, is in the set after its round: its new deadline is free. */
  lemma FrontKept(s: Manager, now: Time, k: nat, i: nat, t: Manager)
    requires Ok(s) && k == DueCount(s, now, false) && Ends(s, now, false) && Distinct(s, now, k)
    requires Mid(s, now, false, k, i, t) && i < k && s.recs[s.order[i]].recurring
    ensures t.order != [] && s.order[i] in Fire(t, now).order
  {
    var u, id, rest := Fire(t, now), t.order[0], t.order[1..];
    RestOrder(s, now, false, k, i, t);
    TailMembers(t.order);
    ReplaceOutside(t.recs, rest, id, u.recs[id]);
    HasKeyMeans(u.recs, rest, u.recs[id].next);
    forall x | x in rest
      ensures u.recs[x].next != u.recs[id].next
    {
      FreeDeadline(s, now, k, i, t, x);
    }
    InsertSorted(u.recs, rest, id);
  }

  lemma KeptStep(s: Manager, now: Time, k: nat, i: nat, t: Manager)
    requires Ok(s) && k == DueCount(s, now, false) && Ends(s, now, false) && Distinct(s, now, k)
    requires Mid(s, now, false, k, i, t) && i < k && KeptAll(s, i, t)
    ensures t.order != [] && KeptAll(s, i + 1, Fire(t, now))
  {
    RestOrder(s, now, false, k, i, t);
    if s.recs[s.order[i]].recurring {
      FrontKept(s, now, k, i, t);
    }
    forall j | 0 <= j < i && s.recs[s.order[j]].recurring
      ensures s.order[j] in Fire(t, now).order
    {
      assert s.recs[s.order[j]].next < s.recs[s.order[i]].next;
      FireOthers(t, now, s.order[j]);
    }
  }

  ghost function KeptOf(s: Manager, now: Time, k: nat): (nat, Manager) -> bool {
    (j: nat, x: Manager) => Mid(s, now, false, k, j, x) && KeptAll(s, j, x)
  }

  lemma KeptPasses(s: Manager, now: Time, k: nat)
    requires Ok(s) && k == DueCount(s, now, false) && Ends(s, now, false) && Distinct(s, now, k)
    ensures forall j: nat, x :: j < k && KeptOf(s, now, k)(j, x) ==> KeptOf(s, now, k)(j + 1, RoundAt(now)(x))
  {
    forall j: nat, x | j < k && KeptOf(s, now, k)(j, x)
      ensures KeptOf(s, now, k)(j + 1, RoundAt(now)(x))
    {
      KeptNext(s, now, k, j, j + 1, x);
    }
  }

  lemma KeptRounds(s: Manager, now: Time, k: nat, t: Manager)
    requires Ok(s) && k == DueCount(s, now, false) && Ends(s, now, false) && Distinct(s, now, k)
    requires t == Rounds(s, now, k)
    ensures KeptAll(s, k, t)
  {
    MidStart(s, now, false);
    KeptPasses(s, now, k);
    Rounded(RoundAt(now), KeptOf(s, now, k), s, k);
    assert KeptOf(s, now, k)(k, t);
  }

  lemma KeptNext(s: Manager, now: Time, k: nat, i: nat, next: nat, t: Manager)
    requires Ok(s) && k == DueCount(s, now, false) && Ends(s, now, false) && Distinct(s, now, k)
    requires Mid(s, now, false, k, i, t) && i < k && KeptAll(s, i, t) && next == i + 1
    ensures KeptOf(s, now, k)(next, RoundAt(now)(t))
  {
    MidStep(s, now, false, k, i, t);
    KeptStep(s, now, k, i, t);
    FiresAt(t, now);
  }

  /** Every due recurring timer is still in the set afterwards exactly when, without a rollover, none
      has a period of zero, no two of them have the same period and none is re-armed to the deadline
      of a timer that was not due; and after a rollover, when no timer recurs. */
  lemma NoTimerLostIff(s: Manager, now: Time, rollover: bool)
    requires Ok(s) && Ends(s, now, rollover)
    ensures var k := DueCount(s, now, rollover);
      KeptAll(s, k, Rounds(s, now, k)) <==> if rollover then NoneRecurs(s) else Distinct(s, now, k)
  {
    var k := DueCount(s, now, rollover);
    var t := Rounds(s, now, k);
    RoundsMid(s, now, rollover, k, k, t);
    if rollover {
      assert t.order == [];
    } else {
      if Distinct(s, now, k) {
        KeptRounds(s, now, k, t);
      }
      if KeptAll(s, k, t) {
        KeptIsDistinct(s, now, k, t);
      }
    }
  }

  predicate NoneRecurs(s: Manager)
    requires Known(s.recs, s.order)
  {
    forall i :: 0 <= i < |s.order| ==> !s.recs[s.order[i]].recurring
  }

  lemma KeptIsDistinct(s: Manager, now: Time, k: nat, t: Manager)
    requires Ok(s) && k == DueCount(s, now, false) && Mid(s, now, false, k, k, t) && KeptAll(s, k, t)
    ensures Distinct(s, now, k)
  {
    forall i | 0 <= i < k
      ensures t.recs[s.order[i]] == Fired(s.recs[s.order[i]], now)
    {
      assert s.order[..k][i] == s.order[i];
    }
    forall j | k <= j < |s.order|
      ensures t.recs[s.order[j]] == s.recs[s.order[j]]
    {
      PrefixFree(s.recs, s.order, k, j);
    }
    forall i, j | 0 <= i < k && i < j < |s.order| && s.recs[s.order[i]].recurring
                  && (j < k ==> s.recs[s.order[j]].recurring)
      ensures t.recs[s.order[i]].next != t.recs[s.order[j]].next
    {
      KeptApart(s, now, k, t, i, j);
    }
  }

  lemma KeptApart(s: Manager, now: Time, k: nat, t: Manager, i: nat, j: nat)
    requires Ok(s) && k == DueCount(s, now, false) && Mid(s, now, false, k, k, t) && KeptAll(s, k, t)
    requires i < k && i < j < |s.order| && s.recs[s.order[i]].recurring && (j < k ==> s.recs[s.order[j]].recurring)
    ensures t.recs[s.order[i]].next != t.recs[s.order[j]].next
  {
    assert s.recs[s.order[i]].next < s.recs[s.order[j]].next;
    assert j >= k ==> s.order[k..][j - k] == s.order[j];
    DistinctKeys(t.recs, t.order, s.order[i], s.order[j]);
  }

  lemma DistinctKeys(recs: map<Id, Timer>, order: seq<Id>, x: Id, y: Id)
    requires Sorted(recs, order) && x in order && y in order && x != y
    ensures recs[x].next != recs[y].next
  {
    var i :| 0 <= i < |order| && order[i] == x;
    var j :| 0 <= j < |order| && order[j] == y;
    if i < j {
      assert recs[order[i]].next < recs[order[j]].next;
    } else {
      assert recs[order[j]].next < recs[order[i]].next;
    }
  }

  // ---- when the loop ends -------------------------------------------------------------

  /** A round leaves the other timers as they are. */
  lemma FireOthers(t: Manager, now: Time, x: Id)
    requires Ok(t) && t.order != [] && x != t.order[0]
    ensures x in Fire(t, now).order <==> x in t.order
    ensures x in t.recs ==> x in Fire(t, now).recs && Fire(t, now).recs[x] == t.recs[x]
  {
    var u, id, rest := Fire(t, now), t.order[0], t.order[1..];
    TailSorted(t.recs, t.order);
    TailMembers(t.order);
    ReplaceOutside(t.recs, rest, id, u.recs[id]);
    if t.recs[id].recurring {
      InsertSorted(u.recs, rest, id);
    }
  }

  /** r stands at the deadline it is re-armed to, and is due there. */
  predicate Stuck(t: Manager, now: Time, rollover: bool, r: Id) {
    && Ok(t) && r in t.recs && r in t.order && t.recs[r].recurring
    && t.recs[r].next == Deadline(now, t.recs[r].ms) && (rollover || t.recs[r].ms == 0)
  }

  lemma StuckGuard(t: Manager, now: Time, rollover: bool, r: Id)
    requires Stuck(t, now, rollover, r)
    ensures Guard(t, now, rollover)
  {
    var j :| 0 <= j < |t.order| && t.order[j] == r;
    assert j > 0 ==> t.recs[t.order[0]].next < t.recs[t.order[j]].next;
  }

  /** Its own deadline is free once it has been taken out. */
  lemma StuckFront(t: Manager, now: Time, rollover: bool)
    requires t.order != [] && Stuck(t, now, rollover, t.order[0])
    ensures Stuck(Fire(t, now), now, rollover, t.order[0])
  {
    var u, id, rest := Fire(t, now), t.order[0], t.order[1..];
    FireOk(t, now);
    TailSorted(t.recs, t.order);
    ReplaceOutside(t.recs, rest, id, u.recs[id]);
    forall x | x in rest
      ensures u.recs[x].next != u.recs[id].next
    {
      TailMembers(t.order);
      DistinctKeys(t.recs, t.order, x, id);
    }
    HasKeyMeans(u.recs, rest, u.recs[id].next);
    InsertSorted(u.recs, rest, id);
  }

  lemma StuckStays(t: Manager, now: Time, rollover: bool, r: Id)
    requires Stuck(t, now, rollover, r)
    ensures t.order != [] && Stuck(Fire(t, now), now, rollover, r)
  {
    if t.order[0] == r {
      StuckFront(t, now, rollover);
    } else {
      FireOk(t, now);
      FireOthers(t, now, r);
    }
  }

  /** A timer that is due again and not crowded out finds its new deadline free. */
  lemma SlotFree(s: Manager, now: Time, rollover: bool, k: nat, i: nat, t: Manager, x: Id)
    requires Ok(s) && k == DueCount(s, now, rollover) && Mid(s, now, rollover, k, i, t) && i < k
    requires Again(s, rollover, i) && !Crowded(s, now, i) && x in t.order[1..]
    ensures t.recs[x].next != Deadline(now, s.recs[s.order[i]].ms)
  {
    var rest, slot := t.order[1..], Deadline(now, s.recs[s.order[i]].ms);
    RestOrder(s, now, rollover, k, i, t);
    var j :| 0 <= j < |rest| && rest[j] == x;
    if j < k - i - 1 {
      assert x == t.order[j + 1] == s.order[i + (j + 1)];
      PrefixFree(s.recs, s.order, i, i + (j + 1));
      assert s.recs[s.order[i]].next < s.recs[x].next;
      HasKeyMeans(s.recs, s.order, slot);
    }
  }

  lemma GetsStuck(s: Manager, now: Time, rollover: bool, k: nat, i: nat, t: Manager)
    requires Ok(s) && k == DueCount(s, now, rollover) && Mid(s, now, rollover, k, i, t) && i < k
    requires Again(s, rollover, i) && !Crowded(s, now, i)
    ensures t.order != [] && Stuck(Fire(t, now), now, rollover, s.order[i])
  {
    var u, id, rest := Fire(t, now), t.order[0], t.order[1..];
    RestOrder(s, now, rollover, k, i, t);
    FireOk(t, now);
    ReplaceOutside(t.recs, rest, id, u.recs[id]);
    forall x | x in rest
      ensures u.recs[x].next != u.recs[id].next
    {
      SlotFree(s, now, rollover, k, i, t, x);
    }
    HasKeyMeans(u.recs, rest, u.recs[id].next);
    InsertSorted(u.recs, rest, id);
  }

  /** After n rounds, the i-th timer being the first that is due again and not crowded out: up to
      round i as in a loop that ends, from then on that timer is stuck. */
  ghost predicate Running(s: Manager, now: Time, rollover: bool, i: nat, n: nat, t: Manager)
    requires Known(s.recs, s.order) && i < |s.order|
  {
    if n <= i then Mid(s, now, rollover, DueCount(s, now, rollover), n, t)
    else Stuck(t, now, rollover, s.order[i])
  }

  predicate FirstAgain(s: Manager, now: Time, rollover: bool, i: nat) {
    && Ok(s) && i < DueCount(s, now, rollover) && Calm(s, now, rollover, i)
    && Again(s, rollover, i) && !Crowded(s, now, i)
  }

  lemma RunningNext(s: Manager, now: Time, rollover: bool, i: nat, n: nat, next: nat, t: Manager)
    requires FirstAgain(s, now, rollover, i) && next == n + 1 && Running(s, now, rollover, i, n, t)
    ensures Known(t.recs, t.order) && t.order != [] && Running(s, now, rollover, i, next, Fire(t, now))
  {
    var k := DueCount(s, now, rollover);
    if n < i {
      MidGuard(s, now, rollover, k, n, t);
      MidStep(s, now, rollover, k, n, t);
    } else if n == i {
      GetsStuck(s, now, rollover, k, i, t);
    } else {
      StuckStays(t, now, rollover, s.order[i]);
    }
  }

  lemma RunningGuard(s: Manager, now: Time, rollover: bool, i: nat, n: nat, t: Manager)
    requires FirstAgain(s, now, rollover, i) && Running(s, now, rollover, i, n, t)
    ensures !Stops(t, now, rollover)
  {
    if n <= i {
      MidGuard(s, now, rollover, DueCount(s, now, rollover), n, t);
    } else {
      StuckGuard(t, now, rollover, s.order[i]);
    }
  }

  ghost function RunningOf(s: Manager, now: Time, rollover: bool, i: nat): (nat, Manager) -> bool
    requires Known(s.recs, s.order) && i < |s.order|
  {
    (j: nat, x: Manager) => Running(s, now, rollover, i, j, x)
  }

  lemma RunningPasses(s: Manager, now: Time, rollover: bool, i: nat)
    requires FirstAgain(s, now, rollover, i)
    ensures forall j: nat, x ::
      RunningOf(s, now, rollover, i)(j, x) ==> RunningOf(s, now, rollover, i)(j + 1, RoundAt(now)(x))
  {
    forall j: nat, x | RunningOf(s, now, rollover, i)(j, x)
      ensures RunningOf(s, now, rollover, i)(j + 1, RoundAt(now)(x))
    {
      RunningNext(s, now, rollover, i, j, j + 1, x);
      FiresAt(x, now);
    }
  }

  lemma RunningForever(s: Manager, now: Time, rollover: bool, i: nat, n: nat)
    requires FirstAgain(s, now, rollover, i)
    ensures RunningOf(s, now, rollover, i)(n, Rounds(s, now, n))
  {
    MidStart(s, now, rollover);
    RunningPasses(s, now, rollover, i);
    Rounded(RoundAt(now), RunningOf(s, now, rollover, i), s, n);
  }

  ghost predicate LoopEnds(s: Manager, now: Time, rollover: bool) {
    exists n: nat :: Stops(Rounds(s, now, n), now, rollover)
  }

  predicate Stops(t: Manager, now: Time, rollover: bool) {
    Known(t.recs, t.order) && !Guard(t, now, rollover)
  }

  lemma FirstRestless(s: Manager, now: Time, rollover: bool, n: nat) returns (i: nat)
    requires Ok(s) && n == DueCount(s, now, rollover) && !Calm(s, now, rollover, n)
    ensures FirstAgain(s, now, rollover, i)
  {
    i := 0;
    while Again(s, rollover, i) ==> Crowded(s, now, i)
      invariant i < n && Calm(s, now, rollover, i)
      decreases n - i
    {
      i := i + 1;
    }
  }

  /** The loop ends exactly when every due timer that would be due again at once (recurring with a
      period of zero, or recurring at all after a clock rollover) is crowded out of its new deadline. */
  lemma LoopEndsIff(s: Manager, now: Time, rollover: bool)
    requires Ok(s)
    ensures LoopEnds(s, now, rollover) <==> Ends(s, now, rollover)
  {
    var k := DueCount(s, now, rollover);
    if Ends(s, now, rollover) {
      RoundsMid(s, now, rollover, k, k, Rounds(s, now, k));
      MidGuard(s, now, rollover, k, k, Rounds(s, now, k));
      assert Stops(Rounds(s, now, k), now, rollover);
    } else {
      var i := FirstRestless(s, now, rollover, k);
      forall n: nat
        ensures !Stops(Rounds(s, now, n), now, rollover)
      {
        RunningForever(s, now, rollover, i, n);
        RunningGuard(s, now, rollover, i, n, Rounds(s, now, n));
      }
    }
  }

  /** Nothing is due again: positive periods, and no recurring timer after a clock rollover. */
  lemma OrdinaryEnds(s: Manager, now: Time, rollover: bool)
    requires Known(s.recs, s.order)
    requires forall i :: 0 <= i < DueCount(s, now, rollover) && s.recs[s.order[i]].recurring ==>
      !rollover && s.recs[s.order[i]].ms > 0
    ensures Ends(s, now, rollover)
  {
  }
}
