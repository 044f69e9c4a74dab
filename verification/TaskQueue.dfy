/**
 The scheduler's task queue: schedulerLock (dag/scheduler.h) pushes, the scan at the top of
 Scheduler::run (dag/scheduler.cpp) takes the first task its thread may run.
 */
module TaskQueue {
  import opened Runs

  /** A task holds a fiber or a callback; a null one holds neither. */
  datatype Body = OfFiber(id: nat) | OfCallback(id: nat) | Null

  /** thread == -1: any thread may run it. */
  datatype Task = Task(body: Body, thread: int)

  /** The index of the first task that the thread may run, or the length of the queue. */
  function FirstEligible(q: seq<Task>, thread: int): (i: nat)
    ensures i <= |q|
    ensures i < |q| ==> q[i].thread == -1 || q[i].thread == thread
    ensures forall j :: 0 <= j < i ==> q[j].thread != -1 && q[j].thread != thread
  {
    if q == [] then 0
    else if q[0].thread == -1 || q[0].thread == thread then 0
    else 1 + FirstEligible(q[1..], thread)
  }

  function Push(q: seq<Task>, task: Task): seq<Task> {
    if task.body == Null then q else q + [task]
  }

  function Without(q: seq<Task>, i: nat): seq<Task>
    requires i < |q|
  {
    q[..i] + q[i + 1..]
  }

  class Queue {
    var tasks: seq<Task>
    var active: nat

    constructor ()
      ensures tasks == [] && active == 0
    {
      tasks := [];
      active := 0;
    }

    /** schedulerLock: a tickle is due when the queue was empty. */
    method SchedulerLock(task: Task) returns (needTickle: bool)
      modifies this`tasks
      ensures needTickle <==> old(tasks) == []
      ensures tasks == if task.body == Null then old(tasks) else old(tasks) + [task]
    {
      needTickle := tasks == [];
      if task.body != Null {
        tasks := tasks + [task];
      }
    }

    /** The scan of run: take the first eligible task, and tell the others of the rest. */
    method Pick(thread: int) returns (task: Option<Task>, tickleMe: bool)
      modifies this
      ensures task == None ==> tasks == old(tasks) && active == old(active)
      ensures task == None ==> forall j :: 0 <= j < |tasks| ==> tasks[j].thread != -1 && tasks[j].thread != thread
      ensures task.Some? ==> active == old(active) + 1 && (task.value.thread == -1 || task.value.thread == thread)
      ensures task.Some? ==> (exists i ::
        && 0 <= i < |old(tasks)| && old(tasks)[i] == task.value
        && tasks == old(tasks)[..i] + old(tasks)[i + 1..]
        && forall j :: 0 <= j < i ==> old(tasks)[j].thread != -1 && old(tasks)[j].thread != thread)
      ensures var i := FirstEligible(old(tasks), thread);
        if i == |old(tasks)| then task == None else task == Some(old(tasks)[i]) && tasks == Without(old(tasks), i)
      ensures tickleMe <==> tasks != []
    {
      tickleMe := false;
      task := None;
      var it := 0;
      while it < |tasks|
        invariant 0 <= it <= |tasks| && tasks == old(tasks) && active == old(active)
        invariant forall j :: 0 <= j < it ==> tasks[j].thread != -1 && tasks[j].thread != thread
        invariant tickleMe <==> it > 0
        invariant task == None
      {
        if tasks[it].thread != -1 && tasks[it].thread != thread {
          it := it + 1;
          tickleMe := true;
          continue;
        }
        task := Some(tasks[it]);
        tasks := Without(tasks, it);
        active := active + 1;
        break;
      }
      tickleMe := tickleMe || it != |tasks|;
    }
  }

  // ---- whole runs ---------------------------------------------------------------------

  datatype Op = Submit(task: Task) | Take(thread: int)

  /** The queue, the tasks accepted so far and the tasks taken so far with their takers. */
  datatype Log = Log(queue: seq<Task>, accepted: seq<Task>, taken: seq<(int, Task)>)

  function Step(s: Log, op: Op): Log {
    match op
    case Submit(task) =>
      if task.body == Null then s else Log(Push(s.queue, task), s.accepted + [task], s.taken)
    case Take(thread) =>
      var i := FirstEligible(s.queue, thread);
      if i == |s.queue| then s
      else Log(Without(s.queue, i), s.accepted, s.taken + [(thread, s.queue[i])])
  }

  function Run(ops: seq<Op>): Log {
    if ops == [] then Log([], [], []) else Step(Run(ops[..|ops| - 1]), ops[|ops| - 1])
  }

  /** The tasks pinned to p (to nobody, for -1), in order. */
  function Pinned(q: seq<Task>, p: int): seq<Task> {
    if q == [] then []
    else Pinned(q[..|q| - 1], p) + (if q[|q| - 1].thread == p then [q[|q| - 1]] else [])
  }

  function Tasks(taken: seq<(int, Task)>): (q: seq<Task>)
    ensures |q| == |taken|
  {
    if taken == [] then [] else Tasks(taken[..|taken| - 1]) + [taken[|taken| - 1].1]
  }

  lemma {:induction false} PinnedConcat(a: seq<Task>, b: seq<Task>, p: int)
    ensures Pinned(a + b, p) == Pinned(a, p) + Pinned(b, p)
  {
    if b == [] {
      assert a + b == a;
    } else {
      var n := |b| - 1;
      PinnedConcat(a, b[..n], p);
      assert (a + b)[..|a + b| - 1] == a + b[..n];
    }
  }

  lemma {:induction false} PinnedNone(q: seq<Task>, p: int)
    requires forall j :: 0 <= j < |q| ==> q[j].thread != p
    ensures Pinned(q, p) == []
  {
    if q != [] {
      PinnedNone(q[..|q| - 1], p);
    }
  }

  lemma PinnedParts(head: seq<Task>, x: Task, tail: seq<Task>, p: int)
    ensures Pinned(head + [x] + tail, p) == Pinned(head, p) + (if x.thread == p then [x] else []) + Pinned(tail, p)
  {
    PinnedConcat(head + [x], tail, p);
    PinnedConcat(head, [x], p);
    PinnedOne(x, p);
  }

  lemma PinnedOne(x: Task, p: int)
    ensures Pinned([x], p) == if x.thread == p then [x] else []
  {
    assert [x][..0] == [];
  }

  /** Taking the first eligible task takes the first of its pin class and no other. */
  lemma TakeSplits(q: seq<Task>, thread: int, p: int)
    requires FirstEligible(q, thread) < |q|
    ensures var i := FirstEligible(q, thread);
      Pinned(q, p) == (if q[i].thread == p then [q[i]] else []) + Pinned(Without(q, i), p)
  {
    var i := FirstEligible(q, thread);
    assert q == q[..i] + [q[i]] + q[i + 1..];
    PinnedParts(q[..i], q[i], q[i + 1..], p);
    PinnedConcat(q[..i], q[i + 1..], p);
    if q[i].thread == p {
      PinnedNone(q[..i], p);
    }
  }

  lemma TasksSnoc(taken: seq<(int, Task)>, x: (int, Task))
    ensures Tasks(taken + [x]) == Tasks(taken) + [x.1]
  {
    assert (taken + [x])[..|taken|] == taken;
  }

  lemma PinnedSnoc(q: seq<Task>, task: Task, p: int)
    ensures Pinned(q + [task], p) == Pinned(q, p) + (if task.thread == p then [task] else [])
  {
    assert (q + [task])[..|q|] == q;
  }

  predicate Fifo(s: Log, p: int) {
    Pinned(Tasks(s.taken), p) + Pinned(s.queue, p) == Pinned(s.accepted, p)
  }

  lemma Reassociate(a: seq<Task>, b: seq<Task>, c: seq<Task>)
    ensures (a + b) + c == a + (b + c)
  {
  }

  lemma FifoTake(s: Log, thread: int, p: int)
    requires Fifo(s, p) && FirstEligible(s.queue, thread) < |s.queue|
    ensures Fifo(Step(s, Take(thread)), p)
  {
    var i := FirstEligible(s.queue, thread);
    var mine := if s.queue[i].thread == p then [s.queue[i]] else [];
    TakeSplits(s.queue, thread, p);
    TasksSnoc(s.taken, (thread, s.queue[i]));
    PinnedSnoc(Tasks(s.taken), s.queue[i], p);
    Reassociate(Pinned(Tasks(s.taken), p), mine, Pinned(Without(s.queue, i), p));
  }

  lemma FifoSubmit(s: Log, task: Task, p: int)
    requires Fifo(s, p)
    ensures Fifo(Step(s, Submit(task)), p)
  {
    var mine := if task.thread == p then [task] else [];
    PinnedSnoc(s.queue, task, p);
    PinnedSnoc(s.accepted, task, p);
    Reassociate(Pinned(Tasks(s.taken), p), Pinned(s.queue, p), mine);
  }

  lemma FifoStep(s: Log, op: Op, p: int)
    requires Fifo(s, p)
    ensures Fifo(Step(s, op), p)
  {
    match op {
      case Submit(task) => FifoSubmit(s, task, p);
      case Take(thread) =>
        if FirstEligible(s.queue, thread) < |s.queue| {
          FifoTake(s, thread, p);
        }
    }
  }

  /** In every run and for every pin value, the tasks taken so far followed by the tasks
      still queued are exactly the accepted ones, in order of acceptance. */
  lemma {:induction false} FifoPerPin(ops: seq<Op>, p: int)
    ensures Pinned(Tasks(Run(ops).taken), p) + Pinned(Run(ops).queue, p) == Pinned(Run(ops).accepted, p)
  {
    if ops != [] {
      FifoPerPin(ops[..|ops| - 1], p);
      FifoStep(Run(ops[..|ops| - 1]), ops[|ops| - 1], p);
    }
  }

  predicate Balanced(s: Log) {
    multiset(s.accepted) == multiset(s.queue) + multiset(Tasks(s.taken))
  }

  lemma BalancedStep(s: Log, op: Op)
    requires Balanced(s)
    ensures Balanced(Step(s, op))
  {
    match op {
      case Submit(task) =>
      case Take(thread) =>
        var i := FirstEligible(s.queue, thread);
        if i < |s.queue| {
          TasksSnoc(s.taken, (thread, s.queue[i]));
          WithoutTakesOne(s.queue, i);
        }
    }
  }

  lemma WithoutTakesOne(q: seq<Task>, i: nat)
    requires i < |q|
    ensures multiset(q) == multiset(Without(q, i)) + multiset{q[i]}
  {
    assert q == q[..i] + [q[i]] + q[i + 1..];
  }

  /** No task is lost or duplicated in any run. */
  lemma {:induction false} Conserved(ops: seq<Op>)
    ensures multiset(Run(ops).accepted) == multiset(Run(ops).queue) + multiset(Tasks(Run(ops).taken))
  {
    if ops != [] {
      Conserved(ops[..|ops| - 1]);
      BalancedStep(Run(ops[..|ops| - 1]), ops[|ops| - 1]);
    }
  }

  /** A task is taken by its own thread only, unless it has none, and every task taken has something to run. */
  lemma {:induction false} TakersAreEligible(ops: seq<Op>, k: nat)
    requires k < |Run(ops).taken|
    ensures var (w, t) := Run(ops).taken[k];
      (t.thread == -1 || t.thread == w) && t.body != Null
  {
    var init, op := ops[..|ops| - 1], ops[|ops| - 1];
    QueueHoldsTasks(init);
    if k < |Run(init).taken| {
      TakersAreEligible(init, k);
    }
  }

  lemma {:induction false} QueueHoldsTasks(ops: seq<Op>)
    ensures forall j :: 0 <= j < |Run(ops).queue| ==> Run(ops).queue[j].body != Null
  {
    if ops != [] {
      QueueHoldsTasks(ops[..|ops| - 1]);
    }
  }
}
