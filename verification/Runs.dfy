/**
 Runs of a system that is given by what each step leads to: a step that cannot be taken leads
 nowhere.
 */
module Runs {

  datatype Option<T> = None | Some(value: T)

  /** The state after the steps, None if one of them cannot be taken. */
  ghost function After<S, T>(next: (S, T) -> Option<S>, init: S, steps: seq<T>): Option<S>
    decreases |steps|
  {
    if steps == [] then Some(init)
    else
      match After(next, init, steps[..|steps| - 1])
      case None => None
      case Some(m) => next(m, steps[|steps| - 1])
  }

  ghost predicate Leads<S, T>(next: (S, T) -> Option<S>, init: S, steps: seq<T>, s: S) {
    After(next, init, steps) == Some(s)
  }

  /** One more step. */
  lemma Then<S, T>(next: (S, T) -> Option<S>, init: S, steps: seq<T>, m: S, step: T, s: S)
    requires Leads(next, init, steps, m) && next(m, step) == Some(s)
    ensures Leads(next, init, steps + [step], s)
  {
    assert (steps + [step])[..|steps|] == steps;
  }

  /** One run after another. */
  lemma {:induction false} Join<S, T>(next: (S, T) -> Option<S>, init: S, a: seq<T>, m: S, b: seq<T>, s: S)
    requires Leads(next, init, a, m) && Leads(next, m, b, s)
    ensures Leads(next, init, a + b, s)
    decreases |b|
  {
    if b == [] {
      assert a + b == a;
    } else {
      var n := |b| - 1;
      assert (a + b)[..|a + b| - 1] == a + b[..n];
      Join(next, init, a, m, b[..n], After(next, m, b[..n]).value);
    }
  }

  /** A run of a system is a run of one that can take more steps. */
  lemma {:induction false} Widen<S(!new), T(!new)>(
    next: (S, T) -> Option<S>, wider: (S, T) -> Option<S>, init: S, steps: seq<T>, s: S)
    requires Leads(next, init, steps, s)
    requires forall m, step :: next(m, step).Some? ==> wider(m, step) == next(m, step)
    ensures Leads(wider, init, steps, s)
    decreases |steps|
  {
    if steps != [] {
      Widen(next, wider, init, steps[..|steps| - 1], After(next, init, steps[..|steps| - 1]).value);
    }
  }

  /** What holds at first and is kept by every step holds after every run. */
  lemma {:induction false} Invariant<S(!new), T(!new)>(
    next: (S, T) -> Option<S>, inv: S -> bool, init: S, steps: seq<T>, s: S)
    requires inv(init) && Leads(next, init, steps, s)
    requires forall m, step :: inv(m) && next(m, step).Some? ==> inv(next(m, step).value)
    ensures inv(s)
    decreases |steps|
  {
    if steps != [] {
      Invariant(next, inv, init, steps[..|steps| - 1], After(next, init, steps[..|steps| - 1]).value);
    }
  }

  ghost predicate Reachable<S(!new), T(!new)>(next: (S, T) -> Option<S>, init: S, s: S) {
    exists steps :: Leads(next, init, steps, s)
  }

  lemma Start<S(!new), T(!new)>(next: (S, T) -> Option<S>, init: S)
    ensures Reachable(next, init, init)
  {
    assert Leads(next, init, [], init);
  }

  lemma Reach<S(!new), T(!new)>(next: (S, T) -> Option<S>, init: S, s: S, step: T) returns (u: S)
    requires Reachable(next, init, s) && next(s, step).Some?
    ensures Reachable(next, init, u) && next(s, step) == Some(u)
  {
    var steps :| Leads(next, init, steps, s);
    u := next(s, step).value;
    Then(next, init, steps, s, step, u);
  }

  /** n rounds of f. */
  function Iterate<S>(f: S -> S, s: S, n: nat): S {
    if n == 0 then s else f(Iterate(f, s, n - 1))
  }

  /** What holds at first and is passed on from round to round. */
  lemma {:induction false} Rounded<S(!new)>(f: S -> S, inv: (nat, S) -> bool, s: S, n: nat)
    requires inv(0, s)
    requires forall i: nat, x :: i < n && inv(i, x) ==> inv(i + 1, f(x))
    ensures inv(n, Iterate(f, s, n))
    decreases n
  {
    if n > 0 {
      Rounded(f, inv, s, n - 1);
      assert inv(n - 1 + 1, f(Iterate(f, s, n - 1)));
    }
  }
}
