/** Runs of a state machine: the state after a sequence of events, and the induction
    principle for what every step keeps. */
module Runs {

  function Run<S, E>(step: (S, E) -> S, s: S, events: seq<E>): S
    decreases |events|
  {
    if events == [] then s
    else step(Run(step, s, events[..|events| - 1]), events[|events| - 1])
  }

  lemma {:induction false} RunKeeps<S(!new), E(!new)>(step: (S, E) -> S, inv: S -> bool, s: S, events: seq<E>)
    requires inv(s)
    requires forall s', e :: inv(s') && e in events ==> inv(step(s', e))
    ensures inv(Run(step, s, events))
    decreases |events|
  {
    if events != [] {
      var before := events[..|events| - 1];
      assert forall e :: e in before ==> e in events;
      RunKeeps(step, inv, s, before);
      assert events[|events| - 1] in events;
    }
  }

  lemma {:induction false} RunAppend<S, E>(step: (S, E) -> S, s: S, first: seq<E>, more: seq<E>)
    ensures Run(step, s, first + more) == Run(step, Run(step, s, first), more)
    decreases |more|
  {
    if more == [] {
      assert first + more == first;
    } else {
      RunAppend(step, s, first, more[..|more| - 1]);
      assert (first + more)[..|first + more| - 1] == first + more[..|more| - 1];
    }
  }

  // ----- runs that can break off

  /** The state reached, after how many events, and whether the next one broke the run off. */
  datatype Progress<S> = Progress(state: S, done: nat, stopped: bool)

  /** A run up to the first event that stops it; that event has no effect. */
  function RunUntil<S, E>(step: (S, E) -> S, stop: (S, E) -> bool, s: S, events: seq<E>): (p: Progress<S>)
    ensures p.done <= |events| && (p.stopped <==> p.done < |events|)
    decreases |events|
  {
    if events == [] then Progress(s, 0, false)
    else
      var n := |events| - 1;
      var p := RunUntil(step, stop, s, events[..n]);
      if p.stopped then p
      else if stop(p.state, events[n]) then p.(stopped := true)
      else Progress(step(p.state, events[n]), n + 1, false)
  }

  lemma {:induction false} RunUntilIsRun<S, E>(step: (S, E) -> S, stop: (S, E) -> bool, s: S, events: seq<E>)
    ensures var p := RunUntil(step, stop, s, events);
            && p.state == Run(step, s, events[..p.done])
            && (p.stopped ==> stop(p.state, events[p.done]))
    decreases |events|
  {
    if events == [] {
      assert events[..0] == [];
    } else {
      var n := |events| - 1;
      RunUntilIsRun(step, stop, s, events[..n]);
      var done := RunUntil(step, stop, s, events).done;
      if done <= n {
        assert events[..n][..done] == events[..done];
      } else {
        assert events[..n][..n] == events[..n] && events[..done] == events;
      }
    }
  }

  /** The same run, looked at from its first event. */
  lemma {:induction false} RunUntilFront<S, E>(step: (S, E) -> S, stop: (S, E) -> bool, s: S, events: seq<E>)
    requires events != []
    ensures RunUntil(step, stop, s, events) ==
            if stop(s, events[0]) then Progress(s, 0, true)
            else var p := RunUntil(step, stop, step(s, events[0]), events[1..]); p.(done := p.done + 1)
    decreases |events|
  {
    var n := |events| - 1;
    if n == 0 {
      assert events[..0] == [] && events[1..] == [];
    } else {
      RunUntilFront(step, stop, s, events[..n]);
      assert events[..n][1..] == events[1..][..n - 1];
    }
  }

  // ----- counting

  function Count<E>(p: E -> bool, events: seq<E>): nat {
    if events == [] then 0
    else Count(p, events[..|events| - 1]) + if p(events[|events| - 1]) then 1 else 0
  }

  lemma {:induction false} CountAppend<E>(p: E -> bool, a: seq<E>, b: seq<E>)
    ensures Count(p, a + b) == Count(p, a) + Count(p, b)
    decreases |b|
  {
    if b == [] {
      assert a + b == a;
    } else {
      assert (a + b)[..|a + b| - 1] == a + b[..|b| - 1];
      CountAppend(p, a, b[..|b| - 1]);
    }
  }

  lemma {:induction false} CountNone<E>(p: E -> bool, events: seq<E>)
    requires forall e | e in events :: !p(e)
    ensures Count(p, events) == 0
  {
    if events != [] {
      CountNone(p, events[..|events| - 1]);
    }
  }

  /** As RunKeeps, for an invariant that tracks how many of some events happened. */
  lemma {:induction false} RunCounts<S(!new), E(!new)>(
      step: (S, E) -> S, inv: (S, nat) -> bool, p: E -> bool, s: S, k: nat, events: seq<E>)
    requires inv(s, k)
    requires forall s', j: nat, e :: inv(s', j) && e in events ==> inv(step(s', e), j + if p(e) then 1 else 0)
    ensures inv(Run(step, s, events), k + Count(p, events))
    decreases |events|
  {
    if events != [] {
      var before := events[..|events| - 1];
      assert forall e :: e in before ==> e in events;
      RunCounts(step, inv, p, s, k, before);
      assert events[|events| - 1] in events;
    }
  }

  /** A view of the state that every step moves by a step of its own. */
  lemma {:induction false} RunProjects<S(!new), T(!new), E(!new)>(
      step: (S, E) -> S, view: S -> T, viewStep: (T, E) -> T, s: S, events: seq<E>)
    requires forall s', e :: view(step(s', e)) == viewStep(view(s'), e)
    ensures view(Run(step, s, events)) == Run(viewStep, view(s), events)
    decreases |events|
  {
    if events != [] {
      RunProjects(step, view, viewStep, s, events[..|events| - 1]);
    }
  }
}
