/** Runs of a transition system: states and the steps between them. */
module Runs {
  import opened Basics

  ghost predicate StepAt<S, A>(next: (S, A) -> Option<S>, ss: seq<S>, steps: seq<A>, i: nat)
    requires i < |steps| < |ss|
  {
    next(ss[i], steps[i]) == Some(ss[i + 1])
  }

  ghost predicate IsRun<S, A>(next: (S, A) -> Option<S>, start: S, ss: seq<S>, steps: seq<A>) {
    && |ss| == |steps| + 1
    && ss[0] == start
    && forall i | 0 <= i < |steps| :: StepAt(next, ss, steps, i)
  }

  /** What holds at the start and is kept by every step holds in every state of every run. */
  lemma {:induction false} Invariant<S(!new), A(!new)>(next: (S, A) -> Option<S>, inv: S -> bool, start: S,
                                                       ss: seq<S>, steps: seq<A>, i: nat)
    requires IsRun(next, start, ss, steps) && i < |ss|
    requires inv(start)
    requires forall s, a | inv(s) && next(s, a).Some? :: inv(next(s, a).value)
    ensures inv(ss[i])
  {
    if i > 0 {
      Invariant(next, inv, start, ss, steps, i - 1);
      assert StepAt(next, ss, steps, i - 1);
    }
  }

  /** What every step keeps holds from a state on. */
  lemma {:induction false} Persists<S(!new), A(!new)>(next: (S, A) -> Option<S>, kept: S -> bool, start: S,
                                                      ss: seq<S>, steps: seq<A>, i: nat, k: nat)
    requires IsRun(next, start, ss, steps) && i <= k < |ss|
    requires kept(ss[i])
    requires forall s, a | kept(s) && next(s, a).Some? :: kept(next(s, a).value)
    ensures kept(ss[k])
  {
    if i < k {
      Persists(next, kept, start, ss, steps, i, k - 1);
      assert StepAt(next, ss, steps, k - 1);
    }
  }

  /** Step a was taken before state i. */
  ghost predicate Happened<A>(steps: seq<A>, i: nat, a: A)
    requires i <= |steps|
  {
    exists j | 0 <= j < i :: steps[j] == a
  }

  lemma HappenedNext<A>(steps: seq<A>, i: nat, a: A)
    requires i < |steps|
    ensures Happened(steps, i + 1, a) <==> Happened(steps, i, a) || steps[i] == a
  {
  }

  /** Some step of kind q was taken before state i. */
  ghost predicate Occurred<S, A>(q: (S, A) -> bool, ss: seq<S>, steps: seq<A>, i: nat)
    requires i <= |steps| < |ss|
  {
    exists j | 0 <= j < i :: q(ss[j], steps[j])
  }

  /** A mark that exactly the steps of kind q set, and none takes away, says that one was taken. */
  lemma {:induction false} Marked<S(!new), A(!new)>(next: (S, A) -> Option<S>, inv: S -> bool, mark: S -> bool,
                                                    q: (S, A) -> bool, start: S, ss: seq<S>, steps: seq<A>, i: nat)
    requires IsRun(next, start, ss, steps) && i < |ss| && inv(start) && !mark(start)
    requires forall s, a | inv(s) && next(s, a).Some? :: inv(next(s, a).value)
    requires forall s, a | inv(s) && next(s, a).Some? :: mark(next(s, a).value) <==> mark(s) || q(s, a)
    ensures mark(ss[i]) <==> Occurred(q, ss, steps, i)
  {
    if i > 0 {
      Marked(next, inv, mark, q, start, ss, steps, i - 1);
      Invariant(next, inv, start, ss, steps, i - 1);
      assert StepAt(next, ss, steps, i - 1);
      if q(ss[i - 1], steps[i - 1]) {
        assert Occurred(q, ss, steps, i);
      }
    }
  }

  // ---------------------------------------------------------------- runs of a part

  /**
   * The run of a part of a system inside a run of the whole: its states and steps, where each state
   * of the whole stands among them (at), and which step of the whole each of its steps is (from).
   */
  datatype Part<T, B> = Part(states: seq<T>, steps: seq<B>, at: seq<nat>, from: seq<nat>)

  ghost predicate StandsAt<S, T, B>(view: S -> T, ss: seq<S>, p: Part<T, B>, k: nat)
    requires k < |ss| == |p.at|
  {
    p.at[k] < |p.states| && p.states[p.at[k]] == view(ss[k])
  }

  ghost predicate ShowsAt<A, T, B>(act: A -> Option<B>, steps: seq<A>, p: Part<T, B>, i: nat)
    requires i < |steps| < |p.at|
  {
    match act(steps[i])
    case None => p.at[i + 1] == p.at[i]
    case Some(b) => p.at[i + 1] == p.at[i] + 1 && p.at[i] < |p.steps| && p.steps[p.at[i]] == b
  }

  ghost predicate ComesFrom<A, T, B>(act: A -> Option<B>, steps: seq<A>, p: Part<T, B>, j: nat)
    requires j < |p.from| == |p.steps| && |steps| < |p.at|
  {
    p.from[j] < |steps| && p.at[p.from[j]] == j && act(steps[p.from[j]]) == Some(p.steps[j])
  }

  ghost predicate IsPartOf<S, A, T, B>(view: S -> T, act: A -> Option<B>, ss: seq<S>, steps: seq<A>, p: Part<T, B>) {
    && |ss| == |steps| + 1 == |p.at|
    && |p.states| == |p.steps| + 1 && |p.from| == |p.steps|
    && p.at[|steps|] == |p.steps|
    && (forall k | 0 <= k < |ss| :: StandsAt(view, ss, p, k))
    && (forall i | 0 <= i < |steps| :: ShowsAt(act, steps, p, i))
    && (forall j | 0 <= j < |p.from| :: ComesFrom(act, steps, p, j))
  }

  /** A step of the whole is one of the part, or changes nothing there. */
  ghost predicate Follows<S, A, T, B>(next: (S, A) -> Option<S>, part: (T, B) -> Option<T>,
                                      view: S -> T, act: A -> Option<B>, s: S, a: A)
    requires next(s, a).Some?
  {
    match act(a)
    case None => view(next(s, a).value) == view(s)
    case Some(b) => part(view(s), b) == Some(view(next(s, a).value))
  }

  /** One more step of the whole. */
  function Extend<T, B>(p: Part<T, B>, n: nat, shown: Option<B>, state: T): Part<T, B> {
    match shown
    case None => p.(at := p.at + [|p.steps|])
    case Some(b) => Part(p.states + [state], p.steps + [b], p.at + [|p.steps| + 1], p.from + [n])
  }

  lemma ExtendIsPart<S, A, T, B>(view: S -> T, act: A -> Option<B>, ss: seq<S>, steps: seq<A>, p: Part<T, B>)
    requires steps != [] && |ss| == |steps| + 1
    requires IsPartOf(view, act, ss[..|steps|], steps[..|steps| - 1], p)
    requires act(steps[|steps| - 1]).None? ==> view(ss[|steps|]) == view(ss[|steps| - 1])
    ensures IsPartOf(view, act, ss, steps, Extend(p, |steps| - 1, act(steps[|steps| - 1]), view(ss[|steps|])))
  {
    var n := |steps| - 1;
    var q := Extend(p, n, act(steps[n]), view(ss[n + 1]));
    forall k | 0 <= k < |ss|
      ensures StandsAt(view, ss, q, k)
    {
      assert k <= n ==> StandsAt(view, ss[..n + 1], p, k);
      assert StandsAt(view, ss[..n + 1], p, n);
    }
    forall i | 0 <= i < |steps|
      ensures ShowsAt(act, steps, q, i)
    {
      assert i < n ==> ShowsAt(act, steps[..n], p, i);
    }
    forall j | 0 <= j < |q.from|
      ensures ComesFrom(act, steps, q, j)
    {
      assert j < |p.from| ==> ComesFrom(act, steps[..n], p, j);
    }
  }

  lemma ExtendIsRun<S, A, T, B>(next: (S, A) -> Option<S>, part: (T, B) -> Option<T>, view: S -> T, act: A -> Option<B>,
                                begin: T, ss: seq<S>, steps: seq<A>, p: Part<T, B>)
    requires steps != [] && |ss| == |steps| + 1
    requires StepAt(next, ss, steps, |steps| - 1)
    requires Follows(next, part, view, act, ss[|steps| - 1], steps[|steps| - 1])
    requires IsPartOf(view, act, ss[..|steps|], steps[..|steps| - 1], p) && IsRun(part, begin, p.states, p.steps)
    ensures var q := Extend(p, |steps| - 1, act(steps[|steps| - 1]), view(ss[|steps|]));
            IsRun(part, begin, q.states, q.steps)
  {
    var n := |steps| - 1;
    var q := Extend(p, n, act(steps[n]), view(ss[n + 1]));
    assert StandsAt(view, ss[..n + 1], p, n);
    forall i | 0 <= i < |q.steps|
      ensures StepAt(part, q.states, q.steps, i)
    {
      assert i < |p.steps| ==> StepAt(part, p.states, p.steps, i);
    }
  }

  /** Every run of the whole has a run of the part inside it, so that what holds of those holds of these. */
  lemma {:induction false} PartOf<S(!new), A(!new), T, B>(
      next: (S, A) -> Option<S>, inv: S -> bool, part: (T, B) -> Option<T>, view: S -> T, act: A -> Option<B>,
      start: S, ss: seq<S>, steps: seq<A>)
    returns (p: Part<T, B>)
    requires IsRun(next, start, ss, steps) && inv(start)
    requires forall s, a | inv(s) && next(s, a).Some? :: inv(next(s, a).value)
    requires forall s, a | inv(s) && next(s, a).Some? :: Follows(next, part, view, act, s, a)
    ensures IsPartOf(view, act, ss, steps, p)
    ensures IsRun(part, view(start), p.states, p.steps)
    decreases |steps|
  {
    if steps == [] {
      p := Part([view(start)], [], [0], []);
    } else {
      var n := |steps| - 1;
      var earlier, taken := ss[..n + 1], steps[..n];
      forall i | 0 <= i < n
        ensures StepAt(next, earlier, taken, i)
      {
        assert StepAt(next, ss, steps, i);
      }
      var q := PartOf(next, inv, part, view, act, start, earlier, taken);
      Invariant(next, inv, start, ss, steps, n);
      assert StepAt(next, ss, steps, n);
      ExtendIsPart(view, act, ss, steps, q);
      ExtendIsRun(next, part, view, act, view(start), ss, steps, q);
      p := Extend(q, n, act(steps[n]), view(ss[n + 1]));
    }
  }

  /** The part runs in the order of the whole. */
  lemma {:induction false} SameOrder<S, A, T, B>(view: S -> T, act: A -> Option<B>, ss: seq<S>, steps: seq<A>,
                                                 p: Part<T, B>, i: nat, k: nat)
    requires IsPartOf(view, act, ss, steps, p) && i <= k < |ss|
    ensures p.at[i] <= p.at[k]
    decreases k
  {
    if i < k {
      SameOrder(view, act, ss, steps, p, i, k - 1);
      assert ShowsAt(act, steps, p, k - 1);
    }
  }
}
