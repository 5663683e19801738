/** What every state machine here needs about its runs. A trace is a run with
    the steps it took. */
module Runs {
  import opened Common

  ghost predicate Trace<S, L>(run: seq<S>, steps: seq<L>, moves: (S, L, S) -> bool) {
    |run| == |steps| + 1 && forall k :: 0 <= k < |steps| ==> moves(run[k], steps[k], run[k + 1])
  }

  lemma TraceExtended<S, L>(run: seq<S>, steps: seq<L>, moves: (S, L, S) -> bool, step: L, s: S)
    requires Trace(run, steps, moves) && moves(run[|steps|], step, s)
    ensures Trace(run + [s], steps + [step], moves)
  {
  }

  ghost predicate SomeStep<S, L(!new)>(s: S, t: S, moves: (S, L, S) -> bool) {
    exists step :: moves(s, step, t)
  }

  /** The steps of a run whose every change is due to some step. */
  lemma TakenSteps<S, L(!new)>(run: seq<S>, moves: (S, L, S) -> bool) returns (steps: seq<L>)
    requires |run| > 0 && forall k :: 0 <= k < |run| - 1 ==> SomeStep(run[k], run[k + 1], moves)
    ensures Trace(run, steps, moves)
  {
    steps := [];
    for n := 0 to |run| - 1
      invariant |steps| == n && forall k :: 0 <= k < n ==> moves(run[k], steps[k], run[k + 1])
    {
      assert SomeStep(run[n], run[n + 1], moves);
      var step :| moves(run[n], step, run[n + 1]);
      steps := steps + [step];
    }
  }

  /** What holds at the start and is kept by every step holds throughout. */
  lemma {:induction false} Throughout<S>(run: seq<S>, inv: S -> bool, k: nat)
    requires k < |run| && inv(run[0])
    requires forall j :: 0 <= j < |run| - 1 && inv(run[j]) ==> inv(run[j + 1])
    ensures inv(run[k])
  {
    if k > 0 {
      Throughout(run, inv, k - 1);
      assert inv(run[k - 1 + 1]);
    }
  }

  /** The same of a law about the state and the steps that led to it. */
  lemma {:induction false} LawThroughout<S, L>(run: seq<S>, steps: seq<L>, law: (S, seq<L>) -> bool, k: nat)
    requires |run| == |steps| + 1 && k <= |steps| && law(run[0], [])
    requires forall j :: 0 <= j < |steps| && law(run[j], steps[..j]) ==> law(run[j + 1], steps[..j] + [steps[j]])
    ensures law(run[k], steps[..k])
  {
    if k > 0 {
      var j := k - 1;
      LawThroughout(run, steps, law, j);
      assert law(run[j + 1], steps[..j] + [steps[j]]);
      assert steps[..k] == steps[..j] + [steps[j]];
    }
  }

  /** A run that lowers a rank at every step is no longer than the rank. */
  lemma {:induction false} DescentEnds<S>(run: seq<S>, rank: S -> nat)
    requires |run| > 0 && forall k :: 0 <= k < |run| - 1 ==> rank(run[k + 1]) < rank(run[k])
    ensures |run| - 1 <= rank(run[0])
  {
    if |run| > 1 {
      var rest := run[1..];
      forall k | 0 <= k < |rest| - 1 ensures rank(rest[k + 1]) < rank(rest[k]) {
        assert rank(run[k + 1 + 1]) < rank(run[k + 1]);
      }
      assert rank(run[0 + 1]) < rank(run[0]);
      DescentEnds(rest, rank);
    }
  }

  // -------------------------------------------------------- a trace seen coarsely

  /** The steps that are seen, under the names they are seen by. */
  ghost function SeenSteps<S, L, M>(run: seq<S>, steps: seq<L>, name: (S, L) -> Option<M>): seq<M>
    requires |run| == |steps| + 1
    decreases |steps|
  {
    var n := |steps| - 1;
    if steps == [] then []
    else SeenSteps(run[..n + 1], steps[..n], name) +
         match name(run[n], steps[n]) case None => [] case Some(m) => [m]
  }

  /** The states at the start and after each of these steps, as seen by view. */
  ghost function SeenStates<S, L, T, M>(run: seq<S>, steps: seq<L>, view: S -> T, name: (S, L) -> Option<M>): seq<T>
    requires |run| == |steps| + 1
    decreases |steps|
  {
    var n := |steps| - 1;
    if steps == [] then [view(run[0])]
    else SeenStates(run[..n + 1], steps[..n], view, name) +
         match name(run[n], steps[n]) case None => [] case Some(_) => [view(run[n + 1])]
  }

  /** The step changes nothing that is seen, or is seen as one step. */
  ghost predicate Refines<S, L, T, M>(
    s: S, step: L, t: S, view: S -> T, name: (S, L) -> Option<M>, moves: (T, M, T) -> bool)
  {
    match name(s, step)
    case None => view(t) == view(s)
    case Some(m) => moves(view(s), m, view(t))
  }

  /** If every step refines, the trace as it is seen is a trace of the coarse machine. */
  lemma {:induction false} SeenIsTrace<S, L, T, M>(
    run: seq<S>, steps: seq<L>, view: S -> T, name: (S, L) -> Option<M>, moves: (T, M, T) -> bool)
    requires |run| == |steps| + 1
    requires forall k :: 0 <= k < |steps| ==> Refines(run[k], steps[k], run[k + 1], view, name, moves)
    ensures var seen := SeenStates(run, steps, view, name);
            Trace(seen, SeenSteps(run, steps, name), moves) &&
            seen[0] == view(run[0]) && seen[|seen| - 1] == view(run[|steps|])
    decreases |steps|
  {
    if steps != [] {
      var n := |steps| - 1;
      SeenIsTrace(run[..n + 1], steps[..n], view, name, moves);
      assert Refines(run[n], steps[n], run[n + 1], view, name, moves);
    }
  }
}
