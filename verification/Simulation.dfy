/** Replaying runs of one task in another. */
module Simulation {
  import opened Sas

  /** What a step becomes in `r`: a step by operator `move` of the same cost, or none if it leaves
      the encoded state as it is. */
  ghost predicate IsMove(r: Task, e: State, move: Option<nat>, e': State, cost: nat) {
    match move
    case None => e' == e
    case Some(l) => Moves(r, e, l, e', cost)
  }

  ghost predicate Moves(r: Task, e: State, l: nat, e': State, cost: nat) {
    StepBy(r, e, l, e') && r.ops[l].cost == cost
  }

  lemma {:induction false} SumAppend(xs: seq<nat>, x: nat)
    ensures Sum(xs + [x]) == Sum(xs) + x
  {
    assert (xs + [x])[..|xs|] == xs;
  }

  lemma RunExtended(t: Task, states: seq<State>, acts: seq<nat>, l: nat, s: State)
    requires IsRun(t, states, acts) && Below(acts, |t.ops|) && StepBy(t, states[|acts|], l, s)
    ensures IsRun(t, states + [s], acts + [l]) && Below(acts + [l], |t.ops|)
    ensures PlanCost(t, acts + [l]) == PlanCost(t, acts) + t.ops[l].cost
  {
    forall k | 0 <= k < |acts + [l]|
      ensures StepBy(t, (states + [s])[k], (acts + [l])[k], (states + [s])[k + 1])
    {
      assert k < |acts| ==> StepBy(t, states[k], acts[k], states[k + 1]);
    }
    assert Costs(t, acts + [l]) == Costs(t, acts) + [t.ops[l].cost];
    SumAppend(Costs(t, acts), t.ops[l].cost);
  }

  /** The operators of the moves, in order. */
  function Chosen(moves: seq<Option<nat>>): seq<nat> {
    if moves == [] then []
    else
      var last := moves[|moves| - 1];
      Chosen(moves[..|moves| - 1]) + if last.Some? then [last.value] else []
  }

  /** The run takes exactly the moves, in order, each in the encoded state it belongs to. */
  ghost predicate TakesMoves(codes: seq<State>, moves: seq<Option<nat>>, states: seq<State>, acts: seq<nat>, pos: seq<nat>) {
    && |codes| == |moves| + 1 && |states| == |acts| + 1 && |pos| == |acts|
    && (forall j | 0 <= j < |pos| :: pos[j] < |moves| && moves[pos[j]] == Some(acts[j]) && states[j] == codes[pos[j]])
    && (forall i, j | 0 <= i < j < |pos| :: pos[i] < pos[j])
    && (forall k | 0 <= k < |moves| :: k in pos <==> moves[k].Some?)
  }

  /** Leaving out the steps without move gives a run of `r`, which is no more expensive. */
  lemma {:induction false} Compress(r: Task, codes: seq<State>, costs: seq<nat>, moves: seq<Option<nat>>)
    returns (states: seq<State>, acts: seq<nat>, pos: seq<nat>)
    requires |codes| == |costs| + 1 == |moves| + 1 && codes[0] == r.init
    requires forall k | 0 <= k < |costs| :: IsMove(r, codes[k], moves[k], codes[k + 1], costs[k])
    ensures IsRun(r, states, acts) && states[|acts|] == codes[|costs|] && acts == Chosen(moves)
    ensures Below(acts, |r.ops|) && PlanCost(r, acts) <= Sum(costs)
    ensures TakesMoves(codes, moves, states, acts, pos)
    decreases |costs|
  {
    var n := |costs|;
    if n == 0 {
      states, acts, pos := [r.init], [], [];
    } else {
      var m := n - 1;
      states, acts, pos := Compress(r, codes[..n], costs[..m], moves[..m]);
      assert costs == costs[..m] + [costs[m]];
      SumAppend(costs[..m], costs[m]);
      assert IsMove(r, codes[m], moves[m], codes[m + 1], costs[m]);
      if moves[m].Some? {
        RunExtended(r, states, acts, moves[m].value, codes[n]);
        MoveTaken(codes, moves, m, states, acts, pos);
        states, acts, pos := states + [codes[n]], acts + [moves[m].value], pos + [m];
      } else {
        MoveSkipped(codes, moves, m, states, acts, pos);
      }
    }
  }

  lemma MoveTaken(codes: seq<State>, moves: seq<Option<nat>>, m: nat, states: seq<State>, acts: seq<nat>, pos: seq<nat>)
    requires |codes| == |moves| + 1 && |moves| == m + 1 && moves[m].Some?
    requires TakesMoves(codes[..m + 1], moves[..m], states, acts, pos) && states[|acts|] == codes[m]
    ensures TakesMoves(codes, moves, states + [codes[m + 1]], acts + [moves[m].value], pos + [m])
  {
    forall k | 0 <= k < |moves|
      ensures k in pos + [m] <==> moves[k].Some?
    {
      assert k < m ==> moves[..m][k] == moves[k];
    }
  }

  lemma MoveSkipped(codes: seq<State>, moves: seq<Option<nat>>, m: nat, states: seq<State>, acts: seq<nat>, pos: seq<nat>)
    requires |codes| == |moves| + 1 && |moves| == m + 1 && moves[m].None?
    requires TakesMoves(codes[..m + 1], moves[..m], states, acts, pos)
    ensures TakesMoves(codes, moves, states, acts, pos)
  {
    forall k | 0 <= k < |moves|
      ensures k in pos <==> moves[k].Some?
    {
      assert k < m ==> moves[..m][k] == moves[k];
    }
  }

  // ---- operators that come from operators ----

  /** The actions some operator of the other task comes from, in order. */
  function Surviving(acts: seq<nat>, origin: seq<nat>): seq<nat> {
    if acts == [] then []
    else
      var last := acts[|acts| - 1];
      Surviving(acts[..|acts| - 1], origin) + if last in origin then [last] else []
  }

  function PositionIn(xs: seq<nat>, x: nat): (p: Option<nat>)
    ensures p.Some? <==> x in xs
    ensures p.Some? ==> p.value < |xs| && xs[p.value] == x
  {
    if xs == [] then None
    else
      var last := |xs| - 1;
      assert xs == xs[..last] + [xs[last]];
      if xs[last] == x then Some(last) else PositionIn(xs[..last], x)
  }

  function MovesBy(acts: seq<nat>, origin: seq<nat>): (moves: seq<Option<nat>>)
    ensures |moves| == |acts| && forall k | 0 <= k < |moves| :: moves[k] == PositionIn(origin, acts[k])
  {
    seq(|acts|, k requires 0 <= k < |acts| => PositionIn(origin, acts[k]))
  }

  lemma {:induction false} ChosenSurvive(acts: seq<nat>, origin: seq<nat>)
    ensures Below(Chosen(MovesBy(acts, origin)), |origin|)
    ensures Originals(origin, Chosen(MovesBy(acts, origin))) == Surviving(acts, origin)
  {
    if acts != [] {
      var last := |acts| - 1;
      ChosenSurvive(acts[..last], origin);
      assert MovesBy(acts, origin)[..last] == MovesBy(acts[..last], origin);
    }
  }

  /** The kept steps are those of actions with an operator, each by that operator and in the encoded
      state in which it was taken; the others leave the encoded state as it is. */
  ghost predicate DeletesOthers(codes: seq<State>, acts: seq<nat>, origin: seq<nat>, states': seq<State>, acts': seq<nat>, pos: seq<nat>) {
    && |codes| == |acts| + 1 && |states'| == |acts'| + 1 && |pos| == |acts'|
    && (forall j | 0 <= j < |pos| :: pos[j] < |acts| && acts'[j] < |origin| && origin[acts'[j]] == acts[pos[j]] && states'[j] == codes[pos[j]])
    && (forall i, j | 0 <= i < j < |pos| :: pos[i] < pos[j])
    && (forall k | 0 <= k < |acts| :: k in pos <==> acts[k] in origin)
    && (forall k | 0 <= k < |acts| && k !in pos :: codes[k + 1] == codes[k])
  }

  /** Deleting exactly the steps of actions without operator gives a run of `r`. */
  lemma DeleteOthers(r: Task, codes: seq<State>, costs: seq<nat>, acts: seq<nat>, origin: seq<nat>)
    returns (states': seq<State>, acts': seq<nat>, pos: seq<nat>)
    requires |codes| == |costs| + 1 == |acts| + 1 && codes[0] == r.init
    requires forall k | 0 <= k < |acts| :: IsMove(r, codes[k], PositionIn(origin, acts[k]), codes[k + 1], costs[k])
    ensures IsRun(r, states', acts') && states'[|acts'|] == codes[|acts|]
    ensures Below(acts', |r.ops|) && PlanCost(r, acts') <= Sum(costs)
    ensures Below(acts', |origin|) && Originals(origin, acts') == Surviving(acts, origin)
    ensures DeletesOthers(codes, acts, origin, states', acts', pos)
  {
    var moves := MovesBy(acts, origin);
    states', acts', pos := Compress(r, codes, costs, moves);
    ChosenSurvive(acts, origin);
    forall k | 0 <= k < |acts| && k !in pos
      ensures codes[k + 1] == codes[k]
    {
      assert IsMove(r, codes[k], moves[k], codes[k + 1], costs[k]);
    }
  }

  /** The step from `e` to `e'` can be followed from every related state. */
  ghost predicate Follows<S(!new)>(related: iset<(S, State)>, steps: iset<(S, nat, S)>, e: State, a: nat, e': State) {
    forall s | (s, e) in related :: FollowsFrom(related, steps, s, a, e')
  }

  ghost predicate FollowsFrom<S(!new)>(related: iset<(S, State)>, steps: iset<(S, nat, S)>, s: S, a: nat, e': State) {
    exists s' :: (s, a, s') in steps && (s', e') in related
  }

  ghost predicate IsLift<S(!new)>(related: iset<(S, State)>, steps: iset<(S, nat, S)>, states: seq<State>, acts: seq<nat>, lifted: seq<S>) {
    && |lifted| == |states| == |acts| + 1
    && (forall k | 0 <= k < |states| :: (lifted[k], states[k]) in related)
    && (forall k | 0 <= k < |acts| :: (lifted[k], acts[k], lifted[k + 1]) in steps)
  }

  /** A run whose steps can be followed has a related run. */
  lemma {:induction false} Lift<S(!new)>(first: S, related: iset<(S, State)>, steps: iset<(S, nat, S)>, states: seq<State>, acts: seq<nat>)
    returns (lifted: seq<S>)
    requires |states| == |acts| + 1 && (first, states[0]) in related
    requires forall k | 0 <= k < |acts| :: Follows(related, steps, states[k], acts[k], states[k + 1])
    ensures IsLift(related, steps, states, acts, lifted) && lifted[0] == first
    decreases |acts|
  {
    if acts == [] {
      lifted := [first];
    } else {
      var n := |acts| - 1;
      lifted := Lift(first, related, steps, states[..n + 1], acts[..n]);
      assert (lifted[n], states[..n + 1][n]) in related;
      assert Follows(related, steps, states[n], acts[n], states[n + 1]) && FollowsFrom(related, steps, lifted[n], acts[n], states[n + 1]);
      var s :| (lifted[n], acts[n], s) in steps && (s, states[n + 1]) in related;
      LiftExtended(related, steps, states, acts, n, lifted, s);
      lifted := lifted + [s];
    }
  }

  lemma LiftExtended<S(!new)>(related: iset<(S, State)>, steps: iset<(S, nat, S)>, states: seq<State>, acts: seq<nat>, n: nat, lifted: seq<S>, s: S)
    requires |states| == |acts| + 1 && |acts| == n + 1 && IsLift(related, steps, states[..n + 1], acts[..n], lifted)
    requires (lifted[n], acts[n], s) in steps && (s, states[n + 1]) in related
    ensures IsLift(related, steps, states, acts, lifted + [s])
  {
    forall k | 0 <= k < |acts|
      ensures ((lifted + [s])[k], acts[k], (lifted + [s])[k + 1]) in steps
    {
      if k < n {
        assert (lifted[k], acts[..n][k], lifted[k + 1]) in steps;
      }
    }
    forall k | 0 <= k < |states|
      ensures ((lifted + [s])[k], states[k]) in related
    {
      if k <= n {
        assert (lifted[k], states[..n + 1][k]) in related;
      }
    }
  }
}
