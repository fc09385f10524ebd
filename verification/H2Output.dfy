/** The task written after the analysis: redundant operators dropped, augmented preconditions
    included.  It has the same plans. */
module H2Output {
  import opened Sas
  import opened H2Instantiate
  import opened H2Knowledge
  import opened H2Plans
  import opened Simulation

  /** `r` is `op` with the extra preconditions `fs`. */
  ghost predicate Strengthens(op: SasOperator, fs: seq<Fact>, r: SasOperator) {
    && Plain(r) && r.cost == op.cost
    && (forall s :: Applicable(r, s) <==> Applicable(op, s) && HoldsAll(s, fs))
    && (forall s | Applicable(r, s) :: Successor(r, s) == Successor(op, s))
  }

  /** No condition on the variable of `f` yet. */
  ghost predicate OpenFor(op: SasOperator, f: Fact) {
    && (forall g | g in op.prevail :: g.v != f.v)
    && (forall e | e in op.prePost && e.v == f.v :: e.pre.None?)
  }

  function WithoutAt<T>(xs: seq<T>, j: nat): seq<T>
    requires j < |xs|
  {
    xs[..j] + xs[j + 1..]
  }

  lemma SameSuccessor(op: SasOperator, r: SasOperator, s: State)
    requires Plain(op) && Plain(r)
    requires forall v: nat | v < |s| && Affects(r.prePost, v) ::
               exists e, e' | e in op.prePost && e' in r.prePost :: e.v == e'.v == v && e.post == e'.post
    requires forall e | e in op.prePost :: Affects(r.prePost, e.v) || Holds(s, Fact(e.v, e.post))
    ensures Successor(r, s) == Successor(op, s)
  {
    forall v: nat | v < |s|
      ensures Successor(r, s)[v] == Successor(op, s)[v]
    {
      PlainSuccessor(op, s, v);
      PlainSuccessor(r, s, v);
    }
  }

  /** The effect at `j` has the variable of `f` and gets `f` as its precondition. */
  lemma PreconditionAdded(op: SasOperator, f: Fact, j: nat, r: SasOperator)
    requires Plain(op) && OpenFor(op, f) && j < |op.prePost| && op.prePost[j].v == f.v
    requires r == op.(prePost := op.prePost[j := op.prePost[j].(pre := Some(f.x))])
    ensures Strengthens(op, [f], r)
  {
    var e, e' := op.prePost[j], r.prePost[j];
    forall d | d in r.prePost
      ensures d == e' || (d in op.prePost && d.v != f.v)
    {
      var i :| 0 <= i < |r.prePost| && r.prePost[i] == d;
      assert i != j ==> op.prePost[i] == d && op.prePost[i].v != op.prePost[j].v;
    }
    forall d | d in op.prePost
      ensures d == e || d in r.prePost
    {
      var i :| 0 <= i < |op.prePost| && op.prePost[i] == d;
      assert i != j ==> r.prePost[i] == d;
    }
    assert e' in r.prePost && e in op.prePost;
    assert Plain(r);
    forall s
      ensures Successor(r, s) == Successor(op, s)
      ensures Applicable(r, s) <==> Applicable(op, s) && HoldsAll(s, [f])
    {
      SameSuccessor(op, r, s);
      assert PreHolds(s, e') <==> Holds(s, f);
    }
  }

  lemma WithoutEffect(op: SasOperator, j: nat, effects: seq<Effect>)
    requires Plain(op) && j < |op.prePost| && effects == WithoutAt(op.prePost, j)
    ensures forall d :: d in effects <==> d in op.prePost && d.v != op.prePost[j].v
    ensures forall a, b | 0 <= a < b < |effects| :: effects[a].v != effects[b].v
  {
    forall i | 0 <= i < |effects|
      ensures effects[i] == op.prePost[if i < j then i else i + 1]
    {
    }
    forall d | d in op.prePost && d.v != op.prePost[j].v
      ensures d in effects
    {
      var i :| 0 <= i < |op.prePost| && op.prePost[i] == d;
      assert effects[if i < j then i else i - 1] == d;
    }
  }

  /** An effect that establishes the extra precondition again is replaced by the condition. */
  lemma EffectErased(op: SasOperator, f: Fact, j: nat, r: SasOperator)
    requires Plain(op) && OpenFor(op, f) && j < |op.prePost| && op.prePost[j].v == f.v && op.prePost[j].post == f.x
    requires r == op.(prePost := WithoutAt(op.prePost, j), prevail := op.prevail + [f])
    ensures Strengthens(op, [f], r)
  {
    var e := op.prePost[j];
    assert e in op.prePost;
    WithoutEffect(op, j, r.prePost);
    forall d | d in op.prePost && d !in r.prePost
      ensures d == e
    {
      EffectUnique(op, d, e);
    }
    assert Plain(r);
    forall s
      ensures Applicable(r, s) <==> Applicable(op, s) && HoldsAll(s, [f])
    {
      assert f in r.prevail;
    }
    forall s | Applicable(r, s)
      ensures Successor(r, s) == Successor(op, s)
    {
      SameSuccessor(op, r, s);
    }
  }

  lemma ConditionAdded(op: SasOperator, f: Fact, r: SasOperator)
    requires Plain(op) && OpenFor(op, f) && !Affects(op.prePost, f.v)
    requires r == op.(prevail := op.prevail + [f])
    ensures Strengthens(op, [f], r)
  {
    assert Plain(r);
    forall s
      ensures Applicable(r, s) <==> Applicable(op, s) && HoldsAll(s, [f])
    {
      assert f in r.prevail;
    }
  }

  /** The body of include_augmented_preconditions for one value. */
  method IncludeValue(op: SasOperator, f: Fact) returns (r: SasOperator)
    requires Plain(op) && OpenFor(op, f)
    ensures Strengthens(op, [f], r)
    ensures forall g: Fact | g.v != f.v && OpenFor(op, g) :: OpenFor(r, g)
  {
    var j := 0;
    while j < |op.prePost| && op.prePost[j].v != f.v
      invariant 0 <= j <= |op.prePost|
      invariant forall i | 0 <= i < j :: op.prePost[i].v != f.v
    {
      j := j + 1;
    }
    if j == |op.prePost| {
      r := op.(prevail := op.prevail + [f]);
      ConditionAdded(op, f, r);
    } else if op.prePost[j].post != f.x {
      r := op.(prePost := op.prePost[j := op.prePost[j].(pre := Some(f.x))]);
      PreconditionAdded(op, f, j, r);
    } else {
      r := op.(prePost := WithoutAt(op.prePost, j), prevail := op.prevail + [f]);
      EffectErased(op, f, j, r);
    }
  }

  lemma StrengthenedTwice(op: SasOperator, fs: seq<Fact>, mid: SasOperator, f: Fact, r: SasOperator)
    requires Strengthens(op, fs, mid) && Strengthens(mid, [f], r)
    ensures Strengthens(op, fs + [f], r)
  {
  }

  /** include_augmented_preconditions */
  method IncludeAugmented(op: SasOperator, augmented: seq<Fact>) returns (r: SasOperator)
    requires Plain(op) && forall f | f in augmented :: OpenFor(op, f)
    requires forall i, j | 0 <= i < j < |augmented| :: augmented[i].v != augmented[j].v
    ensures Strengthens(op, augmented, r)
  {
    r := op;
    for i := 0 to |augmented|
      invariant Strengthens(op, augmented[..i], r)
      invariant forall j | i <= j < |augmented| :: OpenFor(r, augmented[j])
    {
      var next := IncludeValue(r, augmented[i]);
      StrengthenedTwice(op, augmented[..i], r, augmented[i], next);
      assert augmented[..i + 1] == augmented[..i] + [augmented[i]];
      r := next;
    }
    assert augmented[..|augmented|] == augmented;
  }

  /** Operator `j` of the output comes from operator `origin[j]`; exactly the redundant ones have no
      successor. */
  ghost predicate Reduces(t: Task, infos: seq<OpInfo>, t': Task, origin: seq<nat>) {
    && |infos| == |t.ops| && |origin| == |t'.ops|
    && t'.init == t.init && t'.goal == t.goal && t'.ranges == t.ranges
    && (forall j | 0 <= j < |origin| ::
          origin[j] < |t.ops| && Strengthens(t.ops[origin[j]], infos[origin[j]].augmented, t'.ops[j]))
    && (forall j, l | 0 <= j < l < |origin| :: origin[j] < origin[l])
    && (forall i | 0 <= i < |t.ops| :: i in origin <==> !Redundant(t, infos, i))
  }

  /** strip_operators, then include_augmented_preconditions. */
  method WriteOperators(t: Task, ghost k: Knowledge, infos: seq<OpInfo>) returns (t': Task, origin: seq<nat>)
    requires Faithful(t, k, infos)
    ensures Reduces(t, infos, t', origin)
  {
    var ops := [];
    origin := [];
    for i := 0 to |t.ops|
      invariant |origin| == |ops|
      invariant forall j | 0 <= j < |origin| ::
                  origin[j] < i && !Redundant(t, infos, origin[j])
                  && Strengthens(t.ops[origin[j]], infos[origin[j]].augmented, ops[j])
      invariant forall j, l | 0 <= j < l < |origin| :: origin[j] < origin[l]
      invariant forall l | 0 <= l < i :: l in origin <==> !Redundant(t, infos, l)
    {
      var op, info := t.ops[i], infos[i];
      if !info.spurious && op.prePost != [] {
        assert op in t.ops && ValidInfo(k.ix, op, info);
        var r := IncludeAugmented(op, info.augmented);
        ops := ops + [r];
        origin := origin + [i];
      }
    }
    t' := t.(ops := ops);
  }

  /** A plan of the written task is a plan of the input task, with the same states and cost. */
  lemma WrittenPlansAreReal(t: Task, infos: seq<OpInfo>, t': Task, origin: seq<nat>, states: seq<State>, acts: seq<nat>)
    requires Reduces(t, infos, t', origin) && IsPlan(t', states, acts)
    ensures Below(acts, |origin|)
    ensures IsPlan(t, states, Originals(origin, acts))
    ensures Below(Originals(origin, acts), |t.ops|)
    ensures PlanCost(t, Originals(origin, acts)) == PlanCost(t', acts)
  {
    RunBelow(t', states, acts);
    var r := Originals(origin, acts);
    forall k | 0 <= k < |acts|
      ensures StepBy(t, states[k], r[k], states[k + 1])
    {
      assert StepBy(t', states[k], acts[k], states[k + 1]);
    }
    assert Costs(t, r) == Costs(t', acts);
  }

  /** A plan step by operator `i` is a step of the operator written for it, or changes nothing. */
  lemma StepSurvives(t: Task, infos: seq<OpInfo>, t': Task, origin: seq<nat>, s: State, i: nat, s': State)
    requires StepsSound(t, infos) && Reduces(t, infos, t', origin) && PlanStep(t, s, i, s')
    ensures i < |t.ops| && IsMove(t', s, PositionIn(origin, i), s', t.ops[i].cost)
  {
    PlanStepEnds(t, s, i, s');
    assert StepsSoundAt(t, i, infos[i]);
    if i in origin {
      var l := PositionIn(origin, i).value;
      assert Strengthens(t.ops[i], infos[i].augmented, t'.ops[l]);
      assert Moves(t', s, l, s', t.ops[i].cost);
    } else {
      assert Redundant(t, infos, i);
    }
  }

  /** Every plan of the input task, with exactly the steps of redundant operators deleted, is a plan
      of the written task through the states in which the other steps are taken. */
  lemma PlansSurvive(t: Task, infos: seq<OpInfo>, t': Task, origin: seq<nat>, states: seq<State>, acts: seq<nat>)
    returns (states': seq<State>, acts': seq<nat>, pos: seq<nat>)
    requires StepsSound(t, infos) && Reduces(t, infos, t', origin) && IsPlan(t, states, acts)
    ensures IsPlan(t', states', acts') && DeletesOthers(states, acts, origin, states', acts', pos)
    ensures Below(acts, |t.ops|) && forall k | 0 <= k < |acts| :: k !in pos <==> Redundant(t, infos, acts[k])
    ensures Below(acts', |origin|) && Originals(origin, acts') == Surviving(acts, origin)
    ensures Below(acts', |t'.ops|) && PlanCost(t', acts') <= PlanCost(t, acts)
  {
    RunBelow(t, states, acts);
    forall k | 0 <= k < |acts|
      ensures IsMove(t', states[k], PositionIn(origin, acts[k]), states[k + 1], Costs(t, acts)[k])
    {
      PlanStepAt(t, states, acts, k);
      StepSurvives(t, infos, t', origin, states[k], acts[k], states[k + 1]);
    }
    states', acts', pos := DeleteOthers(t', states, Costs(t, acts), acts, origin);
  }

  /** The written task is solvable exactly when the input task is. */
  lemma SameSolvability(t: Task, infos: seq<OpInfo>, t': Task, origin: seq<nat>)
    requires StepsSound(t, infos) && Reduces(t, infos, t', origin)
    ensures Solvable(t) <==> Solvable(t')
  {
    if states, acts :| IsPlan(t, states, acts) {
      var states', acts', pos := PlansSurvive(t, infos, t', origin, states, acts);
    }
    if states, acts :| IsPlan(t', states, acts) {
      WrittenPlansAreReal(t, infos, t', origin, states, acts);
    }
  }
}
