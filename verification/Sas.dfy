/** Planning tasks in finite-domain representation: states, operators, runs and plans.
    The successor function applies the firing effects in list order, as the search does. */
module Sas {

  datatype Option<+T> = None | Some(value: T)

  /** "Variable v has value x." */
  datatype Fact = Fact(v: nat, x: nat)

  /** One pre/post entry; a missing precondition is -1 in the source. */
  datatype Effect = Effect(v: nat, pre: Option<nat>, post: nat, cond: seq<Fact>)

  datatype SasOperator = SasOperator(prevail: seq<Fact>, prePost: seq<Effect>, cost: nat)

  type State = seq<nat>

  datatype Task = Task(ranges: seq<nat>, init: State, goal: seq<Fact>, ops: seq<SasOperator>)

  predicate Holds(s: State, f: Fact) {
    f.v < |s| && s[f.v] == f.x
  }

  predicate HoldsAll(s: State, fs: seq<Fact>) {
    forall f | f in fs :: Holds(s, f)
  }

  predicate PreHolds(s: State, e: Effect) {
    e.pre.Some? ==> Holds(s, Fact(e.v, e.pre.value))
  }

  predicate Affects(effects: seq<Effect>, v: nat) {
    exists e | e in effects :: e.v == v
  }

  /** The facts are on different variables. */
  predicate DistinctFacts(fs: seq<Fact>) {
    forall i, j | 0 <= i < j < |fs| :: fs[i].v != fs[j].v
  }

  ghost predicate HasPre(effects: seq<Effect>, v: nat, x: nat) {
    exists e | e in effects :: e.v == v && e.pre == Some(x)
  }

  /** The facts the effects establish. */
  function Posts(effects: seq<Effect>): seq<Fact> {
    if effects == [] then [] else [Fact(effects[0].v, effects[0].post)] + Posts(effects[1..])
  }

  /** The preconditions listed with the effects. */
  function Pres(effects: seq<Effect>): seq<Fact> {
    if effects == [] then []
    else (match effects[0].pre case None => [] case Some(x) => [Fact(effects[0].v, x)]) + Pres(effects[1..])
  }

  lemma {:induction false} PostsAndPres(effects: seq<Effect>)
    ensures forall e | e in effects :: Fact(e.v, e.post) in Posts(effects)
    ensures forall e | e in effects && e.pre.Some? :: Fact(e.v, e.pre.value) in Pres(effects)
    ensures forall g | g in Posts(effects) :: exists e | e in effects :: g == Fact(e.v, e.post)
    ensures forall g | g in Pres(effects) :: exists e | e in effects :: e.pre.Some? && g == Fact(e.v, e.pre.value)
  {
    if effects != [] {
      PostsAndPres(effects[1..]);
      assert effects == [effects[0]] + effects[1..];
    }
  }

  predicate Applicable(op: SasOperator, s: State) {
    HoldsAll(s, op.prevail) && forall e | e in op.prePost :: PreHolds(s, e)
  }

  /** Conditions are evaluated in the predecessor `s`; later effects override earlier ones. */
  function ApplyEffects(effects: seq<Effect>, s: State, current: State): (r: State)
    ensures |r| == |current|
  {
    if effects == [] then current
    else
      var e := effects[0];
      var next := if HoldsAll(s, e.cond) && e.v < |current| then current[e.v := e.post] else current;
      ApplyEffects(effects[1..], s, next)
  }

  function Successor(op: SasOperator, s: State): State {
    ApplyEffects(op.prePost, s, s)
  }

  predicate ValidFact(ranges: seq<nat>, f: Fact) {
    f.v < |ranges| && f.x < ranges[f.v]
  }

  predicate ValidState(ranges: seq<nat>, s: State) {
    |s| == |ranges| && forall v | 0 <= v < |s| :: s[v] < ranges[v]
  }

  predicate ValidOperator(ranges: seq<nat>, op: SasOperator) {
    && (forall f | f in op.prevail :: ValidFact(ranges, f))
    && (forall e | e in op.prePost ::
          ValidFact(ranges, Fact(e.v, e.post))
          && (e.pre.Some? ==> ValidFact(ranges, Fact(e.v, e.pre.value)))
          && (forall f | f in e.cond :: ValidFact(ranges, f)))
  }

  predicate ValidTask(t: Task) {
    && ValidState(t.ranges, t.init)
    && (forall f | f in t.goal :: ValidFact(t.ranges, f))
    && (forall op | op in t.ops :: ValidOperator(t.ranges, op))
  }

  predicate StepBy(t: Task, s: State, i: nat, s': State) {
    i < |t.ops| && Applicable(t.ops[i], s) && s' == Successor(t.ops[i], s)
  }

  ghost predicate IsRun(t: Task, states: seq<State>, acts: seq<nat>) {
    && |states| == |acts| + 1
    && states[0] == t.init
    && forall k | 0 <= k < |acts| :: StepBy(t, states[k], acts[k], states[k + 1])
  }

  ghost predicate IsPlan(t: Task, states: seq<State>, acts: seq<nat>) {
    IsRun(t, states, acts) && HoldsAll(states[|acts|], t.goal)
  }

  ghost predicate Solvable(t: Task) {
    exists states, acts :: IsPlan(t, states, acts)
  }

  /** `s` is visited by some plan. */
  ghost predicate OnPlan(t: Task, s: State) {
    exists states, acts :: IsPlan(t, states, acts) && s in states
  }

  /** Some plan moves from `s` to `s'` by operator `i`. */
  ghost predicate PlanStep(t: Task, s: State, i: nat, s': State) {
    exists states, acts, k ::
      IsPlan(t, states, acts) && 0 <= k < |acts| && states[k] == s && acts[k] == i && states[k + 1] == s'
  }

  lemma {:induction false} ValueStays(effects: seq<Effect>, s: State, current: State, v: nat)
    requires v < |current| && forall e | e in effects && e.v == v :: !HoldsAll(s, e.cond)
    ensures ApplyEffects(effects, s, current)[v] == current[v]
    decreases |effects|
  {
    if effects != [] {
      var e := effects[0];
      assert e in effects && forall d | d in effects[1..] :: d in effects;
      var next := if HoldsAll(s, e.cond) && e.v < |current| then current[e.v := e.post] else current;
      ValueStays(effects[1..], s, next, v);
    }
  }

  /** All effects on `v` that fire set the value `x`. */
  predicate AllSet(effects: seq<Effect>, s: State, v: nat, x: nat) {
    forall e | e in effects && e.v == v && HoldsAll(s, e.cond) :: e.post == x
  }

  lemma {:induction false} ValueSet(effects: seq<Effect>, s: State, current: State, v: nat, x: nat)
    requires v < |current| && AllSet(effects, s, v, x)
    requires current[v] == x || exists e | e in effects :: e.v == v && HoldsAll(s, e.cond)
    ensures ApplyEffects(effects, s, current)[v] == x
    decreases |effects|
  {
    if effects != [] {
      var e := effects[0];
      assert effects == [e] + effects[1..];
      assert e in effects && forall d | d in effects[1..] :: d in effects;
      var next := if HoldsAll(s, e.cond) && e.v < |current| then current[e.v := e.post] else current;
      ValueSet(effects[1..], s, next, v, x);
    }
  }

  /** The last effect on `v` that fires decides the value; without one the value stays. */
  lemma ApplyEffectsAt(effects: seq<Effect>, s: State, current: State, v: nat)
    requires v < |current|
    ensures (forall e | e in effects && e.v == v :: !HoldsAll(s, e.cond))
            ==> ApplyEffects(effects, s, current)[v] == current[v]
    ensures forall e | e in effects && e.v == v && HoldsAll(s, e.cond)
                       && (forall e' | e' in effects && e'.v == v && HoldsAll(s, e'.cond) :: e'.post == e.post) ::
              ApplyEffects(effects, s, current)[v] == e.post
  {
    if forall e | e in effects && e.v == v :: !HoldsAll(s, e.cond) {
      ValueStays(effects, s, current, v);
    }
    forall e | e in effects && e.v == v && HoldsAll(s, e.cond)
               && (forall e' | e' in effects && e'.v == v && HoldsAll(s, e'.cond) :: e'.post == e.post)
      ensures ApplyEffects(effects, s, current)[v] == e.post
    {
      ValueSet(effects, s, current, v, e.post);
    }
  }

  lemma {:induction false} SuccessorValid(ranges: seq<nat>, effects: seq<Effect>, s: State, current: State)
    requires ValidState(ranges, current)
    requires forall e | e in effects :: ValidFact(ranges, Fact(e.v, e.post))
    ensures ValidState(ranges, ApplyEffects(effects, s, current))
    decreases |effects|
  {
    if effects != [] {
      var e := effects[0];
      assert e in effects;
      assert ValidFact(ranges, Fact(e.v, e.post));
      var next := if HoldsAll(s, e.cond) && e.v < |current| then current[e.v := e.post] else current;
      SuccessorValid(ranges, effects[1..], s, next);
    }
  }

  lemma {:induction false} RunStatesValid(t: Task, states: seq<State>, acts: seq<nat>, k: nat)
    requires ValidTask(t) && IsRun(t, states, acts) && k < |states|
    ensures ValidState(t.ranges, states[k])
    decreases k
  {
    if k > 0 {
      RunStatesValid(t, states, acts, k - 1);
      assert StepBy(t, states[k - 1], acts[k - 1], states[k]);
      var op := t.ops[acts[k - 1]];
      assert op in t.ops;
      SuccessorValid(t.ranges, op.prePost, states[k - 1], states[k - 1]);
    }
  }

  lemma PlanStepEnds(t: Task, s: State, i: nat, s': State)
    requires PlanStep(t, s, i, s')
    ensures OnPlan(t, s) && OnPlan(t, s') && StepBy(t, s, i, s')
  {
    var states, acts, k :|
      IsPlan(t, states, acts) && 0 <= k < |acts| && states[k] == s && acts[k] == i && states[k + 1] == s';
    assert s in states && s' in states;
  }

  predicate Below(acts: seq<nat>, n: nat) {
    forall k | 0 <= k < |acts| :: acts[k] < n
  }

  function Sum(xs: seq<nat>): nat {
    if xs == [] then 0 else Sum(xs[..|xs| - 1]) + xs[|xs| - 1]
  }

  function Costs(t: Task, acts: seq<nat>): (r: seq<nat>)
    requires Below(acts, |t.ops|)
    ensures |r| == |acts| && forall k | 0 <= k < |acts| :: r[k] == t.ops[acts[k]].cost
  {
    seq(|acts|, k requires 0 <= k < |acts| => t.ops[acts[k]].cost)
  }

  function PlanCost(t: Task, acts: seq<nat>): nat
    requires Below(acts, |t.ops|)
  {
    Sum(Costs(t, acts))
  }

  lemma RunBelow(t: Task, states: seq<State>, acts: seq<nat>)
    requires IsRun(t, states, acts)
    ensures Below(acts, |t.ops|)
  {
    forall k | 0 <= k < |acts|
      ensures acts[k] < |t.ops|
    {
      assert StepBy(t, states[k], acts[k], states[k + 1]);
    }
  }

  /** The indices of the operators the actions come from. */
  function Originals(origin: seq<nat>, acts: seq<nat>): (r: seq<nat>)
    requires Below(acts, |origin|)
    ensures |r| == |acts| && forall k | 0 <= k < |acts| :: r[k] == origin[acts[k]]
  {
    seq(|acts|, k requires 0 <= k < |acts| => origin[acts[k]])
  }
}
