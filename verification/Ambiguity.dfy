/** Effects of an operator that can fire together on one variable with different values, and what
    simplification does to them (simplify.py:395-459). */
module Ambiguity {
  import opened Sas
  import opened Dtg
  import opened Renaming
  import opened Simplify
  import opened SimplifyTask

  // ---- a check on operators ----

  /** All facts that hold where the operator is applied and both effects fire. */
  function Together(op: SasOperator, e: Effect, e': Effect): seq<Fact> {
    op.prevail + Pres(op.prePost) + e.cond + e'.cond
  }

  predicate Contradictory(fs: seq<Fact>) {
    exists f, g | f in fs && g in fs :: f.v == g.v && f.x != g.x
  }

  /** Different values for one variable come with conditions that contradict each other. */
  predicate Exclusive(op: SasOperator) {
    forall e, e' | e in op.prePost && e' in op.prePost && e.v == e'.v && e.post != e'.post :: Contradictory(Together(op, e, e'))
  }

  lemma TogetherHold(op: SasOperator, e: Effect, e': Effect, s: State)
    requires Applicable(op, s) <==> HoldsAll(s, op.prevail) && HoldsAll(s, Pres(op.prePost))
    ensures HoldsAll(s, Together(op, e, e')) <==> Applicable(op, s) && HoldsAll(s, e.cond) && HoldsAll(s, e'.cond)
  {
    assert forall f :: f in Together(op, e, e') <==> f in op.prevail || f in Pres(op.prePost) || f in e.cond || f in e'.cond;
  }

  lemma ApplicableIs(op: SasOperator, s: State)
    ensures Applicable(op, s) <==> HoldsAll(s, op.prevail) && HoldsAll(s, Pres(op.prePost))
  {
    PostsAndPres(op.prePost);
  }

  /** A state where all of the facts hold, if they do not contradict each other. */
  lemma {:induction false} Witness(ranges: seq<nat>, fs: seq<Fact>, s0: State) returns (s: State)
    requires ValidState(ranges, s0) && !Contradictory(fs) && forall f | f in fs :: ValidFact(ranges, f)
    ensures ValidState(ranges, s) && HoldsAll(s, fs)
    decreases |fs|
  {
    if fs == [] {
      s := s0;
    } else {
      var f, rest := fs[0], fs[1..];
      assert fs == [f] + rest;
      assert f in fs && ValidFact(ranges, f) && forall g | g in fs :: g == f || g in rest;
      assert !Contradictory(rest) && forall g | g in rest :: g in fs;
      var s1 := Witness(ranges, rest, s0);
      s := s1[f.v := f.x];
      forall g | g in fs
        ensures Holds(s, g)
      {
        assert g.v == f.v ==> g.x == f.x;
      }
    }
  }

  /** The check is exact: effects that fire together always agree exactly if it succeeds. */
  lemma ExclusiveIffUnambiguous(ranges: seq<nat>, op: SasOperator, s0: State)
    requires ValidOperator(ranges, op) && ValidState(ranges, s0)
    ensures Exclusive(op) <==> forall s | ValidState(ranges, s) && Applicable(op, s) :: Unambiguous(op, s)
  {
    if Exclusive(op) {
      forall s | Applicable(op, s)
        ensures Unambiguous(op, s)
      {
        ExclusiveUnambiguous(op, s);
      }
    } else {
      var e, e' :| e in op.prePost && e' in op.prePost && e.v == e'.v && e.post != e'.post && !Contradictory(Together(op, e, e'));
      var fs := Together(op, e, e');
      PostsAndPres(op.prePost);
      assert forall f | f in fs :: ValidFact(ranges, f);
      var s := Witness(ranges, fs, s0);
      ApplicableIs(op, s);
      TogetherHold(op, e, e', s);
      assert !Unambiguous(op, s);
    }
  }

  lemma ExclusiveUnambiguous(op: SasOperator, s: State)
    requires Exclusive(op) && Applicable(op, s)
    ensures Unambiguous(op, s)
  {
    forall e, e' | e in op.prePost && e' in op.prePost && e.v == e'.v && HoldsAll(s, e.cond) && HoldsAll(s, e'.cond)
      ensures e.post == e'.post
    {
      ApplicableIs(op, s);
      TogetherHold(op, e, e', s);
      NoContradiction(Together(op, e, e'), s);
    }
  }

  lemma NoContradiction(fs: seq<Fact>, s: State)
    requires HoldsAll(s, fs)
    ensures !Contradictory(fs)
  {
  }

  /** A task whose operators pass the check is simplified without changing its plans. */
  lemma ExclusiveIsClear(t: Task)
    requires forall op | op in t.ops :: Exclusive(op)
    ensures Clear(t)
  {
    forall s, op | Reached(t, s) && op in t.ops && Applicable(op, s)
      ensures Unambiguous(op, s)
    {
      ExclusiveUnambiguous(op, s);
    }
  }

  // ---- an input ----

  /** Sets its variable to 0 and then back to 1; the effects are in the order the task format demands. */
  function BackAndForth(): SasOperator {
    SasOperator([], [Effect(0, Some(1), 0, []), Effect(0, Some(1), 1, [])], 1)
  }

  function BackAndForthTask(): Task {
    Task([2], [1], [Fact(0, 0)], [BackAndForth()])
  }

  lemma BackAndForthStays()
    ensures Applicable(BackAndForth(), [1]) && Successor(BackAndForth(), [1]) == [1]
  {
    var effects := BackAndForth().prePost;
    var s: State, s': State := [1], [0];
    assert effects[1..] == [effects[1]] && [effects[1]][1..] == [];
    assert s[0 := 0] == s' && s'[0 := 1] == s;
    assert ApplyEffects([effects[1]], s, s') == s;
    assert ApplyEffects(effects, s, s) == ApplyEffects([effects[1]], s, s');
  }

  /** The operator never leaves the initial state, so its task has no plan. */
  lemma {:induction false} BackAndForthRuns(states: seq<State>, acts: seq<nat>, k: nat)
    requires IsRun(BackAndForthTask(), states, acts) && k < |states|
    ensures states[k] == [1]
  {
    if k > 0 {
      BackAndForthRuns(states, acts, k - 1);
      assert StepBy(BackAndForthTask(), states[k - 1], acts[k - 1], states[k]);
      BackAndForthStays();
    }
  }

  lemma BackAndForthUnsolvable()
    ensures !Solvable(BackAndForthTask()) && !Exclusive(BackAndForth())
  {
    forall states, acts
      ensures !IsPlan(BackAndForthTask(), states, acts)
    {
      if IsRun(BackAndForthTask(), states, acts) {
        BackAndForthRuns(states, acts, |acts|);
        assert Fact(0, 0) in BackAndForthTask().goal;
      }
    }
    var effects := BackAndForth().prePost;
    assert effects[0] in effects && effects[1] in effects;
    assert Pres(effects) == [Fact(0, 1), Fact(0, 1)] by {
      assert effects[1..] == [effects[1]] && [effects[1]][1..] == [];
    }
    assert forall f | f in Together(BackAndForth(), effects[0], effects[1]) :: f == Fact(0, 1);
    assert !Contradictory(Together(BackAndForth(), effects[0], effects[1]));
  }

  /** Both values are reachable, as far as the graphs tell. */
  lemma BothReachable(domains: seq<set<nat>>, tab: Table)
    requires Renames(BackAndForthTask(), domains, tab)
    ensures |domains| == 1 && domains[0] == {0, 1} && InDomains(domains, [0]) && InDomains(domains, [1])
    ensures Rank(domains[0], 0) == 0 && Rank(domains[0], 1) == 1 && |tab.back| == 1 && tab.back[0] == 0
  {
    DomainIsBoth(domains, tab);
    assert Smaller(domains[0], 0) == {} && Smaller(domains[0], 1) == {0};
    assert |{0, 1}| == 2;
    OneVariable(domains, tab);
  }

  lemma OneVariable(domains: seq<set<nat>>, tab: Table)
    requires ValidTable([2], domains, tab) && |domains| == 1 && |domains[0]| != 1
    ensures |tab.back| == 1 && tab.back[0] == 0
  {
    assert tab.back[tab.varNos[0].value] == 0;
    assert tab.back[0] == 0 && tab.varNos[tab.back[0]] == Some(0);
    var last := |tab.back| - 1;
    assert tab.back[last] == 0 && tab.varNos[tab.back[last]] == Some(last);
  }

  lemma DomainIsBoth(domains: seq<set<nat>>, tab: Table)
    requires Renames(BackAndForthTask(), domains, tab)
    ensures |domains| == 1 && domains[0] == {0, 1}
  {
    var op := BackAndForth();
    assert op in BackAndForthTask().ops && op.prePost[0] in op.prePost;
    BackAndForthPre();
    assert PostsReached(op, domains) && 0 in domains[0] && 1 in domains[0];
  }

  lemma BackAndForthPre()
    ensures EffPre(BackAndForth(), BackAndForth().prePost[0]) == Only(1)
  {
    var op := BackAndForth();
    GatheredIs(op);
    assert op.prePost[0] in op.prePost && Demands(op, Fact(0, 1));
  }

  /** Every effect that is left sets the variable to 0. */
  lemma OnlyForward(domains: seq<set<nat>>, tab: Table, made: seq<Effect>, d: Effect)
    requires Renames(BackAndForthTask(), domains, tab)
    requires EffectsMade(BackAndForthTask(), domains, tab, BackAndForth(), BackAndForth().prePost, made) && d in made
    ensures d.v == 0 && d.post == 0
    ensures HoldsAll(Rename([2], domains, tab, [1]), d.cond)
  {
    BothReachable(domains, tab);
    assert RenamesSome(BackAndForthTask(), domains, tab, BackAndForth(), BackAndForth().prePost, d);
    var e :| e in BackAndForth().prePost && e.v < |domains| && EffectKept(BackAndForthTask(), domains, tab, BackAndForth(), e, d);
    TwoEffects(e);
    ForwardFrom(domains, tab, e, d);
  }

  lemma TwoEffects(e: Effect)
    requires e in BackAndForth().prePost
    ensures e.v == 0 && e.pre == Some(1) && e.cond == [] && (e.post == 0 || e.post == 1)
  {
  }

  lemma ForwardFrom(domains: seq<set<nat>>, tab: Table, e: Effect, d: Effect)
    requires Renames(BackAndForthTask(), domains, tab) && e.v == 0 < |domains| && e.pre == Some(1) && e.cond == []
    requires EffectRenamed(BackAndForthTask(), domains, tab, e, d) && (e.post == 0 || e.post == 1)
    requires domains[0] == {0, 1} && InDomains(domains, [1]) && |tab.back| == 1 && Rank(domains[0], 0) == 0
    ensures d.v == 0 && d.post == 0 && HoldsAll(Rename([2], domains, tab, [1]), d.cond)
  {
    assert tab.back[d.v] == 0;
    assert HoldsAll([1], e.cond);
  }

  lemma SomethingMade(domains: seq<set<nat>>, tab: Table, made: seq<Effect>)
    requires Renames(BackAndForthTask(), domains, tab)
    requires EffectsMade(BackAndForthTask(), domains, tab, BackAndForth(), BackAndForth().prePost, made)
    ensures made != []
  {
    BothReachable(domains, tab);
    BackAndForthStays();
    var e := BackAndForth().prePost[0];
    assert e in BackAndForth().prePost;
    VanishesIff(BackAndForthTask(), domains, tab, BackAndForth(), e);
    assert !NeverChanges(domains, BackAndForth(), e) by {
      assert InDomains(domains, [1]) && HoldsAll([1], e.cond) && !Holds([1], Fact(e.v, e.post));
    }
    assert SomeRenamed(BackAndForthTask(), domains, tab, e, made);
  }

  lemma MadeGoesForward(domains: seq<set<nat>>, tab: Table, made: seq<Effect>)
    requires Renames(BackAndForthTask(), domains, tab)
    requires EffectsMade(BackAndForthTask(), domains, tab, BackAndForth(), BackAndForth().prePost, made)
    ensures InDomains(domains, [0]) && InDomains(domains, [1])
    ensures var s := Rename([2], domains, tab, [1]); ApplyEffects(made, s, s) == Rename([2], domains, tab, [0])
  {
    BothReachable(domains, tab);
    SomethingMade(domains, tab, made);
    var s := Rename([2], domains, tab, [1]);
    forall d | d in made
      ensures d.v == 0 && d.post == 0 && HoldsAll(s, d.cond)
    {
      OnlyForward(domains, tab, made, d);
    }
    AllForward(made, s);
    RenamedZero(domains, tab);
  }

  lemma RenamedZero(domains: seq<set<nat>>, tab: Table)
    requires Renames(BackAndForthTask(), domains, tab)
    ensures InDomains(domains, [0]) && Rename([2], domains, tab, [0]) == [0]
  {
    BothReachable(domains, tab);
  }

  lemma AllForward(made: seq<Effect>, s: State)
    requires made != [] && |s| == 1 && forall d | d in made :: d.v == 0 && d.post == 0 && HoldsAll(s, d.cond)
    ensures ApplyEffects(made, s, s) == [0]
  {
    ApplyEffectsAt(made, s, s, 0);
    assert made[0] in made;
  }

  lemma KeptGoesForward(domains: seq<set<nat>>, tab: Table, r: Task, l: nat)
    requires Renames(BackAndForthTask(), domains, tab) && l < |r.ops|
    requires OperatorRenamed(BackAndForthTask(), domains, tab, BackAndForth(), Some(r.ops[l]))
    requires OperatorMade(BackAndForthTask(), domains, tab, BackAndForth(), Some(r.ops[l]))
    ensures InDomains(domains, [0]) && InDomains(domains, [1])
    ensures StepBy(r, Rename([2], domains, tab, [1]), l, Rename([2], domains, tab, [0]))
  {
    BackAndForthStays();
    MadeGoesForward(domains, tab, r.ops[l].prePost);
  }

  lemma NotDropped(domains: seq<set<nat>>, tab: Table)
    requires Renames(BackAndForthTask(), domains, tab)
    ensures !OperatorMade(BackAndForthTask(), domains, tab, BackAndForth(), None)
  {
    BothReachable(domains, tab);
    BackAndForthStays();
    if EffectsMade(BackAndForthTask(), domains, tab, BackAndForth(), BackAndForth().prePost, []) {
      SomethingMade(domains, tab, []);
    }
  }

  lemma OneStepPlan(r: Task, before: State, l: nat, after: State)
    requires r.init == before && StepBy(r, before, l, after) && HoldsAll(after, r.goal)
    ensures Solvable(r)
  {
    assert IsPlan(r, [before, after], [l]);
  }

  lemma OperatorKept(domains: seq<set<nat>>, tab: Table, r: Task, origin: seq<nat>) returns (l: nat)
    requires Represents(BackAndForthTask(), domains, tab, r, origin)
    ensures l < |r.ops| && OperatorRenamed(BackAndForthTask(), domains, tab, BackAndForth(), Some(r.ops[l]))
    ensures OperatorMade(BackAndForthTask(), domains, tab, BackAndForth(), Some(r.ops[l]))
  {
    NotDropped(domains, tab);
    KeptOrIdle(BackAndForthTask(), domains, tab, r, origin, 0);
    l :| l < |origin| && origin[l] == 0;
    KeptIs(BackAndForthTask(), domains, tab, r, origin, l);
  }

  /** The effect that repeats the precondition is dropped, although it overrides the other one. So the
      simplified task has a plan and the task has none: the condition is needed. */
  lemma SimplificationNeedsClear(domains: seq<set<nat>>, tab: Table, r: Task, origin: seq<nat>)
    requires Represents(BackAndForthTask(), domains, tab, r, origin)
    ensures !Solvable(BackAndForthTask()) && Solvable(r)
  {
    BackAndForthUnsolvable();
    var l := OperatorKept(domains, tab, r, origin);
    KeptGoesForward(domains, tab, r, l);
    assert HoldsAll([0], BackAndForthTask().goal);
    OneStepPlan(r, Rename([2], domains, tab, [1]), l, Rename([2], domains, tab, [0]));
  }
}
