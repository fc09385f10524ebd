/** What disambiguation looks at, said by the steps of the operator: a value survives exactly if some step has it next to the
    conditions, and next to the effects where the operator leaves it, without a recorded mutex (operator.cc:112-245). */
module H2Survivors {
  import opened Sas
  import opened H2Theory
  import opened H2Instantiate
  import opened H2Knowledge
  import opened H2Tight

  ghost predicate Recorded(k: Knowledge, u: nat, x: nat, v: nat, y: nat)
    requires WellFormed(k) && ValidFact(k.ix.ranges, Fact(u, x)) && ValidFact(k.ix.ranges, Fact(v, y))
  {
    k.mat[k.ix.prop[Fact(u, x)]][k.ix.prop[Fact(v, y)]] == SPURIOUS
  }

  /** The conditions of an operator that disambiguation starts from. */
  ghost predicate Conditioned(k: Knowledge, op: SasOperator, augmented: seq<Fact>, pre: seq<Option<nat>>) {
    && WellFormed(k) && ValidOperator(k.ix.ranges, op) && Plain(op) && ValidAugmented(k.ix, op, augmented)
    && InDomain(k.ix, pre) && IsConditions(op, augmented, pre) && InIndex(k.ix, Posts(op.prePost))
  }

  /** In the state no value of a variable with a condition is recorded as a mutex with the value of `v`. */
  ghost predicate FitsConditions(k: Knowledge, pre: seq<Option<nat>>, s: State, v: nat)
    requires WellFormed(k) && ValidState(k.ix.ranges, s) && v < |s| == |pre|
  {
    forall u | 0 <= u < |pre| && u != v && pre[u].Some? :: !Recorded(k, u, s[u], v, s[v])
  }

  /** In the state no value of an affected variable is recorded as a mutex with the value of `v`. */
  ghost predicate FitsEffects(k: Knowledge, op: SasOperator, s: State, v: nat)
    requires WellFormed(k) && ValidState(k.ix.ranges, s) && v < |s|
  {
    forall u | 0 <= u < |s| && Affects(op.prePost, u) :: !Recorded(k, u, s[u], v, s[v])
  }

  lemma StepEndsValid(k: Knowledge, op: SasOperator, s: State)
    requires ValidOperator(k.ix.ranges, op) && Plain(op) && ValidState(k.ix.ranges, s)
    ensures ValidState(k.ix.ranges, Successor(op, s))
  {
    forall v: nat | v < |s|
      ensures Successor(op, s)[v] < k.ix.ranges[v]
    {
      PlainSuccessor(op, s, v);
    }
  }

  /** Some step of the operator starts with the value, which is reachable and fits the conditions before the step and, if
      the operator leaves the variable alone, the effects after it. */
  ghost predicate StepHas(k: Knowledge, op: SasOperator, augmented: seq<Fact>, pre: seq<Option<nat>>, v: nat, x: nat)
    requires Conditioned(k, op, augmented, pre) && v < |pre|
  {
    exists s | CanStep(k.ix, op, augmented, s) :: Holds(s, Fact(v, x)) && StepFits(k, op, pre, s, v)
  }

  ghost predicate StepFits(k: Knowledge, op: SasOperator, pre: seq<Option<nat>>, s: State, v: nat)
    requires WellFormed(k) && ValidOperator(k.ix.ranges, op) && Plain(op) && ValidState(k.ix.ranges, s) && v < |pre| == |k.ix.ranges|
  {
    StepEndsValid(k, op, s);
    && Fact(v, s[v]) !in k.unreachable && FitsConditions(k, pre, s, v)
    && (!Affects(op.prePost, v) ==> FitsEffects(k, op, Successor(op, s), v))
  }

  lemma ConditionsAre(k: Knowledge, op: SasOperator, augmented: seq<Fact>, pre: seq<Option<nat>>, s: State)
    requires Conditioned(k, op, augmented, pre) && ValidState(k.ix.ranges, s)
    ensures CanStep(k.ix, op, augmented, s) <==> Agrees(pre, s)
  {
    CanStepIff(k.ix, op, augmented, s);
    if CanStep(k.ix, op, augmented, s) {
      forall v | 0 <= v < |pre| && pre[v].Some?
        ensures s[v] == pre[v].value
      {
        assert Holds(s, Fact(v, pre[v].value));
      }
    }
    if Agrees(pre, s) {
      PostsAndPres(op.prePost);
      forall f | ForwardPre(op, augmented, f)
        ensures Holds(s, f)
      {
        assert ValidFact(k.ix.ranges, f) && f == Fact(f.v, f.x) && pre[f.v] == Some(f.x);
      }
    }
  }

  /** Some step starts with a given value on a variable without a condition. */
  lemma StepWith(k: Knowledge, op: SasOperator, augmented: seq<Fact>, pre: seq<Option<nat>>, base: State, v: nat, x: nat) returns (s: State)
    requires Conditioned(k, op, augmented, pre) && ValidState(k.ix.ranges, base) && ValidFact(k.ix.ranges, Fact(v, x)) && pre[v].None?
    ensures CanStep(k.ix, op, augmented, s) && Holds(s, Fact(v, x))
  {
    s := seq(|base|, u requires 0 <= u < |base| => if u == v then x else if pre[u].Some? then pre[u].value else base[u]);
    ConditionsAre(k, op, augmented, pre, s);
  }

  lemma FitsKnown(k: Knowledge, op: SasOperator, augmented: seq<Fact>, pre: seq<Option<nat>>, s: State, v: nat)
    requires Conditioned(k, op, augmented, pre) && CanStep(k.ix, op, augmented, s) && v < |pre| && pre[v].None?
    requires KnownInDomain(k.ix, KnownOf(pre))
    ensures FitsConditions(k, pre, s, v) <==> forall n | n in KnownOf(pre) :: !MutexKnown(k, n, Fact(v, s[v]))
  {
    ConditionsAre(k, op, augmented, pre, s);
    if forall n | n in KnownOf(pre) :: !MutexKnown(k, n, Fact(v, s[v])) {
      forall u | 0 <= u < |pre| && u != v && pre[u].Some?
        ensures !Recorded(k, u, s[u], v, s[v])
      {
        assert KnownOf(pre)[u] in KnownOf(pre);
      }
    }
  }

  lemma FitsPosts(k: Knowledge, op: SasOperator, s: State, v: nat)
    requires WellFormed(k) && ValidOperator(k.ix.ranges, op) && Plain(op) && ValidState(k.ix.ranges, s) && v < |s| && !Affects(op.prePost, v)
    requires ValidState(k.ix.ranges, Successor(op, s)) && InIndex(k.ix, Posts(op.prePost))
    ensures FitsEffects(k, op, Successor(op, s), v) <==> forall f | f in Posts(op.prePost) :: !Mutex(k, f, Fact(v, s[v]))
  {
    PostsAndPres(op.prePost);
    PlainSuccessor(op, s, v);
    var s' := Successor(op, s);
    forall u: nat | u < |s'| && Affects(op.prePost, u)
      ensures Fact(u, s'[u]) in Posts(op.prePost)
    {
      var e :| e in op.prePost && e.v == u;
      PlainSuccessor(op, s, u);
    }
    forall f | f in Posts(op.prePost)
      ensures Holds(s', f) && Affects(op.prePost, f.v)
    {
      var e :| e in op.prePost && Fact(e.v, e.post) == f;
      PlainSuccessor(op, s, e.v);
    }
  }

  /** Which values survive. */
  lemma SurvivesIff(k: Knowledge, op: SasOperator, augmented: seq<Fact>, pre: seq<Option<nat>>, base: State, v: nat, x: nat)
    requires Conditioned(k, op, augmented, pre) && ValidState(k.ix.ranges, base) && KnownInDomain(k.ix, KnownOf(pre))
    requires ValidFact(k.ix.ranges, Fact(v, x)) && pre[v].None?
    ensures Survives(k, op, KnownOf(pre), v, x) <==> StepHas(k, op, augmented, pre, v, x)
  {
    forall s | CanStep(k.ix, op, augmented, s) && Holds(s, Fact(v, x))
      ensures StepFits(k, op, pre, s, v) <==> Survives(k, op, KnownOf(pre), v, x)
    {
      StepEndsValid(k, op, s);
      FitsKnown(k, op, augmented, pre, s, v);
      if !Affects(op.prePost, v) {
        FitsPosts(k, op, s, v);
      }
    }
    if Survives(k, op, KnownOf(pre), v, x) {
      var s := StepWith(k, op, augmented, pre, base, v, x);
      assert StepFits(k, op, pre, s, v);
    }
  }

  /** In the state the conditions are reachable and no two of them are recorded as a mutex. */
  ghost predicate ConditionsFit(k: Knowledge, pre: seq<Option<nat>>, s: State)
    requires WellFormed(k) && ValidState(k.ix.ranges, s) && |s| == |pre|
  {
    forall v | 0 <= v < |pre| && pre[v].Some? :: Fact(v, s[v]) !in k.unreachable && FitsConditions(k, pre, s, v)
  }

  lemma FitsOthers(k: Knowledge, op: SasOperator, augmented: seq<Fact>, pre: seq<Option<nat>>, s: State)
    requires Conditioned(k, op, augmented, pre) && CanStep(k.ix, op, augmented, s)
    ensures Conflict(k, pre, |pre|) <==> !ConditionsFit(k, pre, s)
  {
    ConditionsAre(k, op, augmented, pre, s);
    if !ConditionsFit(k, pre, s) {
      UnfitConflicts(k, pre, s);
    }
    if Conflict(k, pre, |pre|) {
      ConflictUnfits(k, pre, s);
    }
  }

  lemma UnfitConflicts(k: Knowledge, pre: seq<Option<nat>>, s: State)
    requires WellFormed(k) && InDomain(k.ix, pre) && ValidState(k.ix.ranges, s) && Agrees(pre, s) && !ConditionsFit(k, pre, s)
    ensures Conflict(k, pre, |pre|)
  {
    var v :| 0 <= v < |pre| && pre[v].Some? && !(Fact(v, s[v]) !in k.unreachable && FitsConditions(k, pre, s, v));
    if Fact(v, s[v]) !in k.unreachable {
      var u :| 0 <= u < |pre| && u != v && pre[u].Some? && Recorded(k, u, s[u], v, s[v]);
      assert Recorded(k, v, s[v], u, s[u]);
      ConflictOf(k, pre, if u < v then u else v, if u < v then v else u);
    }
  }

  lemma ConflictUnfits(k: Knowledge, pre: seq<Option<nat>>, s: State)
    requires WellFormed(k) && InDomain(k.ix, pre) && ValidState(k.ix.ranges, s) && Agrees(pre, s) && Conflict(k, pre, |pre|)
    ensures !ConditionsFit(k, pre, s)
  {
    var i :| 0 <= i < |pre| && pre[i].Some? && (Fact(i, pre[i].value) in k.unreachable
      || exists j | i < j < |pre| && pre[j].Some? :: Mutex(k, Fact(i, pre[i].value), Fact(j, pre[j].value)));
    if Fact(i, pre[i].value) !in k.unreachable {
      var j :| i < j < |pre| && pre[j].Some? && Mutex(k, Fact(i, pre[i].value), Fact(j, pre[j].value));
      assert Recorded(k, i, s[i], j, s[j]) && !FitsConditions(k, pre, s, j);
    }
  }

  lemma ConflictOf(k: Knowledge, pre: seq<Option<nat>>, u: nat, v: nat)
    requires WellFormed(k) && InDomain(k.ix, pre) && u < v < |pre| && pre[u].Some? && pre[v].Some?
    requires Recorded(k, u, pre[u].value, v, pre[v].value)
    ensures Conflict(k, pre, |pre|)
  {
    assert Mutex(k, Fact(u, pre[u].value), Fact(v, pre[v].value));
  }

  /** The conditions conflict exactly if they do not fit together in any step. */
  lemma ConflictIff(k: Knowledge, op: SasOperator, augmented: seq<Fact>, pre: seq<Option<nat>>, base: State)
    requires Conditioned(k, op, augmented, pre) && ValidState(k.ix.ranges, base)
    ensures Conflict(k, pre, |pre|) <==> forall s | CanStep(k.ix, op, augmented, s) :: !ConditionsFit(k, pre, s)
  {
    forall s | CanStep(k.ix, op, augmented, s)
      ensures Conflict(k, pre, |pre|) <==> !ConditionsFit(k, pre, s)
    {
      FitsOthers(k, op, augmented, pre, s);
    }
    var s := StepAt(k, op, augmented, pre, base);
  }

  /** Some step starts with the fact, next to fitting values on the variables with conditions. */
  ghost predicate StartsFitting(k: Knowledge, op: SasOperator, augmented: seq<Fact>, pre: seq<Option<nat>>, g: Fact)
    requires Conditioned(k, op, augmented, pre) && g.v < |pre|
  {
    exists s | CanStep(k.ix, op, augmented, s) :: Holds(s, g) && (pre[g.v].Some? || FitsConditions(k, pre, s, g.v))
  }

  lemma FitsPotential(k: Knowledge, op: SasOperator, augmented: seq<Fact>, pre: seq<Option<nat>>, s: State, g: Fact)
    requires Conditioned(k, op, augmented, pre) && CanStep(k.ix, op, augmented, s) && Holds(s, g) && g.v < |pre|
    ensures IsPotential(k, op, pre, g) <==> OpenEffect(op, g.v) && (pre[g.v].Some? || FitsConditions(k, pre, s, g.v))
  {
    ConditionsAre(k, op, augmented, pre, s);
    assert ValidFact(k.ix.ranges, g) && s[g.v] == g.x;
  }

  /** Which values are listed where an effect has no precondition. */
  lemma PotentialIff(k: Knowledge, op: SasOperator, augmented: seq<Fact>, pre: seq<Option<nat>>, base: State, g: Fact)
    requires Conditioned(k, op, augmented, pre) && ValidState(k.ix.ranges, base) && g.v < |pre|
    ensures IsPotential(k, op, pre, g) <==> OpenEffect(op, g.v) && StartsFitting(k, op, augmented, pre, g)
  {
    forall s | CanStep(k.ix, op, augmented, s) && Holds(s, g)
      ensures IsPotential(k, op, pre, g) <==> OpenEffect(op, g.v) && (pre[g.v].Some? || FitsConditions(k, pre, s, g.v))
    {
      FitsPotential(k, op, augmented, pre, s, g);
    }
    if IsPotential(k, op, pre, g) {
      var s;
      if pre[g.v].None? {
        s := StepWith(k, op, augmented, pre, base, g.v, g.x);
      } else {
        s := StepAt(k, op, augmented, pre, base);
      }
      ConditionsAre(k, op, augmented, pre, s);
      assert Holds(s, g);
    }
  }

  lemma StepAt(k: Knowledge, op: SasOperator, augmented: seq<Fact>, pre: seq<Option<nat>>, base: State) returns (s: State)
    requires Conditioned(k, op, augmented, pre) && ValidState(k.ix.ranges, base)
    ensures CanStep(k.ix, op, augmented, s)
  {
    s := seq(|base|, u requires 0 <= u < |base| => if pre[u].Some? then pre[u].value else base[u]);
    ConditionsAre(k, op, augmented, pre, s);
  }

  // ---- where regression starts ----

  /** A fact is kept out of the start of regression exactly if no goal state has it, or it is recorded as inconsistent with a
      goal fact (h2_mutexes.cc:394-409). */
  lemma AgainstGoalIff(ix: Index, inc: map<Fact, set<Fact>>, goal: seq<Fact>, g: Fact, end: State)
    requires ValidState(ix.ranges, end) && HoldsAll(end, goal) && ValidFact(ix.ranges, g)
    ensures AgainstGoal(ix, inc, goal, g) <==>
            || (forall s | ValidState(ix.ranges, s) && HoldsAll(s, goal) :: !Holds(s, g))
            || (exists f | f in goal :: IsInconsistent(inc, f, g))
  {
    if AgainstGoal(ix, inc, goal, g) {
      var f :| f in goal && Excludes(ix, inc, f, g);
      assert forall s | HoldsAll(s, goal) :: Holds(s, f);
    } else {
      var s := end[g.v := g.x];
      forall f | f in goal
        ensures Holds(s, f) && !IsInconsistent(inc, f, g)
      {
        assert Holds(end, f) && !Excludes(ix, inc, f, g);
      }
      assert Holds(s, g);
    }
  }
}
