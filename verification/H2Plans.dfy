/** Why everything a pass records is true of every plan. */
module H2Plans {
  import opened Sas
  import opened H2Theory
  import opened H2Instantiate
  import opened H2Knowledge

  /** What is recorded about one operator. */
  datatype OpInfo = OpInfo(spurious: bool, augmented: seq<Fact>, potential: seq<Fact>)

  /** The states visited by plans. */
  ghost function PlanStates(t: Task): iset<State> {
    iset s | OnPlan(t, s)
  }

  ghost predicate PlainTask(t: Task) {
    ValidTask(t) && forall op | op in t.ops :: Plain(op)
  }

  /** No plan uses the operator if it is recorded as spurious, and every plan has the augmented
      values where it applies it. */
  ghost predicate StepsSoundAt(t: Task, i: nat, info: OpInfo) {
    forall s, s' | PlanStep(t, s, i, s') :: !info.spurious && HoldsAll(s, info.augmented)
  }

  ghost predicate StepsSound(t: Task, infos: seq<OpInfo>) {
    |infos| == |t.ops| && forall i | 0 <= i < |infos| :: StepsSoundAt(t, i, infos[i])
  }

  /** Every plan has a potential value where an effect of the operator has no precondition. */
  ghost predicate PotentialsSoundAt(t: Task, i: nat, info: OpInfo) {
    i < |t.ops| && forall s, s' | PlanStep(t, s, i, s') :: PotentialsCover(t.ops[i], info.potential, s)
  }

  ghost predicate PotentialsSound(t: Task, infos: seq<OpInfo>) {
    |infos| == |t.ops| && forall i | 0 <= i < |infos| :: PotentialsSoundAt(t, i, infos[i])
  }

  ghost predicate Redundant(t: Task, infos: seq<OpInfo>, i: nat)
    requires |infos| == |t.ops| && i < |infos|
  {
    infos[i].spurious || t.ops[i].prePost == []
  }

  /** The propositional operators of a pass in the given direction. */
  ghost predicate Instantiated(t: Task, ix: Index, inc: map<Fact, set<Fact>>, infos: seq<OpInfo>, regression: bool, ops: seq<OpH2>) {
    && |ops| == |infos| == |t.ops|
    && forall i | 0 <= i < |ops| :: InstantiatedAt(t, ix, inc, infos, regression, i, ops[i])
  }

  ghost predicate InstantiatedAt(t: Task, ix: Index, inc: map<Fact, set<Fact>>, infos: seq<OpInfo>, regression: bool,
                                 i: nat, o: OpH2)
    requires i < |infos| == |t.ops|
  {
    && o.triggered == (if Redundant(t, infos, i) then SPURIOUS else NOT_REACHED)
    && if regression then IsBackward(ix, inc, t.ops[i], infos[i].augmented, infos[i].potential, o)
       else IsForward(ix, inc, t.ops[i], infos[i].augmented, o)
  }

  /** The matrix at the start of a pass covers where the pass starts: the initial state, or any
      goal state. */
  ghost predicate StartsPass(t: Task, k: Knowledge, regression: bool)
    requires WellFormed(k)
  {
    forall s | s in PlanStates(t) && (if regression then HoldsAll(s, t.goal) else s == t.init) ::
      Covers(k.mat, |k.ix.facts|, TrueProps(k.ix, s))
  }

  lemma PlansAnchored(t: Task)
    ensures Anchored(PlanStates(t), t.init, t.goal)
    ensures PlanStates(t) == iset{} <==> !Solvable(t)
  {
    forall states, acts | IsPlan(t, states, acts)
      ensures t.init in PlanStates(t) && states[|acts|] in PlanStates(t) && HoldsAll(states[|acts|], t.goal)
    {
      assert states[0] in states && states[|acts|] in states;
    }
    if s :| s in PlanStates(t) {
      var states, acts :| IsPlan(t, states, acts) && s in states;
    }
  }

  lemma PlanStepAt(t: Task, states: seq<State>, acts: seq<nat>, j: nat)
    requires IsPlan(t, states, acts) && j < |acts|
    ensures PlanStep(t, states[j], acts[j], states[j + 1])
  {
  }

  lemma PlanStatesValid(t: Task, s: State)
    requires ValidTask(t) && OnPlan(t, s)
    ensures ValidState(t.ranges, s)
  {
    var states, acts :| IsPlan(t, states, acts) && s in states;
    var j :| 0 <= j < |states| && states[j] == s;
    RunStatesValid(t, states, acts, j);
  }

  ghost predicate ValidInfo(ix: Index, op: SasOperator, info: OpInfo) {
    ValidAugmented(ix, op, info.augmented) && InIndex(ix, info.potential) && PotentialsOnOpen(op, info.potential)
  }

  /** Everything recorded, in the matrix and about the operators, is true of every plan. */
  ghost predicate Faithful(t: Task, k: Knowledge, infos: seq<OpInfo>) {
    && PlainTask(t) && k.ix.ranges == t.ranges && SoundFor(k, PlanStates(t))
    && StepsSound(t, infos) && (forall i | 0 <= i < |infos| :: ValidInfo(k.ix, t.ops[i], infos[i]))
    && Spares(t.init, t.goal, k.unreachable)
  }

  /** Faithful knowledge, and operators instantiated from it. */
  ghost predicate PassReady(t: Task, k: Knowledge, infos: seq<OpInfo>, regression: bool, ops: seq<OpH2>) {
    && Faithful(t, k, infos) && (regression ==> PotentialsSound(t, infos))
    && Instantiated(t, k.ix, k.inconsistent, infos, regression, ops)
  }

  /** One plan step is explained by its propositional operator, read in either direction. */
  lemma StepIsExplained(t: Task, k: Knowledge, infos: seq<OpInfo>, regression: bool, ops: seq<OpH2>, s: State, i: nat, s': State)
    requires PassReady(t, k, infos, regression, ops)
    requires PlanStep(t, s, i, s')
    ensures i < |t.ops|
    ensures ops[i].triggered == SPURIOUS ==> s' == s
    ensures ops[i].triggered != SPURIOUS ==>
              if regression then StepCovered(ops[i], TrueProps(k.ix, s'), TrueProps(k.ix, s))
              else StepCovered(ops[i], TrueProps(k.ix, s), TrueProps(k.ix, s'))
  {
    PlanStepEnds(t, s, i, s');
    var op := t.ops[i];
    assert op in t.ops;
    assert s in PlanStates(t) && s' in PlanStates(t);
    assert Allows(k, s) && Allows(k, s');
    assert InstantiatedAt(t, k.ix, k.inconsistent, infos, regression, i, ops[i]);
    assert ValidInfo(k.ix, op, infos[i]);
    assert StepsSoundAt(t, i, infos[i]) && (regression ==> PotentialsSoundAt(t, i, infos[i]));
    if ops[i].triggered != SPURIOUS {
      if regression {
        BackwardExplainsStep(k.ix, k.inconsistent, op, infos[i].augmented, infos[i].potential, ops[i], s, s');
      } else {
        ForwardExplainsStep(k.ix, k.inconsistent, op, infos[i].augmented, ops[i], s, s');
      }
    }
  }

  ghost predicate PassClosed(k: Knowledge, ops: seq<OpH2>)
    requires WellFormed(k)
  {
    forall i | 0 <= i < |ops| :: ValidOp(ops[i], |k.ix.facts|) && (ops[i].triggered != SPURIOUS ==> ClosedUnder(k.mat, |k.ix.facts|, ops[i]))
  }

  /** A finished pass has reached every pair of facts true in some state of some plan. */
  lemma PassCoversPlans(t: Task, k: Knowledge, infos: seq<OpInfo>, regression: bool, ops: seq<OpH2>)
    requires PassReady(t, k, infos, regression, ops) && PassClosed(k, ops) && StartsPass(t, k, regression)
    ensures CoversLive(k.ix, k.mat, PlanStates(t))
  {
    forall s | s in PlanStates(t)
      ensures Covers(k.mat, |k.ix.facts|, TrueProps(k.ix, s))
    {
      var states, acts :| IsPlan(t, states, acts) && s in states;
      var j :| 0 <= j < |states| && states[j] == s;
      if regression {
        BackwardCovers(t, k, infos, ops, states, acts, j);
      } else {
        ForwardCovers(t, k, infos, ops, states, acts, j);
      }
    }
  }

  /** The state of a plan at which the pass starts is covered. */
  lemma StartCovered(t: Task, k: Knowledge, regression: bool, states: seq<State>, acts: seq<nat>, s: State)
    requires WellFormed(k) && StartsPass(t, k, regression) && IsPlan(t, states, acts)
    requires s == if regression then states[|acts|] else states[0]
    ensures Covers(k.mat, |k.ix.facts|, TrueProps(k.ix, s))
  {
    assert s in states && s in PlanStates(t);
  }

  lemma {:induction false} ForwardCovers(t: Task, k: Knowledge, infos: seq<OpInfo>, ops: seq<OpH2>, states: seq<State>, acts: seq<nat>, j: nat)
    requires PassReady(t, k, infos, false, ops) && PassClosed(k, ops) && StartsPass(t, k, false)
    requires IsPlan(t, states, acts) && j < |states|
    ensures Covers(k.mat, |k.ix.facts|, TrueProps(k.ix, states[j]))
    decreases j
  {
    if j == 0 {
      StartCovered(t, k, false, states, acts, states[j]);
    } else {
      ForwardCovers(t, k, infos, ops, states, acts, j - 1);
      PlanStepAt(t, states, acts, j - 1);
      PlanStepCovers(t, k, infos, false, ops, states[j - 1], acts[j - 1], states[j]);
    }
  }

  lemma {:induction false} BackwardCovers(t: Task, k: Knowledge, infos: seq<OpInfo>, ops: seq<OpH2>, states: seq<State>, acts: seq<nat>, j: nat)
    requires PassReady(t, k, infos, true, ops) && PassClosed(k, ops) && StartsPass(t, k, true)
    requires IsPlan(t, states, acts) && j < |states|
    ensures Covers(k.mat, |k.ix.facts|, TrueProps(k.ix, states[j]))
    decreases |states| - j
  {
    if j == |acts| {
      StartCovered(t, k, true, states, acts, states[j]);
    } else {
      BackwardCovers(t, k, infos, ops, states, acts, j + 1);
      PlanStepAt(t, states, acts, j);
      PlanStepCovers(t, k, infos, true, ops, states[j], acts[j], states[j + 1]);
    }
  }

  /** Over one step of a plan, in the direction of the pass. */
  lemma PlanStepCovers(t: Task, k: Knowledge, infos: seq<OpInfo>, regression: bool, ops: seq<OpH2>, s: State, i: nat, s': State)
    requires PassReady(t, k, infos, regression, ops) && PassClosed(k, ops) && PlanStep(t, s, i, s')
    requires Covers(k.mat, |k.ix.facts|, TrueProps(k.ix, if regression then s' else s))
    ensures Covers(k.mat, |k.ix.facts|, TrueProps(k.ix, if regression then s else s'))
  {
    StepIsExplained(t, k, infos, regression, ops, s, i, s');
    PlanStepEnds(t, s, i, s');
    assert s in PlanStates(t) && s' in PlanStates(t);
    if regression {
      OneStepCovers(k, ops, i, s', s);
    } else {
      OneStepCovers(k, ops, i, s, s');
    }
  }

  lemma OneStepCovers(k: Knowledge, ops: seq<OpH2>, i: nat, from: State, to: State)
    requires WellFormed(k) && Allows(k, to) && PassClosed(k, ops) && i < |ops|
    requires Covers(k.mat, |k.ix.facts|, TrueProps(k.ix, from))
    requires ops[i].triggered == SPURIOUS ==> to == from
    requires ops[i].triggered != SPURIOUS ==> StepCovered(ops[i], TrueProps(k.ix, from), TrueProps(k.ix, to))
    ensures Covers(k.mat, |k.ix.facts|, TrueProps(k.ix, to))
  {
    if ops[i].triggered != SPURIOUS {
      StepKeepsCover(k.mat, |k.ix.facts|, ops[i], TrueProps(k.ix, from), TrueProps(k.ix, to));
    }
  }

  /** An operator left untriggered by a finished pass belongs to no plan. */
  lemma UntriggeredIsSpurious(t: Task, k: Knowledge, infos: seq<OpInfo>, regression: bool, ops0: seq<OpH2>, ops: seq<OpH2>,
                              s: State, i: nat, s': State)
    requires PassReady(t, k, infos, regression, ops0) && CoversLive(k.ix, k.mat, PlanStates(t))
    requires |ops| == |ops0| && forall j | 0 <= j < |ops| ::
               ValidOp(ops0[j], |k.ix.facts|) && Tracks(k.mat, |k.ix.facts|, ops0[j], ops[j])
               && ValidOp(ops[j], |k.ix.facts|) && Settled(k.mat, |k.ix.facts|, ops[j])
    requires PlanStep(t, s, i, s')
    ensures i < |ops| && ops[i].triggered != NOT_REACHED
  {
    StepIsExplained(t, k, infos, regression, ops0, s, i, s');
    PlanStepEnds(t, s, i, s');
    if ops[i].triggered != SPURIOUS {
      var from := if regression then s' else s;
      assert from in PlanStates(t);
      assert Covers(k.mat, |k.ix.facts|, TrueProps(k.ix, from));
      forall a, b | 0 <= a <= b < |ops[i].pre|
        ensures k.mat[ops[i].pre[a]][ops[i].pre[b]] != NOT_REACHED
      {
        assert ops[i].pre[a] in ops0[i].pre && ops[i].pre[b] in ops0[i].pre;
      }
    }
  }

  /** What holds of a pass whenever it stops, even at the time limit. */
  lemma PassKeepsSound(t: Task, k: Knowledge, mat: Matrix, ops0: seq<OpH2>, ops: seq<OpH2>)
    requires SoundFor(k, PlanStates(t)) && PassState(k.mat, mat, |k.ix.facts|, ops0, ops)
    ensures SoundFor(k.(mat := mat), PlanStates(t)) && SameSpurious(k.mat, mat, |k.ix.facts|)
  {
    SameSpuriousSound(k, mat, PlanStates(t));
  }

  /** What a finished pass has established. */
  lemma PassConcludes(t: Task, k: Knowledge, mat: Matrix, infos: seq<OpInfo>, regression: bool, ops0: seq<OpH2>, ops: seq<OpH2>)
    requires PassReady(t, k, infos, regression, ops0) && StartsPass(t, k, regression)
    requires PassState(k.mat, mat, |k.ix.facts|, ops0, ops)
    requires forall i | 0 <= i < |ops| :: ValidOp(ops[i], |k.ix.facts|) && Settled(mat, |k.ix.facts|, ops[i])
    ensures CoversLive(k.ix, mat, PlanStates(t))
    ensures forall s, i: nat, s' | PlanStep(t, s, i, s') :: i < |ops| && ops[i].triggered != NOT_REACHED
  {
    var k' := k.(mat := mat);
    PassKeepsSound(t, k, mat, ops0, ops);
    forall i | 0 <= i < |ops|
      ensures ValidOp(ops0[i], |k.ix.facts|) && (ops0[i].triggered != SPURIOUS ==> ClosedUnder(mat, |k.ix.facts|, ops0[i]))
    {
      SettledCloses(k.mat, mat, |k.ix.facts|, ops0, ops, i);
    }
    assert PassClosed(k', ops0);
    assert StartsPass(t, k', regression) by {
      forall s | s in PlanStates(t) && (if regression then HoldsAll(s, t.goal) else s == t.init)
        ensures Covers(mat, |k.ix.facts|, TrueProps(k.ix, s))
      {
        assert Covers(k.mat, |k.ix.facts|, TrueProps(k.ix, s));
      }
    }
    PassCoversPlans(t, k', infos, regression, ops0);
    forall s, i: nat, s' | PlanStep(t, s, i, s')
      ensures i < |ops| && ops[i].triggered != NOT_REACHED
    {
      UntriggeredIsSpurious(t, k', infos, regression, ops0, ops, s, i, s');
    }
  }

  lemma ProgressionStarts(t: Task, k: Knowledge, mat: Matrix)
    requires ValidTask(t) && SoundFor(k, PlanStates(t)) && k.ix.ranges == t.ranges
    requires Square(mat, |k.ix.facts|) && ProgressionMatrix(k.ix, k.mat, mat, t.init)
    ensures SoundFor(k.(mat := mat), PlanStates(t)) && SameSpurious(k.mat, mat, |k.ix.facts|)
    ensures StartsPass(t, k.(mat := mat), false) && Diagonal(mat, |k.ix.facts|)
  {
    SameSpuriousSound(k, mat, PlanStates(t));
    forall s | s in PlanStates(t) && s == t.init
      ensures Covers(mat, |k.ix.facts|, TrueProps(k.ix, s))
    {
      assert Allows(k, s);
    }
  }

  lemma RegressionStarts(t: Task, k: Knowledge, mat: Matrix)
    requires ValidTask(t) && SoundFor(k, PlanStates(t)) && k.ix.ranges == t.ranges
    requires Square(mat, |k.ix.facts|) && RegressionMatrix(k.ix, k.inconsistent, k.mat, mat, t.goal)
    ensures SoundFor(k.(mat := mat), PlanStates(t)) && SameSpurious(k.mat, mat, |k.ix.facts|)
    ensures StartsPass(t, k.(mat := mat), true) && Diagonal(mat, |k.ix.facts|)
  {
    SameSpuriousSound(k, mat, PlanStates(t));
    forall s | s in PlanStates(t) && HoldsAll(s, t.goal)
      ensures Covers(mat, |k.ix.facts|, TrueProps(k.ix, s))
    {
      assert Allows(k, s);
      forall p | p in TrueProps(k.ix, s)
        ensures !AgainstGoal(k.ix, k.inconsistent, t.goal, k.ix.facts[p])
      {
        assert RespectsInconsistent(k.inconsistent, s);
      }
    }
  }

  /** A spurious pair in the initial state, or in the goal, leaves no plan. */
  lemma StartRefuted(t: Task, k: Knowledge, regression: bool)
    requires ValidTask(t) && SoundFor(k, PlanStates(t)) && k.ix.ranges == t.ranges
    requires !regression ==> !NoSpurious(k.mat, |k.ix.facts|, TrueProps(k.ix, t.init))
    requires regression ==> exists p, q | 0 <= p < |k.ix.facts| && 0 <= q < |k.ix.facts|
                              && k.ix.facts[p] in t.goal && k.ix.facts[q] in t.goal :: k.mat[p][q] == SPURIOUS
    ensures !Solvable(t)
  {
    PlansAnchored(t);
    if !regression {
      assert t.init in PlanStates(t) ==> Allows(k, t.init);
    } else {
      var p, q :| 0 <= p < |k.ix.facts| && 0 <= q < |k.ix.facts|
        && k.ix.facts[p] in t.goal && k.ix.facts[q] in t.goal && k.mat[p][q] == SPURIOUS;
      forall s | s in PlanStates(t)
        ensures !HoldsAll(s, t.goal)
      {
        assert Allows(k, s);
        assert p in TrueProps(k.ix, s) && q in TrueProps(k.ix, s) <==> Holds(s, k.ix.facts[p]) && Holds(s, k.ix.facts[q]);
      }
    }
  }

  /** Soundness depends only on which cells are SPURIOUS, as long as the matrix is symmetric. */
  lemma SameSpuriousSound(k: Knowledge, mat: Matrix, live: iset<State>)
    requires SoundFor(k, live) && Square(mat, |k.ix.facts|) && Symmetric(mat, |k.ix.facts|)
    requires SameSpurious(k.mat, mat, |k.ix.facts|)
    ensures SoundFor(k.(mat := mat), live)
  {
    forall s | s in live
      ensures Allows(k.(mat := mat), s)
    {
      assert Allows(k, s);
    }
  }

  /** Disambiguation keeps every step of every plan. */
  lemma DisambiguationKeepsPlans(t: Task, k: Knowledge, i: nat, before: OpInfo, after: OpInfo)
    requires PlainTask(t) && SoundFor(k, PlanStates(t)) && i < |t.ops|
    requires StepsSoundAt(t, i, before)
    requires KeepsSteps(k, t.ops[i], before.augmented, after.spurious, after.augmented, after.potential)
    ensures StepsSoundAt(t, i, after) && PotentialsSoundAt(t, i, after)
  {
    forall s, s' | PlanStep(t, s, i, s')
      ensures !after.spurious && HoldsAll(s, after.augmented) && PotentialsCover(t.ops[i], after.potential, s)
    {
      PlanStepEnds(t, s, i, s');
      assert s in PlanStates(t) && s' in PlanStates(t);
      assert Step(k, t.ops[i], before.augmented, s, s');
    }
  }

  /** An operator without effects or known to be spurious needs no potential values. */
  lemma RedundantNeedsNoPotentials(t: Task, i: nat, info: OpInfo)
    requires i < |t.ops| && StepsSoundAt(t, i, info) && (info.spurious || t.ops[i].prePost == [])
    ensures PotentialsSoundAt(t, i, info)
  {
  }

  lemma PassIsReady(t: Task, k: Knowledge, infos: seq<OpInfo>, regression: bool, ops: seq<OpH2>)
    requires Faithful(t, k, infos) && (regression ==> PotentialsSound(t, infos))
    requires Instantiated(t, k.ix, k.inconsistent, infos, regression, ops)
    ensures PassReady(t, k, infos, regression, ops)
    ensures forall o | o in ops :: ValidOp(o, |k.ix.facts|) && o.triggered != REACHED
  {
    assert forall i | 0 <= i < |ops| :: InstantiatedAt(t, k.ix, k.inconsistent, infos, regression, i, ops[i]);
  }

  /** The first `n` operators are spurious if they were, or if they were left untriggered. */
  ghost function Pruned(infos: seq<OpInfo>, ops: seq<OpH2>, n: nat): seq<OpInfo>
    requires n <= |infos| == |ops|
  {
    seq(|infos|, i requires 0 <= i < |infos| =>
      infos[i].(spurious := infos[i].spurious || (i < n && ops[i].triggered == NOT_REACHED)))
  }

  lemma PrunedFaithful(t: Task, k: Knowledge, infos: seq<OpInfo>, ops: seq<OpH2>)
    requires Faithful(t, k, infos) && |ops| == |infos|
    requires forall s, i: nat, s' | PlanStep(t, s, i, s') :: i < |ops| && ops[i].triggered != NOT_REACHED
    ensures Faithful(t, k, Pruned(infos, ops, |infos|))
    ensures Live(t, Pruned(infos, ops, |infos|)) <= Live(t, infos)
  {
    forall i | 0 <= i < |infos|
      ensures StepsSoundAt(t, i, Pruned(infos, ops, |infos|)[i])
    {
      assert StepsSoundAt(t, i, infos[i]);
    }
  }

  // ---- how far the analysis can still go ----

  ghost function Live(t: Task, infos: seq<OpInfo>): set<nat>
    requires |infos| == |t.ops|
  {
    set i | 0 <= i < |infos| && !Redundant(t, infos, i)
  }

  /** No pair stops being spurious, no fact becomes reachable again, no operator is revived. */
  ghost predicate NoLoss(t: Task, k: Knowledge, infos: seq<OpInfo>, k0: Knowledge, infos0: seq<OpInfo>) {
    && k.ix == k0.ix && Square(k.mat, |k.ix.facts|) && Square(k0.mat, |k.ix.facts|) && |infos| == |infos0| == |t.ops|
    && NonSpurious(k.mat, |k.ix.facts|) <= NonSpurious(k0.mat, |k.ix.facts|)
    && k0.unreachable <= k.unreachable <= k.ix.prop.Keys && Live(t, infos) <= Live(t, infos0)
  }

  ghost predicate Progress(t: Task, k: Knowledge, infos: seq<OpInfo>, k0: Knowledge, infos0: seq<OpInfo>)
    requires NoLoss(t, k, infos, k0, infos0)
  {
    || NonSpurious(k.mat, |k.ix.facts|) != NonSpurious(k0.mat, |k.ix.facts|)
    || k.unreachable != k0.unreachable || Live(t, infos) != Live(t, infos0)
  }

  ghost function Size(t: Task, k: Knowledge, infos: seq<OpInfo>): nat
    requires Square(k.mat, |k.ix.facts|) && |infos| == |t.ops|
  {
    |NonSpurious(k.mat, |k.ix.facts|)| + |k.ix.prop.Keys - k.unreachable| + |Live(t, infos)|
  }

  lemma SubsetSize<A>(a: set<A>, b: set<A>)
    requires a <= b
    ensures |a| <= |b| && (a != b ==> |a| < |b|)
  {
    assert b == a + (b - a);
  }

  /** Progress makes the remaining work smaller, so the alternation ends. */
  lemma SizeShrinks(t: Task, k: Knowledge, infos: seq<OpInfo>, k0: Knowledge, infos0: seq<OpInfo>)
    requires NoLoss(t, k, infos, k0, infos0)
    ensures Size(t, k, infos) <= Size(t, k0, infos0)
    ensures Progress(t, k, infos, k0, infos0) ==> Size(t, k, infos) < Size(t, k0, infos0)
  {
    SubsetSize(NonSpurious(k.mat, |k.ix.facts|), NonSpurious(k0.mat, |k.ix.facts|));
    SubsetSize(k.ix.prop.Keys - k.unreachable, k.ix.prop.Keys - k0.unreachable);
    SubsetSize(Live(t, infos), Live(t, infos0));
    if k.unreachable != k0.unreachable {
      var f :| f in k.unreachable && f !in k0.unreachable;
      assert f in k.ix.prop.Keys - k0.unreachable && f !in k.ix.prop.Keys - k.unreachable;
    }
  }

  lemma SpuriousCells(mat: Matrix, mat': Matrix, n: nat)
    requires Square(mat, n) && Square(mat', n) && SameSpurious(mat, mat', n)
    ensures NonSpurious(mat, n) == NonSpurious(mat', n)
  {
  }

  lemma SideFacts(k: Knowledge, live: iset<State>)
    requires SoundFor(k, live)
    ensures SideFactsSound(k.ix, k.inconsistent, k.unreachable, live)
  {
    forall s | s in live
      ensures ValidState(k.ix.ranges, s) && RespectsInconsistent(k.inconsistent, s) && forall f | f in k.unreachable :: !Holds(s, f)
    {
      assert Allows(k, s);
    }
  }
}
