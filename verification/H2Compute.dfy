/** Alternation of progression and regression passes, with operator pruning in between. */
module H2Compute {
  import opened Sas
  import opened H2Theory
  import opened H2Instantiate
  import opened H2Knowledge
  import opened H2Plans
  import opened H2Scan
  import opened H2Fixpoint
  import opened H2

  datatype PassResult = TIMEOUT | UNSOLVABLE | Detected(count: nat)

  /** The objects are the task's operators, one object each. */
  ghost predicate OperatorsOf(t: Task, operators: seq<Operator>) {
    && |operators| == |t.ops|
    && (forall i | 0 <= i < |operators| :: operators[i].sas == t.ops[i])
    && (forall i, j | 0 <= i < j < |operators| :: operators[i] != operators[j])
  }

  ghost function Infos(operators: seq<Operator>): seq<OpInfo>
    reads operators
  {
    seq(|operators|, i requires 0 <= i < |operators| reads operators => InfoOf(operators[i]))
  }

  ghost function InfoOf(op: Operator): OpInfo
    reads op
  {
    OpInfo(op.spurious, op.augmented, op.potential)
  }

  /** Everything recorded is true of every plan of the task. */
  ghost predicate Sound(t: Task, h2: H2Mutexes, operators: seq<Operator>)
    reads h2, h2.m, operators
  {
    h2.Valid() && OperatorsOf(t, operators) && Faithful(t, h2.Recorded(), Infos(operators))
  }

  /** init_h2_operators */
  method InitOperators(t: Task, h2: H2Mutexes, ghost k: Knowledge, operators: seq<Operator>, ghost infos: seq<OpInfo>, regression: bool)
    requires h2.Valid() && k == h2.Recorded() && OperatorsOf(t, operators) && infos == Infos(operators) && Faithful(t, k, infos)
    modifies h2`ops
    ensures Instantiated(t, k.ix, k.inconsistent, infos, regression, h2.ops)
  {
    var built := [];
    for i := 0 to |operators|
      invariant |built| == i
      invariant forall j | 0 <= j < i :: InstantiatedAt(t, k.ix, k.inconsistent, infos, regression, j, built[j])
    {
      var op := operators[i];
      assert ValidInfo(k.ix, t.ops[i], infos[i]) && t.ops[i] in t.ops;
      var triggered := if op.IsRedundant() then SPURIOUS else NOT_REACHED;
      var o;
      if regression {
        o := InstantiateBackward(h2.ix, h2.inconsistent, op.sas, op.augmented, op.potential, triggered);
      } else {
        o := InstantiateForward(h2.ix, h2.inconsistent, op.sas, op.augmented, triggered);
      }
      built := built + [o];
    }
    h2.ops := built;
  }

  /** Set the cells a pass starts from; false means no plan exists. */
  method InitPass(t: Task, h2: H2Mutexes, ghost k: Knowledge, regression: bool) returns (ok: bool)
    requires PlainTask(t) && h2.Valid() && k == h2.Recorded() && k.ix.ranges == t.ranges && SoundFor(k, PlanStates(t))
    modifies h2.m
    ensures !ok ==> !Solvable(t)
    ensures ok ==> h2.Valid() && h2.Recorded() == k.(mat := h2.Mat()) && SoundFor(h2.Recorded(), PlanStates(t))
    ensures ok ==> Diagonal(h2.Mat(), |k.ix.facts|)
    ensures ok ==> StartsPass(t, h2.Recorded(), regression) && SameSpurious(k.mat, h2.Mat(), |k.ix.facts|)
    ensures ok <==> StartClean(t, k, regression)
    ensures ok ==> PassStart(t, k, regression, h2.Mat())
  {
    if regression {
      ok := InitBackward(t, h2, k);
    } else {
      ok := InitForward(t, h2, k);
    }
  }

  method InitBackward(t: Task, h2: H2Mutexes, ghost k: Knowledge) returns (ok: bool)
    requires PlainTask(t) && h2.Valid() && k == h2.Recorded() && k.ix.ranges == t.ranges && SoundFor(k, PlanStates(t))
    modifies h2.m
    ensures !ok ==> !Solvable(t)
    ensures ok ==> h2.Valid() && h2.Recorded() == k.(mat := h2.Mat()) && SoundFor(h2.Recorded(), PlanStates(t))
    ensures ok ==> Diagonal(h2.Mat(), |k.ix.facts|)
    ensures ok ==> StartsPass(t, h2.Recorded(), true) && SameSpurious(k.mat, h2.Mat(), |k.ix.facts|)
    ensures ok <==> StartClean(t, k, true)
    ensures ok ==> PassStart(t, k, true, h2.Mat())
  {
    ok := h2.InitRegression(t.goal);
    if ok {
      assert h2.Recorded() == k.(mat := h2.Mat());
      RegressionStarts(t, k, h2.Mat());
    } else {
      StartRefuted(t, k, true);
    }
  }

  method InitForward(t: Task, h2: H2Mutexes, ghost k: Knowledge) returns (ok: bool)
    requires PlainTask(t) && h2.Valid() && k == h2.Recorded() && k.ix.ranges == t.ranges && SoundFor(k, PlanStates(t))
    modifies h2.m
    ensures !ok ==> !Solvable(t)
    ensures ok ==> h2.Valid() && h2.Recorded() == k.(mat := h2.Mat()) && SoundFor(h2.Recorded(), PlanStates(t))
    ensures ok ==> Diagonal(h2.Mat(), |k.ix.facts|)
    ensures ok ==> StartsPass(t, h2.Recorded(), false) && SameSpurious(k.mat, h2.Mat(), |k.ix.facts|)
    ensures ok <==> StartClean(t, k, false)
    ensures ok ==> PassStart(t, k, false, h2.Mat())
  {
    ok := h2.InitProgression(t.init);
    if ok {
      assert h2.Recorded() == k.(mat := h2.Mat());
      ProgressionStarts(t, k, h2.Mat());
    } else {
      StartRefuted(t, k, false);
    }
  }

  /** One pass over the operators; on success every pair true in some state of some plan is reached
      and no plan uses an operator left untriggered. */
  method RunPass(t: Task, h2: H2Mutexes, ghost k: Knowledge, operators: seq<Operator>, ghost infos: seq<OpInfo>, regression: bool)
    returns (result: PassResult)
    requires h2.Valid() && k == h2.Recorded() && OperatorsOf(t, operators) && infos == Infos(operators)
    requires Faithful(t, k, infos) && (regression ==> PotentialsSound(t, infos))
    modifies h2.m, h2`ops
    ensures result.UNSOLVABLE? ==> !Solvable(t)
    ensures !result.UNSOLVABLE? ==> h2.Valid() && h2.Recorded() == k.(mat := h2.Mat())
                                    && SoundFor(h2.Recorded(), PlanStates(t)) && SameSpurious(k.mat, h2.Mat(), |k.ix.facts|)
    ensures result.Detected? ==> CoversLive(k.ix, h2.Mat(), PlanStates(t)) && |h2.ops| == |operators|
    ensures result.Detected? ==> Diagonal(h2.Mat(), |k.ix.facts|)
    ensures !result.UNSOLVABLE? <==> StartClean(t, k, regression)
    ensures result.Detected? ==> Ran(t, k, infos, regression, h2.Mat(), h2.ops)
    ensures result.Detected? ==> forall s, i: nat, s' | PlanStep(t, s, i, s') :: i < |h2.ops| && h2.ops[i].triggered != NOT_REACHED
  {
    var ok := InitPass(t, h2, k, regression);
    if !ok {
      return UNSOLVABLE;
    }
    ghost var k1 := h2.Recorded();
    InitOperators(t, h2, k1, operators, infos, regression);
    ghost var ops0 := h2.ops;
    PassIsReady(t, k1, infos, regression, ops0);
    var timeout := h2.Saturate();
    ghost var mat := h2.Mat();
    PassKeepsSound(t, k1, mat, ops0, h2.ops);
    assert h2.Recorded() == k1.(mat := mat);
    if timeout {
      return TIMEOUT;
    }
    PassConcludes(t, k1, mat, infos, regression, ops0, h2.ops);
    PassRan(t, k, infos, regression, k1.mat, ops0, mat, h2.ops);
    PassKeepsDiagonal(k1.mat, mat, |k.ix.facts|, ops0, h2.ops);
    return Detected(0);
  }

  /** Operators left untriggered become spurious (h2_mutexes.cc:553-560). */
  method PruneUntriggered(t: Task, h2: H2Mutexes, operators: seq<Operator>, ghost infos: seq<OpInfo>)
    requires OperatorsOf(t, operators) && |h2.ops| == |operators| && infos == Infos(operators)
    modifies operators
    ensures Infos(operators) == Pruned(infos, h2.ops, |operators|)
  {
    for i := 0 to |operators|
      invariant forall j | 0 <= j < |operators| :: InfoOf(operators[j]) == Pruned(infos, h2.ops, i)[j]
    {
      if h2.ops[i].triggered == NOT_REACHED {
        operators[i].spurious := true;
      }
    }
  }

  /** Every pair is a mutex or reached. */
  ghost predicate NothingUndecided(mat: Matrix, n: nat)
    requires Square(mat, n)
  {
    forall p, q | 0 <= p < n && 0 <= q < n :: mat[p][q] != NOT_REACHED
  }

  /** H2Mutexes::compute: one pass, then operators left untriggered are pruned and pairs left
      unreached become mutexes. */
  method Compute(t: Task, h2: H2Mutexes, ghost k: Knowledge, operators: seq<Operator>, ghost infos: seq<OpInfo>, regression: bool)
    returns (result: PassResult, groups: seq<seq<Fact>>)
    requires h2.Valid() && k == h2.Recorded() && OperatorsOf(t, operators) && infos == Infos(operators)
    requires Faithful(t, k, infos) && (regression ==> PotentialsSound(t, infos))
    modifies h2, h2.m, operators
    ensures result.UNSOLVABLE? ==> !Solvable(t)
    ensures !result.UNSOLVABLE? ==> Sound(t, h2, operators)
    ensures GroupsSound(PlanStates(t), groups)
    ensures result.Detected? ==> NoLoss(t, h2.Recorded(), Infos(operators), k, infos)
    ensures result.Detected? && result.count > 0 ==> Progress(t, h2.Recorded(), Infos(operators), k, infos)
    ensures result.Detected? ==> NothingUndecided(h2.Mat(), |k.ix.facts|)
    ensures result.Detected? ==> StartClean(t, k, regression) && Concluded(t, k, infos, regression, h2.Mat(), Infos(operators))
    ensures result.Detected? ==> Records(k.mat, k, h2.Recorded(), groups)
    ensures result.Detected? && result.count == 0 ==> h2.unreachable == k.unreachable && h2.inconsistent == k.inconsistent
    ensures result.TIMEOUT? ==> groups == [] && h2.unreachable == k.unreachable && h2.inconsistent == k.inconsistent && h2.ix == k.ix
  {
    groups := [];
    result := RunPass(t, h2, k, operators, infos, regression);
    if !result.UNSOLVABLE? {
      ghost var k1 := h2.Recorded();
      SpuriousCells(k.mat, k1.mat, |k.ix.facts|);
      if result.Detected? {
        ghost var ops := h2.ops;
        result, groups := Conclude(t, h2, k1, operators, infos);
        if result.Detected? {
          PassConcluded(t, k, infos, regression, k1.mat, ops, h2.Mat());
          SameRecords(k.mat, k1.mat, k, k1, h2.Recorded(), groups);
        }
      }
    }
  }

  /** After a complete pass. */
  method Conclude(t: Task, h2: H2Mutexes, ghost k: Knowledge, operators: seq<Operator>, ghost infos: seq<OpInfo>)
    returns (result: PassResult, groups: seq<seq<Fact>>)
    requires h2.Valid() && k == h2.Recorded() && OperatorsOf(t, operators) && infos == Infos(operators) && Faithful(t, k, infos)
    requires CoversLive(k.ix, k.mat, PlanStates(t)) && Diagonal(k.mat, |k.ix.facts|) && |h2.ops| == |operators|
    requires forall s, i: nat, s' | PlanStep(t, s, i, s') :: i < |h2.ops| && h2.ops[i].triggered != NOT_REACHED
    modifies h2.m, h2`unreachable, h2`inconsistent, operators
    ensures !result.TIMEOUT?
    ensures result.Detected? ==> Decided(k.mat, h2.Mat(), |k.ix.facts|) && Infos(operators) == Pruned(infos, old(h2.ops), |infos|)
    ensures result.Detected? ==> Records(k.mat, k, h2.Recorded(), groups)
    ensures result.Detected? && result.count == 0 ==> h2.unreachable == k.unreachable && h2.inconsistent == k.inconsistent
    ensures result.UNSOLVABLE? ==> !Solvable(t)
    ensures result.Detected? ==> Sound(t, h2, operators)
    ensures GroupsSound(PlanStates(t), groups)
    ensures result.Detected? ==> NoLoss(t, h2.Recorded(), Infos(operators), k, infos)
    ensures result.Detected? && result.count > 0 ==> Progress(t, h2.Recorded(), Infos(operators), k, infos)
    ensures result.Detected? ==> NothingUndecided(h2.Mat(), |k.ix.facts|)
  {
    PruneUntriggered(t, h2, operators, infos);
    PrunedFaithful(t, k, infos, h2.ops);
    ghost var infos1 := Infos(operators);
    result, groups := RecordUnreached(t, h2, k);
    assert Infos(operators) == infos1;
  }

  method RecordUnreached(t: Task, h2: H2Mutexes, ghost k: Knowledge) returns (result: PassResult, groups: seq<seq<Fact>>)
    requires h2.Valid() && k == h2.Recorded() && SoundFor(k, PlanStates(t)) && CoversLive(k.ix, k.mat, PlanStates(t))
    requires Diagonal(k.mat, |k.ix.facts|) && Spares(t.init, t.goal, k.unreachable)
    modifies h2.m, h2`unreachable, h2`inconsistent
    ensures result.Detected? ==> Decided(k.mat, h2.Mat(), |k.ix.facts|) && Spares(t.init, t.goal, h2.unreachable)
    ensures result.Detected? ==> Records(k.mat, k, h2.Recorded(), groups)
    ensures result.Detected? && result.count == 0 ==> h2.unreachable == k.unreachable && h2.inconsistent == k.inconsistent
    ensures !result.TIMEOUT?
    ensures result.UNSOLVABLE? ==> !Solvable(t)
    ensures !result.UNSOLVABLE? ==> h2.Valid() && SoundFor(h2.Recorded(), PlanStates(t))
    ensures GroupsSound(PlanStates(t), groups)
    ensures result.Detected? ==> NonSpurious(h2.Mat(), |k.ix.facts|) <= NonSpurious(k.mat, |k.ix.facts|)
    ensures result.Detected? ==> k.unreachable <= h2.unreachable
    ensures result.Detected? && result.count > 0 ==> NonSpurious(h2.Mat(), |k.ix.facts|) != NonSpurious(k.mat, |k.ix.facts|)
  {
    PlansAnchored(t);
    SideFacts(k, PlanStates(t));
    var unsolvable, count;
    unsolvable, count, groups := h2.MarkUnreached(PlanStates(t), t.init, t.goal);
    if !unsolvable {
      ScanRecords(k, h2.Recorded(), groups);
    }
    result := if unsolvable then UNSOLVABLE else Detected(count);
  }

  /** remove_spurious_operators for one operator. */
  method DisambiguateOne(t: Task, h2: H2Mutexes, ghost k: Knowledge, op: Operator, i: nat) returns (dropped: bool)
    requires h2.Valid() && k == h2.Recorded() && PlainTask(t) && k.ix.ranges == t.ranges && SoundFor(k, PlanStates(t))
    requires i < |t.ops| && op.sas == t.ops[i] && op.Valid(k.ix) && StepsSoundAt(t, i, InfoOf(op))
    modifies op
    ensures op.Valid(k.ix) && StepsSoundAt(t, i, InfoOf(op)) && PotentialsSoundAt(t, i, InfoOf(op))
    ensures dropped <==> op.IsRedundant() && !old(op.IsRedundant())
    ensures old(op.IsRedundant()) ==> op.IsRedundant()
    ensures KeptDisambiguated(k, op.sas, old(InfoOf(op)), InfoOf(op))
  {
    dropped := false;
    ghost var before := InfoOf(op);
    if op.IsRedundant() {
      RedundantNeedsNoPotentials(t, i, before);
    } else {
      op.RemoveAmbiguity(h2, k);
      DisambiguationKeepsPlans(t, k, i, before, InfoOf(op));
      dropped := op.IsRedundant();
    }
  }

  /** The first `n` operators have been disambiguated, the others are as before. */
  ghost predicate Trimmed(t: Task, k: Knowledge, infos0: seq<OpInfo>, infos: seq<OpInfo>, n: nat) {
    && |infos0| == |infos| && Faithful(t, k, infos)
    && (forall j | 0 <= j < n && j < |infos| :: PotentialsSoundAt(t, j, infos[j]) && KeptDisambiguated(k, t.ops[j], infos0[j], infos[j]))
    && (forall j | 0 <= j < |infos| && Redundant(t, infos0, j) :: Redundant(t, infos, j))
    && (forall j | n <= j < |infos| :: infos[j] == infos0[j])
  }

  /** Some of the first `n` operators have been dropped exactly if that was reported. */
  ghost predicate TrimmedLive(t: Task, k: Knowledge, infos0: seq<OpInfo>, infos: seq<OpInfo>, n: nat, detected: bool) {
    && Trimmed(t, k, infos0, infos, n)
    && Live(t, infos) <= Live(t, infos0) && (detected <==> Live(t, infos) != Live(t, infos0))
  }

  lemma TrimmedNext(t: Task, k: Knowledge, infos0: seq<OpInfo>, infos: seq<OpInfo>, i: nat, c: nat, info: OpInfo)
    requires Trimmed(t, k, infos0, infos, i) && i < |infos| && c == i + 1
    requires StepsSoundAt(t, i, info) && PotentialsSoundAt(t, i, info) && ValidInfo(k.ix, t.ops[i], info)
    requires KeptDisambiguated(k, t.ops[i], infos[i], info)
    requires Redundant(t, infos, i) ==> info.spurious || t.ops[i].prePost == []
    ensures Trimmed(t, k, infos0, infos[i := info], c)
  {
    var after := infos[i := info];
    forall j | 0 <= j < |after|
      ensures StepsSoundAt(t, j, after[j]) && ValidInfo(k.ix, t.ops[j], after[j])
    {
      assert StepsSoundAt(t, j, infos[j]);
    }
  }

  lemma LiveNext(t: Task, infos0: seq<OpInfo>, infos: seq<OpInfo>, i: nat, info: OpInfo, detected: bool, dropped: bool)
    requires |infos| == |t.ops| == |infos0| && i < |infos| && (Redundant(t, infos, i) ==> info.spurious || t.ops[i].prePost == [])
    requires Live(t, infos) <= Live(t, infos0) && (detected <==> Live(t, infos) != Live(t, infos0))
    requires dropped <==> !Redundant(t, infos, i) && (info.spurious || t.ops[i].prePost == [])
    ensures Live(t, infos[i := info]) <= Live(t, infos0)
    ensures detected || dropped <==> Live(t, infos[i := info]) != Live(t, infos0)
  {
    var after := infos[i := info];
    assert forall j | 0 <= j < |infos| && j != i :: Redundant(t, after, j) <==> Redundant(t, infos, j);
    if dropped {
      assert i in Live(t, infos) && i !in Live(t, after);
    } else {
      assert Live(t, after) == Live(t, infos);
    }
  }

  /** remove_spurious_operators: disambiguate every operator that is still live. */
  method RemoveSpuriousOperators(t: Task, h2: H2Mutexes, ghost k: Knowledge, operators: seq<Operator>, ghost infos: seq<OpInfo>)
    returns (detected: bool)
    requires h2.Valid() && k == h2.Recorded() && OperatorsOf(t, operators) && infos == Infos(operators) && Faithful(t, k, infos)
    modifies operators
    ensures Faithful(t, k, Infos(operators)) && PotentialsSound(t, Infos(operators))
    ensures Live(t, Infos(operators)) <= Live(t, infos)
    ensures detected <==> Live(t, Infos(operators)) != Live(t, infos)
    ensures forall j | 0 <= j < |infos| :: KeptDisambiguated(k, t.ops[j], infos[j], Infos(operators)[j])
  {
    detected := false;
    for i := 0 to |operators|
      invariant TrimmedLive(t, k, infos, Infos(operators), i, detected)
    {
      detected := DisambiguateNext(t, h2, k, operators, infos, i, i + 1, detected);
    }
  }

  method DisambiguateNext(t: Task, h2: H2Mutexes, ghost k: Knowledge, operators: seq<Operator>, ghost infos: seq<OpInfo>, i: nat, ghost c: nat,
                          detected0: bool)
    returns (detected: bool)
    requires h2.Valid() && k == h2.Recorded() && OperatorsOf(t, operators) && i < |operators| && c == i + 1
    requires TrimmedLive(t, k, infos, Infos(operators), i, detected0)
    modifies operators
    ensures TrimmedLive(t, k, infos, Infos(operators), c, detected)
  {
    ghost var now := Infos(operators);
    var dropped := DisambiguateAt(t, h2, k, operators, now, i);
    ghost var next := Infos(operators);
    TrimmedNext(t, k, infos, now, i, c, next[i]);
    LiveNext(t, infos, now, i, next[i], detected0, dropped);
    detected := detected0 || dropped;
  }

  method DisambiguateAt(t: Task, h2: H2Mutexes, ghost k: Knowledge, operators: seq<Operator>, ghost infos: seq<OpInfo>, i: nat)
    returns (dropped: bool)
    requires h2.Valid() && k == h2.Recorded() && OperatorsOf(t, operators) && infos == Infos(operators) && Faithful(t, k, infos)
    requires i < |operators|
    modifies operators[i]
    ensures Infos(operators) == infos[i := Infos(operators)[i]]
    ensures var info := Infos(operators)[i];
            && StepsSoundAt(t, i, info) && PotentialsSoundAt(t, i, info) && ValidInfo(k.ix, t.ops[i], info)
            && (Redundant(t, infos, i) ==> info.spurious || t.ops[i].prePost == [])
            && (dropped <==> !Redundant(t, infos, i) && (info.spurious || t.ops[i].prePost == []))
            && KeptDisambiguated(k, t.ops[i], infos[i], info)
  {
    OperatorValid(t, k, infos, i);
    var op := operators[i];
    dropped := DisambiguateOne(t, h2, k, op, i);
    assert Infos(operators)[i] == InfoOf(op);
  }

  lemma OperatorValid(t: Task, k: Knowledge, infos: seq<OpInfo>, i: nat)
    requires Faithful(t, k, infos) && i < |infos|
    ensures ValidOperator(k.ix.ranges, t.ops[i]) && Plain(t.ops[i]) && ValidInfo(k.ix, t.ops[i], infos[i])
    ensures StepsSoundAt(t, i, infos[i])
  {
    assert t.ops[i] in t.ops;
  }

  /** Detection of unreachable facts, then disambiguation. */
  method Prune(t: Task, h2: H2Mutexes, ghost k: Knowledge, operators: seq<Operator>, ghost infos: seq<OpInfo>)
    returns (unsolvable: bool, pruned: bool)
    requires h2.Valid() && k == h2.Recorded() && OperatorsOf(t, operators) && infos == Infos(operators) && Faithful(t, k, infos)
    modifies h2, h2.m, operators
    ensures unsolvable ==> !Solvable(t)
    ensures !unsolvable ==> Sound(t, h2, operators) && PotentialsSound(t, Infos(operators))
    ensures !unsolvable ==> NoLoss(t, h2.Recorded(), Infos(operators), k, infos)
    ensures !unsolvable && pruned ==> Progress(t, h2.Recorded(), Infos(operators), k, infos)
    ensures !unsolvable ==> OnlyPruned(t, k, infos, h2.Recorded(), Infos(operators), pruned)
  {
    PlansAnchored(t);
    pruned := false;
    var unreachable;
    unsolvable, unreachable := h2.DetectUnreachable(PlanStates(t), t.init, t.goal);
    if !unsolvable {
      ghost var k1 := h2.Recorded();
      SpuriousCells(k.mat, k1.mat, |k.ix.facts|);
      assert Infos(operators) == infos && k1.ix == k.ix;
      var spurious := RemoveSpuriousOperators(t, h2, k1, operators, infos);
      pruned := spurious || unreachable > 0;
    }
  }

  lemma ProgressTransitive(t: Task, k: Knowledge, infos: seq<OpInfo>, k1: Knowledge, infos1: seq<OpInfo>, k0: Knowledge, infos0: seq<OpInfo>)
    requires NoLoss(t, k, infos, k1, infos1) && NoLoss(t, k1, infos1, k0, infos0)
    ensures NoLoss(t, k, infos, k0, infos0)
    ensures Progress(t, k, infos, k1, infos1) || Progress(t, k1, infos1, k0, infos0) ==> Progress(t, k, infos, k0, infos0)
  {
  }

  /** The body of the alternation for one direction: a pass, then detection of unreachable facts and
      disambiguation. */
  method Iterate(t: Task, h2: H2Mutexes, ghost k: Knowledge, operators: seq<Operator>, ghost infos: seq<OpInfo>, regression: bool)
    returns (result: PassResult, groups: seq<seq<Fact>>, pruned: bool, ghost mid: Knowledge, ghost midInfos: seq<OpInfo>)
    requires h2.Valid() && k == h2.Recorded() && OperatorsOf(t, operators) && infos == Infos(operators)
    requires Faithful(t, k, infos) && (regression ==> PotentialsSound(t, infos))
    modifies h2, h2.m, operators
    ensures result.UNSOLVABLE? ==> !Solvable(t)
    ensures !result.UNSOLVABLE? ==> Sound(t, h2, operators)
    ensures GroupsSound(PlanStates(t), groups)
    ensures result.Detected? ==> PotentialsSound(t, Infos(operators)) && NoLoss(t, h2.Recorded(), Infos(operators), k, infos)
    ensures result.Detected? && (result.count > 0 || pruned) ==> Progress(t, h2.Recorded(), Infos(operators), k, infos)
    ensures result.Detected? ==> TurnMade(t, k, infos, regression, mid, midInfos, groups, h2.Recorded(), Infos(operators), result.count, pruned)
    ensures result.TIMEOUT? ==> groups == [] && h2.ix == k.ix && h2.inconsistent == k.inconsistent
  {
    pruned, mid, midInfos := false, k, infos;
    result, groups := Compute(t, h2, k, operators, infos, regression);
    if result.Detected? {
      ghost var k1, infos1 := h2.Recorded(), Infos(operators);
      var unsolvable;
      unsolvable, pruned := Prune(t, h2, k1, operators, infos1);
      if unsolvable {
        result := UNSOLVABLE;
      } else {
        mid, midInfos := k1, infos1;
        ProgressTransitive(t, h2.Recorded(), Infos(operators), k1, infos1, k, infos);
      }
    }
  }

  ghost predicate FreshOperators(t: Task, operators: seq<Operator>)
    reads operators
  {
    OperatorsOf(t, operators) && forall i | 0 <= i < |operators| :: InfoOf(operators[i]) == OpInfo(false, [], [])
  }

  lemma StartFaithful(t: Task, k: Knowledge, mutexes: seq<seq<Fact>>, infos: seq<OpInfo>)
    requires PlainTask(t) && k.ix.ranges == t.ranges && KnowsPairs(k, GroupPairs(mutexes)) && GroupsSound(PlanStates(t), mutexes)
    requires |infos| == |t.ops| && forall i | 0 <= i < |infos| :: infos[i] == OpInfo(false, [], [])
    ensures Faithful(t, k, infos)
  {
    forall s | s in PlanStates(t)
      ensures ValidState(t.ranges, s)
    {
      PlanStatesValid(t, s);
    }
    InitialKnowledgeSound(k, mutexes, PlanStates(t));
    assert forall i | 0 <= i < |infos| :: StepsSoundAt(t, i, infos[i]);
  }

  /** One turn in a direction that is due, with its flag already taken down. */
  method Turn(t: Task, h2: H2Mutexes, ghost k: Knowledge, operators: seq<Operator>, ghost infos: seq<OpInfo>, ghost mutexes: seq<seq<Fact>>,
              disableBackward: bool, groups0: seq<seq<Fact>>, regression: bool, up: bool, ur: bool)
    returns (result: PassResult, groups: seq<seq<Fact>>, updateProgression: bool, updateRegression: bool)
    requires h2.Valid() && k == h2.Recorded() && OperatorsOf(t, operators) && infos == Infos(operators)
    requires Faithful(t, k, infos) && (regression ==> PotentialsSound(t, infos)) && GroupsMade(t, mutexes, k, groups0)
    requires TurnDue(t, disableBackward, k, regression, up, ur)
    modifies h2, h2.m, operators
    ensures result.UNSOLVABLE? ==> !Solvable(t)
    ensures !result.UNSOLVABLE? ==> Sound(t, h2, operators) && GroupsMade(t, mutexes, h2.Recorded(), groups)
    ensures result.Detected? ==> PotentialsSound(t, Infos(operators))
    ensures result.Detected? ==> TurnEnds(t, disableBackward, k, infos, h2.Recorded(), Infos(operators), up, ur, updateProgression, updateRegression)
  {
    var more, pruned;
    ghost var mid, midInfos;
    result, more, pruned, mid, midInfos := Iterate(t, h2, k, operators, infos, regression);
    groups, updateProgression, updateRegression := groups0 + more, up, ur;
    if result.Detected? {
      updateProgression := up || pruned || (regression && result.count > 0);
      updateRegression := ur || pruned || (!regression && result.count > 0);
      GroupsGrow(t, k, mid, h2.Recorded(), mutexes, groups0, more);
      AlternationNext(t, disableBackward, k, infos, regression, mid, midInfos, more, h2.Recorded(), Infos(operators),
                      result.count, pruned, up, ur, updateProgression, updateRegression);
    } else if result.TIMEOUT? {
      GroupsStay(t, k, h2.Recorded(), mutexes, groups0, more);
    }
  }

  ghost function SizeOf(t: Task, h2: H2Mutexes, operators: seq<Operator>): nat
    requires h2.Valid() && OperatorsOf(t, operators)
    reads h2, h2.m, operators
  {
    Size(t, h2.Recorded(), Infos(operators))
  }

  /** compute_h2_mutexes.  Whatever is recorded in the end is true of every plan of the task, and
      the task is reported unsolvable only if it has no plan.  The groups are those given and the pairs recorded as
      inconsistent since; without a timeout, nothing was recorded after the last pass in either direction. */
  method ComputeH2Mutexes(t: Task, operators: seq<Operator>, mutexes: seq<seq<Fact>>, disableBackward: bool)
    returns (solvable: bool, h2: H2Mutexes, groups: seq<seq<Fact>>, ghost completed: bool)
    requires PlainTask(t) && FreshOperators(t, operators)
    requires forall group, f | group in mutexes && f in group :: ValidFact(t.ranges, f)
    requires GroupsSound(PlanStates(t), mutexes)
    modifies operators
    ensures !solvable ==> !Solvable(t)
    ensures solvable ==> Sound(t, h2, operators) && GroupsMade(t, mutexes, h2.Recorded(), groups)
    ensures solvable && completed ==> Exhausted(t, false, h2.Recorded())
    ensures solvable && completed && !disableBackward ==> Exhausted(t, true, h2.Recorded()) && FoundNothing(t, h2.Recorded(), Infos(operators))
  {
    h2 := new H2Mutexes(t.ranges, mutexes);
    groups, completed := mutexes, true;
    StartFaithful(t, h2.Recorded(), mutexes, Infos(operators));
    StartReported(h2.Recorded(), mutexes);
    var updateProgression, updateRegression, regression := true, true, false;
    while updateProgression || updateRegression
      invariant fresh(h2) && fresh(h2.m)
      invariant Sound(t, h2, operators) && GroupsMade(t, mutexes, h2.Recorded(), groups)
      invariant !updateProgression || regression ==> PotentialsSound(t, Infos(operators))
      invariant Alternating(t, disableBackward, h2.Recorded(), Infos(operators), updateProgression, updateRegression)
      decreases SizeOf(t, h2, operators), updateProgression, updateRegression,
                if regression then !updateRegression else !updateProgression
    {
      if if regression then updateRegression else updateProgression {
        if regression {
          updateRegression := false;
          if disableBackward {
            continue;
          }
        } else {
          updateProgression := false;
        }
        var result;
        ghost var k, infos, up, ur := h2.Recorded(), Infos(operators), updateProgression, updateRegression;
        result, groups, updateProgression, updateRegression :=
          Turn(t, h2, k, operators, infos, mutexes, disableBackward, groups, regression, updateProgression, updateRegression);
        if result.UNSOLVABLE? {
          return false, h2, groups, true;
        }
        if result.TIMEOUT? {
          completed := false;
          break;
        }
        TurnShrinks(t, disableBackward, k, infos, h2.Recorded(), Infos(operators), up, ur, updateProgression, updateRegression);
      }
      regression := !regression;
    }
    return true, h2, groups, completed;
  }
}
