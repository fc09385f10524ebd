/** What one pass concludes, without its loops: a pair stays possible exactly if it is in the least closed set, an operator
    stays live exactly if its preconditions are; and what is left when the alternation ends. */
module H2Fixpoint {
  import opened Sas
  import opened H2Theory
  import opened H2Instantiate
  import opened H2Knowledge
  import opened H2Plans
  import opened H2Scan

  /** The matrix a pass starts with. */
  ghost predicate PassStart(t: Task, k: Knowledge, regression: bool, start: Matrix) {
    && Square(k.mat, |k.ix.facts|) && Square(start, |k.ix.facts|)
    && if regression then RegressionMatrix(k.ix, k.inconsistent, k.mat, start, t.goal) else ProgressionMatrix(k.ix, k.mat, start, t.init)
  }

  /** No pair within the initial state, or within the goal, is a mutex. */
  ghost predicate StartClean(t: Task, k: Knowledge, regression: bool)
    requires Square(k.mat, |k.ix.facts|)
  {
    if regression then
      forall p, q | 0 <= p < |k.ix.facts| && 0 <= q < |k.ix.facts| && k.ix.facts[p] in t.goal && k.ix.facts[q] in t.goal :: k.mat[p][q] != SPURIOUS
    else NoSpurious(k.mat, |k.ix.facts|, TrueProps(k.ix, t.init))
  }

  /** The operators of a pass and the matrix it starts with. */
  ghost predicate PassFrom(t: Task, k: Knowledge, infos: seq<OpInfo>, regression: bool, start: Matrix, ops: seq<OpH2>) {
    && PassStart(t, k, regression, start) && Instantiated(t, k.ix, k.inconsistent, infos, regression, ops)
    && forall o | o in ops :: ValidOp(o, |k.ix.facts|)
  }

  ghost function Least(start: Matrix, n: nat, ops: seq<OpH2>): iset<(nat, nat)>
    requires Square(start, n) && forall o | o in ops :: ValidOp(o, n)
  {
    iset p: nat, q: nat | p < n && q < n && InLeast(start, n, ops, p, q) :: (p, q)
  }

  /** The operator is live, and some pair of its preconditions is neither a mutex nor in the least closed set. */
  ghost predicate NeverTriggered(start: Matrix, n: nat, ops: seq<OpH2>, i: nat)
    requires Square(start, n) && (forall o | o in ops :: ValidOp(o, n)) && i < |ops|
  {
    ops[i].triggered != SPURIOUS && !TriggeredIn(start, n, Least(start, n, ops), ops[i])
  }

  /** The pass has run to its end. */
  ghost predicate RanFrom(t: Task, k: Knowledge, infos: seq<OpInfo>, regression: bool, start: Matrix, ops0: seq<OpH2>, mat: Matrix, ops: seq<OpH2>) {
    && PassFrom(t, k, infos, regression, start, ops0) && Square(mat, |k.ix.facts|) && |ops| == |ops0|
    && (forall p, q | 0 <= p < |k.ix.facts| && 0 <= q < |k.ix.facts| :: mat[p][q] == REACHED <==> InLeast(start, |k.ix.facts|, ops0, p, q))
    && forall i | 0 <= i < |ops| :: ops[i].triggered == NOT_REACHED <==> NeverTriggered(start, |k.ix.facts|, ops0, i)
  }

  ghost predicate Ran(t: Task, k: Knowledge, infos: seq<OpInfo>, regression: bool, mat: Matrix, ops: seq<OpH2>) {
    exists start, ops0 :: RanFrom(t, k, infos, regression, start, ops0, mat, ops)
  }

  /** What a pass from `k` concludes: the possible pairs are those of the least closed set, and exactly the operators never
      triggered are spurious in addition. */
  ghost predicate ConcludedFrom(t: Task, k: Knowledge, infos: seq<OpInfo>, regression: bool, start: Matrix, ops: seq<OpH2>, mat: Matrix,
                                after: seq<OpInfo>) {
    && PassFrom(t, k, infos, regression, start, ops) && Square(mat, |k.ix.facts|) && |after| == |infos| == |ops|
    && (forall p, q | 0 <= p < |k.ix.facts| && 0 <= q < |k.ix.facts| :: mat[p][q] != SPURIOUS <==> InLeast(start, |k.ix.facts|, ops, p, q))
    && forall i | 0 <= i < |ops| ::
         after[i] == infos[i].(spurious := infos[i].spurious || NeverTriggered(start, |k.ix.facts|, ops, i))
  }

  ghost predicate Concluded(t: Task, k: Knowledge, infos: seq<OpInfo>, regression: bool, mat: Matrix, after: seq<OpInfo>) {
    exists start, ops :: ConcludedFrom(t, k, infos, regression, start, ops, mat, after)
  }

  /** A finished pass. */
  lemma PassRan(t: Task, k: Knowledge, infos: seq<OpInfo>, regression: bool, start: Matrix, ops0: seq<OpH2>, mat: Matrix, ops: seq<OpH2>)
    requires PassStart(t, k, regression, start) && Instantiated(t, k.ix, k.inconsistent, infos, regression, ops0)
    requires PassState(start, mat, |k.ix.facts|, ops0, ops)
    requires forall i | 0 <= i < |ops| :: ValidOp(ops[i], |k.ix.facts|) && Settled(mat, |k.ix.facts|, ops[i])
    requires forall p, q | 0 <= p < |k.ix.facts| && 0 <= q < |k.ix.facts| ::
               mat[p][q] == REACHED <==> InLeast(start, |k.ix.facts|, ops0, p, q)
    ensures Ran(t, k, infos, regression, mat, ops)
  {
    var n := |k.ix.facts|;
    forall i | 0 <= i < |ops|
      ensures ops[i].triggered == NOT_REACHED <==> NeverTriggered(start, n, ops0, i)
    {
      assert Tracks(mat, n, ops0[i], ops[i]) && Settled(mat, n, ops[i]);
      TriggeredIffReached(start, mat, n, ops0, ops0[i]);
    }
    assert RanFrom(t, k, infos, regression, start, ops0, mat, ops);
  }

  lemma TriggeredIffReached(start: Matrix, mat: Matrix, n: nat, ops: seq<OpH2>, o: OpH2)
    requires Square(start, n) && Square(mat, n) && (forall o' | o' in ops :: ValidOp(o', n)) && ValidOp(o, n)
    requires forall p, q | 0 <= p < n && 0 <= q < n ::
               (mat[p][q] == REACHED <==> InLeast(start, n, ops, p, q)) && (mat[p][q] == SPURIOUS <==> start[p][q] == SPURIOUS)
    ensures TriggeredIn(start, n, Least(start, n, ops), o) <==> NoneUnreached(mat, n, o.pre)
  {
    var x := Least(start, n, ops);
    forall i, j | 0 <= i <= j < |o.pre|
      ensures Counted(start, n, x, o.pre[i], o.pre[j]) <==> mat[o.pre[i]][o.pre[j]] != NOT_REACHED
    {
      assert (o.pre[i], o.pre[j]) in x <==> InLeast(start, n, ops, o.pre[i], o.pre[j]);
    }
  }

  /** Pruning what was not triggered and turning what was not reached into mutexes. */
  lemma PassConcluded(t: Task, k: Knowledge, infos: seq<OpInfo>, regression: bool, m0: Matrix, ops: seq<OpH2>, mat: Matrix)
    requires Ran(t, k, infos, regression, m0, ops) && |ops| == |infos| && Square(mat, |k.ix.facts|) && Square(m0, |k.ix.facts|)
    requires Decided(m0, mat, |k.ix.facts|)
    ensures Concluded(t, k, infos, regression, mat, Pruned(infos, ops, |infos|))
  {
    var start, ops0 :| RanFrom(t, k, infos, regression, start, ops0, m0, ops);
    forall p, q | 0 <= p < |k.ix.facts| && 0 <= q < |k.ix.facts|
      ensures mat[p][q] != SPURIOUS <==> InLeast(start, |k.ix.facts|, ops0, p, q)
    {
      assert mat[p][q] == if m0[p][q] == NOT_REACHED then SPURIOUS else m0[p][q];
    }
    assert ConcludedFrom(t, k, infos, regression, start, ops0, mat, Pruned(infos, ops, |infos|));
  }

  // ---- side facts ----

  /** Exactly the facts that became impossible are unreachable in addition. */
  ghost predicate UnreachableAreNew(ix: Index, was: Matrix, mat: Matrix, before: set<Fact>, after: set<Fact>)
    requires Square(was, |ix.facts|) && Square(mat, |ix.facts|)
  {
    forall a | 0 <= a < |ix.facts| ::
      ix.facts[a] in after <==> ix.facts[a] in before || (was[a][a] != SPURIOUS && mat[a][a] == SPURIOUS)
  }

  /** Everything a pass recorded besides the matrix and the operators. */
  ghost predicate Records(was: Matrix, k: Knowledge, r: Knowledge, groups: seq<seq<Fact>>) {
    && r.ix == k.ix && ValidIndex(k.ix) && Square(was, |k.ix.facts|) && Square(r.mat, |k.ix.facts|)
    && GroupsAreNew(k.ix, was, r.mat, groups) && InconsistentAreNew(k.ix, was, r.mat, k.inconsistent, r.inconsistent)
    && UnreachableAreNew(k.ix, was, r.mat, k.unreachable, r.unreachable)
  }

  /** The final scan records exactly what the pass left unreached. */
  lemma ScanRecords(k: Knowledge, r: Knowledge, groups: seq<seq<Fact>>)
    requires WellFormed(k) && r.ix == k.ix && Square(r.mat, |k.ix.facts|) && Decided(k.mat, r.mat, |k.ix.facts|)
    requires groups == RowsGroups(k.ix, k.mat, |k.ix.facts|)
    requires r.inconsistent == RowsInconsistent(k.ix, k.mat, k.inconsistent, |k.ix.facts|)
    requires UnreachableGrew(k.ix, k.mat, k.unreachable, r.unreachable, |k.ix.facts|)
    ensures Records(k.mat, k, r, groups)
  {
    ScanReports(k.ix, k.mat, k.mat, r.mat, k.inconsistent);
    forall a | 0 <= a < |k.ix.facts|
      ensures k.ix.facts[a] in r.unreachable <==>
              k.ix.facts[a] in k.unreachable || (k.mat[a][a] != SPURIOUS && r.mat[a][a] == SPURIOUS)
    {
      assert k.ix.prop[k.ix.facts[a]] == a;
      assert r.mat[a][a] == if k.mat[a][a] == NOT_REACHED then SPURIOUS else k.mat[a][a];
    }
  }

  lemma SameRecords(was: Matrix, was': Matrix, k: Knowledge, k': Knowledge, r: Knowledge, groups: seq<seq<Fact>>)
    requires Records(was', k', r, groups) && k' == k.(mat := k'.mat) && Square(was, |k.ix.facts|) && SameSpurious(was, was', |k.ix.facts|)
    ensures Records(was, k, r, groups)
  {
    var n := |k.ix.facts|;
    assert forall a: nat, b: nat | a < n && b < n :: BecameMutex(was, r.mat, n, a, b) <==> BecameMutex(was', r.mat, n, a, b);
    forall group | group in groups
      ensures IsNewGroup(k.ix, was, r.mat, group)
    {
      assert IsNewGroup(k.ix, was', r.mat, group);
    }
  }

  // ---- one turn of the alternation ----

  /** An operator that is kept is disambiguated. */
  ghost predicate KeptDisambiguated(k: Knowledge, op: SasOperator, before: OpInfo, after: OpInfo) {
    !after.spurious && op.prePost != [] ==>
      && WellFormed(k) && InIndex(k.ix, Posts(op.prePost))
      && Disambiguated(k, op, before.augmented, after.augmented, after.potential)
  }

  /** Mutexes and inconsistent facts stay as they are, live operators are disambiguated, and facts become unreachable or
      operators spurious exactly if that is reported. */
  ghost predicate OnlyPruned(t: Task, k: Knowledge, infos: seq<OpInfo>, r: Knowledge, after: seq<OpInfo>, pruned: bool)
    requires |infos| == |after| == |t.ops|
  {
    && r.ix == k.ix && r.inconsistent == k.inconsistent && Square(k.mat, |k.ix.facts|) && Square(r.mat, |k.ix.facts|)
    && SameSpurious(k.mat, r.mat, |k.ix.facts|)
    && (forall j | 0 <= j < |infos| :: KeptDisambiguated(r, t.ops[j], infos[j], after[j]))
    && (pruned <==> r.unreachable != k.unreachable || Live(t, after) != Live(t, infos))
  }

  /** A pass from `k` that ends with `mid`, then detection of unreachable facts and disambiguation. */
  ghost predicate TurnMade(t: Task, k: Knowledge, infos: seq<OpInfo>, regression: bool, mid: Knowledge, midInfos: seq<OpInfo>,
                           groups: seq<seq<Fact>>, r: Knowledge, after: seq<OpInfo>, count: nat, pruned: bool) {
    && |midInfos| == |after| == |t.ops| && Records(k.mat, k, mid, groups)
    && StartClean(t, k, regression) && Concluded(t, k, infos, regression, mid.mat, midInfos)
    && (count == 0 ==> mid.unreachable == k.unreachable && mid.inconsistent == k.inconsistent)
    && OnlyPruned(t, mid, midInfos, r, after, pruned)
  }

  // ---- when the alternation ends ----

  /** The pass from `k` ended with the inconsistent and unreachable facts of `r`. */
  ghost predicate LastPass(t: Task, regression: bool, k: Knowledge, infos: seq<OpInfo>, mid: Knowledge, midInfos: seq<OpInfo>, r: Knowledge) {
    && mid.ix == k.ix == r.ix && Square(k.mat, |k.ix.facts|) && StartClean(t, k, regression)
    && Concluded(t, k, infos, regression, mid.mat, midInfos)
    && mid.inconsistent == r.inconsistent && mid.unreachable == r.unreachable
  }

  /** Nothing was recorded after some pass in this direction. */
  ghost predicate Exhausted(t: Task, regression: bool, r: Knowledge) {
    exists k, infos, mid, midInfos :: LastPass(t, regression, k, infos, mid, midInfos, r)
  }

  /** Neither a pass nor the pruning after it changed what was recorded, and the mutexes are those the pass left. */
  ghost predicate NothingNew(t: Task, regression: bool, k: Knowledge, infos: seq<OpInfo>, mid: Knowledge, midInfos: seq<OpInfo>, r: Knowledge,
                             after: seq<OpInfo>) {
    && LastPass(t, regression, k, infos, mid, midInfos, r) && k.inconsistent == r.inconsistent && k.unreachable == r.unreachable
    && Square(mid.mat, |r.ix.facts|) && Square(r.mat, |r.ix.facts|) && SameSpurious(mid.mat, r.mat, |r.ix.facts|)
    && |midInfos| == |after| == |t.ops| && Live(t, after) == Live(t, midInfos)
  }

  ghost predicate FoundNothing(t: Task, r: Knowledge, after: seq<OpInfo>) {
    exists regression, k, infos, mid, midInfos :: NothingNew(t, regression, k, infos, mid, midInfos, r, after)
  }

  /** Exactly the pairs of the given groups and the reported ones are recorded as inconsistent. */
  ghost predicate Reported(ix: Index, mutexes: seq<seq<Fact>>, found: seq<seq<Fact>>, inc: map<Fact, set<Fact>>) {
    && (forall group: seq<Fact> | group in found :: |group| == 2 && group[0] in ix.prop && group[1] in ix.prop && group[0].v < group[1].v)
    && forall f, g {:trigger [f, g]} {:trigger g in ListOfFact(inc, f)} | f in ix.prop && g in ix.prop && f.v < g.v ::
         g in ListOfFact(inc, f) <==> ShareGroup(mutexes, f, g) || [f, g] in found
  }

  /** The groups are true of every plan: those given and, after them, the pairs recorded as inconsistent since. */
  ghost predicate GroupsMade(t: Task, mutexes: seq<seq<Fact>>, k: Knowledge, groups: seq<seq<Fact>>) {
    && mutexes <= groups && GroupsSound(PlanStates(t), groups)
    && Reported(k.ix, mutexes, groups[|mutexes|..], k.inconsistent)
  }

  lemma StartReported(k: Knowledge, mutexes: seq<seq<Fact>>)
    requires KnowsPairs(k, GroupPairs(mutexes))
    ensures Reported(k.ix, mutexes, [], k.inconsistent)
  {
    forall f, g | f in k.ix.prop && g in k.ix.prop && f.v < g.v
      ensures g in ListOfFact(k.inconsistent, f) <==> ShareGroup(mutexes, f, g)
    {
      assert (f, g) in GroupPairs(mutexes) <==> ShareGroup(mutexes, f, g);
    }
  }

  lemma ReportedNext(was: Matrix, k: Knowledge, r: Knowledge, mutexes: seq<seq<Fact>>, found: seq<seq<Fact>>, more: seq<seq<Fact>>)
    requires Records(was, k, r, more) && Reported(k.ix, mutexes, found, k.inconsistent)
    ensures Reported(k.ix, mutexes, found + more, r.inconsistent)
  {
    var ix := k.ix;
    forall group: seq<Fact> | group in more
      ensures |group| == 2 && group[0] in ix.prop && group[1] in ix.prop && group[0].v < group[1].v
    {
      assert IsNewGroup(ix, was, r.mat, group);
    }
    forall f, g | f in ix.prop && g in ix.prop && f.v < g.v
      ensures g in ListOfFact(r.inconsistent, f) <==> ShareGroup(mutexes, f, g) || [f, g] in found + more
    {
      NewPair(was, k, r, more, f, g);
      assert [f, g] in found + more <==> [f, g] in found || [f, g] in more;
    }
  }

  lemma NewPair(was: Matrix, k: Knowledge, r: Knowledge, more: seq<seq<Fact>>, f: Fact, g: Fact)
    requires Records(was, k, r, more) && f in k.ix.prop && g in k.ix.prop && f.v < g.v
    ensures g in ListOfFact(r.inconsistent, f) <==> g in ListOfFact(k.inconsistent, f) || [f, g] in more
  {
    var a, b := k.ix.prop[f], k.ix.prop[g];
    assert k.ix.facts[a] == f && k.ix.facts[b] == g;
    if [f, g] in more {
      assert IsNewGroup(k.ix, was, r.mat, [f, g]);
      var c: nat, d: nat :| c < |k.ix.facts| && d < |k.ix.facts| && BecameMutex(was, r.mat, |k.ix.facts|, c, d)
        && [f, g] == [k.ix.facts[c], k.ix.facts[d]];
      assert [f, g][0] == k.ix.facts[c] && [f, g][1] == k.ix.facts[d];
      assert c == a && d == b;
    }
  }

  /** Between turns: a direction that is not due has nothing left to find. */
  ghost predicate Alternating(t: Task, disableBackward: bool, r: Knowledge, infos: seq<OpInfo>, updateProgression: bool, updateRegression: bool) {
    && (!updateProgression ==> Exhausted(t, false, r))
    && (!updateRegression && !disableBackward ==> Exhausted(t, true, r))
    && (!updateProgression && !updateRegression && !disableBackward ==> FoundNothing(t, r, infos))
  }

  lemma TurnExhausts(t: Task, k: Knowledge, infos: seq<OpInfo>, regression: bool, mid: Knowledge, midInfos: seq<OpInfo>,
                     groups: seq<seq<Fact>>, r: Knowledge, after: seq<OpInfo>, count: nat)
    requires TurnMade(t, k, infos, regression, mid, midInfos, groups, r, after, count, false)
    ensures Exhausted(t, regression, r)
    ensures count == 0 ==> FoundNothing(t, r, after)
    ensures count == 0 && Exhausted(t, !regression, k) ==> Exhausted(t, !regression, r)
  {
    assert LastPass(t, regression, k, infos, mid, midInfos, r);
    if count == 0 {
      assert NothingNew(t, regression, k, infos, mid, midInfos, r, after);
    }
    if count == 0 && Exhausted(t, !regression, k) {
      var k1, infos1, mid1, midInfos1 :| LastPass(t, !regression, k1, infos1, mid1, midInfos1, k);
      assert LastPass(t, !regression, k1, infos1, mid1, midInfos1, r);
    }
  }

  lemma GroupsGrow(t: Task, k: Knowledge, mid: Knowledge, r: Knowledge, mutexes: seq<seq<Fact>>, groups: seq<seq<Fact>>, more: seq<seq<Fact>>)
    requires Records(k.mat, k, mid, more) && r.ix == mid.ix && r.inconsistent == mid.inconsistent
    requires GroupsMade(t, mutexes, k, groups) && GroupsSound(PlanStates(t), more)
    ensures GroupsMade(t, mutexes, r, groups + more)
  {
    ReportedNext(k.mat, k, mid, mutexes, groups[|mutexes|..], more);
    MoreGroups(PlanStates(t), groups, more);
    Appended(mutexes, groups, more);
  }

  lemma Appended<T>(prefix: seq<T>, list: seq<T>, more: seq<T>)
    requires prefix <= list
    ensures prefix <= list + more && (list + more)[|prefix|..] == list[|prefix|..] + more
  {
  }

  lemma GroupsStay(t: Task, k: Knowledge, r: Knowledge, mutexes: seq<seq<Fact>>, groups: seq<seq<Fact>>, more: seq<seq<Fact>>)
    requires GroupsMade(t, mutexes, k, groups) && more == [] && r.ix == k.ix && r.inconsistent == k.inconsistent
    ensures GroupsMade(t, mutexes, r, groups + more)
  {
    assert groups + more == groups;
  }

  /** A turn in the direction may begin; its flag is taken down. */
  ghost predicate TurnDue(t: Task, disableBackward: bool, k: Knowledge, regression: bool, up: bool, ur: bool) {
    && !(regression && disableBackward) && (if regression then !ur else !up)
    && (regression && !up ==> Exhausted(t, false, k))
    && (!regression && !ur && !disableBackward ==> Exhausted(t, true, k))
  }

  /** The flags are only raised, and then something was found. */
  ghost predicate TurnEnds(t: Task, disableBackward: bool, k: Knowledge, infos: seq<OpInfo>, r: Knowledge, after: seq<OpInfo>,
                           up: bool, ur: bool, updateProgression: bool, updateRegression: bool) {
    && Alternating(t, disableBackward, r, after, updateProgression, updateRegression)
    && (up ==> updateProgression) && (ur ==> updateRegression)
    && NoLoss(t, r, after, k, infos)
    && (updateProgression != up || updateRegression != ur ==> Progress(t, r, after, k, infos))
  }

  /** A turn keeps this, with the flags as the loop sets them. */
  lemma AlternationNext(t: Task, disableBackward: bool, k: Knowledge, infos: seq<OpInfo>, regression: bool, mid: Knowledge,
                        midInfos: seq<OpInfo>, more: seq<seq<Fact>>, r: Knowledge, after: seq<OpInfo>,
                        count: nat, pruned: bool, up: bool, ur: bool, updateProgression: bool, updateRegression: bool)
    requires TurnMade(t, k, infos, regression, mid, midInfos, more, r, after, count, pruned)
    requires TurnDue(t, disableBackward, k, regression, up, ur) && NoLoss(t, r, after, k, infos)
    requires count > 0 || pruned ==> Progress(t, r, after, k, infos)
    requires updateProgression == (up || pruned || (regression && count > 0))
    requires updateRegression == (ur || pruned || (!regression && count > 0))
    ensures TurnEnds(t, disableBackward, k, infos, r, after, up, ur, updateProgression, updateRegression)
  {
    if !pruned {
      TurnExhausts(t, k, infos, regression, mid, midInfos, more, r, after, count);
    }
  }

  lemma TurnShrinks(t: Task, disableBackward: bool, k: Knowledge, infos: seq<OpInfo>, r: Knowledge, after: seq<OpInfo>,
                    up: bool, ur: bool, updateProgression: bool, updateRegression: bool)
    requires TurnEnds(t, disableBackward, k, infos, r, after, up, ur, updateProgression, updateRegression)
    ensures Size(t, r, after) <= Size(t, k, infos)
    ensures updateProgression != up || updateRegression != ur ==> Size(t, r, after) < Size(t, k, infos)
  {
    SizeShrinks(t, r, after, k, infos);
  }
}
