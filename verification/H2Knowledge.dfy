/** What h^2 has recorded at some moment, as a value, and what one operator may conclude from it. */
module H2Knowledge {
  import opened Sas
  import opened H2Theory
  import opened H2Instantiate

  datatype Knowledge = Knowledge(ix: Index, mat: Matrix, inconsistent: map<Fact, set<Fact>>, unreachable: set<Fact>)

  ghost predicate WellFormed(k: Knowledge) {
    && ValidIndex(k.ix) && Square(k.mat, |k.ix.facts|) && Symmetric(k.mat, |k.ix.facts|)
    && SameVariableMutex(k.ix, k.mat)
    && ValidInconsistent(k.ix, k.inconsistent)
    && k.unreachable <= k.ix.prop.Keys
  }

  /** Two values of one variable are mutex from the start. */
  ghost predicate SameVariableMutex(ix: Index, mat: Matrix)
    requires Square(mat, |ix.facts|)
  {
    forall p, q {:trigger mat[p][q]} | 0 <= p < |ix.facts| && 0 <= q < |ix.facts| && p != q && ix.facts[p].v == ix.facts[q].v ::
      mat[p][q] == SPURIOUS
  }

  /** At most one fact of the group is true. */
  ghost predicate RespectsGroup(s: State, group: seq<Fact>) {
    forall f, g | f in group && g in group && Holds(s, f) && Holds(s, g) :: f == g
  }

  /** `g` excludes some goal fact. */
  ghost predicate AgainstGoal(ix: Index, inc: map<Fact, set<Fact>>, goal: seq<Fact>, g: Fact) {
    exists f | f in goal :: Excludes(ix, inc, f, g)
  }

  ghost predicate InIndex(ix: Index, fs: seq<Fact>) {
    forall f | f in fs :: f in ix.prop
  }

  /** The state contradicts nothing recorded so far. */
  ghost predicate Allows(k: Knowledge, s: State)
    requires WellFormed(k)
  {
    && ValidState(k.ix.ranges, s)
    && NoSpurious(k.mat, |k.ix.facts|, TrueProps(k.ix, s))
    && RespectsInconsistent(k.inconsistent, s)
    && forall f | f in k.unreachable :: !Holds(s, f)
  }

  ghost predicate Mutex(k: Knowledge, f: Fact, g: Fact)
    requires WellFormed(k) && f in k.ix.prop && g in k.ix.prop
  {
    if f.v == g.v then f.x != g.x else k.mat[k.ix.prop[f]][k.ix.prop[g]] == SPURIOUS
  }

  lemma AllowedNotMutex(k: Knowledge, s: State, f: Fact, g: Fact)
    requires WellFormed(k) && Allows(k, s) && f in k.ix.prop && g in k.ix.prop && Holds(s, f) && Holds(s, g)
    ensures !Mutex(k, f, g) && f !in k.unreachable
  {
    assert k.ix.prop[f] in TrueProps(k.ix, s) && k.ix.prop[g] in TrueProps(k.ix, s);
  }

  /** Augmented values are on variables without a condition, each listed once. */
  ghost predicate ValidAugmented(ix: Index, op: SasOperator, augmented: seq<Fact>) {
    && InIndex(ix, augmented)
    && (forall f, g {:trigger f in augmented, g in op.prevail} | f in augmented && g in op.prevail :: f.v != g.v)
    && (forall f, e {:trigger f in augmented, e in op.prePost} | f in augmented && e in op.prePost && f.v == e.v :: e.pre.None?)
    && (forall i, j | 0 <= i < j < |augmented| :: augmented[i].v != augmented[j].v)
  }

  /** A step by `op` between states that contradict nothing recorded. */
  ghost predicate Step(k: Knowledge, op: SasOperator, augmented: seq<Fact>, s: State, s': State)
    requires WellFormed(k)
  {
    && Allows(k, s) && Allows(k, s')
    && Applicable(op, s) && s' == Successor(op, s) && HoldsAll(s, augmented)
  }

  /** A recorded value of a variable; -1 in the source is None here. */
  datatype Known = Known(v: nat, x: Option<nat>)

  ghost predicate InDomain(ix: Index, pre: seq<Option<nat>>) {
    |pre| == |ix.ranges| && forall v | 0 <= v < |pre| && pre[v].Some? :: pre[v].value < ix.ranges[v]
  }

  ghost predicate KnownInDomain(ix: Index, known: seq<Known>) {
    forall n | n in known :: n.v < |ix.ranges| && (n.x.Some? ==> n.x.value < ix.ranges[n.v])
  }

  ghost predicate KnownIn(known: seq<Known>, pre: seq<Option<nat>>) {
    forall n | n in known :: n.v < |pre| && (n.x.Some? ==> pre[n.v] == n.x)
  }

  ghost predicate Agrees(pre: seq<Option<nat>>, s: State) {
    |s| == |pre| && forall v | 0 <= v < |pre| && pre[v].Some? :: s[v] == pre[v].value
  }

  ghost predicate Extends(pre: seq<Option<nat>>, pre': seq<Option<nat>>) {
    |pre| == |pre'| && forall v | 0 <= v < |pre| && pre[v].Some? :: pre'[v] == pre[v]
  }

  /** `pre` lists values the predecessor has in every step that contradicts nothing. */
  ghost predicate Sound(k: Knowledge, op: SasOperator, augmented: seq<Fact>, pre: seq<Option<nat>>)
    requires WellFormed(k)
  {
    forall s, s' :: Step(k, op, augmented, s, s') ==> Agrees(pre, s)
  }

  /** `pre` is exactly the recorded conditions of the operator. */
  ghost predicate IsConditions(op: SasOperator, augmented: seq<Fact>, pre: seq<Option<nat>>) {
    forall v, x: nat | 0 <= v < |pre| :: pre[v] == Some(x) <==> ForwardPre(op, augmented, Fact(v, x))
  }

  lemma ConditionsSound(k: Knowledge, op: SasOperator, augmented: seq<Fact>, pre: seq<Option<nat>>)
    requires WellFormed(k) && InDomain(k.ix, pre) && IsConditions(op, augmented, pre)
    ensures Sound(k, op, augmented, pre)
  {
    PostsAndPres(op.prePost);
    forall s, s' | Step(k, op, augmented, s, s')
      ensures Agrees(pre, s)
    {
      forall v | 0 <= v < |pre| && pre[v].Some?
        ensures s[v] == pre[v].value
      {
        assert ForwardPre(op, augmented, Fact(v, pre[v].value));
      }
    }
  }

  /** One of the conditions on the first `n` variables is unreachable, or mutex with a condition
      on a later variable. */
  ghost predicate Conflict(k: Knowledge, pre: seq<Option<nat>>, n: nat)
    requires WellFormed(k) && InDomain(k.ix, pre) && n <= |pre|
  {
    exists i | 0 <= i < n && pre[i].Some? ::
      || Fact(i, pre[i].value) in k.unreachable
      || exists j | i < j < |pre| && pre[j].Some? :: Mutex(k, Fact(i, pre[i].value), Fact(j, pre[j].value))
  }

  /** Conditions that hold in a state that contradicts nothing do not conflict. */
  lemma AgreeingNoConflict(k: Knowledge, pre: seq<Option<nat>>, s: State)
    requires WellFormed(k) && InDomain(k.ix, pre) && Allows(k, s) && Agrees(pre, s)
    ensures !Conflict(k, pre, |pre|)
  {
    forall i, j | 0 <= i < |pre| && pre[i].Some? && 0 <= j < |pre| && pre[j].Some?
      ensures !Mutex(k, Fact(i, pre[i].value), Fact(j, pre[j].value)) && Fact(i, pre[i].value) !in k.unreachable
    {
      AllowedNotMutex(k, s, Fact(i, pre[i].value), Fact(j, pre[j].value));
    }
  }

  lemma ConflictMeansNoStep(k: Knowledge, op: SasOperator, augmented: seq<Fact>, pre: seq<Option<nat>>)
    requires WellFormed(k) && InDomain(k.ix, pre) && Sound(k, op, augmented, pre) && Conflict(k, pre, |pre|)
    ensures forall s, s' :: !Step(k, op, augmented, s, s')
  {
    forall s, s' | Step(k, op, augmented, s, s')
      ensures false
    {
      AgreeingNoConflict(k, pre, s);
    }
  }

  ghost predicate MutexKnown(k: Knowledge, n: Known, g: Fact)
    requires WellFormed(k) && g in k.ix.prop && (n.x.Some? ==> Fact(n.v, n.x.value) in k.ix.prop)
  {
    n.x.Some? && Mutex(k, Fact(n.v, n.x.value), g)
  }

  /** The value is reachable and mutex neither with a known value nor, when the operator leaves
      the variable alone, with one of its effects. */
  ghost predicate Survives(k: Knowledge, op: SasOperator, known: seq<Known>, v: nat, x: nat)
    requires WellFormed(k) && Fact(v, x) in k.ix.prop && KnownInDomain(k.ix, known) && InIndex(k.ix, Posts(op.prePost))
  {
    && Fact(v, x) !in k.unreachable
    && (forall n | n in known :: !MutexKnown(k, n, Fact(v, x)))
    && (!Affects(op.prePost, v) ==> forall f | f in Posts(op.prePost) :: !Mutex(k, f, Fact(v, x)))
  }

  /** Two different values of `v` survive, so `v` is not determined. */
  ghost predicate TwoSurvive(k: Knowledge, op: SasOperator, known: seq<Known>, v: nat)
    requires WellFormed(k) && v < |k.ix.ranges| && KnownInDomain(k.ix, known) && InIndex(k.ix, Posts(op.prePost))
  {
    exists x: nat, y: nat | x < k.ix.ranges[v] && y < k.ix.ranges[v] && x != y ::
      Survives(k, op, known, v, x) && Survives(k, op, known, v, y)
  }

  /** In a step that contradicts nothing, the value the predecessor has survives. */
  lemma ActualValueSurvives(k: Knowledge, op: SasOperator, augmented: seq<Fact>, pre: seq<Option<nat>>,
                            known: seq<Known>, v: nat, s: State, s': State)
    requires WellFormed(k) && Plain(op) && InDomain(k.ix, pre) && Sound(k, op, augmented, pre) && KnownIn(known, pre)
    requires InIndex(k.ix, Posts(op.prePost)) && v < |k.ix.ranges|
    requires Step(k, op, augmented, s, s')
    ensures |s| == |k.ix.ranges| && s[v] < k.ix.ranges[v] && Survives(k, op, known, v, s[v])
  {
    assert Agrees(pre, s);
    var g := Fact(v, s[v]);
    AllowedNotMutex(k, s, g, g);
    forall n | n in known
      ensures !MutexKnown(k, n, g)
    {
      if n.x.Some? {
        AllowedNotMutex(k, s, Fact(n.v, n.x.value), g);
      }
    }
    if !Affects(op.prePost, v) {
      PlainSuccessor(op, s, v);
      PostsAndPres(op.prePost);
      forall f | f in Posts(op.prePost)
        ensures !Mutex(k, f, g)
      {
        PlainSuccessor(op, s, f.v);
        AllowedNotMutex(k, s', f, g);
      }
    }
  }

  /** The surviving values of `v` are listed in `left`: an empty list means the operator never
      takes part in such a step, a single value is the one the predecessor has. */
  lemma SurvivorsDecide(k: Knowledge, op: SasOperator, augmented: seq<Fact>, pre: seq<Option<nat>>,
                        known: seq<Known>, v: nat, left: seq<nat>)
    requires WellFormed(k) && Plain(op) && InDomain(k.ix, pre) && Sound(k, op, augmented, pre) && KnownIn(known, pre)
    requires InIndex(k.ix, Posts(op.prePost)) && v < |k.ix.ranges|
    requires forall x: nat :: x in left <==> x < k.ix.ranges[v] && Survives(k, op, known, v, x)
    requires forall i, j | 0 <= i < j < |left| :: left[i] != left[j]
    ensures forall s, s' | Step(k, op, augmented, s, s') :: |s| == |k.ix.ranges| && s[v] in left
    ensures |left| > 1 ==> TwoSurvive(k, op, known, v)
  {
    forall s, s' | Step(k, op, augmented, s, s')
      ensures |s| == |k.ix.ranges| && s[v] in left
    {
      ActualValueSurvives(k, op, augmented, pre, known, v, s, s');
    }
    if |left| > 1 {
      assert left[0] in left && left[1] in left && left[0] != left[1];
    }
  }

  /** The variables without a known value: the candidates of the source.  The source stores the
      whole domain with each of them and copies that list before filtering it
      (operator.cc:187-222), so the stored list never changes and is not kept here. */
  function Unknown(pre: seq<Option<nat>>): set<nat> {
    set v | 0 <= v < |pre| && pre[v].None?
  }

  lemma SoundExtended(k: Knowledge, op: SasOperator, augmented: seq<Fact>, pre: seq<Option<nat>>, v: nat, x: nat)
    requires WellFormed(k) && Sound(k, op, augmented, pre) && v < |pre|
    requires forall s, s' | Step(k, op, augmented, s, s') :: |s| == |pre| && s[v] == x
    ensures Sound(k, op, augmented, pre[v := Some(x)])
  {
    forall s, s' | Step(k, op, augmented, s, s')
      ensures Agrees(pre[v := Some(x)], s)
    {
      assert Agrees(pre, s);
    }
  }

  function KnownOf(pre: seq<Option<nat>>): seq<Known> {
    seq(|pre|, v requires 0 <= v < |pre| => Known(v, pre[v]))
  }

  /** More known values leave fewer survivors. */
  lemma TwoSurviveFewer(k: Knowledge, op: SasOperator, pre: seq<Option<nat>>, known: seq<Known>, v: nat)
    requires WellFormed(k) && InDomain(k.ix, pre) && KnownInDomain(k.ix, known) && KnownInDomain(k.ix, KnownOf(pre))
    requires InIndex(k.ix, Posts(op.prePost)) && v < |pre|
    requires forall u | 0 <= u < |pre| && pre[u].Some? :: Known(u, pre[u]) in known
    requires TwoSurvive(k, op, known, v)
    ensures TwoSurvive(k, op, KnownOf(pre), v)
  {
    var x: nat, y: nat :| x < k.ix.ranges[v] && y < k.ix.ranges[v] && x != y
      && Survives(k, op, known, v, x) && Survives(k, op, known, v, y);
    forall n | n in KnownOf(pre)
      ensures !MutexKnown(k, n, Fact(v, x)) && !MutexKnown(k, n, Fact(v, y))
    {
      assert n.x.Some? ==> n in known;
    }
    assert Survives(k, op, KnownOf(pre), v, x) && Survives(k, op, KnownOf(pre), v, y);
  }

  /** `g` may be the value a variable with an effect but no precondition has beforehand. */
  ghost predicate IsPotential(k: Knowledge, op: SasOperator, pre: seq<Option<nat>>, g: Fact)
    requires WellFormed(k) && InDomain(k.ix, pre)
  {
    && OpenEffect(op, g.v) && g in k.ix.prop
    && if pre[g.v].Some? then pre[g.v].value == g.x
       else forall u | 0 <= u < |pre| && pre[u].Some? :: !Mutex(k, g, Fact(u, pre[u].value))
  }

  lemma PotentialsCoverSteps(k: Knowledge, op: SasOperator, augmented: seq<Fact>, pre: seq<Option<nat>>, potential: seq<Fact>)
    requires WellFormed(k) && ValidOperator(k.ix.ranges, op) && InDomain(k.ix, pre) && Sound(k, op, augmented, pre)
    requires forall g :: g in potential <==> IsPotential(k, op, pre, g)
    ensures forall s, s' | Step(k, op, augmented, s, s') :: PotentialsCover(op, potential, s)
  {
    forall s, s' | Step(k, op, augmented, s, s')
      ensures PotentialsCover(op, potential, s)
    {
      assert Agrees(pre, s);
      forall e | e in op.prePost && e.pre.None?
        ensures e.v < |s| && Fact(e.v, s[e.v]) in potential
      {
        var g := Fact(e.v, s[e.v]);
        forall u | 0 <= u < |pre| && pre[u].Some?
          ensures !Mutex(k, g, Fact(u, pre[u].value))
        {
          AllowedNotMutex(k, s, g, Fact(u, pre[u].value));
        }
        assert IsPotential(k, op, pre, g);
      }
    }
  }

  lemma ConditionsUnique(op: SasOperator, augmented: seq<Fact>, pre: seq<Option<nat>>, pre': seq<Option<nat>>)
    requires |pre| == |pre'| && IsConditions(op, augmented, pre) && IsConditions(op, augmented, pre')
    ensures pre == pre'
  {
    forall v | 0 <= v < |pre|
      ensures pre[v] == pre'[v]
    {
      assert pre[v].Some? ==> pre'[v] == Some(pre[v].value);
      assert pre'[v].Some? ==> pre[v] == Some(pre'[v].value);
    }
  }

  /** Nothing the recorded knowledge allows is lost. */
  ghost predicate KeepsSteps(k: Knowledge, op: SasOperator, before: seq<Fact>, spurious: bool, after: seq<Fact>,
                             potential: seq<Fact>)
    requires WellFormed(k)
  {
    forall s, s' | Step(k, op, before, s, s') ::
      !spurious && HoldsAll(s, after) && PotentialsCover(op, potential, s)
  }

  /** What disambiguation achieves for an operator it keeps: its conditions are compatible, every
      variable still without a value keeps two possible values, and the potential preconditions
      are exactly the values compatible with all conditions. */
  ghost predicate Disambiguated(k: Knowledge, op: SasOperator, before: seq<Fact>, after: seq<Fact>, potential: seq<Fact>)
    requires WellFormed(k) && InIndex(k.ix, Posts(op.prePost))
  {
    && before <= after
    && forall pre0: seq<Option<nat>>, pre: seq<Option<nat>> {:trigger IsConditions(op, before, pre0), IsConditions(op, after, pre)} |
         && InDomain(k.ix, pre0) && InDomain(k.ix, pre) && KnownInDomain(k.ix, KnownOf(pre0))
         && IsConditions(op, before, pre0) && IsConditions(op, after, pre) ::
         && !Conflict(k, pre0, |pre0|)
         && (forall v | 0 <= v < |pre| && pre[v].None? :: TwoSurvive(k, op, KnownOf(pre0), v))
         && (forall g :: g in potential <==> IsPotential(k, op, pre, g))
  }

  // ---- knowledge about a set of states ----

  /** Every state in `live` contradicts nothing recorded. */
  ghost predicate SoundFor(k: Knowledge, live: iset<State>) {
    WellFormed(k) && forall s | s in live :: Allows(k, s)
  }

  /** If there are live states at all, the initial state and some goal state are among them. */
  ghost predicate Anchored(live: iset<State>, init: State, goal: seq<Fact>) {
    live != iset{} ==> init in live && exists s | s in live :: HoldsAll(s, goal)
  }

  /** A finished pass has reached every pair of facts of every live state. */
  ghost predicate CoversLive(ix: Index, mat: Matrix, live: iset<State>)
    requires Square(mat, |ix.facts|)
  {
    forall s | s in live :: Covers(mat, |ix.facts|, TrueProps(ix, s))
  }

  /** What is recorded besides the matrix respects the live states. */
  ghost predicate SideFactsSound(ix: Index, inc: map<Fact, set<Fact>>, unreachable: set<Fact>, live: iset<State>) {
    && ValidInconsistent(ix, inc) && unreachable <= ix.prop.Keys
    && forall s | s in live ::
         ValidState(ix.ranges, s) && RespectsInconsistent(inc, s) && forall f | f in unreachable :: !Holds(s, f)
  }

  /** While unreached pairs are turned into mutexes, before cell (a, b). */
  ghost predicate Marking(k: Knowledge, m0: Matrix, live: iset<State>, a: nat, b: nat) {
    var n := |k.ix.facts|;
    && ValidIndex(k.ix) && Square(m0, n) && Square(k.mat, n) && Symmetric(m0, n) && SameVariableMutex(k.ix, m0)
    && Scanned(m0, k.mat, n, a, b) && CoversLive(k.ix, m0, live)
    && SideFactsSound(k.ix, k.inconsistent, k.unreachable, live)
  }

  lemma MarkingDone(k: Knowledge, m0: Matrix, live: iset<State>)
    requires Marking(k, m0, live, |k.ix.facts|, 0)
    ensures SoundFor(k, live)
  {
    var n := |k.ix.facts|;
    ScanComplete(m0, k.mat, n);
    assert SameVariableMutex(k.ix, k.mat) by {
      forall p, q | 0 <= p < n && 0 <= q < n && p != q && k.ix.facts[p].v == k.ix.facts[q].v
        ensures k.mat[p][q] == SPURIOUS
      {
        assert ScannedCell(m0, k.mat, n, n, 0, p, q);
      }
    }
    forall s | s in live
      ensures NoSpurious(k.mat, n, TrueProps(k.ix, s))
    {
      assert Covers(m0, n, TrueProps(k.ix, s));
      forall p, q | p in TrueProps(k.ix, s) && q in TrueProps(k.ix, s)
        ensures p < n && q < n && k.mat[p][q] != SPURIOUS
      {
        assert ScannedCell(m0, k.mat, n, n, 0, p, q);
      }
    }
  }

  /** A pair left unreached by a pass is true in no live state. */
  lemma UnreachedPairDead(ix: Index, m0: Matrix, live: iset<State>, a: nat, b: nat, s: State)
    requires ValidIndex(ix) && Square(m0, |ix.facts|) && CoversLive(ix, m0, live)
    requires a < |ix.facts| && b < |ix.facts| && m0[a][b] != REACHED && s in live
    ensures !(Holds(s, ix.facts[a]) && Holds(s, ix.facts[b]))
  {
    assert Covers(m0, |ix.facts|, TrueProps(ix, s));
    assert a in TrueProps(ix, s) <==> Holds(s, ix.facts[a]);
    assert b in TrueProps(ix, s) <==> Holds(s, ix.facts[b]);
  }

  ghost predicate CellMarked(cur: Matrix, next: Matrix, n: nat, a: nat, b: nat)
    requires Square(cur, n) && Square(next, n)
  {
    forall p, q | 0 <= p < n && 0 <= q < n ::
      next[p][q] == if p == a && q == b && cur[p][q] == NOT_REACHED then SPURIOUS else cur[p][q]
  }

  ghost predicate RowReset(cur: Matrix, next: Matrix, n: nat, a: nat)
    requires Square(cur, n) && Square(next, n)
  {
    forall p, q | 0 <= p < n && 0 <= q < n ::
      next[p][q] == if (p == a || q == a) && cur[p][q] == REACHED then NOT_REACHED else cur[p][q]
  }

  lemma MarkOnly(k: Knowledge, next: Matrix, m0: Matrix, live: iset<State>, a: nat, b: nat)
    requires Marking(k, m0, live, a, b) && a < |k.ix.facts| && b < |k.ix.facts|
    requires Square(next, |k.ix.facts|) && CellMarked(k.mat, next, |k.ix.facts|, a, b)
    ensures Marking(k.(mat := next), m0, live, a, b + 1)
    ensures k.mat[a][b] == NOT_REACHED ==> m0[a][b] != SPURIOUS
    ensures k.mat[a][b] == NOT_REACHED && k.mat[a][a] != REACHED && a == b ==> m0[a][b] == NOT_REACHED
    ensures k.mat[a][b] == NOT_REACHED && k.mat[a][a] == REACHED && k.mat[b][b] == REACHED ==> m0[a][b] == NOT_REACHED
    ensures k.mat[a][b] != NOT_REACHED ==> m0[a][b] != NOT_REACHED
    ensures (next[a][a] == REACHED <==> m0[a][a] == REACHED) && (next[b][b] == REACHED <==> m0[b][b] == REACHED)
  {
    ScanCell(m0, k.mat, next, |k.ix.facts|, a, b, b + 1);
    assert ScannedCell(m0, k.mat, |k.ix.facts|, a, b, a, b);
    assert ScannedCell(m0, k.mat, |k.ix.facts|, a, b, a, a);
    assert ScannedCell(m0, k.mat, |k.ix.facts|, a, b, b, b);
  }

  /** Recording an unreached pair as inconsistent keeps every live state. */
  lemma RecordPair(k: Knowledge, inc: map<Fact, set<Fact>>, m0: Matrix, live: iset<State>, a: nat, b: nat, c: nat)
    requires Marking(k, m0, live, a, c) && a < |k.ix.facts| && b < |k.ix.facts|
    requires m0[a][b] != REACHED && m0[a][b] != SPURIOUS
    requires var f, g := k.ix.facts[a], k.ix.facts[b];
             f != g && f in k.inconsistent && g in k.inconsistent
             && inc == k.inconsistent[f := k.inconsistent[f] + {g}][g := k.inconsistent[g] + {f}]
    ensures Marking(k.(inconsistent := inc), m0, live, a, c)
    ensures forall s | s in live :: RespectsGroup(s, [k.ix.facts[a], k.ix.facts[b]])
  {
    var f, g := k.ix.facts[a], k.ix.facts[b];
    assert f.v != g.v by {
      assert SameVariableMutex(k.ix, m0);
      assert a != b;
    }
    forall s | s in live
      ensures RespectsInconsistent(inc, s) && !(Holds(s, f) && Holds(s, g))
    {
      UnreachedPairDead(k.ix, m0, live, a, b, s);
      assert RespectsInconsistent(k.inconsistent, s);
    }
  }

  /** A fact left unreached is true in no live state, so recording it keeps them all. */
  lemma RecordUnreachable(k: Knowledge, next: Matrix, m0: Matrix, live: iset<State>, a: nat, c: nat)
    requires Marking(k, m0, live, a, c) && a < |k.ix.facts| && c == a + 1 && m0[a][a] == NOT_REACHED
    requires Square(next, |k.ix.facts|) && RowReset(k.mat, next, |k.ix.facts|, a)
    ensures Marking(k.(mat := next, unreachable := k.unreachable + {k.ix.facts[a]}), m0, live, a, c)
  {
    ScanUnreachable(m0, k.mat, next, |k.ix.facts|, a, c);
    forall s | s in live
      ensures !Holds(s, k.ix.facts[a])
    {
      UnreachedPairDead(k.ix, m0, live, a, a, s);
    }
  }

  /** An unreached fact of the initial state or of the goal means there are no live states. */
  lemma AnchorUnreached(k: Knowledge, m0: Matrix, live: iset<State>, a: nat, init: State, goal: seq<Fact>)
    requires ValidIndex(k.ix) && Square(m0, |k.ix.facts|) && CoversLive(k.ix, m0, live) && Anchored(live, init, goal)
    requires a < |k.ix.facts| && m0[a][a] == NOT_REACHED
    requires Holds(init, k.ix.facts[a]) || k.ix.facts[a] in goal
    ensures live == iset{}
  {
    forall s | s in live
      ensures !Holds(s, k.ix.facts[a])
    {
      UnreachedPairDead(k.ix, m0, live, a, a, s);
    }
  }

  ghost function NonSpurious(mat: Matrix, n: nat): set<(nat, nat)>
    requires Square(mat, n)
  {
    set p, q | 0 <= p < n && 0 <= q < n && mat[p][q] != SPURIOUS :: (p, q)
  }

  /** The facts among the first `a` that the pass left unreached have become unreachable. */
  ghost predicate UnreachableGrew(ix: Index, mat: Matrix, before: set<Fact>, after: set<Fact>, a: nat)
    requires ValidIndex(ix) && Square(mat, |ix.facts|)
  {
    && before <= after <= before + ix.prop.Keys
    && forall f | f in ix.prop ::
         f in after <==> f in before || (ix.prop[f] < a && mat[ix.prop[f]][ix.prop[f]] == NOT_REACHED)
  }

  /** The unreachable facts after the first `b` cells of row `a`. */
  ghost function RowUnreachable(ix: Index, m0: Matrix, before: set<Fact>, a: nat, b: nat): set<Fact>
    requires Square(m0, |ix.facts|) && a < |ix.facts|
  {
    if a < b && m0[a][a] == NOT_REACHED then before + {ix.facts[a]} else before
  }

  ghost predicate SameSpurious(mat: Matrix, mat': Matrix, n: nat)
    requires Square(mat, n) && Square(mat', n)
  {
    forall p, q | 0 <= p < n && 0 <= q < n :: mat[p][q] == SPURIOUS <==> mat'[p][q] == SPURIOUS
  }

  /** Recording a fact that no live state has keeps the live states. */
  lemma DeadFactRecorded(k: Knowledge, next: Matrix, live: iset<State>, f: Fact)
    requires SoundFor(k, live) && f in k.ix.prop && forall s | s in live :: !Holds(s, f)
    requires Square(next, |k.ix.facts|) && RowReset(k.mat, next, |k.ix.facts|, k.ix.prop[f])
    ensures SoundFor(k.(mat := next, unreachable := k.unreachable + {f}), live)
    ensures SameSpurious(k.mat, next, |k.ix.facts|)
  {
    var k' := k.(mat := next, unreachable := k.unreachable + {f});
    forall s | s in live
      ensures Allows(k', s)
    {
      assert Allows(k, s);
    }
  }

  /** When one value of a variable is left, it holds in every live state. */
  lemma OnlyValueHolds(k: Knowledge, live: iset<State>, f: Fact, s: State)
    requires SoundFor(k, live) && f in k.ix.prop && s in live
    requires forall x: nat | x < k.ix.ranges[f.v] && x != f.x :: Fact(f.v, x) in k.unreachable
    ensures Holds(s, f)
    ensures forall g | g in k.inconsistent[f] :: !Holds(s, g)
  {
    assert Allows(k, s);
    var x := s[f.v];
    assert Holds(s, Fact(f.v, x));
  }

  lemma StartMarking(k: Knowledge, live: iset<State>)
    requires WellFormed(k) && CoversLive(k.ix, k.mat, live) && SideFactsSound(k.ix, k.inconsistent, k.unreachable, live)
    ensures Marking(k, k.mat, live, 0, 0)
  {
  }

  lemma RowDone(k: Knowledge, m0: Matrix, live: iset<State>, a: nat, c: nat)
    requires Marking(k, m0, live, a, |k.ix.facts|) && c == a + 1
    ensures Marking(k, m0, live, c, 0)
  {
    var n := |k.ix.facts|;
    forall p, q | 0 <= p < n && 0 <= q < n
      ensures ScannedCell(m0, k.mat, n, c, 0, p, q)
    {
      assert ScannedCell(m0, k.mat, n, a, n, p, q);
    }
    forall p, q | 0 <= p < q < n
      ensures ScannedPair(k.mat, n, c, 0, p, q)
    {
      assert ScannedPair(k.mat, n, a, n, p, q);
    }
  }

  lemma MarkingShrinks(m0: Matrix, cur: Matrix, n: nat)
    requires Square(m0, n) && Square(cur, n) && Scanned(m0, cur, n, n, 0)
    ensures NonSpurious(cur, n) <= NonSpurious(m0, n) - Unreached(m0, n)
    ensures Unreached(m0, n) != {} ==> NonSpurious(cur, n) != NonSpurious(m0, n)
  {
    forall p, q | 0 <= p < n && 0 <= q < n
      ensures cur[p][q] != SPURIOUS ==> m0[p][q] == REACHED
    {
      assert ScannedCell(m0, cur, n, n, 0, p, q);
    }
    if p, q :| (p, q) in Unreached(m0, n) {
      assert (p, q) in NonSpurious(m0, n) && (p, q) !in NonSpurious(cur, n);
    }
  }

  /** What a full scan has done to the matrix. */
  lemma ScanEnds(m0: Matrix, k: Knowledge, live: iset<State>)
    requires Marking(k, m0, live, |k.ix.facts|, 0)
    ensures SoundFor(k, live)
    ensures NonSpurious(k.mat, |k.ix.facts|) <= NonSpurious(m0, |k.ix.facts|) - Unreached(m0, |k.ix.facts|)
    ensures Unreached(m0, |k.ix.facts|) != {} ==> NonSpurious(k.mat, |k.ix.facts|) != NonSpurious(m0, |k.ix.facts|)
    ensures Diagonal(m0, |k.ix.facts|) ==> Decided(m0, k.mat, |k.ix.facts|)
  {
    MarkingDone(k, m0, live);
    MarkingShrinks(m0, k.mat, |k.ix.facts|);
    if Diagonal(m0, |k.ix.facts|) {
      ScanExact(m0, k.mat, |k.ix.facts|);
    }
  }

  /** No fact of the initial state or the goal is among the unreachable ones. */
  ghost predicate Spares(init: State, goal: seq<Fact>, unreachable: set<Fact>) {
    forall f | f in unreachable :: !Holds(init, f) && f !in goal
  }

  ghost predicate GroupsSound(live: iset<State>, groups: seq<seq<Fact>>) {
    forall s, g | s in live && g in groups :: RespectsGroup(s, g)
  }

  lemma MoreGroups(live: iset<State>, groups: seq<seq<Fact>>, more: seq<seq<Fact>>)
    requires GroupsSound(live, groups) && forall s, g | s in live && g in more :: RespectsGroup(s, g)
    ensures GroupsSound(live, groups + more)
  {
  }

  lemma UnreachableNext(ix: Index, mat: Matrix, start: set<Fact>, before: set<Fact>, after: set<Fact>, a: nat, c: nat)
    requires ValidIndex(ix) && Square(mat, |ix.facts|) && a < |ix.facts| && c == a + 1
    requires UnreachableGrew(ix, mat, start, before, a)
    requires after == if mat[a][a] == NOT_REACHED then before + {ix.facts[a]} else before
    ensures UnreachableGrew(ix, mat, start, after, c)
  {
  }

  /** The matrix with which a progression pass starts. */
  ghost predicate ProgressionMatrix(ix: Index, was: Matrix, mat: Matrix, init: State)
    requires Square(was, |ix.facts|) && Square(mat, |ix.facts|)
  {
    forall a, b {:trigger mat[a][b]} {:trigger was[a][b]} | 0 <= a < |ix.facts| && 0 <= b < |ix.facts| ::
      mat[a][b] == StartCell(was[a][b], a in TrueProps(ix, init) && b in TrueProps(ix, init))
  }

  function StartCell(was: Reachability, reached: bool): Reachability {
    if was == SPURIOUS then SPURIOUS else if reached then REACHED else NOT_REACHED
  }

  /** The matrix with which a regression pass starts. */
  ghost predicate RegressionMatrix(ix: Index, inc: map<Fact, set<Fact>>, was: Matrix, mat: Matrix, goal: seq<Fact>)
    requires Square(was, |ix.facts|) && Square(mat, |ix.facts|)
  {
    forall a, b {:trigger mat[a][b]} {:trigger was[a][b]} | 0 <= a < |ix.facts| && 0 <= b < |ix.facts| ::
      mat[a][b] == StartCell(was[a][b], !AgainstGoal(ix, inc, goal, ix.facts[a]) && !AgainstGoal(ix, inc, goal, ix.facts[b]))
  }

  // ---- the starting knowledge ----

  /** The facts are values of different variables and share a mutex group. */
  ghost predicate ShareGroup(groups: seq<seq<Fact>>, f: Fact, g: Fact) {
    f.v != g.v && exists group | group in groups :: f in group && g in group
  }

  ghost predicate SameVariable(ix: Index, p: nat, q: nat)
    requires p < |ix.facts| && q < |ix.facts|
  {
    p != q && ix.facts[p].v == ix.facts[q].v
  }

  ghost function GroupPairs(groups: seq<seq<Fact>>): iset<(Fact, Fact)> {
    iset f, g | ShareGroup(groups, f, g) :: (f, g)
  }

  /** A pair is spurious iff it names two values of a variable or is listed, and exactly the listed
      pairs are inconsistent. */
  ghost predicate KnowsPairs(k: Knowledge, pairs: iset<(Fact, Fact)>) {
    && ValidIndex(k.ix) && Square(k.mat, |k.ix.facts|)
    && (forall p, q {:trigger k.mat[p][q]} | 0 <= p < |k.ix.facts| && 0 <= q < |k.ix.facts| ::
          k.mat[p][q] == if SameVariable(k.ix, p, q) || (k.ix.facts[p], k.ix.facts[q]) in pairs then SPURIOUS else NOT_REACHED)
    && k.inconsistent.Keys == k.ix.prop.Keys
    && (forall f, g {:trigger g in k.inconsistent[f]} {:trigger (f, g) in pairs} | f in k.inconsistent ::
          g in k.inconsistent[f] <==> g in k.ix.prop && (f, g) in pairs)
    && k.unreachable == {}
  }

  /** Pairs of facts of different variables, in both orders. */
  ghost predicate PairSet(pairs: iset<(Fact, Fact)>) {
    forall f, g | (f, g) in pairs :: f.v != g.v && (g, f) in pairs
  }

  lemma PairRecorded(k: Knowledge, next: Matrix, pairs: iset<(Fact, Fact)>, f: Fact, g: Fact)
    requires KnowsPairs(k, pairs) && f in k.ix.prop && g in k.ix.prop && f.v != g.v
    requires Square(next, |k.ix.facts|)
    requires forall p, q {:trigger next[p][q]} | 0 <= p < |k.ix.facts| && 0 <= q < |k.ix.facts| ::
               next[p][q] == if (p == k.ix.prop[f] && q == k.ix.prop[g]) || (p == k.ix.prop[g] && q == k.ix.prop[f])
                             then SPURIOUS else k.mat[p][q]
    ensures var inc := k.inconsistent[f := k.inconsistent[f] + {g}];
            KnowsPairs(k.(mat := next, inconsistent := inc[g := inc[g] + {f}]), pairs + iset{(f, g), (g, f)})
  {
  }

  /** Knowledge read from correct mutex groups contradicts no live state. */
  lemma InitialKnowledgeSound(k: Knowledge, groups: seq<seq<Fact>>, live: iset<State>)
    requires KnowsPairs(k, GroupPairs(groups))
    requires forall s | s in live :: ValidState(k.ix.ranges, s)
    requires GroupsSound(live, groups)
    ensures SoundFor(k, live)
  {
    var pairs := GroupPairs(groups);
    assert PairSet(pairs) by {
      forall f, g | (f, g) in pairs
        ensures f.v != g.v && (g, f) in pairs
      {
        assert ShareGroup(groups, g, f);
      }
    }
    assert WellFormed(k);
    forall s | s in live
      ensures Allows(k, s)
    {
      forall f, g | (f, g) in pairs
        ensures !(Holds(s, f) && Holds(s, g))
      {
        var group :| group in groups && f in group && g in group;
        assert RespectsGroup(s, group);
      }
    }
  }

  /** Two facts of different variables, one from each list, in either order. */
  ghost predicate RowPair(p: (Fact, Fact), row: seq<Fact>, group: seq<Fact>) {
    p.0.v != p.1.v && ((p.0 in row && p.1 in group) || (p.1 in row && p.0 in group))
  }
}
