/** The h^2 preprocessor: the shared mutex matrix, operator disambiguation, and the alternation
    of progression and regression passes. */
module H2 {
  import opened Sas
  import opened H2Theory
  import opened H2Instantiate
  import opened H2Knowledge
  import opened H2Rounds
  import opened H2Scan

  class H2Mutexes {
    const ix: Index
    const m: array2<Reachability>
    var inconsistent: map<Fact, set<Fact>>
    var unreachable: set<Fact>
    var staticFluents: set<Fact>
    var ops: seq<OpH2>

    /** initialize */
    constructor (ranges: seq<nat>, groups: seq<seq<Fact>>)
      requires forall group, f | group in groups && f in group :: ValidFact(ranges, f)
      ensures m.Length0 == m.Length1 == |ix.facts| && fresh(m) && ix.ranges == ranges
      ensures KnowsPairs(Recorded(), GroupPairs(groups))
    {
      var index := BuildIndex(ranges);
      ix := index;
      m := new Reachability[|index.facts|, |index.facts|]((p, q) => NOT_REACHED);
      inconsistent := map f | f in index.prop :: {};
      unreachable, staticFluents, ops := {}, {}, [];
      new;
      MarkSameVariable();
      assert KnowsPairs(Recorded(), iset{});
      RecordGroups(groups);
    }

    method MarkSameVariable()
      requires m.Length0 == m.Length1 == |ix.facts|
      requires forall p, q | 0 <= p < |ix.facts| && 0 <= q < |ix.facts| :: m[p, q] == NOT_REACHED
      modifies m
      ensures forall p, q | 0 <= p < |ix.facts| && 0 <= q < |ix.facts| ::
                m[p, q] == if SameVariable(ix, p, q) then SPURIOUS else NOT_REACHED
    {
      for a := 0 to |ix.facts|
        invariant forall p, q | 0 <= p < |ix.facts| && 0 <= q < |ix.facts| ::
                    m[p, q] == if p < a && SameVariable(ix, p, q) then SPURIOUS else NOT_REACHED
      {
        for b := 0 to |ix.facts|
          invariant forall p, q | 0 <= p < |ix.facts| && 0 <= q < |ix.facts| ::
                      m[p, q] == if Done(a, b, p, q) && SameVariable(ix, p, q) then SPURIOUS else NOT_REACHED
        {
          if a != b && ix.facts[a].v == ix.facts[b].v {
            m[a, b] := SPURIOUS;
          }
        }
      }
    }

    ghost predicate Knows(pairs: iset<(Fact, Fact)>)
      reads this, m
    {
      m.Length0 == m.Length1 == |ix.facts| && KnowsPairs(Recorded(), pairs)
    }

    method RecordGroups(groups: seq<seq<Fact>>)
      requires Knows(iset{})
      requires forall group, f | group in groups && f in group :: f in ix.prop
      modifies m, this`inconsistent
      ensures Knows(GroupPairs(groups))
    {
      assert GroupPairs([]) == iset{};
      for i := 0 to |groups|
        invariant Knows(GroupPairs(groups[..i]))
      {
        RecordGroup(GroupPairs(groups[..i]), groups[i]);
        assert groups[..i + 1] == groups[..i] + [groups[i]];
        assert GroupPairs(groups[..i + 1]) == GroupPairs(groups[..i]) + GroupPairs([groups[i]]);
      }
      assert groups[..|groups|] == groups;
    }

    /** Record every pair of one group (h2_mutexes.cc:260-294). */
    method RecordGroup(ghost pairs: iset<(Fact, Fact)>, group: seq<Fact>)
      requires Knows(pairs) && forall f | f in group :: f in ix.prop
      modifies m, this`inconsistent
      ensures Knows(pairs + GroupPairs([group]))
    {
      ghost var now := pairs;
      for j := 0 to |group|
        invariant Knows(now)
        invariant forall p :: p in now <==> p in pairs || RowPair(p, group[..j], group)
      {
        now := RecordRow(now, group[j], group);
        assert group[..j + 1] == group[..j] + [group[j]];
      }
      assert group[..|group|] == group;
      forall p: (Fact, Fact)
        ensures p in GroupPairs([group]) <==> RowPair(p, group, group)
      {
        assert group in [group];
        assert ShareGroup([group], p.0, p.1) <==> RowPair(p, group, group);
      }
      assert now == pairs + GroupPairs([group]);
    }

    method RecordRow(ghost pairs: iset<(Fact, Fact)>, f: Fact, group: seq<Fact>) returns (ghost now: iset<(Fact, Fact)>)
      requires Knows(pairs) && f in ix.prop && forall g | g in group :: g in ix.prop
      modifies m, this`inconsistent
      ensures Knows(now)
      ensures forall p :: p in now <==> p in pairs || RowPair(p, [f], group)
    {
      now := pairs;
      for i := 0 to |group|
        invariant Knows(now)
        invariant forall p :: p in now <==> p in pairs || RowPair(p, [f], group[..i])
      {
        assert group[..i + 1] == group[..i] + [group[i]];
        if f.v != group[i].v {
          now := RecordPairOnce(now, f, group[i]);
        }
      }
      assert group[..|group|] == group;
    }

    method RecordPairOnce(ghost pairs: iset<(Fact, Fact)>, f: Fact, g: Fact) returns (ghost now: iset<(Fact, Fact)>)
      requires Knows(pairs) && f in ix.prop && g in ix.prop && f.v != g.v
      modifies m, this`inconsistent
      ensures Knows(now) && now == pairs + iset{(f, g), (g, f)}
    {
      ghost var k := Recorded();
      inconsistent := inconsistent[f := inconsistent[f] + {g}];
      inconsistent := inconsistent[g := inconsistent[g] + {f}];
      m[ix.prop[f], ix.prop[g]] := SPURIOUS;
      m[ix.prop[g], ix.prop[f]] := SPURIOUS;
      PairRecorded(k, Mat(), pairs, f, g);
      assert Recorded() == k.(mat := Mat(), inconsistent := inconsistent);
      now := pairs + iset{(f, g), (g, f)};
    }

    ghost function Mat(): (mat: Matrix)
      requires m.Length0 == m.Length1
      reads m
      ensures Square(mat, m.Length0)
      ensures forall p, q | 0 <= p < m.Length0 && 0 <= q < m.Length0 :: mat[p][q] == m[p, q]
    {
      seq(m.Length0, p requires 0 <= p < m.Length0 reads m =>
        seq(m.Length1, q requires 0 <= q < m.Length1 reads m => m[p, q]))
    }

    /** Everything recorded so far. */
    ghost function Recorded(): Knowledge
      requires m.Length0 == m.Length1
      reads this, m
    {
      Knowledge(ix, Mat(), inconsistent, unreachable)
    }

    ghost predicate Valid() reads this, m {
      m.Length0 == m.Length1 == |ix.facts| && WellFormed(Recorded())
    }

    predicate AreMutex(f: Fact, g: Fact)
      requires Valid() && f in ix.prop && g in ix.prop
      reads this, m
      ensures AreMutex(f, g) == Mutex(Recorded(), f, g)
    {
      if f.v == g.v then f.x != g.x else m[ix.prop[f], ix.prop[g]] == SPURIOUS
    }

    /** setPropositionNotReached */
    method SetPropositionNotReached(p: nat)
      requires m.Length0 == m.Length1 == |ix.facts| && p < |ix.facts|
      modifies m
      ensures forall a, b | 0 <= a < |ix.facts| && 0 <= b < |ix.facts| ::
                m[a, b] == if (a == p || b == p) && old(m[a, b]) == REACHED then NOT_REACHED else old(m[a, b])
    {
      for q := 0 to |ix.facts|
        invariant forall a, b | 0 <= a < |ix.facts| && 0 <= b < |ix.facts| ::
                    m[a, b] == if ((a == p && b < q) || (b == p && a < q)) && old(m[a, b]) == REACHED
                               then NOT_REACHED else old(m[a, b])
      {
        if m[p, q] == REACHED {
          m[p, q] := NOT_REACHED;
        }
        if m[q, p] == REACHED {
          m[q, p] := NOT_REACHED;
        }
      }
    }

    ghost predicate Applying(mat0: Matrix, ops0: seq<OpH2>, o: OpH2)
      reads this, m
    {
      m.Length0 == m.Length1 == |ix.facts| && Passing(mat0, Mat(), m.Length0, ops0, o)
    }

    /** Mark a pair in both orders. */
    method Reach(ghost mat0: Matrix, ghost ops0: seq<OpH2>, ghost o: OpH2, p: nat, q: nat)
      requires Applying(mat0, ops0, o) && p < m.Length0 && q < m.Length0 && m[p, q] == NOT_REACHED
      requires InLeast(mat0, m.Length0, ops0, p, q) && InLeast(mat0, m.Length0, ops0, q, p)
      modifies m
      ensures Applying(mat0, ops0, o)
      ensures Grows(old(Mat()), Mat(), m.Length0) && Mat() != old(Mat())
      ensures m[p, q] == REACHED
    {
      ghost var cur := Mat();
      m[p, q], m[q, p] := REACHED, REACHED;
      ReachKeepsPassing(mat0, cur, Mat(), m.Length0, ops0, o, p, q);
    }

    /** Pairs of facts the operator adds together (h2_mutexes.cc:499-505). */
    method AddAdd(ghost mat0: Matrix, ghost ops0: seq<OpH2>, o: OpH2, p: nat) returns (changed: bool)
      requires Applying(mat0, ops0, o) && p in o.add
      modifies m
      ensures Applying(mat0, ops0, o) && Grows(old(Mat()), Mat(), m.Length0)
      ensures changed <==> Mat() != old(Mat())
      ensures !changed ==> forall q | q in o.add :: Mat()[p][q] != NOT_REACHED
    {
      changed := false;
      ghost var start := Mat();
      for j := 0 to |o.add|
        invariant Applying(mat0, ops0, o) && Grows(start, Mat(), m.Length0)
        invariant changed <==> Mat() != start
        invariant !changed ==> forall i | 0 <= i < j :: Mat()[p][o.add[i]] != NOT_REACHED
      {
        var q := o.add[j];
        if m[p, q] == NOT_REACHED {
          ghost var cur := Mat();
          AddAddStaysWithin(mat0, cur, m.Length0, ops0, o, p, q);
          Reach(mat0, ops0, o, p, q);
          GrowsTransitive(start, cur, Mat(), m.Length0);
          changed := true;
        }
      }
    }

    /** Pairs of an added fact and one that persists (h2_mutexes.cc:508-535). */
    method AddPersist(ghost mat0: Matrix, ghost ops0: seq<OpH2>, o: OpH2, p: nat) returns (changed: bool)
      requires Applying(mat0, ops0, o) && p in o.add
      modifies m
      ensures Applying(mat0, ops0, o) && Grows(old(Mat()), Mat(), m.Length0)
      ensures changed <==> Mat() != old(Mat())
      ensures !changed ==> forall q: nat | q < m.Length0 && Persists(Mat(), m.Length0, o, q) :: Mat()[p][q] != NOT_REACHED
    {
      changed := false;
      ghost var start := Mat();
      for q := 0 to |ix.facts|
        invariant Applying(mat0, ops0, o) && Grows(start, Mat(), m.Length0)
        invariant changed <==> Mat() != start
        invariant !changed ==> forall i: nat | i < q && Persists(start, m.Length0, o, i) :: start[p][i] != NOT_REACHED
      {
        if m[q, q] == REACHED && m[p, q] == NOT_REACHED && q !in o.add && q !in o.del {
          var satisfied := AllReachedWith(o.pre, q);
          if satisfied {
            ghost var cur := Mat();
            AddPersistStaysWithin(mat0, cur, m.Length0, ops0, o, p, q);
            Reach(mat0, ops0, o, p, q);
            GrowsTransitive(start, cur, Mat(), m.Length0);
            changed := true;
          }
        }
      }
    }

    method AllReachedWith(pre: seq<nat>, q: nat) returns (satisfied: bool)
      requires m.Length0 == m.Length1 && InRange(pre, m.Length0) && q < m.Length0
      ensures satisfied <==> forall r | r in pre :: Mat()[q][r] == REACHED
    {
      satisfied := true;
      var i := 0;
      while satisfied && i < |pre|
        invariant 0 <= i <= |pre|
        invariant satisfied <==> forall j | 0 <= j < i :: Mat()[q][pre[j]] == REACHED
      {
        satisfied := m[q, pre[i]] == REACHED;
        i := i + 1;
      }
      assert !satisfied ==> exists j | 0 <= j < i :: pre[j] in pre && Mat()[q][pre[j]] != REACHED;
    }

    /** eval_propositions */
    method EvalPropositions(props: seq<nat>) returns (reached: bool)
      requires m.Length0 == m.Length1 && InRange(props, m.Length0)
      ensures reached <==> NoneUnreached(Mat(), m.Length0, props)
    {
      for i := 0 to |props|
        invariant forall a, b | 0 <= a < i && a <= b < |props| :: Mat()[props[a]][props[b]] != NOT_REACHED
      {
        for j := i to |props|
          invariant forall b | i <= b < j :: Mat()[props[i]][props[b]] != NOT_REACHED
        {
          if m[props[i], props[j]] == NOT_REACHED {
            return false;
          }
        }
      }
      return true;
    }

    ghost predicate InPass(mat0: Matrix, ops0: seq<OpH2>) reads this, m {
      m.Length0 == m.Length1 == |ix.facts| && PassState(mat0, Mat(), m.Length0, ops0, ops)
    }

    /** Try one operator against the matrix (h2_mutexes.cc:487-536). */
    method ApplyOperator(ghost mat0: Matrix, ghost ops0: seq<OpH2>, i: nat) returns (changed: bool)
      requires InPass(mat0, ops0) && i < |ops|
      modifies m, this`ops
      ensures InPass(mat0, ops0) && Grows(old(Mat()), Mat(), m.Length0)
      ensures changed <==> Mat() != old(Mat())
      ensures |ops| == |old(ops)| && forall j | 0 <= j < |ops| && j != i :: ops[j] == old(ops[j])
      ensures !changed ==> ValidOp(ops[i], m.Length0) && Settled(Mat(), m.Length0, ops[i])
    {
      changed := false;
      var o := ops[i];
      if o.triggered == SPURIOUS {
        return;
      }
      if o.triggered != REACHED {
        var reached := EvalPropositions(o.pre);
        ops := ops[i := o.(triggered := if reached then REACHED else NOT_REACHED)];
        if !reached {
          return;
        }
      }
      ghost var start := Mat();
      changed := AddAll(mat0, ops0, o.(triggered := NOT_REACHED));
      PassStateGrows(mat0, start, Mat(), m.Length0, ops0, ops);
    }

    /** Extend the matrix with everything the triggered operator allows. */
    method AddAll(ghost mat0: Matrix, ghost ops0: seq<OpH2>, o: OpH2) returns (changed: bool)
      requires Applying(mat0, ops0, o)
      modifies m
      ensures Applying(mat0, ops0, o) && Grows(old(Mat()), Mat(), m.Length0)
      ensures changed <==> Mat() != old(Mat())
      ensures !changed ==> ClosedUnder(Mat(), m.Length0, o)
    {
      changed := false;
      ghost var start := Mat();
      for j := 0 to |o.add|
        invariant Applying(mat0, ops0, o) && Grows(start, Mat(), m.Length0)
        invariant changed <==> Mat() != start
        invariant !changed ==> forall l | 0 <= l < j :: ClosedAt(start, m.Length0, o, o.add[l])
      {
        var more := AddNext(mat0, ops0, start, o, j, changed);
        changed := changed || more;
      }
    }

    method AddNext(ghost mat0: Matrix, ghost ops0: seq<OpH2>, ghost start: Matrix, o: OpH2, j: nat, ghost changed: bool) returns (more: bool)
      requires Applying(mat0, ops0, o) && Square(start, m.Length0) && Grows(start, Mat(), m.Length0) && j < |o.add|
      requires changed <==> Mat() != start
      modifies m
      ensures Applying(mat0, ops0, o) && Grows(start, Mat(), m.Length0)
      ensures changed || more <==> Mat() != start
      ensures !changed && !more ==> ClosedAt(start, m.Length0, o, o.add[j])
    {
      ghost var cur := Mat();
      more := AddOne(mat0, ops0, o, o.add[j]);
      GrowsTransitive(start, cur, Mat(), m.Length0);
    }

    /** All pairs of one added proposition. */
    method AddOne(ghost mat0: Matrix, ghost ops0: seq<OpH2>, o: OpH2, p: nat) returns (changed: bool)
      requires Applying(mat0, ops0, o) && p in o.add
      modifies m
      ensures Applying(mat0, ops0, o) && Grows(old(Mat()), Mat(), m.Length0)
      ensures changed <==> Mat() != old(Mat())
      ensures !changed ==> ClosedAt(Mat(), m.Length0, o, p)
    {
      ghost var cur := Mat();
      var addedTogether := AddAdd(mat0, ops0, o, p);
      ghost var mid := Mat();
      var persisted := AddPersist(mat0, ops0, o, p);
      GrowsTransitive(cur, mid, Mat(), m.Length0);
      changed := addedTogether || persisted;
    }

    /** The main loop of compute (h2_mutexes.cc:477-538).  The time limit may expire at any check. */
    method Saturate() returns (timeout: bool)
      requires m.Length0 == m.Length1 == |ix.facts| && Symmetric(Mat(), m.Length0)
      requires forall o | o in ops :: ValidOp(o, m.Length0) && o.triggered != REACHED
      modifies m, this`ops
      ensures InPass(old(Mat()), old(ops))
      ensures !timeout ==> forall i | 0 <= i < |ops| :: ValidOp(ops[i], m.Length0) && Settled(Mat(), m.Length0, ops[i])
      ensures !timeout ==> forall p, q | 0 <= p < m.Length0 && 0 <= q < m.Length0 ::
                Mat()[p][q] == REACHED <==> InLeast(old(Mat()), m.Length0, old(ops), p, q)
    {
      ghost var mat0, ops0 := Mat(), ops;
      timeout := false;
      var updated := true;
      while updated
        invariant InPass(mat0, ops0)
        invariant !updated ==> forall i | 0 <= i < |ops| :: ValidOp(ops[i], m.Length0) && Settled(Mat(), m.Length0, ops[i])
        decreases Unreached(Mat(), m.Length0), updated
      {
        ghost var start := Mat();
        timeout, updated := Sweep(mat0, ops0);
        if timeout {
          return;
        }
        GrowthShrinksUnreached(start, Mat(), m.Length0);
      }
      SettledIsLeast(mat0, Mat(), m.Length0, ops0, ops);
    }

    method Sweep(ghost mat0: Matrix, ghost ops0: seq<OpH2>) returns (timeout: bool, updated: bool)
      requires InPass(mat0, ops0)
      modifies m, this`ops
      ensures InPass(mat0, ops0) && Grows(old(Mat()), Mat(), m.Length0)
      ensures !timeout ==> (updated <==> Mat() != old(Mat()))
      ensures !timeout && !updated ==>
                forall i | 0 <= i < |ops| :: ValidOp(ops[i], m.Length0) && Settled(Mat(), m.Length0, ops[i])
    {
      timeout, updated := false, false;
      ghost var start := Mat();
      for i := 0 to |ops|
        invariant InPass(mat0, ops0) && Grows(start, Mat(), m.Length0) && |ops| == |ops0|
        invariant updated <==> Mat() != start
        invariant !updated ==> forall j | 0 <= j < i :: ValidOp(ops[j], m.Length0) && Settled(start, m.Length0, ops[j])
      {
        if i % 10000 == 0 {
          timeout := *;
          if timeout {
            return;
          }
        }
        ghost var cur := Mat();
        var changed := ApplyOperator(mat0, ops0, i);
        GrowsTransitive(start, cur, Mat(), m.Length0);
        updated := updated || changed;
      }
    }

    /** init_values_progression: false if the initial state contains a spurious pair. */
    method InitProgression(init: State) returns (ok: bool)
      requires Valid() && ValidState(ix.ranges, init)
      modifies m
      ensures ok <==> NoSpurious(old(Mat()), |ix.facts|, TrueProps(ix, init))
      ensures ok ==> ProgressionMatrix(ix, old(Mat()), Mat(), init)
    {
      SetAll(NOT_REACHED);
      ok := MarkState(init);
    }

    method MarkState(init: State) returns (ok: bool)
      requires m.Length0 == m.Length1 == |ix.facts| && ValidIndex(ix) && ValidState(ix.ranges, init)
      requires forall a, b | 0 <= a < |ix.facts| && 0 <= b < |ix.facts| :: m[a, b] != REACHED
      modifies m
      ensures ok <==> NoSpurious(old(Mat()), |ix.facts|, TrueProps(ix, init))
      ensures ok ==> forall a, b | 0 <= a < |ix.facts| && 0 <= b < |ix.facts| ::
                m[a, b] == InitCell(old(m[a, b]), init, a, b, |init|, 0)
    {
      ghost var n := |ix.facts|;
      for i := 0 to |init|
        invariant forall a, b | 0 <= a < n && 0 <= b < n :: m[a, b] == InitCell(old(m[a, b]), init, a, b, i, 0)
        invariant forall a, b | 0 <= a < n && 0 <= b < n && InitPair(init, a, b, i, 0) :: m[a, b] == REACHED
      {
        ghost var cur := Mat();
        ok := MarkRow(init, i);
        if !ok {
          ghost var a, b :| 0 <= a < n && 0 <= b < n && InitPair(init, a, b, |init|, 0) && cur[a][b] == SPURIOUS;
          assert a in TrueProps(ix, init) && b in TrueProps(ix, init);
          return;
        }
      }
      return true;
    }

    method MarkRow(init: State, i: nat) returns (ok: bool)
      requires m.Length0 == m.Length1 == |ix.facts| && ValidIndex(ix) && ValidState(ix.ranges, init) && i < |init|
      modifies m
      ensures ok ==> forall a, b | 0 <= a < |ix.facts| && 0 <= b < |ix.facts| ::
                m[a, b] == if InitPair(init, a, b, |init|, 0) && ix.facts[a].v == i then REACHED else old(m[a, b])
      ensures ok <==> forall a, b | 0 <= a < |ix.facts| && 0 <= b < |ix.facts| && InitPair(init, a, b, |init|, 0)
                                    && ix.facts[a].v == i :: old(m[a, b]) != SPURIOUS
    {
      var p := ix.prop[Fact(i, init[i])];
      assert Holds(init, ix.facts[p]);
      for j := 0 to |init|
        invariant forall a, b | 0 <= a < |ix.facts| && 0 <= b < |ix.facts| ::
                    m[a, b] == if a == p && Holds(init, ix.facts[b]) && ix.facts[b].v < j then REACHED else old(m[a, b])
        invariant forall b | 0 <= b < |ix.facts| && Holds(init, ix.facts[b]) && ix.facts[b].v < j :: old(m[p, b]) != SPURIOUS
      {
        var q := ix.prop[Fact(j, init[j])];
        if m[p, q] == SPURIOUS {
          assert InitPair(init, p, q, |init|, 0);
          return false;
        }
        if m[p, q] == NOT_REACHED {
          m[p, q] := REACHED;
        }
      }
      return true;
    }

    ghost predicate InitPair(init: State, a: nat, b: nat, i: nat, j: nat)
      requires a < |ix.facts| && b < |ix.facts|
    {
      Holds(init, ix.facts[a]) && Holds(init, ix.facts[b]) && Done(i, j, ix.facts[a].v, ix.facts[b].v)
    }

    ghost function InitCell(was: Reachability, init: State, a: nat, b: nat, i: nat, j: nat): Reachability
      requires a < |ix.facts| && b < |ix.facts|
    {
      if was == SPURIOUS then SPURIOUS
      else if InitPair(init, a, b, i, j) then REACHED
      else NOT_REACHED
    }

    /** init_values_regression: false if the goal contains a spurious pair. */
    method InitRegression(goal: seq<Fact>) returns (ok: bool)
      requires Valid() && InIndex(ix, goal)
      modifies m
      ensures ok <==> forall a, b | 0 <= a < |ix.facts| && 0 <= b < |ix.facts| && ix.facts[a] in goal && ix.facts[b] in goal ::
                old(m[a, b]) != SPURIOUS
      ensures ok ==> RegressionMatrix(ix, inconsistent, old(Mat()), Mat(), goal)
    {
      var props := PushFacts(ix, goal, []);
      ok := NoneSpurious(props);
      ListedPairs(ix, Mat(), goal, props);
      if !ok {
        return;
      }
      ResetForGoal(goal);
    }

    method ResetForGoal(goal: seq<Fact>)
      requires Valid() && InIndex(ix, goal)
      modifies m
      ensures RegressionMatrix(ix, inconsistent, old(Mat()), Mat(), goal)
    {
      SetAll(REACHED);
      ResetAgainst(goal);
    }

    /** check_goal_state_is_unreachable, negated: no listed goal fact is mutex with another. */
    method NoneSpurious(props: seq<nat>) returns (ok: bool)
      requires m.Length0 == m.Length1 && InRange(props, m.Length0)
      ensures ok <==> forall i, j | 0 <= i < |props| && 0 <= j < |props| :: m[props[i], props[j]] != SPURIOUS
    {
      for i := 0 to |props|
        invariant forall l, j | 0 <= l < i && 0 <= j < |props| :: m[props[l], props[j]] != SPURIOUS
      {
        for j := 0 to |props|
          invariant forall l | 0 <= l < j :: m[props[i], props[l]] != SPURIOUS
        {
          if m[props[i], props[j]] == SPURIOUS {
            return false;
          }
        }
      }
      return true;
    }

    method ResetAgainst(goal: seq<Fact>)
      requires m.Length0 == m.Length1 == |ix.facts| && ValidIndex(ix) && ValidInconsistent(ix, inconsistent) && InIndex(ix, goal)
      modifies m
      ensures forall a, b | 0 <= a < |ix.facts| && 0 <= b < |ix.facts| ::
                m[a, b] == if (AgainstGoal(ix, inconsistent, goal, ix.facts[a]) || AgainstGoal(ix, inconsistent, goal, ix.facts[b]))
                              && old(m[a, b]) == REACHED then NOT_REACHED else old(m[a, b])
    {
      for i := 0 to |goal|
        invariant forall a, b | 0 <= a < |ix.facts| && 0 <= b < |ix.facts| ::
                    m[a, b] == if (AgainstGoal(ix, inconsistent, goal[..i], ix.facts[a]) || AgainstGoal(ix, inconsistent, goal[..i], ix.facts[b]))
                                  && old(m[a, b]) == REACHED then NOT_REACHED else old(m[a, b])
      {
        assert goal[..i + 1] == goal[..i] + [goal[i]];
        var against := PushExcluded(ix, inconsistent, goal[i], []);
        ResetAll(against);
      }
      assert goal[..|goal|] == goal;
    }

    /** Every cell that is not SPURIOUS gets the given value. */
    method SetAll(value: Reachability)
      requires m.Length0 == m.Length1 == |ix.facts|
      modifies m
      ensures forall a, b | 0 <= a < |ix.facts| && 0 <= b < |ix.facts| ::
                m[a, b] == if old(m[a, b]) == SPURIOUS then SPURIOUS else value
    {
      ghost var n := |ix.facts|;
      for i := 0 to |ix.facts|
        invariant forall a, b | 0 <= a < n && 0 <= b < n ::
                    m[a, b] == if a < i && old(m[a, b]) != SPURIOUS then value else old(m[a, b])
      {
        for j := 0 to |ix.facts|
          invariant forall a, b | 0 <= a < n && 0 <= b < n ::
                      m[a, b] == if Done(i, j, a, b) && old(m[a, b]) != SPURIOUS then value else old(m[a, b])
        {
          if m[i, j] != SPURIOUS {
            m[i, j] := value;
          }
        }
      }
    }

    method ResetAll(props: seq<nat>)
      requires m.Length0 == m.Length1 == |ix.facts| && InRange(props, |ix.facts|)
      modifies m
      ensures forall a, b | 0 <= a < |ix.facts| && 0 <= b < |ix.facts| ::
                m[a, b] == if (a in props || b in props) && old(m[a, b]) == REACHED then NOT_REACHED else old(m[a, b])
    {
      for i := 0 to |props|
        invariant forall a, b | 0 <= a < |ix.facts| && 0 <= b < |ix.facts| ::
                    m[a, b] == if (a in props[..i] || b in props[..i]) && old(m[a, b]) == REACHED
                               then NOT_REACHED else old(m[a, b])
      {
        SetPropositionNotReached(props[i]);
        assert props[..i + 1] == props[..i] + [props[i]];
      }
      assert props[..|props|] == props;
    }

    ghost predicate Marks(m0: Matrix, live: iset<State>, a: nat, b: nat)
      reads this, m
    {
      m.Length0 == m.Length1 == |ix.facts| && Marking(Recorded(), m0, live, a, b)
    }

    /** set_unreachable: refuses a fact of the initial state or the goal. */
    method SetUnreachable(f: Fact, init: State, goal: seq<Fact>) returns (ok: bool)
      requires m.Length0 == m.Length1 == |ix.facts| && ValidIndex(ix) && f in ix.prop
      modifies m, this`unreachable
      ensures ok <==> !Holds(init, f) && f !in goal
      ensures unreachable == if ok then old(unreachable) + {f} else old(unreachable)
      ensures forall a, b | 0 <= a < |ix.facts| && 0 <= b < |ix.facts| ::
                m[a, b] == if ok && (a == ix.prop[f] || b == ix.prop[f]) && old(m[a, b]) == REACHED
                           then NOT_REACHED else old(m[a, b])
    {
      if Holds(init, f) || f in goal {
        return false;
      }
      unreachable := unreachable + {f};
      SetPropositionNotReached(ix.prop[f]);
      return true;
    }

    /** One cell of the final scan (h2_mutexes.cc:566-598). */
    method MarkCell(ghost k: Knowledge, ghost m0: Matrix, ghost live: iset<State>, a: nat, b: nat, ghost c: nat, init: State, goal: seq<Fact>)
      returns (unsolvable: bool, found: bool, more: seq<seq<Fact>>)
      requires Marks(m0, live, a, b) && k == Recorded() && Anchored(live, init, goal)
      requires a < |ix.facts| && b < |ix.facts| && c == b + 1
      modifies m, this`unreachable, this`inconsistent
      ensures unsolvable ==> live == iset{}
      ensures !unsolvable ==> Marks(m0, live, a, c) && CellScanned(k, Recorded(), m0, init, goal, a, b, found, more)
    {
      unsolvable, found, more := false, false, [];
      var unreached := MarkOne(m0, live, a, b, c);
      if unreached {
        if a == b {
          unsolvable, found := MarkFact(m0, live, a, c, init, goal);
        } else if m[a, a] == REACHED && m[b, b] == REACHED {
          found := true;
          more := MarkPair(m0, live, a, b, c);
        }
      }
      if found {
        assert (a, b) in Unreached(m0, |ix.facts|);
      }
    }

    method MarkOne(ghost m0: Matrix, ghost live: iset<State>, a: nat, b: nat, ghost c: nat) returns (unreached: bool)
      requires a < |ix.facts| && b < |ix.facts| && c == b + 1 && Marks(m0, live, a, b)
      modifies m
      ensures Marks(m0, live, a, c)
      ensures unreached && a == b ==> m0[a][a] == NOT_REACHED
      ensures unreached && m[a, a] == REACHED && m[b, b] == REACHED ==> m0[a][b] == NOT_REACHED
      ensures !unreached ==> m0[a][b] != NOT_REACHED
      ensures (m[a, a] == REACHED <==> m0[a][a] == REACHED) && (m[b, b] == REACHED <==> m0[b][b] == REACHED)
    {
      ghost var k := Recorded();
      unreached := m[a, b] == NOT_REACHED;
      if unreached {
        m[a, b] := SPURIOUS;
      }
      MarkOnly(k, Mat(), m0, live, a, b);
      assert Recorded() == k.(mat := Mat());
    }

    method MarkFact(ghost m0: Matrix, ghost live: iset<State>, a: nat, ghost c: nat, init: State, goal: seq<Fact>)
      returns (unsolvable: bool, found: bool)
      requires a < |ix.facts| && c == a + 1 && Marks(m0, live, a, c) && m0[a][a] == NOT_REACHED && Anchored(live, init, goal)
      modifies m, this`unreachable
      ensures unsolvable ==> live == iset{}
      ensures !unsolvable ==> Marks(m0, live, a, c) && unreachable == old(unreachable) + {ix.facts[a]}
      ensures !unsolvable && !found ==> unreachable == old(unreachable)
      ensures !unsolvable ==> ix.facts[a] in old(unreachable) || (!Holds(init, ix.facts[a]) && ix.facts[a] !in goal)
    {
      unsolvable, found := false, false;
      ghost var k := Recorded();
      var f := ix.facts[a];
      if f !in unreachable {
        found := true;
        var ok := SetUnreachable(f, init, goal);
        if ok {
          RecordUnreachable(k, Mat(), m0, live, a, c);
          assert Recorded() == k.(mat := Mat(), unreachable := k.unreachable + {f});
        } else {
          AnchorUnreached(k, m0, live, a, init, goal);
          unsolvable := true;
        }
      }
    }

    method MarkPair(ghost m0: Matrix, ghost live: iset<State>, a: nat, b: nat, ghost c: nat) returns (more: seq<seq<Fact>>)
      requires a < |ix.facts| && b < |ix.facts| && a != b && Marks(m0, live, a, c) && m0[a][b] == NOT_REACHED
      modifies this`inconsistent
      ensures Marks(m0, live, a, c)
      ensures more == if ix.facts[a].v < ix.facts[b].v then [[ix.facts[a], ix.facts[b]]] else []
      ensures var f, g := ix.facts[a], ix.facts[b];
              inconsistent == old(inconsistent)[f := old(inconsistent)[f] + {g}][g := old(inconsistent)[g] + {f}]
    {
      ghost var k := Recorded();
      var f, g := ix.facts[a], ix.facts[b];
      inconsistent := inconsistent[f := inconsistent[f] + {g}][g := inconsistent[g] + {f}];
      RecordPair(k, inconsistent, m0, live, a, b, c);
      assert Recorded() == k.(inconsistent := inconsistent);
      more := if f.v < g.v then [[f, g]] else [];
    }

    /** Turn every unreached pair into a mutex and every unreached fact into an unreachable one
        (h2_mutexes.cc:564-598). */
    method MarkUnreached(ghost live: iset<State>, init: State, goal: seq<Fact>)
      returns (unsolvable: bool, count: nat, groups: seq<seq<Fact>>)
      requires Valid() && CoversLive(ix, Mat(), live) && Anchored(live, init, goal) && Spares(init, goal, unreachable)
      requires SideFactsSound(ix, inconsistent, unreachable, live)
      modifies m, this`unreachable, this`inconsistent
      ensures unsolvable ==> live == iset{}
      ensures !unsolvable ==> Valid() && SoundFor(Recorded(), live)
      ensures !unsolvable ==> NonSpurious(Mat(), |ix.facts|) <= NonSpurious(old(Mat()), |ix.facts|) - Unreached(old(Mat()), |ix.facts|)
      ensures !unsolvable && count > 0 ==> NonSpurious(Mat(), |ix.facts|) != NonSpurious(old(Mat()), |ix.facts|)
      ensures !unsolvable ==> UnreachableGrew(ix, old(Mat()), old(unreachable), unreachable, |ix.facts|)
      ensures !unsolvable && Diagonal(old(Mat()), |ix.facts|) ==> Decided(old(Mat()), Mat(), |ix.facts|)
      ensures GroupsSound(live, groups)
      ensures !unsolvable ==> Spares(init, goal, unreachable)
      ensures !unsolvable ==> groups == RowsGroups(ix, old(Mat()), |ix.facts|)
      ensures !unsolvable ==> inconsistent == RowsInconsistent(ix, old(Mat()), old(inconsistent), |ix.facts|)
      ensures !unsolvable && count == 0 ==> unreachable == old(unreachable) && inconsistent == old(inconsistent)
    {
      ghost var k := Recorded();
      unsolvable, count, groups := MarkRows(k, live, init, goal);
      if !unsolvable {
        ScanEnds(k.mat, Recorded(), live);
        ScanSpares(k, Recorded(), live, init, goal, count, groups);
        NewGroupsSound(ix, k.mat, live);
      }
    }

    method MarkRows(ghost k: Knowledge, ghost live: iset<State>, init: State, goal: seq<Fact>)
      returns (unsolvable: bool, count: nat, groups: seq<seq<Fact>>)
      requires Valid() && k == Recorded() && CoversLive(ix, k.mat, live) && Anchored(live, init, goal)
      requires SideFactsSound(ix, inconsistent, unreachable, live)
      modifies m, this`unreachable, this`inconsistent
      ensures unsolvable ==> live == iset{}
      ensures !unsolvable ==> (Recorded(), count, groups) in AfterRows(k, live, init, goal, |ix.facts|)
    {
      count, groups := 0, [];
      ScanStarts(k, live, init, goal);
      for a := 0 to |ix.facts|
        invariant (Recorded(), count, groups) in AfterRows(k, live, init, goal, a)
      {
        unsolvable, count, groups := MarkNextRow(k, live, a, a + 1, init, goal, count, groups);
        if unsolvable {
          return;
        }
      }
      unsolvable := false;
    }

    method MarkNextRow(ghost k: Knowledge, ghost live: iset<State>, a: nat, ghost c: nat, init: State, goal: seq<Fact>,
                       count0: nat, groups0: seq<seq<Fact>>)
      returns (unsolvable: bool, count: nat, groups: seq<seq<Fact>>)
      requires m.Length0 == m.Length1 && (Recorded(), count0, groups0) in AfterRows(k, live, init, goal, a)
      requires a < |ix.facts| && c == a + 1 && Anchored(live, init, goal)
      modifies m, this`unreachable, this`inconsistent
      ensures unsolvable ==> live == iset{}
      ensures !unsolvable ==> (Recorded(), count, groups) in AfterRows(k, live, init, goal, c)
    {
      ghost var r := Recorded();
      var found, more;
      RowBegins(k, r, live, init, goal, a, count0, groups0);
      unsolvable, found, more := MarkCells(r, k, live, a, init, goal);
      count, groups := count0 + found, groups0 + more;
      if !unsolvable {
        RowsNext(k, r, Recorded(), live, init, goal, a, c, count0, groups0, found, more);
      }
    }

    method MarkCells(ghost k: Knowledge, ghost k0: Knowledge, ghost live: iset<State>, a: nat, init: State, goal: seq<Fact>)
      returns (unsolvable: bool, count: nat, groups: seq<seq<Fact>>)
      requires m.Length0 == m.Length1 && k == Recorded() && Marking(k, k0.mat, live, a, 0)
      requires a < |ix.facts| && Anchored(live, init, goal)
      modifies m, this`unreachable, this`inconsistent
      ensures unsolvable ==> live == iset{}
      ensures !unsolvable ==> (Recorded(), count, groups) in AfterCells(k, k0.mat, live, init, goal, a, |ix.facts|)
    {
      count, groups := 0, [];
      CellsStart(k, k0.mat, live, init, goal, a);
      for b := 0 to |ix.facts|
        invariant (Recorded(), count, groups) in AfterCells(k, k0.mat, live, init, goal, a, b)
      {
        unsolvable, count, groups := MarkNext(k, k0, live, a, b, b + 1, init, goal, count, groups);
        if unsolvable {
          return;
        }
      }
      unsolvable := false;
    }

    method MarkNext(ghost k: Knowledge, ghost k0: Knowledge, ghost live: iset<State>, a: nat, b: nat, ghost c: nat, init: State, goal: seq<Fact>,
                    count0: nat, groups0: seq<seq<Fact>>)
      returns (unsolvable: bool, count: nat, groups: seq<seq<Fact>>)
      requires m.Length0 == m.Length1 && (Recorded(), count0, groups0) in AfterCells(k, k0.mat, live, init, goal, a, b)
      requires a < |ix.facts| && b < |ix.facts| && c == b + 1 && Anchored(live, init, goal)
      modifies m, this`unreachable, this`inconsistent
      ensures unsolvable ==> live == iset{}
      ensures !unsolvable ==> (Recorded(), count, groups) in AfterCells(k, k0.mat, live, init, goal, a, c)
    {
      ghost var r := Recorded();
      var found, more;
      CellBegins(k, r, k0.mat, live, init, goal, a, b, count0, groups0);
      unsolvable, found, more := MarkCell(r, k0.mat, live, a, b, c, init, goal);
      count, groups := count0 + if found then 1 else 0, groups0 + more;
      if !unsolvable {
        RowNext(k, r, Recorded(), k0.mat, live, init, goal, a, b, c, count0, groups0, found, more);
      }
    }

    /** detect_unreachable_fluents: facts inconsistent with the only value left of a variable. */
    method DetectUnreachable(ghost live: iset<State>, init: State, goal: seq<Fact>)
      returns (unsolvable: bool, count: nat)
      requires Valid() && SoundFor(Recorded(), live) && Anchored(live, init, goal) && Spares(init, goal, unreachable)
      modifies m, this`unreachable, this`staticFluents
      ensures unsolvable ==> live == iset{}
      ensures !unsolvable ==> Valid() && SoundFor(Recorded(), live) && Spares(init, goal, unreachable)
      ensures !unsolvable ==> old(unreachable) <= unreachable && (count > 0 <==> unreachable != old(unreachable))
      ensures !unsolvable ==> SameSpurious(old(Mat()), Mat(), |ix.facts|)
      ensures !unsolvable ==> forall f | f in ix.prop && OnlyValue(f) :: f in staticFluents
      ensures !unsolvable ==> old(staticFluents) <= staticFluents && StaticClosed(old(staticFluents))
    {
      unsolvable, count := false, 0;
      var found := true;
      while found
        invariant !unsolvable && Valid() && SoundFor(Recorded(), live) && Spares(init, goal, unreachable)
        invariant old(unreachable) <= unreachable && (count > 0 <==> unreachable != old(unreachable))
        invariant SameSpurious(old(Mat()), Mat(), |ix.facts|)
        invariant !found ==> forall f | f in ix.prop && OnlyValue(f) :: f in staticFluents
        invariant old(staticFluents) <= staticFluents && StaticClosed(old(staticFluents))
        decreases ix.prop.Keys - unreachable, found
      {
        var removed;
        unsolvable, removed := DetectStatic(old(staticFluents), live, init, goal);
        if unsolvable {
          return;
        }
        found := removed > 0;
        count := count + removed;
      }
    }

    /** The facts inconsistent with each newly static one are unreachable. */
    ghost predicate StaticClosed(before: set<Fact>)
      reads this
    {
      forall f | f in staticFluents && f !in before :: f in inconsistent && inconsistent[f] <= unreachable
    }

    /** One sweep over the variables (h2_mutexes.cc:115-143). */
    method DetectStatic(ghost before: set<Fact>, ghost live: iset<State>, init: State, goal: seq<Fact>)
      returns (unsolvable: bool, count: nat)
      requires Valid() && SoundFor(Recorded(), live) && Anchored(live, init, goal) && Spares(init, goal, unreachable)
      requires StaticClosed(before)
      modifies m, this`unreachable, this`staticFluents
      ensures unsolvable ==> live == iset{}
      ensures !unsolvable ==> Valid() && SoundFor(Recorded(), live) && Spares(init, goal, unreachable)
      ensures !unsolvable ==> old(unreachable) <= unreachable && (count > 0 <==> unreachable != old(unreachable))
      ensures !unsolvable ==> SameSpurious(old(Mat()), Mat(), |ix.facts|)
      ensures !unsolvable && count == 0 ==> forall f | f in ix.prop && OnlyValue(f) :: f in staticFluents
      ensures !unsolvable ==> old(staticFluents) <= staticFluents && StaticClosed(before)
    {
      unsolvable, count := false, 0;
      for i := 0 to |ix.ranges|
        invariant !unsolvable && Valid() && SoundFor(Recorded(), live) && Spares(init, goal, unreachable)
        invariant old(unreachable) <= unreachable && (count > 0 <==> unreachable != old(unreachable))
        invariant SameSpurious(old(Mat()), Mat(), |ix.facts|)
        invariant count == 0 ==> forall f | f in ix.prop && OnlyValue(f) && f.v < i :: f in staticFluents
        invariant old(staticFluents) <= staticFluents && StaticClosed(before)
      {
        var removed;
        unsolvable, removed := CheckVariable(i, before, live, init, goal);
        if unsolvable {
          return;
        }
        count := count + removed;
      }
    }

    method CheckVariable(i: nat, ghost before: set<Fact>, ghost live: iset<State>, init: State, goal: seq<Fact>)
      returns (unsolvable: bool, removed: nat)
      requires Valid() && SoundFor(Recorded(), live) && Anchored(live, init, goal) && Spares(init, goal, unreachable)
      requires StaticClosed(before) && i < |ix.ranges|
      modifies m, this`unreachable, this`staticFluents
      ensures unsolvable ==> live == iset{}
      ensures !unsolvable ==> Valid() && SoundFor(Recorded(), live) && Spares(init, goal, unreachable)
      ensures !unsolvable ==> old(unreachable) <= unreachable && (removed > 0 <==> unreachable != old(unreachable))
      ensures !unsolvable ==> SameSpurious(old(Mat()), Mat(), |ix.facts|)
      ensures !unsolvable && removed == 0 ==> forall f | f in ix.prop && OnlyValue(f) && f.v == i :: f in staticFluents
      ensures !unsolvable ==> old(staticFluents) <= staticFluents && StaticClosed(before)
    {
      unsolvable, removed := false, 0;
      var only := OnlyReachable(i);
      if only.Some? && Fact(i, only.value) !in staticFluents {
        unsolvable, removed := AddStatic(Fact(i, only.value), before, live, init, goal);
      }
      assert forall f | f in ix.prop && f.v == i :: f == Fact(i, f.x) && f.x < ix.ranges[i];
    }

    method AddStatic(f: Fact, ghost before: set<Fact>, ghost live: iset<State>, init: State, goal: seq<Fact>)
      returns (unsolvable: bool, removed: nat)
      requires Valid() && SoundFor(Recorded(), live) && Anchored(live, init, goal) && Spares(init, goal, unreachable)
      requires StaticClosed(before) && f in ix.prop && OnlyValue(f)
      modifies m, this`unreachable, this`staticFluents
      ensures unsolvable ==> live == iset{}
      ensures !unsolvable ==> Valid() && SoundFor(Recorded(), live) && Spares(init, goal, unreachable)
      ensures !unsolvable ==> old(unreachable) <= unreachable && (removed > 0 <==> unreachable != old(unreachable))
      ensures !unsolvable ==> SameSpurious(old(Mat()), Mat(), |ix.facts|)
      ensures !unsolvable ==> staticFluents == old(staticFluents) + {f} && StaticClosed(before)
    {
      unsolvable, removed := RemoveInconsistent(f, live, init, goal);
      if unsolvable {
        return;
      }
      staticFluents := staticFluents + {f};
    }

    /** All other values of the fact's variable are unreachable, and the fact itself is not. */
    ghost predicate OnlyValue(f: Fact)
      requires ValidIndex(ix) && f in ix.prop
      reads this
    {
      f !in unreachable && forall x: nat | x < ix.ranges[f.v] && x != f.x :: Fact(f.v, x) in unreachable
    }

    method OnlyReachable(i: nat) returns (only: Option<nat>)
      requires ValidIndex(ix) && i < |ix.ranges|
      ensures only.Some? ==> only.value < ix.ranges[i] && OnlyValue(Fact(i, only.value))
      ensures only.None? ==> forall x: nat | x < ix.ranges[i] :: !OnlyValue(Fact(i, x))
    {
      only := None;
      var count := 0;
      var j := 0;
      while count < 2 && j < ix.ranges[i]
        invariant 0 <= j <= ix.ranges[i]
        invariant count == 0 ==> forall x: nat | x < j :: Fact(i, x) in unreachable
        invariant count == 1 ==> only.Some? && only.value < j && Fact(i, only.value) !in unreachable
        invariant count == 1 ==> forall x: nat | x < j && x != only.value :: Fact(i, x) in unreachable
        invariant count == 2 ==> exists x: nat, y: nat | x < y < j :: Fact(i, x) !in unreachable && Fact(i, y) !in unreachable
        invariant count <= 2
      {
        if Fact(i, j) !in unreachable {
          count := count + 1;
          only := Some(j);
        }
        j := j + 1;
      }
      if count != 1 {
        only := None;
      }
    }

    method RemoveInconsistent(f: Fact, ghost live: iset<State>, init: State, goal: seq<Fact>)
      returns (unsolvable: bool, removed: nat)
      requires Valid() && SoundFor(Recorded(), live) && Anchored(live, init, goal) && Spares(init, goal, unreachable)
      requires f in ix.prop && OnlyValue(f)
      modifies m, this`unreachable
      ensures unsolvable ==> live == iset{}
      ensures !unsolvable ==> Valid() && SoundFor(Recorded(), live) && Spares(init, goal, unreachable)
      ensures !unsolvable ==> unreachable == old(unreachable) + inconsistent[f]
      ensures !unsolvable ==> (removed > 0 <==> unreachable != old(unreachable))
      ensures !unsolvable ==> SameSpurious(old(Mat()), Mat(), |ix.facts|)
    {
      unsolvable, removed := false, 0;
      ghost var k0 := Recorded();
      var rest := inconsistent[f];
      while rest != {}
        invariant rest <= inconsistent[f] && !unsolvable && Valid() && SoundFor(Recorded(), live)
        invariant Spares(init, goal, unreachable)
        invariant unreachable == old(unreachable) + (inconsistent[f] - rest)
        invariant removed > 0 <==> unreachable != old(unreachable)
        invariant SameSpurious(old(Mat()), Mat(), |ix.facts|)
      {
        var g :| g in rest;
        rest := rest - {g};
        if g !in unreachable {
          forall s | s in live
            ensures !Holds(s, g)
          {
            OnlyValueHolds(k0, live, f, s);
          }
          unsolvable := RemoveDead(g, live, init, goal);
          if unsolvable {
            return;
          }
          removed := removed + 1;
        }
      }
    }

    method RemoveDead(g: Fact, ghost live: iset<State>, init: State, goal: seq<Fact>) returns (unsolvable: bool)
      requires Valid() && SoundFor(Recorded(), live) && Anchored(live, init, goal) && Spares(init, goal, unreachable)
      requires g in ix.prop && forall s | s in live :: !Holds(s, g)
      modifies m, this`unreachable
      ensures unsolvable ==> live == iset{}
      ensures !unsolvable ==> Valid() && SoundFor(Recorded(), live) && Spares(init, goal, unreachable)
      ensures !unsolvable ==> unreachable == old(unreachable) + {g}
      ensures !unsolvable ==> SameSpurious(old(Mat()), Mat(), |ix.facts|)
    {
      ghost var k := Recorded();
      var ok := SetUnreachable(g, init, goal);
      if ok {
        DeadFactRecorded(k, Mat(), live, g);
        assert Recorded() == k.(mat := Mat(), unreachable := k.unreachable + {g});
      }
      unsolvable := !ok;
    }
  }

  /** The listed propositions are those of the facts. */
  lemma ListedPairs(ix: Index, mat: Matrix, fs: seq<Fact>, props: seq<nat>)
    requires ValidIndex(ix) && Square(mat, |ix.facts|) && InRange(props, |ix.facts|)
    requires forall p: nat :: p in props <==> p < |ix.facts| && ix.facts[p] in fs
    ensures (forall i, j | 0 <= i < |props| && 0 <= j < |props| :: mat[props[i]][props[j]] != SPURIOUS) <==>
            forall a, b | 0 <= a < |ix.facts| && 0 <= b < |ix.facts| && ix.facts[a] in fs && ix.facts[b] in fs :: mat[a][b] != SPURIOUS
  {
    if forall i, j | 0 <= i < |props| && 0 <= j < |props| :: mat[props[i]][props[j]] != SPURIOUS {
      forall a, b | 0 <= a < |ix.facts| && 0 <= b < |ix.facts| && ix.facts[a] in fs && ix.facts[b] in fs
        ensures mat[a][b] != SPURIOUS
      {
        assert a in props && b in props;
      }
    }
    assert forall i | 0 <= i < |props| :: props[i] in props;
  }

  // ---- disambiguation (Operator::remove_ambiguity) ----

  method FactConditions(ix: Index, fs: seq<Fact>, pre0: seq<Option<nat>>, known0: seq<Known>)
    returns (pre: seq<Option<nat>>, known: seq<Known>)
    requires InDomain(ix, pre0) && KnownInDomain(ix, known0)
    requires forall f | f in fs :: ValidFact(ix.ranges, f) && pre0[f.v].None?
    requires forall i, j | 0 <= i < j < |fs| :: fs[i].v != fs[j].v
    ensures InDomain(ix, pre) && KnownInDomain(ix, known)
    ensures forall v, x: nat | 0 <= v < |pre| :: pre[v] == Some(x) <==> pre0[v] == Some(x) || Fact(v, x) in fs
    ensures forall k :: k in known <==> k in known0 || (k.x.Some? && Fact(k.v, k.x.value) in fs)
    ensures forall v | 0 <= v < |pre| && pre0[v].None? && (forall f | f in fs :: f.v != v) :: pre[v].None?
  {
    pre, known := pre0, known0;
    for j := 0 to |fs|
      invariant InDomain(ix, pre) && KnownInDomain(ix, known)
      invariant forall v, x: nat | 0 <= v < |pre| :: pre[v] == Some(x) <==> pre0[v] == Some(x) || Fact(v, x) in fs[..j]
      invariant forall k :: k in known <==> k in known0 || (k.x.Some? && Fact(k.v, k.x.value) in fs[..j])
      invariant forall v | 0 <= v < |pre| && pre0[v].None? && (forall f | f in fs[..j] :: f.v != v) :: pre[v].None?
    {
      var f := fs[j];
      assert fs[..j + 1] == fs[..j] + [f];
      assert f in fs;
      pre := pre[f.v := Some(f.x)];
      known := known + [Known(f.v, Some(f.x))];
    }
    assert fs[..|fs|] == fs;
  }

  method EffectConditions(ix: Index, op: SasOperator, pre0: seq<Option<nat>>, known0: seq<Known>)
    returns (pre: seq<Option<nat>>, known: seq<Known>)
    requires ValidOperator(ix.ranges, op) && Plain(op) && InDomain(ix, pre0) && KnownInDomain(ix, known0)
    requires forall e | e in op.prePost :: pre0[e.v].None?
    ensures InDomain(ix, pre) && KnownInDomain(ix, known)
    ensures Collected(op.prePost, pre0, known0, pre, known)
  {
    pre, known := pre0, known0;
    for j := 0 to |op.prePost|
      invariant InDomain(ix, pre) && KnownInDomain(ix, known)
      invariant Collected(op.prePost[..j], pre0, known0, pre, known)
    {
      var e := op.prePost[j];
      assert op.prePost[..j + 1] == op.prePost[..j] + [e];
      assert e in op.prePost;
      CollectNext(op.prePost[..j], pre0, known0, pre, known, e);
      pre := pre[e.v := e.pre];
      known := known + [Known(e.v, e.pre)];
    }
    assert op.prePost[..|op.prePost|] == op.prePost;
  }

  ghost predicate HasKnown(effects: seq<Effect>, n: Known) {
    exists e | e in effects :: n == Known(e.v, e.pre)
  }

  /** The conditions of the effects are added to the recorded values and to the known ones. */
  ghost predicate Collected(effects: seq<Effect>, pre0: seq<Option<nat>>, known0: seq<Known>, pre: seq<Option<nat>>, known: seq<Known>) {
    && |pre| == |pre0|
    && (forall v, x: nat | 0 <= v < |pre| :: pre[v] == Some(x) <==> pre0[v] == Some(x) || HasPre(effects, v, x))
    && (forall n :: n in known <==> n in known0 || HasKnown(effects, n))
  }

  lemma CollectNext(effects: seq<Effect>, pre0: seq<Option<nat>>, known0: seq<Known>, pre: seq<Option<nat>>, known: seq<Known>, e: Effect)
    requires Collected(effects, pre0, known0, pre, known) && e.v < |pre| && pre0[e.v].None?
    requires forall d | d in effects :: d.v != e.v
    ensures Collected(effects + [e], pre0, known0, pre[e.v := e.pre], known + [Known(e.v, e.pre)])
  {
    forall v, x: nat
      ensures HasPre(effects + [e], v, x) <==> HasPre(effects, v, x) || (e.v == v && e.pre == Some(x))
    {
      assert e in effects + [e];
    }
    forall n
      ensures HasKnown(effects + [e], n) <==> HasKnown(effects, n) || n == Known(e.v, e.pre)
    {
      assert e in effects + [e];
    }
  }

  /** Collect the conditions and the known values (operator.cc:133-163). */
  method Conditions(ix: Index, op: SasOperator, augmented: seq<Fact>) returns (pre: seq<Option<nat>>, known: seq<Known>)
    requires ValidIndex(ix) && ValidOperator(ix.ranges, op) && Plain(op) && ValidAugmented(ix, op, augmented)
    ensures InDomain(ix, pre) && IsConditions(op, augmented, pre)
    ensures KnownInDomain(ix, known) && KnownIn(known, pre)
    ensures forall v | 0 <= v < |pre| && pre[v].Some? :: Known(v, pre[v]) in known
    ensures op.prePost != [] ==> known != []
  {
    var pre1, known1 := FactConditions(ix, op.prevail, seq(|ix.ranges|, _ => None), []);
    var pre2, known2 := EffectConditions(ix, op, pre1, known1);
    pre, known := FactConditions(ix, augmented, pre2, known2);
    ConditionsListed(op, augmented, pre, known, known2);
  }

  lemma ConditionsListed(op: SasOperator, augmented: seq<Fact>, pre: seq<Option<nat>>, known: seq<Known>, known2: seq<Known>)
    requires Plain(op)
    requires forall f, e {:trigger f in augmented, e in op.prePost} | f in augmented && e in op.prePost && f.v == e.v :: e.pre.None?
    requires forall v, x: nat | 0 <= v < |pre| :: pre[v] == Some(x) <==>
               Fact(v, x) in op.prevail || HasPre(op.prePost, v, x) || Fact(v, x) in augmented
    requires forall n :: n in known2 <==> (n.x.Some? && Fact(n.v, n.x.value) in op.prevail) || HasKnown(op.prePost, n)
    requires forall n :: n in known <==> n in known2 || (n.x.Some? && Fact(n.v, n.x.value) in augmented)
    requires forall n | n in known :: n.v < |pre|
    ensures IsConditions(op, augmented, pre)
    ensures KnownIn(known, pre)
    ensures forall v | 0 <= v < |pre| && pre[v].Some? :: Known(v, pre[v]) in known
    ensures op.prePost != [] ==> known != []
  {
    if op.prePost != [] {
      assert op.prePost[0] in op.prePost && HasKnown(op.prePost, Known(op.prePost[0].v, op.prePost[0].pre));
    }
    PostsAndPres(op.prePost);
    assert forall v, x: nat :: HasPre(op.prePost, v, x) <==> Fact(v, x) in Pres(op.prePost);
    forall n | n in known && n.x.Some?
      ensures pre[n.v] == n.x
    {
      assert Fact(n.v, n.x.value) in op.prevail || HasPre(op.prePost, n.v, n.x.value) || Fact(n.v, n.x.value) in augmented;
    }
    forall v | 0 <= v < |pre| && pre[v].Some?
      ensures Known(v, pre[v]) in known
    {
      var x := pre[v].value;
      assert pre[v] == Some(x);
      if HasPre(op.prePost, v, x) {
        assert Known(v, Some(x)) in known2;
      }
    }
  }

  /** Whether some condition is unreachable or two are mutex (operator.cc:166-179). */
  method Conflicting(h2: H2Mutexes, pre: seq<Option<nat>>) returns (conflict: bool)
    requires h2.Valid() && InDomain(h2.ix, pre)
    ensures conflict <==> Conflict(h2.Recorded(), pre, |pre|)
  {
    for i := 0 to |pre|
      invariant !Conflict(h2.Recorded(), pre, i)
    {
      if pre[i].Some? {
        var f := Fact(i, pre[i].value);
        if f in h2.unreachable {
          return true;
        }
        for j := i + 1 to |pre|
          invariant forall l | i < l < j && pre[l].Some? :: !Mutex(h2.Recorded(), f, Fact(l, pre[l].value))
        {
          if pre[j].Some? && h2.AreMutex(f, Fact(j, pre[j].value)) {
            return true;
          }
        }
      }
    }
    return false;
  }

  ghost predicate Ready(h2: H2Mutexes, k: Knowledge, op: SasOperator, effects: seq<Fact>)
    reads h2, h2.m
  {
    && h2.Valid() && k == h2.Recorded()
    && Plain(op) && effects == Posts(op.prePost) && InIndex(k.ix, effects)
  }

  /** Filter the domain of `v` (operator.cc:204-222). */
  method Survivors(h2: H2Mutexes, ghost k: Knowledge, op: SasOperator, v: nat, known: seq<Known>, effects: seq<Fact>) returns (left: seq<nat>)
    requires Ready(h2, k, op, effects) && v < |k.ix.ranges| && KnownInDomain(k.ix, known)
    ensures forall x: nat :: x in left <==> x < k.ix.ranges[v] && Survives(k, op, known, v, x)
    ensures forall i, j | 0 <= i < j < |left| :: left[i] != left[j]
  {
    left := [];
    for x := 0 to h2.ix.ranges[v]
      invariant forall y: nat :: y in left <==> y < x && Survives(k, op, known, v, y)
      invariant forall i, j | 0 <= i < j < |left| :: left[i] != left[j]
    {
      var mutex := Eliminated(h2, k, op, v, x, known, effects);
      if !mutex {
        left := left + [x];
      }
    }
  }

  method Eliminated(h2: H2Mutexes, ghost k: Knowledge, op: SasOperator, v: nat, x: nat, known: seq<Known>, effects: seq<Fact>)
    returns (mutex: bool)
    requires Ready(h2, k, op, effects) && Fact(v, x) in k.ix.prop && KnownInDomain(k.ix, known)
    ensures mutex <==> !Survives(k, op, known, v, x)
  {
    var f := Fact(v, x);
    if f in h2.unreachable {
      return true;
    }
    mutex := MutexWithKnown(h2, k, known, f);
    if !mutex && !Affects(op.prePost, v) {
      mutex := MutexWithFact(h2, k, effects, f);
    }
  }

  method MutexWithKnown(h2: H2Mutexes, ghost k: Knowledge, known: seq<Known>, f: Fact) returns (mutex: bool)
    requires h2.Valid() && k == h2.Recorded() && f in k.ix.prop && KnownInDomain(k.ix, known)
    ensures mutex <==> exists n | n in known :: MutexKnown(k, n, f)
  {
    for i := 0 to |known|
      invariant forall j | 0 <= j < i :: !MutexKnown(k, known[j], f)
    {
      if known[i].x.Some? && h2.AreMutex(Fact(known[i].v, known[i].x.value), f) {
        assert MutexKnown(k, known[i], f);
        return true;
      }
    }
    return false;
  }

  method MutexWithFact(h2: H2Mutexes, ghost k: Knowledge, effects: seq<Fact>, f: Fact) returns (mutex: bool)
    requires h2.Valid() && k == h2.Recorded() && f in k.ix.prop && InIndex(k.ix, effects)
    ensures mutex <==> exists g | g in effects :: Mutex(k, g, f)
  {
    for i := 0 to |effects|
      invariant forall j | 0 <= j < i :: !Mutex(k, effects[j], f)
    {
      if h2.AreMutex(effects[i], f) {
        assert effects[i] in effects;
        return true;
      }
    }
    return false;
  }

  /** What the surviving values of one variable say about the operator. */
  datatype Verdict = Impossible | Determined(x: nat) | Undetermined

  method Decide(h2: H2Mutexes, ghost k: Knowledge, op: SasOperator, ghost augmented: seq<Fact>, ghost pre: seq<Option<nat>>, v: nat,
                known: seq<Known>, effects: seq<Fact>) returns (r: Verdict)
    requires Ready(h2, k, op, effects) && InDomain(k.ix, pre) && Sound(k, op, augmented, pre)
    requires KnownInDomain(k.ix, known) && KnownIn(known, pre) && v < |k.ix.ranges|
    ensures r.Impossible? ==> forall s, s' :: !Step(k, op, augmented, s, s')
    ensures r.Determined? ==> r.x < k.ix.ranges[v] && Sound(k, op, augmented, pre[v := Some(r.x)])
    ensures r.Undetermined? ==> TwoSurvive(k, op, known, v)
    ensures r.Impossible? <==> Left(k, op, known, v) == {}
    ensures Only(Left(k, op, known, v)) == if r.Determined? then Some(r.x) else None
  {
    var left := Survivors(h2, k, op, v, known, effects);
    ListedLeft(k, op, known, v, left);
    LeftDecides(k, op, augmented, pre, known, v, left);
    if left == [] {
      return Impossible;
    } else if |left| == 1 {
      return Determined(left[0]);
    } else {
      return Undetermined;
    }
  }

  lemma LeftDecides(k: Knowledge, op: SasOperator, augmented: seq<Fact>, pre: seq<Option<nat>>, known: seq<Known>, v: nat, left: seq<nat>)
    requires WellFormed(k) && Plain(op) && InDomain(k.ix, pre) && Sound(k, op, augmented, pre) && KnownIn(known, pre)
    requires InIndex(k.ix, Posts(op.prePost)) && v < |k.ix.ranges|
    requires forall x: nat :: x in left <==> x < k.ix.ranges[v] && Survives(k, op, known, v, x)
    requires forall i, j | 0 <= i < j < |left| :: left[i] != left[j]
    ensures left == [] ==> forall s, s' :: !Step(k, op, augmented, s, s')
    ensures |left| == 1 ==> left[0] < k.ix.ranges[v] && Sound(k, op, augmented, pre[v := Some(left[0])])
    ensures |left| > 1 ==> TwoSurvive(k, op, known, v)
  {
    SurvivorsDecide(k, op, augmented, pre, known, v, left);
    if |left| == 1 {
      assert left[0] in left;
      SoundExtended(k, op, augmented, pre, v, left[0]);
    }
  }

  lemma ListedLeft(k: Knowledge, op: SasOperator, known: seq<Known>, v: nat, left: seq<nat>)
    requires WellFormed(k) && KnownInDomain(k.ix, known) && InIndex(k.ix, Posts(op.prePost)) && v < |k.ix.ranges|
    requires forall x: nat :: x in left <==> x < k.ix.ranges[v] && Survives(k, op, known, v, x)
    requires forall i, j | 0 <= i < j < |left| :: left[i] != left[j]
    ensures left == [] <==> Left(k, op, known, v) == {}
    ensures Only(Left(k, op, known, v)) == if |left| == 1 then Some(left[0]) else None
  {
    var xs := Left(k, op, known, v);
    assert forall x :: x in xs <==> x in left;
    if |left| == 1 {
      assert xs == {left[0]};
    } else if |left| > 1 {
      assert left[0] in xs && left[1] in xs && left[0] != left[1];
    }
  }

  /** One round over the unknown variables in ascending order (operator.cc:197-236). */
  method Round(h2: H2Mutexes, ghost k: Knowledge, op: SasOperator, ghost augmented: seq<Fact>, pre0: seq<Option<nat>>,
               known: seq<Known>, effects: seq<Fact>)
    returns (dead: bool, pre: seq<Option<nat>>, aux: seq<Known>)
    requires Ready(h2, k, op, effects) && InDomain(k.ix, pre0) && Sound(k, op, augmented, pre0)
    requires KnownInDomain(k.ix, known) && KnownIn(known, pre0)
    ensures dead ==> forall s, s' :: !Step(k, op, augmented, s, s')
    ensures !dead ==> InDomain(k.ix, pre) && Sound(k, op, augmented, pre) && Extends(pre0, pre)
    ensures !dead ==> KnownInDomain(k.ix, aux) && KnownIn(aux, pre)
    ensures !dead ==> Unknown(pre) <= Unknown(pre0) && (aux != [] ==> Unknown(pre) != Unknown(pre0))
    ensures !dead ==> forall v | 0 <= v < |pre| && pre[v].None? :: TwoSurvive(k, op, known, v)
    ensures dead <==> Stuck(k, op, known, pre0)
    ensures !dead ==> pre == Next(k, op, known, pre0) && aux == News(pre0, pre, |pre|)
  {
    pre, aux, dead := pre0, [], false;
    RoundStarts(k, op, augmented, known, pre0);
    for v := 0 to |pre0|
      invariant !dead && InRound(k, op, augmented, known, pre0, pre, aux, v)
    {
      dead, pre, aux := DecideNext(h2, k, op, augmented, pre0, pre, aux, v, v + 1, known, effects);
      if dead {
        return;
      }
    }
    RoundOver(k, op, augmented, known, pre0, pre, aux);
  }

  lemma RoundStarts(k: Knowledge, op: SasOperator, augmented: seq<Fact>, known: seq<Known>, pre0: seq<Option<nat>>)
    requires CanRound(k, op, known, pre0) && Sound(k, op, augmented, pre0) && KnownIn(known, pre0)
    ensures InRound(k, op, augmented, known, pre0, pre0, [], 0)
  {
  }

  lemma RoundOver(k: Knowledge, op: SasOperator, augmented: seq<Fact>, known: seq<Known>, pre0: seq<Option<nat>>,
                  pre: seq<Option<nat>>, aux: seq<Known>)
    requires CanRound(k, op, known, pre0) && |pre| == |pre0| && InRound(k, op, augmented, known, pre0, pre, aux, |pre|)
    ensures InDomain(k.ix, pre) && Sound(k, op, augmented, pre) && Extends(pre0, pre)
    ensures KnownInDomain(k.ix, aux) && KnownIn(aux, pre)
    ensures Unknown(pre) <= Unknown(pre0) && (aux != [] ==> Unknown(pre) != Unknown(pre0))
    ensures forall v | 0 <= v < |pre| && pre[v].None? :: TwoSurvive(k, op, known, v)
    ensures !Stuck(k, op, known, pre0) && pre == Next(k, op, known, pre0) && aux == News(pre0, pre, |pre|)
  {
    RoundEnds(k, op, known, pre0, pre, aux);
    NextFits(k, op, known, pre0);
  }

  ghost predicate InRound(k: Knowledge, op: SasOperator, augmented: seq<Fact>, known: seq<Known>, pre0: seq<Option<nat>>,
                          pre: seq<Option<nat>>, aux: seq<Known>, v: nat) {
    && RoundAt(k, op, known, pre0, pre, aux, v)
    && InDomain(k.ix, pre) && Sound(k, op, augmented, pre) && KnownIn(known, pre)
    && forall u | 0 <= u < v && pre[u].None? :: TwoSurvive(k, op, known, u)
  }

  /** One variable of a round. */
  method DecideNext(h2: H2Mutexes, ghost k: Knowledge, op: SasOperator, ghost augmented: seq<Fact>, ghost pre0: seq<Option<nat>>,
                    pre: seq<Option<nat>>, aux: seq<Known>, v: nat, ghost c: nat, known: seq<Known>, effects: seq<Fact>)
    returns (dead: bool, pre': seq<Option<nat>>, aux': seq<Known>)
    requires Ready(h2, k, op, effects) && InRound(k, op, augmented, known, pre0, pre, aux, v) && v < |pre| && c == v + 1
    ensures dead ==> (forall s, s' :: !Step(k, op, augmented, s, s')) && Stuck(k, op, known, pre0)
    ensures !dead ==> InRound(k, op, augmented, known, pre0, pre', aux', c)
  {
    dead, pre', aux' := false, pre, aux;
    if pre[v].Some? {
      Skips(k, op, augmented, known, pre0, pre, aux, v, c);
      return;
    }
    var verdict := Decide(h2, k, op, augmented, pre, v, known, effects);
    if verdict.Impossible? {
      assert pre0[v].None?;
      dead := true;
      return;
    }
    Advances(k, op, augmented, known, pre0, pre, aux, v, c, if verdict.Determined? then Some(verdict.x) else None);
    if verdict.Determined? {
      pre', aux' := pre[v := Some(verdict.x)], aux + [Known(v, Some(verdict.x))];
    }
  }

  lemma Skips(k: Knowledge, op: SasOperator, augmented: seq<Fact>, known: seq<Known>, pre0: seq<Option<nat>>,
              pre: seq<Option<nat>>, aux: seq<Known>, v: nat, c: nat)
    requires InRound(k, op, augmented, known, pre0, pre, aux, v) && v < |pre| && c == v + 1 && pre[v].Some?
    ensures InRound(k, op, augmented, known, pre0, pre, aux, c)
  {
    RoundSkips(k, op, known, pre0, pre, aux, v, c);
  }

  lemma Advances(k: Knowledge, op: SasOperator, augmented: seq<Fact>, known: seq<Known>, pre0: seq<Option<nat>>,
                 pre: seq<Option<nat>>, aux: seq<Known>, v: nat, c: nat, x: Option<nat>)
    requires InRound(k, op, augmented, known, pre0, pre, aux, v) && v < |pre| && c == v + 1 && pre[v].None?
    requires Left(k, op, known, v) != {} && Only(Left(k, op, known, v)) == x
    requires x.Some? ==> x.value < k.ix.ranges[v] && Sound(k, op, augmented, pre[v := x])
    requires x.None? ==> TwoSurvive(k, op, known, v)
    ensures InRound(k, op, augmented, known, pre0, if x.Some? then pre[v := x] else pre, if x.Some? then aux + [Known(v, x)] else aux, c)
  {
    var next := pre[v := x];
    assert x.None? ==> next == pre;
    RoundDecides(k, op, known, pre0, pre, aux, v, c, x);
    SetKeeps(k.ix, known, pre, v, x);
    forall u | 0 <= u < c && next[u].None?
      ensures TwoSurvive(k, op, known, u)
    {
      assert u < v ==> pre[u].None?;
    }
  }

  lemma SetKeeps(ix: Index, known: seq<Known>, pre: seq<Option<nat>>, v: nat, x: Option<nat>)
    requires InDomain(ix, pre) && KnownIn(known, pre) && v < |pre| && pre[v].None? && (x.Some? ==> x.value < ix.ranges[v])
    ensures InDomain(ix, pre[v := x]) && KnownIn(known, pre[v := x])
  {
  }

  /** The rounds of the source's while loop: each starts from the values the last one found. */
  method DisambiguateRounds(h2: H2Mutexes, ghost k: Knowledge, op: SasOperator, ghost augmented: seq<Fact>,
                            pre0: seq<Option<nat>>, known0: seq<Known>, effects: seq<Fact>)
    returns (dead: bool, pre: seq<Option<nat>>)
    requires Ready(h2, k, op, effects) && InDomain(k.ix, pre0) && Sound(k, op, augmented, pre0)
    requires KnownInDomain(k.ix, known0) && KnownIn(known0, pre0) && known0 != []
    ensures dead ==> forall s, s' :: !Step(k, op, augmented, s, s')
    ensures !dead ==> InDomain(k.ix, pre) && Sound(k, op, augmented, pre) && Extends(pre0, pre)
    ensures !dead ==> forall v | 0 <= v < |pre| && pre[v].None? :: TwoSurvive(k, op, known0, v)
    ensures dead <==> Rounds(k, op, known0, pre0).None?
    ensures !dead ==> Rounds(k, op, known0, pre0) == Some(pre)
  {
    pre, dead := pre0, false;
    var known := known0;
    while known != []
      invariant !dead && BetweenRounds(k, op, augmented, known0, pre0, known, pre)
      invariant known == known0 || forall v | 0 <= v < |pre| && pre[v].None? :: TwoSurvive(k, op, known0, v)
      decreases Unknown(pre), |known|
    {
      ghost var before := pre;
      RoundsUnfold(k, op, known, pre);
      dead, pre, known := Round(h2, k, op, augmented, pre, known, effects);
      if dead {
        return;
      }
      StillUnknown(before, pre);
    }
  }

  ghost predicate BetweenRounds(k: Knowledge, op: SasOperator, augmented: seq<Fact>, known0: seq<Known>, pre0: seq<Option<nat>>,
                                known: seq<Known>, pre: seq<Option<nat>>)
    requires CanRound(k, op, known0, pre0)
  {
    && CanRound(k, op, known, pre) && Rounds(k, op, known0, pre0) == Rounds(k, op, known, pre)
    && Sound(k, op, augmented, pre) && Extends(pre0, pre) && KnownIn(known, pre)
  }

  lemma StillUnknown(before: seq<Option<nat>>, after: seq<Option<nat>>)
    requires |before| == |after| && Unknown(after) <= Unknown(before)
    ensures forall v | 0 <= v < |after| && after[v].None? :: before[v].None?
  {
    assert forall v | 0 <= v < |after| && after[v].None? :: v in Unknown(after);
  }

  /** Values compatible with every condition, for the effects without a precondition
      (operator.cc:250-272). */
  method PotentialPreconditions(h2: H2Mutexes, ghost k: Knowledge, op: SasOperator, pre: seq<Option<nat>>)
    returns (potential: seq<Fact>)
    requires h2.Valid() && k == h2.Recorded() && ValidOperator(k.ix.ranges, op) && InDomain(k.ix, pre)
    ensures forall g :: g in potential <==> IsPotential(k, op, pre, g)
  {
    potential := [];
    for i := 0 to |op.prePost|
      invariant forall g :: g in potential <==> IsPotential(k, op, pre, g) && exists e | e in op.prePost[..i] :: e.v == g.v && e.pre.None?
    {
      var e := op.prePost[i];
      assert op.prePost[..i + 1] == op.prePost[..i] + [e];
      assert e in op.prePost;
      if e.pre.None? {
        if pre[e.v].Some? {
          potential := potential + [Fact(e.v, pre[e.v].value)];
        } else {
          var values := Compatible(h2, k, e.v, pre);
          potential := potential + values;
        }
      }
    }
    assert op.prePost[..|op.prePost|] == op.prePost;
  }

  method Compatible(h2: H2Mutexes, ghost k: Knowledge, v: nat, pre: seq<Option<nat>>) returns (values: seq<Fact>)
    requires h2.Valid() && k == h2.Recorded() && v < |k.ix.ranges| && InDomain(k.ix, pre)
    ensures forall g :: g in values <==>
              g.v == v && g in k.ix.prop && forall u | 0 <= u < |pre| && pre[u].Some? :: !Mutex(k, g, Fact(u, pre[u].value))
  {
    values := [];
    for j := 0 to h2.ix.ranges[v]
      invariant forall g :: g in values <==>
                  g.v == v && g.x < j && forall u | 0 <= u < |pre| && pre[u].Some? :: !Mutex(k, g, Fact(u, pre[u].value))
    {
      var f := Fact(v, j);
      var conflict := ConflictsWith(h2, k, f, pre);
      if !conflict {
        values := values + [f];
      }
    }
  }

  method ConflictsWith(h2: H2Mutexes, ghost k: Knowledge, f: Fact, pre: seq<Option<nat>>) returns (conflict: bool)
    requires h2.Valid() && k == h2.Recorded() && f in k.ix.prop && InDomain(k.ix, pre)
    ensures conflict <==> exists u | 0 <= u < |pre| && pre[u].Some? :: Mutex(k, f, Fact(u, pre[u].value))
  {
    for u := 0 to |pre|
      invariant forall w | 0 <= w < u && pre[w].Some? :: !Mutex(k, f, Fact(w, pre[w].value))
    {
      if pre[u].Some? && h2.AreMutex(f, Fact(u, pre[u].value)) {
        return true;
      }
    }
    return false;
  }

  class Operator {
    const sas: SasOperator
    var spurious: bool
    var augmented: seq<Fact>
    var potential: seq<Fact>

    constructor (op: SasOperator)
      ensures sas == op && !spurious && augmented == [] && potential == []
    {
      sas := op;
      spurious := false;
      augmented := [];
      potential := [];
    }

    ghost predicate Valid(ix: Index) reads this {
      && ValidOperator(ix.ranges, sas) && Plain(sas)
      && ValidAugmented(ix, sas, augmented)
      && InIndex(ix, potential) && PotentialsOnOpen(sas, potential)
    }

    predicate IsRedundant() reads this {
      spurious || sas.prePost == []
    }

    /** Remove ambiguity in the preconditions and detect whether the operator is spurious. */
    method RemoveAmbiguity(h2: H2Mutexes, ghost k: Knowledge)
      requires h2.Valid() && k == h2.Recorded() && Valid(k.ix)
      modifies this
      ensures Valid(k.ix)
      ensures old(IsRedundant()) ==> spurious == old(spurious) && augmented == old(augmented) && potential == old(potential)
      ensures !old(IsRedundant()) ==> KeepsSteps(k, sas, old(augmented), spurious, augmented, potential)
      ensures !old(IsRedundant()) && !spurious ==>
                InIndex(k.ix, Posts(sas.prePost)) && Disambiguated(k, sas, old(augmented), augmented, potential)
    {
      if IsRedundant() {
        return;
      }
      var dead, after, values := Disambiguate(h2, k, sas, augmented);
      if dead {
        spurious := true;
      } else {
        augmented := after;
        potential := values;
      }
    }
  }

  method Disambiguate(h2: H2Mutexes, ghost k: Knowledge, op: SasOperator, before: seq<Fact>)
    returns (dead: bool, after: seq<Fact>, potential: seq<Fact>)
    requires h2.Valid() && k == h2.Recorded()
    requires ValidOperator(k.ix.ranges, op) && Plain(op) && ValidAugmented(k.ix, op, before) && op.prePost != []
    ensures InIndex(k.ix, Posts(op.prePost))
    ensures dead ==> forall s, s' :: !Step(k, op, before, s, s')
    ensures !dead ==> ValidAugmented(k.ix, op, after) && InIndex(k.ix, potential) && PotentialsOnOpen(op, potential)
    ensures !dead ==> KeepsSteps(k, op, before, false, after, potential)
    ensures !dead ==> Disambiguated(k, op, before, after, potential)
  {
    PostsAndPres(op.prePost);
    var pre0, known := Conditions(h2.ix, op, before);
    ConditionsSound(k, op, before, pre0);
    var conflict := Conflicting(h2, pre0);
    if conflict {
      ConflictMeansNoStep(k, op, before, pre0);
      return true, before, [];
    }
    var pre;
    dead, pre := DisambiguateRounds(h2, k, op, before, pre0, known, Posts(op.prePost));
    if dead {
      return true, before, [];
    }
    var more := NewValues(pre0, pre);
    after := before + more;
    potential := PotentialPreconditions(h2, k, op, pre);
    PotentialsCoverSteps(k, op, before, pre, potential);
    AfterConditions(k, op, before, pre0, pre, more);
    AfterDisambiguated(k, op, before, pre0, pre, known, after, potential);
  }

  /** The values found by disambiguation, on variables that had no condition (operator.cc:243-245). */
  method NewValues(pre0: seq<Option<nat>>, pre: seq<Option<nat>>) returns (more: seq<Fact>)
    requires |pre0| == |pre|
    ensures forall f :: f in more <==> f.v < |pre| && pre0[f.v].None? && pre[f.v] == Some(f.x)
    ensures forall i, j | 0 <= i < j < |more| :: more[i].v != more[j].v
  {
    more := [];
    for i := 0 to |pre|
      invariant forall f :: f in more <==> f.v < i && pre0[f.v].None? && pre[f.v] == Some(f.x)
      invariant forall a, b | 0 <= a < b < |more| :: more[a].v != more[b].v
    {
      if pre[i].Some? && pre0[i].None? {
        assert forall j | 0 <= j < |more| :: more[j] in more;
        more := more + [Fact(i, pre[i].value)];
      }
    }
  }

  lemma AfterConditions(k: Knowledge, op: SasOperator, before: seq<Fact>, pre0: seq<Option<nat>>, pre: seq<Option<nat>>,
                        more: seq<Fact>)
    requires WellFormed(k) && Plain(op) && ValidAugmented(k.ix, op, before)
    requires InDomain(k.ix, pre0) && IsConditions(op, before, pre0)
    requires InDomain(k.ix, pre) && Extends(pre0, pre) && Sound(k, op, before, pre)
    requires forall f :: f in more <==> f.v < |pre| && pre0[f.v].None? && pre[f.v] == Some(f.x)
    requires forall i, j | 0 <= i < j < |more| :: more[i].v != more[j].v
    ensures ValidAugmented(k.ix, op, before + more) && IsConditions(op, before + more, pre)
    ensures forall s, s' | Step(k, op, before, s, s') :: HoldsAll(s, before + more)
  {
    NewValuesFit(k, op, before, pre0, pre, more);
    forall s, s' | Step(k, op, before, s, s')
      ensures HoldsAll(s, before + more)
    {
      assert Agrees(pre, s);
    }
    forall v, x: nat | 0 <= v < |pre|
      ensures pre[v] == Some(x) <==> ForwardPre(op, before + more, Fact(v, x))
    {
      assert pre0[v] == Some(x) <==> ForwardPre(op, before, Fact(v, x));
    }
  }

  lemma AfterDisambiguated(k: Knowledge, op: SasOperator, before: seq<Fact>, pre0: seq<Option<nat>>, pre: seq<Option<nat>>,
                           known: seq<Known>, after: seq<Fact>, potential: seq<Fact>)
    requires WellFormed(k) && InIndex(k.ix, Posts(op.prePost)) && before <= after
    requires InDomain(k.ix, pre0) && IsConditions(op, before, pre0) && !Conflict(k, pre0, |pre0|)
    requires InDomain(k.ix, pre) && IsConditions(op, after, pre)
    requires KnownInDomain(k.ix, known) && forall v | 0 <= v < |pre0| && pre0[v].Some? :: Known(v, pre0[v]) in known
    requires forall v | 0 <= v < |pre| && pre[v].None? :: TwoSurvive(k, op, known, v)
    requires forall g :: g in potential <==> IsPotential(k, op, pre, g)
    ensures Disambiguated(k, op, before, after, potential)
  {
    forall q0: seq<Option<nat>>, q: seq<Option<nat>>
      | InDomain(k.ix, q0) && InDomain(k.ix, q) && KnownInDomain(k.ix, KnownOf(q0))
        && IsConditions(op, before, q0) && IsConditions(op, after, q)
      ensures q0 == pre0 && q == pre
    {
      ConditionsUnique(op, before, q0, pre0);
      ConditionsUnique(op, after, q, pre);
    }
    forall v | 0 <= v < |pre| && pre[v].None?
      ensures KnownInDomain(k.ix, KnownOf(pre0)) && TwoSurvive(k, op, KnownOf(pre0), v)
    {
      TwoSurviveFewer(k, op, pre0, known, v);
    }
  }

  lemma NewValuesFit(k: Knowledge, op: SasOperator, before: seq<Fact>, pre0: seq<Option<nat>>, pre: seq<Option<nat>>, more: seq<Fact>)
    requires WellFormed(k) && Plain(op) && ValidAugmented(k.ix, op, before)
    requires InDomain(k.ix, pre0) && InDomain(k.ix, pre) && IsConditions(op, before, pre0)
    requires forall f :: f in more <==> f.v < |pre| && pre0[f.v].None? && pre[f.v] == Some(f.x)
    requires forall i, j | 0 <= i < j < |more| :: more[i].v != more[j].v
    ensures ValidAugmented(k.ix, op, before + more)
  {
    var after := before + more;
    PostsAndPres(op.prePost);
    forall f, g | f in more && ForwardPre(op, before, g)
      ensures f.v != g.v
    {
      assert g.v < |pre0| ==> pre0[g.v] == Some(g.x) by { assert g == Fact(g.v, g.x); }
    }
    forall i, j | 0 <= i < j < |after|
      ensures after[i].v != after[j].v
    {
      if i < |before| <= j {
        assert after[i] in before && after[j] in more && ForwardPre(op, before, after[i]);
      }
    }
    forall f, e | f in after && e in op.prePost && f.v == e.v
      ensures e.pre.None?
    {
      assert e.pre.Some? ==> ForwardPre(op, before, Fact(e.v, e.pre.value));
    }
    forall f, g | f in after && g in op.prevail
      ensures f.v != g.v
    {
      assert ForwardPre(op, before, g);
    }
  }
}
