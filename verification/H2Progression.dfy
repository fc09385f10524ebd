/** A pass reaches exactly the pairs that progression over sets of propositions reaches, when each set counts as possible
    as soon as all its pairs are (h2_mutexes.cc:477-538). */
module H2Progression {
  import opened Sas
  import opened H2Theory

  ghost predicate AllPairs(x: iset<(nat, nat)>, props: set<nat>) {
    forall p, q | p in props && q in props :: (p, q) in x
  }

  /** What is true after the operator is applied where exactly these propositions are true. */
  ghost predicate TrueAfter(o: OpH2, props: set<nat>, q: nat) {
    q in o.add || (q in props && q !in o.del)
  }

  ghost predicate AppliesIn(o: OpH2, x: iset<(nat, nat)>, props: set<nat>) {
    AllPairs(x, props) && forall p | p in o.pre :: p in props
  }

  /** `x` contains the start, and after any operator that applies in a set with all pairs in `x` all pairs are in `x` again,
      save for mutexes. */
  ghost predicate ProgressClosed(mat: Matrix, n: nat, ops: seq<OpH2>, x: iset<(nat, nat)>)
    requires Square(mat, n)
  {
    && (forall p, q | 0 <= p < n && 0 <= q < n && mat[p][q] == REACHED :: (p, q) in x)
    && (forall o, props | o in ops && o.triggered != SPURIOUS && AppliesIn(o, x, props) :: AfterIn(mat, n, x, o, props))
  }

  ghost predicate AfterIn(mat: Matrix, n: nat, x: iset<(nat, nat)>, o: OpH2, props: set<nat>)
    requires Square(mat, n)
  {
    forall p, q | 0 <= p < n && 0 <= q < n && TrueAfter(o, props, p) && TrueAfter(o, props, q) && mat[p][q] != SPURIOUS :: (p, q) in x
  }

  ghost predicate ProgressReaches(mat: Matrix, n: nat, ops: seq<OpH2>, p: nat, q: nat)
    requires Square(mat, n)
  {
    forall x: iset<(nat, nat)> :: ProgressClosed(mat, n, ops, x) ==> (p, q) in x
  }

  /** No two preconditions of an operator in use are a mutex. */
  ghost predicate PreconditionsClean(mat: Matrix, n: nat, ops: seq<OpH2>)
    requires Square(mat, n) && forall o | o in ops :: ValidOp(o, n)
  {
    forall o | o in ops && o.triggered != SPURIOUS :: CleanPreconditions(mat, n, o)
  }

  ghost predicate CleanPreconditions(mat: Matrix, n: nat, o: OpH2)
    requires Square(mat, n) && ValidOp(o, n)
  {
    forall i, j | 0 <= i <= j < |o.pre| :: mat[o.pre[i]][o.pre[j]] != SPURIOUS
  }

  lemma ClosedIsProgressClosed(mat: Matrix, n: nat, ops: seq<OpH2>, x: iset<(nat, nat)>)
    requires Square(mat, n) && Symmetric(mat, n) && (forall o | o in ops :: ValidOp(o, n)) && ClosedSet(mat, n, ops, x)
    ensures ProgressClosed(mat, n, ops, x)
  {
    forall o, props | o in ops && o.triggered != SPURIOUS && AppliesIn(o, x, props)
      ensures AfterIn(mat, n, x, o, props)
    {
      assert TriggeredIn(mat, n, x, o);
      forall p, q | 0 <= p < n && 0 <= q < n && TrueAfter(o, props, p) && TrueAfter(o, props, q) && mat[p][q] != SPURIOUS
        ensures (p, q) in x
      {
        ClosedAfter(mat, n, x, o, props, p, q);
      }
    }
  }

  lemma ClosedAfter(mat: Matrix, n: nat, x: iset<(nat, nat)>, o: OpH2, props: set<nat>, p: nat, q: nat)
    requires Square(mat, n) && ValidOp(o, n) && AppliesIn(o, x, props) && AddsIn(mat, n, x, o) && KeepsIn(mat, n, x, o)
    requires p < n && q < n && TrueAfter(o, props, p) && TrueAfter(o, props, q) && mat[p][q] != SPURIOUS
    requires mat[q][p] != SPURIOUS
    ensures (p, q) in x
  {
    if p in o.add && q !in o.add {
      assert PersistsIn(x, o, q);
    } else if p !in o.add && q in o.add {
      assert PersistsIn(x, o, p);
    }
  }

  /** The pairs that are in the set in both orders. */
  ghost function BothWays(x: iset<(nat, nat)>): iset<(nat, nat)> {
    iset p: nat, q: nat | (p, q) in x && (q, p) in x :: (p, q)
  }

  lemma AddedTogether(mat: Matrix, n: nat, ops: seq<OpH2>, x: iset<(nat, nat)>, o: OpH2, more: set<nat>)
    requires Square(mat, n) && Symmetric(mat, n) && ValidOp(o, n) && ProgressClosed(mat, n, ops, x) && o in ops && o.triggered != SPURIOUS
    requires CleanPreconditions(mat, n, o) && TriggeredIn(mat, n, BothWays(x), o)
    requires forall q | q in more :: PersistsIn(BothWays(x), o, q)
    requires forall p, q | p in more && q in more :: p == q
    ensures forall p, q | 0 <= p < n && 0 <= q < n && (p in o.add || p in more) && (q in o.add || q in more) && mat[p][q] != SPURIOUS ::
              (p, q) in BothWays(x)
  {
    var props := (set p | p in o.pre) + more;
    forall p, q | p in o.pre && q in o.pre
      ensures (p, q) in x
    {
      var i :| 0 <= i < |o.pre| && o.pre[i] == p;
      var j :| 0 <= j < |o.pre| && o.pre[j] == q;
      assert i <= j ==> Counted(mat, n, BothWays(x), o.pre[i], o.pre[j]);
      assert j <= i ==> Counted(mat, n, BothWays(x), o.pre[j], o.pre[i]);
    }
    assert AppliesIn(o, x, props);
    assert AfterIn(mat, n, x, o, props);
  }

  /** Where no operator in use has a mutex among its preconditions. */
  lemma ProgressClosedIsClosed(mat: Matrix, n: nat, ops: seq<OpH2>, x: iset<(nat, nat)>)
    requires Square(mat, n) && Symmetric(mat, n) && (forall o | o in ops :: ValidOp(o, n))
    requires PreconditionsClean(mat, n, ops) && ProgressClosed(mat, n, ops, x)
    ensures ClosedSet(mat, n, ops, BothWays(x))
  {
    forall o | o in ops && o.triggered != SPURIOUS && TriggeredIn(mat, n, BothWays(x), o)
      ensures AddsIn(mat, n, BothWays(x), o) && KeepsIn(mat, n, BothWays(x), o)
    {
      AddedTogether(mat, n, ops, x, o, {});
      forall p, q | p in o.add && 0 <= q < n && PersistsIn(BothWays(x), o, q) && mat[p][q] != SPURIOUS
        ensures (p, q) in BothWays(x) && (q, p) in BothWays(x)
      {
        AddedTogether(mat, n, ops, x, o, {q});
      }
    }
  }

  /** Whatever progression reaches is in the least closed set of a pass, and nothing else unless an operator has a mutex
      among its preconditions. */
  lemma LeastIffProgress(mat: Matrix, n: nat, ops: seq<OpH2>, p: nat, q: nat)
    requires Square(mat, n) && Symmetric(mat, n) && (forall o | o in ops :: ValidOp(o, n))
    ensures ProgressReaches(mat, n, ops, p, q) ==> InLeast(mat, n, ops, p, q)
    ensures PreconditionsClean(mat, n, ops) ==> (InLeast(mat, n, ops, p, q) <==> ProgressReaches(mat, n, ops, p, q))
  {
    forall x: iset<(nat, nat)> | ClosedSet(mat, n, ops, x)
      ensures ProgressClosed(mat, n, ops, x)
    {
      ClosedIsProgressClosed(mat, n, ops, x);
    }
    if PreconditionsClean(mat, n, ops) && InLeast(mat, n, ops, p, q) {
      forall x: iset<(nat, nat)> | ProgressClosed(mat, n, ops, x)
        ensures (p, q) in x
      {
        ProgressClosedIsClosed(mat, n, ops, x);
        assert (p, q) in BothWays(x);
      }
    }
  }

  /** Two facts that exclude each other, and an operator that needs both. */
  function MutexPair(): Matrix {
    [[REACHED, SPURIOUS, NOT_REACHED], [SPURIOUS, REACHED, NOT_REACHED], [NOT_REACHED, NOT_REACHED, NOT_REACHED]]
  }

  function NeedsBoth(): OpH2 {
    OpH2([0, 1], [2], [], NOT_REACHED)
  }

  /** A mutex among the preconditions does not keep an operator from being triggered (h2_mutexes.cc:617-625), although
      no possible set contains both. */
  lemma TriggersDespiteMutex()
    ensures Square(MutexPair(), 3) && ValidOp(NeedsBoth(), 3)
    ensures InLeast(MutexPair(), 3, [NeedsBoth()], 2, 2) && !ProgressReaches(MutexPair(), 3, [NeedsBoth()], 2, 2)
  {
    var mat, o := MutexPair(), NeedsBoth();
    forall x: iset<(nat, nat)> | ClosedSet(mat, 3, [o], x)
      ensures (2, 2) in x
    {
      assert mat[0][0] == REACHED && mat[1][1] == REACHED && mat[0][1] == SPURIOUS;
      assert o in [o] && TriggeredIn(mat, 3, x, o);
      assert 2 in o.add && mat[2][2] != SPURIOUS;
    }
    var start := iset{(0, 0), (1, 1)};
    forall props: set<nat>
      ensures !AppliesIn(o, start, props)
    {
      assert o.pre[0] == 0 && o.pre[1] == 1;
      assert (0, 1) !in start;
    }
    assert ProgressClosed(mat, 3, [o], start);
  }
}
