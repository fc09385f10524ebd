/** What an h^2 pass computes and why it is sound, stated on values.
    A proposition is the index of a fact; a matrix cell says whether a pair of propositions is
    known to be impossible (SPURIOUS), was reached, or was not reached in the current pass. */
module H2Theory {
  import opened Sas

  datatype Reachability = SPURIOUS | REACHED | NOT_REACHED

  type Matrix = seq<seq<Reachability>>

  /** An operator instantiated over propositions, for either direction of search. */
  datatype OpH2 = OpH2(pre: seq<nat>, add: seq<nat>, del: seq<nat>, triggered: Reachability)

  ghost predicate Square(mat: Matrix, n: nat) {
    |mat| == n && forall p | 0 <= p < n :: |mat[p]| == n
  }

  ghost predicate Symmetric(mat: Matrix, n: nat)
    requires Square(mat, n)
  {
    forall p, q | 0 <= p < n && 0 <= q < n :: mat[p][q] == mat[q][p]
  }

  ghost predicate InRange(props: seq<nat>, n: nat) {
    forall i | 0 <= i < |props| :: props[i] < n
  }

  ghost predicate ValidOp(o: OpH2, n: nat) {
    InRange(o.pre, n) && InRange(o.add, n) && InRange(o.del, n)
  }

  /** No pair of the listed propositions is NOT_REACHED. */
  ghost predicate NoneUnreached(mat: Matrix, n: nat, props: seq<nat>)
    requires Square(mat, n) && InRange(props, n)
  {
    forall i, j | 0 <= i <= j < |props| :: mat[props[i]][props[j]] != NOT_REACHED
  }

  /** `q` may survive the operator next to an added proposition. */
  ghost predicate Persists(mat: Matrix, n: nat, o: OpH2, q: nat)
    requires Square(mat, n) && ValidOp(o, n) && q < n
  {
    && mat[q][q] == REACHED && q !in o.add && q !in o.del
    && forall r | r in o.pre :: mat[q][r] == REACHED
  }

  /** No pair with the added proposition `p` is missing. */
  ghost predicate ClosedAt(mat: Matrix, n: nat, o: OpH2, p: nat)
    requires Square(mat, n) && ValidOp(o, n)
  {
    && p < n
    && (forall q | q in o.add :: q < n && mat[p][q] != NOT_REACHED)
    && (forall q: nat | q < n && Persists(mat, n, o, q) :: mat[p][q] != NOT_REACHED)
  }

  /** The matrix cannot be extended by operator `o`. */
  ghost predicate ClosedUnder(mat: Matrix, n: nat, o: OpH2)
    requires Square(mat, n) && ValidOp(o, n)
  {
    NoneUnreached(mat, n, o.pre) ==> forall p | p in o.add :: ClosedAt(mat, n, o, p)
  }

  // ---- soundness of a pass along a plan ----

  ghost predicate Covers(mat: Matrix, n: nat, props: set<nat>)
    requires Square(mat, n)
  {
    forall p, q | p in props && q in props :: p < n && q < n && mat[p][q] == REACHED
  }

  ghost predicate NoSpurious(mat: Matrix, n: nat, props: set<nat>)
    requires Square(mat, n)
  {
    forall p, q | p in props && q in props :: p < n && q < n && mat[p][q] != SPURIOUS
  }

  /** Every proposition true after the step is added, or was true before and is not deleted. */
  ghost predicate StepCovered(o: OpH2, before: set<nat>, after: set<nat>) {
    && (forall p | p in o.pre :: p in before)
    && (forall q | q in after :: q in o.add || (q in before && q !in o.del))
  }

  lemma StepKeepsCover(mat: Matrix, n: nat, o: OpH2, before: set<nat>, after: set<nat>)
    requires Square(mat, n) && Symmetric(mat, n) && ValidOp(o, n)
    requires Covers(mat, n, before) && NoSpurious(mat, n, after)
    requires StepCovered(o, before, after) && ClosedUnder(mat, n, o)
    ensures Covers(mat, n, after)
  {
    forall i, j | 0 <= i <= j < |o.pre|
      ensures mat[o.pre[i]][o.pre[j]] != NOT_REACHED
    {
      assert o.pre[i] in before && o.pre[j] in before;
    }
    forall p, q | p in after && q in after
      ensures p < n && q < n && mat[p][q] == REACHED
    {
      if p !in o.add && q in o.add {
        assert Persists(mat, n, o, p);
        assert mat[q][p] != NOT_REACHED;
      } else if p in o.add && q !in o.add {
        assert Persists(mat, n, o, q);
      }
    }
  }

  // ---- a pass computes a least fixpoint ----

  ghost predicate Counted(mat: Matrix, n: nat, x: iset<(nat, nat)>, p: nat, q: nat)
    requires Square(mat, n) && p < n && q < n
  {
    mat[p][q] == SPURIOUS || (p, q) in x
  }

  ghost predicate TriggeredIn(mat: Matrix, n: nat, x: iset<(nat, nat)>, o: OpH2)
    requires Square(mat, n) && ValidOp(o, n)
  {
    forall i, j | 0 <= i <= j < |o.pre| :: Counted(mat, n, x, o.pre[i], o.pre[j])
  }

  ghost predicate PersistsIn(x: iset<(nat, nat)>, o: OpH2, q: nat) {
    (q, q) in x && q !in o.add && q !in o.del && forall r | r in o.pre :: (q, r) in x
  }

  /** `x` has every pair of added propositions. */
  ghost predicate AddsIn(mat: Matrix, n: nat, x: iset<(nat, nat)>, o: OpH2)
    requires Square(mat, n) && ValidOp(o, n)
  {
    forall p, q | p in o.add && q in o.add && mat[p][q] != SPURIOUS :: (p, q) in x && (q, p) in x
  }

  /** `x` has every pair of an added and a persisting proposition. */
  ghost predicate KeepsIn(mat: Matrix, n: nat, x: iset<(nat, nat)>, o: OpH2)
    requires Square(mat, n) && ValidOp(o, n)
  {
    forall p, q | p in o.add && 0 <= q < n && PersistsIn(x, o, q) && mat[p][q] != SPURIOUS :: (p, q) in x && (q, p) in x
  }

  /** `x` contains the initially reached pairs and is closed under the add/add and add/persist
      rules of every operator that is not spurious. */
  ghost predicate ClosedSet(mat: Matrix, n: nat, ops: seq<OpH2>, x: iset<(nat, nat)>)
    requires Square(mat, n) && forall o | o in ops :: ValidOp(o, n)
  {
    && (forall p, q | 0 <= p < n && 0 <= q < n && mat[p][q] == REACHED :: (p, q) in x)
    && (forall o | o in ops && o.triggered != SPURIOUS && TriggeredIn(mat, n, x, o) :: AddsIn(mat, n, x, o) && KeepsIn(mat, n, x, o))
  }

  /** The pair belongs to the least closed set. */
  ghost predicate InLeast(mat: Matrix, n: nat, ops: seq<OpH2>, p: nat, q: nat)
    requires Square(mat, n) && forall o | o in ops :: ValidOp(o, n)
  {
    forall x: iset<(nat, nat)> :: ClosedSet(mat, n, ops, x) ==> (p, q) in x
  }

  /** Every reached cell of `cur` is in the least closed set of `mat`, and SPURIOUS cells agree. */
  ghost predicate Within(mat: Matrix, cur: Matrix, n: nat, ops: seq<OpH2>)
    requires Square(mat, n) && Square(cur, n) && forall o | o in ops :: ValidOp(o, n)
  {
    forall p, q | 0 <= p < n && 0 <= q < n ::
      && (cur[p][q] == REACHED ==> InLeast(mat, n, ops, p, q))
      && (cur[p][q] == SPURIOUS <==> mat[p][q] == SPURIOUS)
  }

  lemma AddAddStaysWithin(mat: Matrix, cur: Matrix, n: nat, ops: seq<OpH2>, o: OpH2, p: nat, q: nat)
    requires Square(mat, n) && Square(cur, n) && forall o' | o' in ops :: ValidOp(o', n)
    requires Within(mat, cur, n, ops)
    requires o in ops && o.triggered != SPURIOUS && NoneUnreached(cur, n, o.pre)
    requires p in o.add && q in o.add && cur[p][q] == NOT_REACHED
    ensures InLeast(mat, n, ops, p, q) && InLeast(mat, n, ops, q, p)
  {
    forall x: iset<(nat, nat)> | ClosedSet(mat, n, ops, x)
      ensures (p, q) in x && (q, p) in x
    {
      assert TriggeredIn(mat, n, x, o) by { TriggerMonotone(mat, cur, n, ops, o, x); }
      assert AddsIn(mat, n, x, o);
    }
  }

  lemma AddPersistStaysWithin(mat: Matrix, cur: Matrix, n: nat, ops: seq<OpH2>, o: OpH2, p: nat, q: nat)
    requires Square(mat, n) && Square(cur, n) && forall o' | o' in ops :: ValidOp(o', n)
    requires Within(mat, cur, n, ops)
    requires o in ops && o.triggered != SPURIOUS && NoneUnreached(cur, n, o.pre)
    requires p in o.add && q < n && Persists(cur, n, o, q) && cur[p][q] == NOT_REACHED
    ensures InLeast(mat, n, ops, p, q) && InLeast(mat, n, ops, q, p)
  {
    forall x: iset<(nat, nat)> | ClosedSet(mat, n, ops, x)
      ensures (p, q) in x && (q, p) in x
    {
      assert TriggeredIn(mat, n, x, o) by { TriggerMonotone(mat, cur, n, ops, o, x); }
      assert KeepsIn(mat, n, x, o) && PersistsIn(x, o, q);
    }
  }

  lemma TriggerMonotone(mat: Matrix, cur: Matrix, n: nat, ops: seq<OpH2>, o: OpH2, x: iset<(nat, nat)>)
    requires Square(mat, n) && Square(cur, n) && forall o' | o' in ops :: ValidOp(o', n)
    requires Within(mat, cur, n, ops) && ClosedSet(mat, n, ops, x)
    requires o in ops && NoneUnreached(cur, n, o.pre)
    ensures TriggeredIn(mat, n, x, o)
  {
    forall i, j | 0 <= i <= j < |o.pre|
      ensures Counted(mat, n, x, o.pre[i], o.pre[j])
    {
      assert cur[o.pre[i]][o.pre[j]] != NOT_REACHED;
    }
  }

  lemma ReachedKeeps(mat: Matrix, cur: Matrix, n: nat, ops: seq<OpH2>, x: iset<(nat, nat)>, o: OpH2)
    requires Square(mat, n) && Square(cur, n) && (forall o' | o' in ops :: ValidOp(o', n)) && Within(mat, cur, n, ops)
    requires Symmetric(cur, n) && ValidOp(o, n) && ClosedUnder(cur, n, o) && TriggeredIn(mat, n, x, o)
    requires forall p, q :: (p, q) in x <==> 0 <= p < n && 0 <= q < n && cur[p][q] == REACHED
    ensures AddsIn(mat, n, x, o) && KeepsIn(mat, n, x, o)
  {
    forall i, j | 0 <= i <= j < |o.pre|
      ensures cur[o.pre[i]][o.pre[j]] != NOT_REACHED
    {
      assert Counted(mat, n, x, o.pre[i], o.pre[j]);
    }
    assert forall p | p in o.add :: ClosedAt(cur, n, o, p);
    forall p, q | p in o.add && 0 <= q < n && PersistsIn(x, o, q) && mat[p][q] != SPURIOUS
      ensures (p, q) in x && (q, p) in x
    {
      assert forall r | r in o.pre :: (q, r) in x;
      assert Persists(cur, n, o, q);
    }
  }

  /** A matrix that contains the start, stays within the least closed set and is closed under
      every live operator is the least closed set: the result does not depend on the order in
      which the operators were tried. */
  lemma FixpointIsLeast(mat: Matrix, cur: Matrix, n: nat, ops: seq<OpH2>)
    requires Square(mat, n) && Square(cur, n) && forall o | o in ops :: ValidOp(o, n)
    requires Symmetric(cur, n) && Within(mat, cur, n, ops)
    requires forall p, q | 0 <= p < n && 0 <= q < n && mat[p][q] == REACHED :: cur[p][q] == REACHED
    requires forall o | o in ops && o.triggered != SPURIOUS :: ClosedUnder(cur, n, o)
    ensures forall p, q | 0 <= p < n && 0 <= q < n :: cur[p][q] == REACHED <==> InLeast(mat, n, ops, p, q)
  {
    var x: iset<(nat, nat)> := iset p: nat, q: nat | p < n && q < n && cur[p][q] == REACHED :: (p, q);
    forall o | o in ops && o.triggered != SPURIOUS && TriggeredIn(mat, n, x, o)
      ensures AddsIn(mat, n, x, o) && KeepsIn(mat, n, x, o)
    {
      ReachedKeeps(mat, cur, n, ops, x, o);
    }
    assert ClosedSet(mat, n, ops, x);
  }

  /** Cells only move from NOT_REACHED to REACHED. */
  ghost predicate Grows(cur: Matrix, next: Matrix, n: nat)
    requires Square(cur, n) && Square(next, n)
  {
    forall p, q | 0 <= p < n && 0 <= q < n ::
      next[p][q] == cur[p][q] || (cur[p][q] == NOT_REACHED && next[p][q] == REACHED)
  }

  ghost function Unreached(mat: Matrix, n: nat): set<(nat, nat)>
    requires Square(mat, n)
  {
    set p, q | 0 <= p < n && 0 <= q < n && mat[p][q] == NOT_REACHED :: (p, q)
  }

  lemma GrowthShrinksUnreached(cur: Matrix, next: Matrix, n: nat)
    requires Square(cur, n) && Square(next, n) && Grows(cur, next, n)
    ensures Unreached(next, n) <= Unreached(cur, n)
    ensures next != cur ==> Unreached(next, n) < Unreached(cur, n)
  {
    if next != cur {
      assert !(forall p | 0 <= p < n :: next[p] == cur[p]);
      var p :| 0 <= p < n && next[p] != cur[p];
      assert !(forall q | 0 <= q < n :: next[p][q] == cur[p][q]);
      var q :| 0 <= q < n && next[p][q] != cur[p][q];
      assert (p, q) in Unreached(cur, n) && (p, q) !in Unreached(next, n);
    }
  }

  /** The operator after being tried against a matrix it did not change. */
  ghost predicate Settled(mat: Matrix, n: nat, o: OpH2)
    requires Square(mat, n) && ValidOp(o, n)
  {
    o.triggered != SPURIOUS ==>
      ClosedUnder(mat, n, o) && (o.triggered == REACHED <==> NoneUnreached(mat, n, o.pre))
  }

  /** Same operator, possibly triggered in the meantime; a triggered one has its preconditions. */
  ghost predicate Tracks(mat: Matrix, n: nat, o0: OpH2, o: OpH2)
    requires Square(mat, n) && ValidOp(o0, n)
  {
    && o.pre == o0.pre && o.add == o0.add && o.del == o0.del
    && (o.triggered == SPURIOUS <==> o0.triggered == SPURIOUS)
    && (o.triggered == REACHED ==> NoneUnreached(mat, n, o0.pre))
  }

  /** While operator `o` is applied: the matrix is symmetric, stays inside the least closed set of
      `mat0`, and has the preconditions of `o`. */
  ghost predicate Passing(mat0: Matrix, cur: Matrix, n: nat, ops0: seq<OpH2>, o: OpH2) {
    && Square(mat0, n) && Square(cur, n) && (forall o' | o' in ops0 :: ValidOp(o', n))
    && Symmetric(cur, n) && Within(mat0, cur, n, ops0)
    && o in ops0 && o.triggered != SPURIOUS && NoneUnreached(cur, n, o.pre)
  }

  lemma ReachKeepsPassing(mat0: Matrix, cur: Matrix, next: Matrix, n: nat, ops0: seq<OpH2>, o: OpH2, p: nat, q: nat)
    requires Passing(mat0, cur, n, ops0, o) && p < n && q < n && cur[p][q] == NOT_REACHED
    requires InLeast(mat0, n, ops0, p, q) && InLeast(mat0, n, ops0, q, p)
    requires Square(next, n)
    requires forall a, b | 0 <= a < n && 0 <= b < n ::
               next[a][b] == if (a == p && b == q) || (a == q && b == p) then REACHED else cur[a][b]
    ensures Passing(mat0, next, n, ops0, o) && Grows(cur, next, n) && next != cur
  {
    assert cur[q][p] == NOT_REACHED;
    assert next[p][q] == REACHED;
  }

  lemma GrowsTransitive(a: Matrix, b: Matrix, c: Matrix, n: nat)
    requires Square(a, n) && Square(b, n) && Square(c, n) && Grows(a, b, n) && Grows(b, c, n)
    ensures Grows(a, c, n)
    ensures a != b || b != c ==> a != c
  {
    GrowthShrinksUnreached(a, b, n);
    GrowthShrinksUnreached(b, c, n);
  }

  /** The state of a pass between operators. */
  ghost predicate PassState(mat0: Matrix, cur: Matrix, n: nat, ops0: seq<OpH2>, ops: seq<OpH2>) {
    && Square(mat0, n) && Square(cur, n) && (forall o | o in ops0 :: ValidOp(o, n))
    && Symmetric(cur, n) && Within(mat0, cur, n, ops0)
    && (forall p, q | 0 <= p < n && 0 <= q < n && mat0[p][q] == REACHED :: cur[p][q] == REACHED)
    && |ops| == |ops0|
    && forall i | 0 <= i < |ops| :: ops0[i] in ops0 && ops0[i].triggered != REACHED && Tracks(cur, n, ops0[i], ops[i])
  }

  lemma PassStateGrows(mat0: Matrix, cur: Matrix, next: Matrix, n: nat, ops0: seq<OpH2>, ops: seq<OpH2>)
    requires PassState(mat0, cur, n, ops0, ops)
    requires Square(next, n) && Symmetric(next, n) && Within(mat0, next, n, ops0) && Grows(cur, next, n)
    ensures PassState(mat0, next, n, ops0, ops)
  {
  }

  lemma SettledCloses(mat0: Matrix, cur: Matrix, n: nat, ops0: seq<OpH2>, ops: seq<OpH2>, i: nat)
    requires PassState(mat0, cur, n, ops0, ops) && i < |ops|
    requires ValidOp(ops[i], n) && Settled(cur, n, ops[i])
    ensures ops0[i].triggered != SPURIOUS ==> ClosedUnder(cur, n, ops0[i])
  {
    var o0, o := ops0[i], ops[i];
    assert Tracks(cur, n, o0, o);
    assert forall p | p in o0.add :: NoneUnreached(cur, n, o0.pre) && o.triggered != SPURIOUS ==> ClosedAt(cur, n, o, p);
    assert forall q: nat | q < n :: Persists(cur, n, o0, q) == Persists(cur, n, o, q);
  }

  lemma SettledIsLeast(mat0: Matrix, cur: Matrix, n: nat, ops0: seq<OpH2>, ops: seq<OpH2>)
    requires PassState(mat0, cur, n, ops0, ops)
    requires forall i | 0 <= i < |ops| :: ValidOp(ops[i], n) && Settled(cur, n, ops[i])
    ensures forall p, q | 0 <= p < n && 0 <= q < n :: cur[p][q] == REACHED <==> InLeast(mat0, n, ops0, p, q)
  {
    forall o | o in ops0 && o.triggered != SPURIOUS
      ensures ClosedUnder(cur, n, o)
    {
      var i :| 0 <= i < |ops0| && ops0[i] == o;
      SettledCloses(mat0, cur, n, ops0, ops, i);
    }
    FixpointIsLeast(mat0, cur, n, ops0);
  }

  // ---- a reached pair has two reached facts ----

  /** No reached pair has a fact that is not reached itself. */
  ghost predicate Diagonal(mat: Matrix, n: nat)
    requires Square(mat, n)
  {
    forall p, q {:trigger mat[p][q]} | 0 <= p < n && 0 <= q < n && mat[p][q] == REACHED ::
      mat[p][p] != NOT_REACHED && mat[q][q] != NOT_REACHED
  }

  /** The reached pairs of reached facts. */
  ghost function DiagonalPairs(cur: Matrix, n: nat): iset<(nat, nat)>
    requires Square(cur, n)
  {
    iset p: nat, q: nat | p < n && q < n && cur[p][q] == REACHED && cur[p][p] != NOT_REACHED && cur[q][q] != NOT_REACHED :: (p, q)
  }

  lemma DiagonalTriggers(mat: Matrix, cur: Matrix, n: nat, ops: seq<OpH2>, o: OpH2)
    requires Square(mat, n) && Square(cur, n) && (forall o' | o' in ops :: ValidOp(o', n)) && Within(mat, cur, n, ops) && ValidOp(o, n)
    requires TriggeredIn(mat, n, DiagonalPairs(cur, n), o)
    ensures NoneUnreached(cur, n, o.pre)
  {
    forall i, j | 0 <= i <= j < |o.pre|
      ensures cur[o.pre[i]][o.pre[j]] != NOT_REACHED
    {
      assert Counted(mat, n, DiagonalPairs(cur, n), o.pre[i], o.pre[j]);
    }
  }

  ghost predicate PassDone(mat: Matrix, cur: Matrix, n: nat, ops: seq<OpH2>) {
    && Square(mat, n) && Square(cur, n) && (forall o | o in ops :: ValidOp(o, n))
    && Symmetric(cur, n) && Within(mat, cur, n, ops)
    && (forall p, q | 0 <= p < n && 0 <= q < n && mat[p][q] == REACHED :: cur[p][q] == REACHED)
    && forall o | o in ops && o.triggered != SPURIOUS :: ClosedUnder(cur, n, o)
  }

  lemma DiagonalAdds(mat: Matrix, cur: Matrix, n: nat, ops: seq<OpH2>, o: OpH2, p: nat, q: nat)
    requires PassDone(mat, cur, n, ops) && o in ops && o.triggered != SPURIOUS && TriggeredIn(mat, n, DiagonalPairs(cur, n), o)
    requires p in o.add && q in o.add
    ensures p < n && q < n && (mat[p][q] != SPURIOUS ==> (p, q) in DiagonalPairs(cur, n) && (q, p) in DiagonalPairs(cur, n))
  {
    DiagonalTriggers(mat, cur, n, ops, o);
    assert ClosedAt(cur, n, o, p) && ClosedAt(cur, n, o, q);
  }

  lemma DiagonalPersists(mat: Matrix, cur: Matrix, n: nat, ops: seq<OpH2>, o: OpH2, p: nat, q: nat)
    requires PassDone(mat, cur, n, ops) && o in ops && o.triggered != SPURIOUS && TriggeredIn(mat, n, DiagonalPairs(cur, n), o)
    requires p in o.add && q < n && PersistsIn(DiagonalPairs(cur, n), o, q)
    ensures p < n && (mat[p][q] != SPURIOUS ==> (p, q) in DiagonalPairs(cur, n) && (q, p) in DiagonalPairs(cur, n))
  {
    DiagonalTriggers(mat, cur, n, ops, o);
    assert ClosedAt(cur, n, o, p);
    forall r | r in o.pre
      ensures r < n && cur[q][r] == REACHED
    {
      assert (q, r) in DiagonalPairs(cur, n);
    }
    assert Persists(cur, n, o, q);
  }

  lemma DiagonalStarts(mat: Matrix, cur: Matrix, n: nat, ops: seq<OpH2>)
    requires PassDone(mat, cur, n, ops) && Diagonal(mat, n)
    ensures forall p, q | 0 <= p < n && 0 <= q < n && mat[p][q] == REACHED :: (p, q) in DiagonalPairs(cur, n)
  {
    forall p: nat, q: nat | p < n && q < n && mat[p][q] == REACHED
      ensures (p, q) in DiagonalPairs(cur, n)
    {
      assert mat[p][p] != NOT_REACHED && mat[q][q] != NOT_REACHED;
    }
  }

  /** They are closed under the rules of a pass. */
  lemma DiagonalClosed(mat: Matrix, cur: Matrix, n: nat, ops: seq<OpH2>)
    requires PassDone(mat, cur, n, ops) && Diagonal(mat, n)
    ensures ClosedSet(mat, n, ops, DiagonalPairs(cur, n))
  {
    var x := DiagonalPairs(cur, n);
    DiagonalStarts(mat, cur, n, ops);
    forall o | o in ops && o.triggered != SPURIOUS && TriggeredIn(mat, n, x, o)
      ensures AddsIn(mat, n, x, o) && KeepsIn(mat, n, x, o)
    {
      forall p, q | p in o.add && q in o.add && mat[p][q] != SPURIOUS
        ensures (p, q) in x && (q, p) in x
      {
        DiagonalAdds(mat, cur, n, ops, o, p, q);
      }
      forall p, q | p in o.add && 0 <= q < n && PersistsIn(x, o, q) && mat[p][q] != SPURIOUS
        ensures (p, q) in x && (q, p) in x
      {
        DiagonalPersists(mat, cur, n, ops, o, p, q);
      }
    }
  }

  /** A finished pass keeps it. */
  lemma PassKeepsDiagonal(mat0: Matrix, cur: Matrix, n: nat, ops0: seq<OpH2>, ops: seq<OpH2>)
    requires PassState(mat0, cur, n, ops0, ops) && Diagonal(mat0, n)
    requires forall i | 0 <= i < |ops| :: ValidOp(ops[i], n) && Settled(cur, n, ops[i])
    ensures Diagonal(cur, n)
  {
    forall o | o in ops0 && o.triggered != SPURIOUS
      ensures ClosedUnder(cur, n, o)
    {
      var i :| 0 <= i < |ops0| && ops0[i] == o;
      SettledCloses(mat0, cur, n, ops0, ops, i);
    }
    DiagonalClosed(mat0, cur, n, ops0);
    forall p, q | 0 <= p < n && 0 <= q < n && cur[p][q] == REACHED
      ensures cur[p][p] != NOT_REACHED && cur[q][q] != NOT_REACHED
    {
      assert InLeast(mat0, n, ops0, p, q);
      assert (p, q) in DiagonalPairs(cur, n);
    }
  }

  // ---- turning unreached pairs into mutexes, cell by cell in row order ----

  /** Exactly the unreached pairs have become mutexes. */
  ghost predicate Decided(m0: Matrix, cur: Matrix, n: nat)
    requires Square(m0, n) && Square(cur, n)
  {
    forall p, q | 0 <= p < n && 0 <= q < n :: cur[p][q] == if m0[p][q] == NOT_REACHED then SPURIOUS else m0[p][q]
  }

  /** Resetting facts found unreachable during the scan undoes nothing scanned before. */
  lemma ScanExact(m0: Matrix, cur: Matrix, n: nat)
    requires Square(m0, n) && Square(cur, n) && Scanned(m0, cur, n, n, 0) && Diagonal(m0, n)
    ensures Decided(m0, cur, n)
  {
    forall p, q | 0 <= p < n && 0 <= q < n
      ensures cur[p][q] == if m0[p][q] == NOT_REACHED then SPURIOUS else m0[p][q]
    {
      assert ScannedCell(m0, cur, n, n, 0, p, q);
      assert p < q ==> ScannedPair(cur, n, n, 0, p, q);
      assert q < p ==> ScannedPair(cur, n, n, 0, q, p);
    }
  }

  ghost predicate Done(a: nat, b: nat, p: nat, q: nat) {
    p < a || (p == a && q < b)
  }

  /** The matrix `m0` after scanning the cells before (a, b).  Facts found unreachable on the way
      reset their rows and columns, so scanned cells may become NOT_REACHED again; they do so in
      symmetric pairs. */
  ghost predicate Scanned(m0: Matrix, cur: Matrix, n: nat, a: nat, b: nat)
    requires Square(m0, n) && Square(cur, n)
  {
    && (forall p, q | 0 <= p < n && 0 <= q < n :: ScannedCell(m0, cur, n, a, b, p, q))
    && (forall p, q | 0 <= p < q < n :: ScannedPair(cur, n, a, b, p, q))
  }

  ghost predicate ScannedCell(m0: Matrix, cur: Matrix, n: nat, a: nat, b: nat, p: nat, q: nat)
    requires Square(m0, n) && Square(cur, n) && p < n && q < n
  {
    match m0[p][q]
    case SPURIOUS => cur[p][q] == SPURIOUS
    case NOT_REACHED => cur[p][q] == if Done(a, b, p, q) then SPURIOUS else NOT_REACHED
    case REACHED =>
      && (!Done(a, b, p, q) ==> cur[p][q] != SPURIOUS)
      && (cur[p][q] != REACHED ==> m0[p][p] == NOT_REACHED || m0[q][q] == NOT_REACHED)
  }

  ghost predicate ScannedPair(cur: Matrix, n: nat, a: nat, b: nat, p: nat, q: nat)
    requires Square(cur, n) && p < q < n
  {
    && (cur[p][q] == REACHED <==> cur[q][p] == REACHED)
    && (Done(a, b, p, q) ==> if Done(a, b, q, p) then cur[p][q] == cur[q][p] else cur[p][q] != NOT_REACHED)
  }

  lemma ScanCell(m0: Matrix, cur: Matrix, next: Matrix, n: nat, a: nat, b: nat, b': nat)
    requires Square(m0, n) && Square(cur, n) && Square(next, n) && Symmetric(m0, n)
    requires a < n && b < n && b' == b + 1 && Scanned(m0, cur, n, a, b)
    requires forall p, q | 0 <= p < n && 0 <= q < n ::
               next[p][q] == if p == a && q == b && cur[p][q] == NOT_REACHED then SPURIOUS else cur[p][q]
    ensures Scanned(m0, next, n, a, b')
  {
    forall p, q | 0 <= p < n && 0 <= q < n
      ensures ScannedCell(m0, next, n, a, b', p, q)
    {
      assert ScannedCell(m0, cur, n, a, b, p, q);
    }
    forall p, q | 0 <= p < q < n
      ensures ScannedPair(next, n, a, b', p, q)
    {
      assert ScannedPair(cur, n, a, b, p, q);
    }
  }

  lemma ScanUnreachable(m0: Matrix, cur: Matrix, next: Matrix, n: nat, a: nat, b: nat)
    requires Square(m0, n) && Square(cur, n) && Square(next, n) && Symmetric(m0, n)
    requires a < n && b == a + 1 && Scanned(m0, cur, n, a, b) && m0[a][a] == NOT_REACHED
    requires forall p, q | 0 <= p < n && 0 <= q < n ::
               next[p][q] == if (p == a || q == a) && cur[p][q] == REACHED then NOT_REACHED else cur[p][q]
    ensures Scanned(m0, next, n, a, b)
  {
    forall p, q | 0 <= p < n && 0 <= q < n
      ensures ScannedCell(m0, next, n, a, b, p, q)
    {
      assert ScannedCell(m0, cur, n, a, b, p, q);
    }
    forall p, q | 0 <= p < q < n
      ensures ScannedPair(next, n, a, b, p, q)
    {
      assert ScannedPair(cur, n, a, b, p, q);
    }
  }

  lemma ScanComplete(m0: Matrix, cur: Matrix, n: nat)
    requires Square(m0, n) && Square(cur, n) && Symmetric(m0, n) && Scanned(m0, cur, n, n, 0)
    ensures Symmetric(cur, n)
  {
    forall p, q | 0 <= p < n && 0 <= q < n
      ensures cur[p][q] == cur[q][p]
    {
      assert p < q ==> ScannedPair(cur, n, n, 0, p, q);
      assert q < p ==> ScannedPair(cur, n, n, 0, q, p);
    }
  }
}
