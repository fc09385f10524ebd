/** The final scan of a pass, cell by cell: which mutex groups it reports and which facts it records as inconsistent
    (h2_mutexes.cc:563-598). */
module H2Scan {
  import opened Sas
  import opened H2Theory
  import opened H2Instantiate
  import opened H2Knowledge

  /** The pass reached both facts and not the pair. */
  ghost predicate NewMutex(mat: Matrix, n: nat, a: nat, b: nat)
    requires Square(mat, n) && a < n && b < n
  {
    a != b && mat[a][b] == NOT_REACHED && mat[a][a] == REACHED && mat[b][b] == REACHED
  }

  ghost function CellGroups(ix: Index, mat: Matrix, a: nat, b: nat): seq<seq<Fact>>
    requires Square(mat, |ix.facts|) && a < |ix.facts| && b < |ix.facts|
  {
    if NewMutex(mat, |ix.facts|, a, b) && ix.facts[a].v < ix.facts[b].v then [[ix.facts[a], ix.facts[b]]] else []
  }

  /** The groups from the first `b` cells of row `a`. */
  ghost function RowGroups(ix: Index, mat: Matrix, a: nat, b: nat): seq<seq<Fact>>
    requires Square(mat, |ix.facts|) && a < |ix.facts| && b <= |ix.facts|
  {
    if b == 0 then [] else RowGroups(ix, mat, a, b - 1) + CellGroups(ix, mat, a, b - 1)
  }

  /** The groups from the first `a` rows. */
  ghost function RowsGroups(ix: Index, mat: Matrix, a: nat): seq<seq<Fact>>
    requires Square(mat, |ix.facts|) && a <= |ix.facts|
  {
    if a == 0 then [] else RowsGroups(ix, mat, a - 1) + RowGroups(ix, mat, a - 1, |ix.facts|)
  }

  ghost function ListOfFact(inc: map<Fact, set<Fact>>, f: Fact): set<Fact> {
    if f in inc then inc[f] else {}
  }

  ghost function CellInconsistent(ix: Index, mat: Matrix, inc: map<Fact, set<Fact>>, a: nat, b: nat): map<Fact, set<Fact>>
    requires Square(mat, |ix.facts|) && a < |ix.facts| && b < |ix.facts|
  {
    if NewMutex(mat, |ix.facts|, a, b) then
      var f, g := ix.facts[a], ix.facts[b];
      var more := inc[f := ListOfFact(inc, f) + {g}];
      more[g := ListOfFact(more, g) + {f}]
    else inc
  }

  ghost function RowInconsistent(ix: Index, mat: Matrix, inc: map<Fact, set<Fact>>, a: nat, b: nat): map<Fact, set<Fact>>
    requires Square(mat, |ix.facts|) && a < |ix.facts| && b <= |ix.facts|
  {
    if b == 0 then inc else CellInconsistent(ix, mat, RowInconsistent(ix, mat, inc, a, b - 1), a, b - 1)
  }

  ghost function RowsInconsistent(ix: Index, mat: Matrix, inc: map<Fact, set<Fact>>, a: nat): map<Fact, set<Fact>>
    requires Square(mat, |ix.facts|) && a <= |ix.facts|
  {
    if a == 0 then inc else RowInconsistent(ix, mat, RowsInconsistent(ix, mat, inc, a - 1), a - 1, |ix.facts|)
  }

  /** The list names a new mutex of the first `a` rows and the first `b` cells of row `a`, lower variable first. */
  ghost predicate NamesNew(ix: Index, mat: Matrix, a: nat, b: nat, group: seq<Fact>)
    requires Square(mat, |ix.facts|)
  {
    exists p: nat, q: nat | p < |ix.facts| && q < |ix.facts| && Done(a, b, p, q) ::
      NewMutex(mat, |ix.facts|, p, q) && ix.facts[p].v < ix.facts[q].v && group == [ix.facts[p], ix.facts[q]]
  }

  ghost predicate NamesNewInRow(ix: Index, mat: Matrix, a: nat, b: nat, group: seq<Fact>)
    requires Square(mat, |ix.facts|) && a < |ix.facts|
  {
    exists q: nat | q < |ix.facts| && q < b ::
      NewMutex(mat, |ix.facts|, a, q) && ix.facts[a].v < ix.facts[q].v && group == [ix.facts[a], ix.facts[q]]
  }

  lemma {:induction false} RowGroupsIff(ix: Index, mat: Matrix, a: nat, b: nat, group: seq<Fact>)
    requires Square(mat, |ix.facts|) && a < |ix.facts| && b <= |ix.facts|
    ensures group in RowGroups(ix, mat, a, b) <==> NamesNewInRow(ix, mat, a, b, group)
  {
    if b > 0 {
      RowGroupsIff(ix, mat, a, b - 1, group);
    }
  }

  lemma {:induction false} RowsGroupsIff(ix: Index, mat: Matrix, a: nat, group: seq<Fact>)
    requires Square(mat, |ix.facts|) && a <= |ix.facts|
    ensures group in RowsGroups(ix, mat, a) <==> NamesNew(ix, mat, a, 0, group)
  {
    if a > 0 {
      RowsGroupsIff(ix, mat, a - 1, group);
      RowGroupsIff(ix, mat, a - 1, |ix.facts|, group);
      NextNames(ix, mat, a - 1, a, group);
    }
  }

  lemma NextNames(ix: Index, mat: Matrix, a: nat, c: nat, group: seq<Fact>)
    requires Square(mat, |ix.facts|) && a < |ix.facts| && c == a + 1
    ensures NamesNew(ix, mat, c, 0, group) <==> NamesNew(ix, mat, a, 0, group) || NamesNewInRow(ix, mat, a, |ix.facts|, group)
  {
    assert forall p: nat, q: nat :: Done(c, 0, p, q) <==> Done(a, 0, p, q) || p == a;
  }

  /** The facts are a new mutex, and one of them is among the first `a`. */
  ghost predicate NewAmong(ix: Index, mat: Matrix, a: nat, f: Fact, g: Fact)
    requires ValidIndex(ix) && Square(mat, |ix.facts|)
  {
    f in ix.prop && g in ix.prop && (ix.prop[f] < a || ix.prop[g] < a) && NewMutex(mat, |ix.facts|, ix.prop[f], ix.prop[g])
  }

  ghost predicate NewInRow(ix: Index, mat: Matrix, a: nat, b: nat, f: Fact, g: Fact)
    requires ValidIndex(ix) && Square(mat, |ix.facts|)
  {
    && f in ix.prop && g in ix.prop && NewMutex(mat, |ix.facts|, ix.prop[f], ix.prop[g])
    && ((ix.prop[f] == a && ix.prop[g] < b) || (ix.prop[g] == a && ix.prop[f] < b))
  }

  lemma {:induction false} RowInconsistentIff(ix: Index, mat: Matrix, inc: map<Fact, set<Fact>>, a: nat, b: nat, f: Fact, g: Fact)
    requires ValidIndex(ix) && Square(mat, |ix.facts|) && Symmetric(mat, |ix.facts|) && a < |ix.facts| && b <= |ix.facts|
    ensures g in ListOfFact(RowInconsistent(ix, mat, inc, a, b), f) <==> g in ListOfFact(inc, f) || NewInRow(ix, mat, a, b, f, g)
  {
    if b > 0 {
      RowInconsistentIff(ix, mat, inc, a, b - 1, f, g);
      CellInconsistentIff(ix, mat, RowInconsistent(ix, mat, inc, a, b - 1), a, b - 1, f, g);
    }
  }

  lemma CellInconsistentIff(ix: Index, mat: Matrix, inc: map<Fact, set<Fact>>, a: nat, b: nat, f: Fact, g: Fact)
    requires ValidIndex(ix) && Square(mat, |ix.facts|) && a < |ix.facts| && b < |ix.facts|
    ensures g in ListOfFact(CellInconsistent(ix, mat, inc, a, b), f) <==>
            || g in ListOfFact(inc, f)
            || (NewMutex(mat, |ix.facts|, a, b) && ((f == ix.facts[a] && g == ix.facts[b]) || (f == ix.facts[b] && g == ix.facts[a])))
  {
  }

  lemma {:induction false} RowsInconsistentIff(ix: Index, mat: Matrix, inc: map<Fact, set<Fact>>, a: nat, f: Fact, g: Fact)
    requires ValidIndex(ix) && Square(mat, |ix.facts|) && Symmetric(mat, |ix.facts|) && a <= |ix.facts|
    ensures g in ListOfFact(RowsInconsistent(ix, mat, inc, a), f) <==> g in ListOfFact(inc, f) || NewAmong(ix, mat, a, f, g)
  {
    if a > 0 {
      RowsInconsistentIff(ix, mat, inc, a - 1, f, g);
      RowInconsistentIff(ix, mat, RowsInconsistent(ix, mat, inc, a - 1), a - 1, |ix.facts|, f, g);
    }
  }

  // ---- the scan, step by step ----

  /** Something counted was unreached, and nothing counted means nothing recorded. */
  ghost predicate CountFits(k: Knowledge, r: Knowledge, m0: Matrix, count: nat)
    requires Square(m0, |k.ix.facts|)
  {
    && (count > 0 ==> Unreached(m0, |k.ix.facts|) != {})
    && (count == 0 ==> r.unreachable == k.unreachable && r.inconsistent == k.inconsistent)
  }

  /** An unreached fact that was not known to be unreachable is neither initial nor a goal. */
  ghost predicate MayGo(k: Knowledge, m0: Matrix, init: State, goal: seq<Fact>, a: nat)
    requires Square(m0, |k.ix.facts|) && a < |k.ix.facts|
  {
    m0[a][a] == NOT_REACHED ==> k.ix.facts[a] in k.unreachable || (!Holds(init, k.ix.facts[a]) && k.ix.facts[a] !in goal)
  }

  /** What one cell does to the knowledge `k`. */
  ghost predicate CellScanned(k: Knowledge, r: Knowledge, m0: Matrix, init: State, goal: seq<Fact>, a: nat, b: nat, found: bool,
                              more: seq<seq<Fact>>)
    requires Square(m0, |k.ix.facts|) && a < |k.ix.facts| && b < |k.ix.facts|
  {
    && r.ix == k.ix && r.inconsistent == CellInconsistent(k.ix, m0, k.inconsistent, a, b) && more == CellGroups(k.ix, m0, a, b)
    && r.unreachable == (if a == b && m0[a][a] == NOT_REACHED then k.unreachable + {k.ix.facts[a]} else k.unreachable)
    && CountFits(k, r, m0, if found then 1 else 0) && (a == b ==> MayGo(k, m0, init, goal, a))
  }

  /** What the first `b` cells of row `a` do to the knowledge `k`. */
  ghost predicate RowScanned(k: Knowledge, r: Knowledge, m0: Matrix, live: iset<State>, init: State, goal: seq<Fact>, a: nat, b: nat,
                             count: nat, groups: seq<seq<Fact>>) {
    && r.ix == k.ix && a < |k.ix.facts| && b <= |k.ix.facts| && Marking(r, m0, live, a, b)
    && r.unreachable == RowUnreachable(k.ix, m0, k.unreachable, a, b)
    && r.inconsistent == RowInconsistent(k.ix, m0, k.inconsistent, a, b) && groups == RowGroups(k.ix, m0, a, b)
    && CountFits(k, r, m0, count) && (a < b ==> MayGo(k, m0, init, goal, a))
  }

  /** What is recorded, counted and reported after these cells. */
  ghost function AfterCells(k: Knowledge, m0: Matrix, live: iset<State>, init: State, goal: seq<Fact>, a: nat, b: nat): iset<(Knowledge, nat, seq<seq<Fact>>)> {
    iset r, count: nat, groups | RowScanned(k, r, m0, live, init, goal, a, b, count, groups) :: (r, count, groups)
  }

  lemma CellBegins(k: Knowledge, r: Knowledge, m0: Matrix, live: iset<State>, init: State, goal: seq<Fact>, a: nat, b: nat, count: nat, groups: seq<seq<Fact>>)
    requires (r, count, groups) in AfterCells(k, m0, live, init, goal, a, b)
    ensures r.ix == k.ix && Marking(r, m0, live, a, b)
  {
  }

  lemma RowNext(k: Knowledge, r: Knowledge, r': Knowledge, m0: Matrix, live: iset<State>, init: State, goal: seq<Fact>, a: nat, b: nat, c: nat,
                count: nat, groups: seq<seq<Fact>>, found: bool, more: seq<seq<Fact>>)
    requires (r, count, groups) in AfterCells(k, m0, live, init, goal, a, b) && b < |k.ix.facts| && c == b + 1
    requires Marking(r', m0, live, a, c) && CellScanned(r, r', m0, init, goal, a, b, found, more)
    ensures (r', count + (if found then 1 else 0), groups + more) in AfterCells(k, m0, live, init, goal, a, c)
  {
    CountsAdd(k, r, r', m0, count, if found then 1 else 0);
    NextCells(k, r, r', m0, a, b, c, groups, more);
    assert RowScanned(k, r', m0, live, init, goal, a, c, count + (if found then 1 else 0), groups + more);
  }

  /** What the first `a` rows do to the knowledge `k`, whose matrix is scanned. */
  ghost predicate RowsScanned(k: Knowledge, r: Knowledge, live: iset<State>, init: State, goal: seq<Fact>, a: nat, count: nat,
                              groups: seq<seq<Fact>>) {
    && r.ix == k.ix && a <= |k.ix.facts| && Marking(r, k.mat, live, a, 0)
    && UnreachableGrew(k.ix, k.mat, k.unreachable, r.unreachable, a)
    && r.inconsistent == RowsInconsistent(k.ix, k.mat, k.inconsistent, a) && groups == RowsGroups(k.ix, k.mat, a)
    && CountFits(k, r, k.mat, count) && forall i | 0 <= i < a :: MayGo(k, k.mat, init, goal, i)
  }

  ghost function AfterRows(k: Knowledge, live: iset<State>, init: State, goal: seq<Fact>, a: nat): iset<(Knowledge, nat, seq<seq<Fact>>)> {
    iset r, count: nat, groups | RowsScanned(k, r, live, init, goal, a, count, groups) :: (r, count, groups)
  }

  lemma RowBegins(k: Knowledge, r: Knowledge, live: iset<State>, init: State, goal: seq<Fact>, a: nat, count: nat, groups: seq<seq<Fact>>)
    requires (r, count, groups) in AfterRows(k, live, init, goal, a)
    ensures r.ix == k.ix && Marking(r, k.mat, live, a, 0)
  {
  }

  lemma RowsNext(k: Knowledge, r: Knowledge, r': Knowledge, live: iset<State>, init: State, goal: seq<Fact>, a: nat, c: nat, count: nat, groups: seq<seq<Fact>>,
                 found: nat, more: seq<seq<Fact>>)
    requires (r, count, groups) in AfterRows(k, live, init, goal, a) && a < |k.ix.facts| && c == a + 1
    requires (r', found, more) in AfterCells(r, k.mat, live, init, goal, a, |k.ix.facts|)
    ensures (r', count + found, groups + more) in AfterRows(k, live, init, goal, c)
  {
    RowDone(r', k.mat, live, a, c);
    UnreachableNext(k.ix, k.mat, k.unreachable, r.unreachable, r'.unreachable, a, c);
    NextRows(k, r, r', a, c, groups, more);
    CountsAdd(k, r, r', k.mat, count, found);
    NextMayGo(k, r, init, goal, a, c);
    assert RowsScanned(k, r', live, init, goal, c, count + found, groups + more);
  }

  lemma NextCells(k: Knowledge, r: Knowledge, r': Knowledge, m0: Matrix, a: nat, b: nat, c: nat, groups: seq<seq<Fact>>, more: seq<seq<Fact>>)
    requires k.ix == r.ix && Square(m0, |k.ix.facts|) && a < |k.ix.facts| && b < |k.ix.facts| && c == b + 1
    requires r.inconsistent == RowInconsistent(k.ix, m0, k.inconsistent, a, b) && groups == RowGroups(k.ix, m0, a, b)
    requires r'.inconsistent == CellInconsistent(k.ix, m0, r.inconsistent, a, b) && more == CellGroups(k.ix, m0, a, b)
    ensures r'.inconsistent == RowInconsistent(k.ix, m0, k.inconsistent, a, c) && groups + more == RowGroups(k.ix, m0, a, c)
  {
  }

  lemma CountsAdd(k: Knowledge, r: Knowledge, r': Knowledge, m0: Matrix, count: nat, found: nat)
    requires k.ix == r.ix && Square(m0, |k.ix.facts|) && CountFits(k, r, m0, count) && CountFits(r, r', m0, found)
    ensures CountFits(k, r', m0, count + found)
  {
  }

  lemma NextMayGo(k: Knowledge, r: Knowledge, init: State, goal: seq<Fact>, a: nat, c: nat)
    requires k.ix == r.ix && ValidIndex(k.ix) && Square(k.mat, |k.ix.facts|) && a < |k.ix.facts| && c == a + 1
    requires UnreachableGrew(k.ix, k.mat, k.unreachable, r.unreachable, a)
    requires (forall i | 0 <= i < a :: MayGo(k, k.mat, init, goal, i)) && MayGo(r, k.mat, init, goal, a)
    ensures forall i | 0 <= i < c :: MayGo(k, k.mat, init, goal, i)
  {
    assert k.ix.prop[k.ix.facts[a]] == a;
  }

  lemma NextRows(k: Knowledge, r: Knowledge, r': Knowledge, a: nat, c: nat, groups: seq<seq<Fact>>, more: seq<seq<Fact>>)
    requires Square(k.mat, |k.ix.facts|) && a < |k.ix.facts| && c == a + 1
    requires r.inconsistent == RowsInconsistent(k.ix, k.mat, k.inconsistent, a) && groups == RowsGroups(k.ix, k.mat, a)
    requires r'.inconsistent == RowInconsistent(k.ix, k.mat, r.inconsistent, a, |k.ix.facts|)
    requires more == RowGroups(k.ix, k.mat, a, |k.ix.facts|)
    ensures r'.inconsistent == RowsInconsistent(k.ix, k.mat, k.inconsistent, c) && groups + more == RowsGroups(k.ix, k.mat, c)
  {
  }

  lemma ScanStarts(k: Knowledge, live: iset<State>, init: State, goal: seq<Fact>)
    requires WellFormed(k) && CoversLive(k.ix, k.mat, live) && SideFactsSound(k.ix, k.inconsistent, k.unreachable, live)
    ensures (k, 0, []) in AfterRows(k, live, init, goal, 0)
  {
    StartMarking(k, live);
    assert RowsScanned(k, k, live, init, goal, 0, 0, []);
  }

  lemma CellsStart(k: Knowledge, m0: Matrix, live: iset<State>, init: State, goal: seq<Fact>, a: nat)
    requires Marking(k, m0, live, a, 0) && a < |k.ix.facts|
    ensures (k, 0, []) in AfterCells(k, m0, live, init, goal, a, 0)
  {
    assert RowScanned(k, k, m0, live, init, goal, a, 0, 0, []);
  }

  lemma ScanSpares(k: Knowledge, r: Knowledge, live: iset<State>, init: State, goal: seq<Fact>, count: nat, groups: seq<seq<Fact>>)
    requires (r, count, groups) in AfterRows(k, live, init, goal, |k.ix.facts|) && Spares(init, goal, k.unreachable)
    ensures Spares(init, goal, r.unreachable)
  {
    forall f | f in r.unreachable
      ensures !Holds(init, f) && f !in goal
    {
      assert f in k.unreachable || MayGo(k, k.mat, init, goal, k.ix.prop[f]);
    }
  }

  /** The groups reported are respected by all states the pass covers. */
  lemma NewGroupsSound(ix: Index, mat: Matrix, live: iset<State>)
    requires ValidIndex(ix) && Square(mat, |ix.facts|) && CoversLive(ix, mat, live)
    ensures GroupsSound(live, RowsGroups(ix, mat, |ix.facts|))
  {
    forall s, group | s in live && group in RowsGroups(ix, mat, |ix.facts|)
      ensures RespectsGroup(s, group)
    {
      RowsGroupsIff(ix, mat, |ix.facts|, group);
      var p: nat, q: nat :| p < |ix.facts| && q < |ix.facts| && NewMutex(mat, |ix.facts|, p, q) && group == [ix.facts[p], ix.facts[q]];
      UnreachedPairDead(ix, mat, live, p, q, s);
    }
  }

  // ---- what the scan reports ----

  /** The pair became a mutex although both facts are still possible. */
  ghost predicate BecameMutex(was: Matrix, mat: Matrix, n: nat, a: nat, b: nat)
    requires Square(was, n) && Square(mat, n) && a < n && b < n
  {
    a != b && was[a][b] != SPURIOUS && mat[a][b] == SPURIOUS && mat[a][a] != SPURIOUS && mat[b][b] != SPURIOUS
  }

  /** The groups are the pairs that became mutexes, lower variable first. */
  ghost predicate GroupsAreNew(ix: Index, was: Matrix, mat: Matrix, groups: seq<seq<Fact>>)
    requires Square(was, |ix.facts|) && Square(mat, |ix.facts|)
  {
    && (forall group | group in groups :: IsNewGroup(ix, was, mat, group))
    && forall a: nat, b: nat | a < |ix.facts| && b < |ix.facts| && BecameMutex(was, mat, |ix.facts|, a, b) && ix.facts[a].v < ix.facts[b].v ::
         [ix.facts[a], ix.facts[b]] in groups
  }

  ghost predicate IsNewGroup(ix: Index, was: Matrix, mat: Matrix, group: seq<Fact>)
    requires Square(was, |ix.facts|) && Square(mat, |ix.facts|)
  {
    exists a: nat, b: nat | a < |ix.facts| && b < |ix.facts| ::
      BecameMutex(was, mat, |ix.facts|, a, b) && ix.facts[a].v < ix.facts[b].v && group == [ix.facts[a], ix.facts[b]]
  }

  /** Exactly those pairs are recorded as inconsistent in addition. */
  ghost predicate InconsistentAreNew(ix: Index, was: Matrix, mat: Matrix, before: map<Fact, set<Fact>>, inc: map<Fact, set<Fact>>)
    requires ValidIndex(ix) && Square(was, |ix.facts|) && Square(mat, |ix.facts|)
  {
    forall a: nat, b: nat | a < |ix.facts| && b < |ix.facts| ::
      ix.facts[b] in ListOfFact(inc, ix.facts[a]) <==>
      ix.facts[b] in ListOfFact(before, ix.facts[a]) || BecameMutex(was, mat, |ix.facts|, a, b)
  }

  /** A scan that turns exactly the unreached pairs into mutexes reports and records the new ones. */
  lemma ScanReports(ix: Index, was: Matrix, m0: Matrix, mat: Matrix, before: map<Fact, set<Fact>>)
    requires ValidIndex(ix) && Square(was, |ix.facts|) && Square(m0, |ix.facts|) && Square(mat, |ix.facts|) && Symmetric(m0, |ix.facts|)
    requires Decided(m0, mat, |ix.facts|)
    requires forall p, q | 0 <= p < |ix.facts| && 0 <= q < |ix.facts| :: was[p][q] == SPURIOUS <==> m0[p][q] == SPURIOUS
    ensures GroupsAreNew(ix, was, mat, RowsGroups(ix, m0, |ix.facts|))
    ensures InconsistentAreNew(ix, was, mat, before, RowsInconsistent(ix, m0, before, |ix.facts|))
  {
    var n := |ix.facts|;
    forall a: nat, b: nat | a < n && b < n
      ensures BecameMutex(was, mat, n, a, b) <==> NewMutex(m0, n, a, b)
    {
      assert mat[a][b] == if m0[a][b] == NOT_REACHED then SPURIOUS else m0[a][b];
      assert mat[a][a] == if m0[a][a] == NOT_REACHED then SPURIOUS else m0[a][a];
      assert mat[b][b] == if m0[b][b] == NOT_REACHED then SPURIOUS else m0[b][b];
    }
    GroupsReported(ix, was, m0, mat);
    forall a: nat, b: nat | a < n && b < n
      ensures ix.facts[b] in ListOfFact(RowsInconsistent(ix, m0, before, n), ix.facts[a]) <==>
              ix.facts[b] in ListOfFact(before, ix.facts[a]) || BecameMutex(was, mat, n, a, b)
    {
      RowsInconsistentIff(ix, m0, before, n, ix.facts[a], ix.facts[b]);
    }
  }

  lemma GroupsReported(ix: Index, was: Matrix, m0: Matrix, mat: Matrix)
    requires Square(was, |ix.facts|) && Square(m0, |ix.facts|) && Square(mat, |ix.facts|)
    requires forall a: nat, b: nat | a < |ix.facts| && b < |ix.facts| :: BecameMutex(was, mat, |ix.facts|, a, b) <==> NewMutex(m0, |ix.facts|, a, b)
    ensures GroupsAreNew(ix, was, mat, RowsGroups(ix, m0, |ix.facts|))
  {
    var n := |ix.facts|;
    forall group | group in RowsGroups(ix, m0, n)
      ensures IsNewGroup(ix, was, mat, group)
    {
      RowsGroupsIff(ix, m0, n, group);
    }
    forall a: nat, b: nat | a < n && b < n && BecameMutex(was, mat, n, a, b) && ix.facts[a].v < ix.facts[b].v
      ensures [ix.facts[a], ix.facts[b]] in RowsGroups(ix, m0, n)
    {
      RowsGroupsIff(ix, m0, n, [ix.facts[a], ix.facts[b]]);
      assert Done(n, 0, a, b);
    }
  }
}
