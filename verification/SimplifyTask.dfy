/** filter_unreachable_propositions: the simplified task has the same plans (simplify.py:227-420, 479-540). */
module SimplifyTask {
  import opened Sas
  import opened Conditions
  import opened Dtg
  import opened Renaming
  import opened Simplify
  import opened Simulation

  datatype Outcome = Impossible | TriviallySolvable | Simplified(task: Task, origin: seq<nat>)

  // ---- domains ----

  /** The values reachable in the graph of every variable. */
  ghost predicate ReachableDomains(t: Task, all: seq<Arcs>, domains: seq<set<nat>>) {
    |all| == |domains| == |t.ranges| == |t.init| && forall v | 0 <= v < |domains| :: IsReachable(all[v], t.init[v], domains[v])
  }

  lemma ArcsInRange(t: Task, all: seq<Arcs>, v: nat)
    requires ValidTask(t) && ArcsAre(t, all, |t.ops|) && v < |all|
    ensures forall x: nat, y: nat | y in From(all[v], x) :: y < t.ranges[v]
  {
    assert t.ops[..|t.ops|] == t.ops;
    forall x: nat, y: nat | y in From(all[v], x)
      ensures y < t.ranges[v]
    {
      assert ArcOf(t.ops, t.ranges[v], v, x, y);
      var op :| op in t.ops && ArcBy(op, op.prePost, t.ranges[v], v, x, y);
      var e :| e in op.prePost && e.v == v && e.post == y && Admits(t.ranges[v], EffPre(op, e), x, y);
      assert ValidFact(t.ranges, Fact(e.v, e.post));
    }
  }

  /** Reachable values contain every value an effect reaches from them. */
  lemma ReachableClosed(t: Task, all: seq<Arcs>, domains: seq<set<nat>>, op: SasOperator)
    requires ValidTask(t) && ArcsAre(t, all, |t.ops|) && ReachableDomains(t, all, domains) && |domains| == |t.ranges|
    requires op in t.ops
    ensures PostsReached(op, domains)
  {
    assert t.ops[..|t.ops|] == t.ops;
    forall e | e in op.prePost && e.v < |domains|
      ensures EffPre(op, e).Free? ==> e.post in domains[e.v]
      ensures EffPre(op, e).Only? && EffPre(op, e).x in domains[e.v] ==> e.post in domains[e.v]
    {
      var x := if EffPre(op, e).Only? then EffPre(op, e).x else t.init[e.v];
      if Admits(t.ranges[e.v], EffPre(op, e), x, e.post) {
        assert ArcBy(op, op.prePost, t.ranges[e.v], e.v, x, e.post);
        assert ArcOf(t.ops, t.ranges[e.v], e.v, x, e.post);
        assert e.post in From(all[e.v], x);
      }
    }
  }

  /** build_renaming */
  method BuildRenaming(t: Task, dtgs: seq<DomainTransitionGraph>) returns (renaming: VarValueRenaming, ghost domains: seq<set<nat>>)
    requires ValidTask(t) && OneEach(t, dtgs) && ArcsAre(t, AllArcs(dtgs), |t.ops|)
    ensures fresh(renaming) && |domains| == |t.ranges| && ValidTable(t.ranges, domains, renaming.Now())
    ensures ReachableDomains(t, AllArcs(dtgs), domains)
    ensures forall v | 0 <= v < |domains| :: ValidDomain(t.ranges[v], t.init[v], domains[v])
  {
    renaming := new VarValueRenaming();
    domains := [];
    ghost var all := AllArcs(dtgs);
    for v := 0 to |dtgs|
      invariant |domains| == v && fresh(renaming) && AllArcs(dtgs) == all
      invariant Registered(t, all, domains, renaming.Now()) && renaming.newVarCount == |renaming.newSizes|
    {
      ArcsInRange(t, all, v);
      var g := dtgs[v];
      assert g.arcs == all[v];
      var domain := g.Reachable();
      ghost var before := domains;
      renaming.RegisterVariable(t.ranges, domains, g.size, g.init, domain);
      domains := domains + [domain];
      RegisteredNext(t, all, before, domain, renaming.Now());
    }
  }

  /** The variables registered so far. */
  ghost predicate Registered(t: Task, all: seq<Arcs>, domains: seq<set<nat>>, tab: Table) {
    && |domains| <= |all| == |t.ranges| == |t.init| && ValidTable(t.ranges, domains, tab)
    && forall v | 0 <= v < |domains| ::
         IsReachable(all[v], t.init[v], domains[v]) && ValidDomain(t.ranges[v], t.init[v], domains[v])
  }

  lemma RegisteredNext(t: Task, all: seq<Arcs>, domains: seq<set<nat>>, domain: set<nat>, tab: Table)
    requires |domains| < |all| == |t.ranges| == |t.init| && ValidTable(t.ranges, domains + [domain], tab)
    requires forall v | 0 <= v < |domains| ::
               IsReachable(all[v], t.init[v], domains[v]) && ValidDomain(t.ranges[v], t.init[v], domains[v])
    requires IsReachable(all[|domains|], t.init[|domains|], domain) && ValidDomain(t.ranges[|domains|], t.init[|domains|], domain)
    ensures Registered(t, all, domains + [domain], tab)
  {
  }

  // ---- the domains as values taken in the projection on one variable ----

  /** An operator applicable in some valid state with value `x` fires an effect that gives the variable the value `y`. */
  ghost predicate ValueStep(t: Task, v: nat, x: nat, y: nat) {
    exists s, op, e | ValidState(t.ranges, s) && op in t.ops && e in op.prePost :: TakesValue(op, e, s, v, x, y)
  }

  ghost predicate TakesValue(op: SasOperator, e: Effect, s: State, v: nat, x: nat, y: nat) {
    e.v == v && e.post == y && Holds(s, Fact(v, x)) && Applicable(op, s) && HoldsAll(s, e.cond)
  }

  ghost predicate ClosedUnderSteps(t: Task, v: nat, xs: set<nat>) {
    forall x, y | x in xs && ValueStep(t, v, x, y) :: y in xs
  }

  /** The least set of values with the initial one that such steps do not leave. */
  ghost predicate AreTaken(t: Task, v: nat, domain: set<nat>)
    requires v < |t.init|
  {
    t.init[v] in domain && ClosedUnderSteps(t, v, domain) && forall xs | t.init[v] in xs && ClosedUnderSteps(t, v, xs) :: domain <= xs
  }

  ghost predicate DomainsTaken(t: Task, domains: seq<set<nat>>) {
    |domains| == |t.init| && forall v | 0 <= v < |domains| :: AreTaken(t, v, domains[v])
  }

  /** The graph of a variable has exactly the steps of its projection that change the value. */
  lemma ArcIffStep(t: Task, v: nat, x: nat, y: nat)
    requires WellBuiltTask(t) && v < |t.ranges| && x != y
    ensures ArcOf(t.ops, t.ranges[v], v, x, y) <==> ValueStep(t, v, x, y)
  {
    forall s, op, e | ValidState(t.ranges, s) && op in t.ops && e in op.prePost && TakesValue(op, e, s, v, x, y)
      ensures ArcBy(op, op.prePost, t.ranges[v], v, x, y)
    {
      EffPreMet(op, e, s);
    }
    if ArcOf(t.ops, t.ranges[v], v, x, y) {
      var op :| op in t.ops && ArcBy(op, op.prePost, t.ranges[v], v, x, y);
      var e :| e in op.prePost && e.v == v && e.post == y && Admits(t.ranges[v], EffPre(op, e), x, y);
      var s := StateFor(t, op, e, x);
      assert TakesValue(op, e, s, v, x, y);
    }
  }

  /** A value the effective precondition admits is that of some state in which the effect fires. */
  lemma StateFor(t: Task, op: SasOperator, e: Effect, x: nat) returns (s: State)
    requires WellBuiltTask(t) && op in t.ops && e in op.prePost && Admits(t.ranges[e.v], EffPre(op, e), x, e.post)
    ensures ValidState(t.ranges, s) && Holds(s, Fact(e.v, x)) && Applicable(op, s) && HoldsAll(s, e.cond)
  {
    var all := ConditionsTogether(t, op, e, x);
    s := seq(|t.init|, u requires 0 <= u < |t.init| => if u in all then all[u] else t.init[u]);
    assert forall u | u in all :: Holds(s, Fact(u, all[u]));
    StateFires(op, e, s, all);
  }

  lemma StateFires(op: SasOperator, e: Effect, s: State, all: Cond)
    requires WellBuilt(op) && e in op.prePost && Satisfies(s, all) && Includes(all, Gathered(op)) && Includes(all, PrevailMap(e.cond))
    ensures Applicable(op, s) && HoldsAll(s, e.cond)
  {
    GatheredIs(op);
    PrevailMapIs(e.cond);
    ApplicabilityHolds(op, Gathered(op), s);
    forall f | f in e.cond
      ensures Holds(s, f)
    {
      assert f == Fact(f.v, f.x) && f.v in PrevailMap(e.cond);
    }
  }

  ghost predicate Includes(all: Cond, c: Cond) {
    forall v | v in c :: v in all && all[v] == c[v]
  }

  lemma ConditionsTogether(t: Task, op: SasOperator, e: Effect, x: nat) returns (all: Cond)
    requires WellBuiltTask(t) && op in t.ops && e in op.prePost && Admits(t.ranges[e.v], EffPre(op, e), x, e.post)
    ensures Includes(all, map[e.v := x]) && Includes(all, Gathered(op)) && Includes(all, PrevailMap(e.cond))
    ensures forall v | v in all :: ValidFact(t.ranges, Fact(v, all[v]))
  {
    var c, d := Gathered(op), PrevailMap(e.cond);
    forall u | u in d
      ensures u !in c && ValidFact(t.ranges, Fact(u, d[u]))
    {
      OwnConditionAt(t, op, e, u);
    }
    forall u | u in c
      ensures ValidFact(t.ranges, Fact(u, c[u]))
    {
      GatheredValid(t, op, u);
    }
    InitialValue(t, op, e, x);
    AdmittedAgrees(t, op, e, x);
    all := Joined(map[e.v := x], c, d);
  }

  lemma Joined(a: Cond, c: Cond, d: Cond) returns (all: Cond)
    requires (forall v | v in a && v in c :: a[v] == c[v]) && (forall v | v in a && v in d :: a[v] == d[v]) && forall v | v in d :: v !in c
    ensures Includes(all, a) && Includes(all, c) && Includes(all, d)
    ensures forall v | v in all :: (v in a && all[v] == a[v]) || (v in c && all[v] == c[v]) || (v in d && all[v] == d[v])
  {
    all := a + c + d;
  }

  lemma AdmittedAgrees(t: Task, op: SasOperator, e: Effect, x: nat)
    requires WellBuiltTask(t) && op in t.ops && e in op.prePost && Admits(t.ranges[e.v], EffPre(op, e), x, e.post)
    ensures e.v in Gathered(op) ==> Gathered(op)[e.v] == x
    ensures e.v in PrevailMap(e.cond) ==> PrevailMap(e.cond)[e.v] == x
  {
    var c := Gathered(op);
    ScanAdmits(e.v, if e.v in c then Only(c[e.v]) else Free, e.cond, x);
    if e.v in PrevailMap(e.cond) {
      OwnConditionAt(t, op, e, e.v);
    }
  }

  lemma InitialValue(t: Task, op: SasOperator, e: Effect, x: nat)
    requires WellBuiltTask(t) && op in t.ops && e in op.prePost && Admits(t.ranges[e.v], EffPre(op, e), x, e.post)
    ensures ValidFact(t.ranges, Fact(e.v, x))
  {
    assert ValidOperator(t.ranges, op) && ValidFact(t.ranges, Fact(e.v, e.post));
    var c := Gathered(op);
    ScanOrigin(e.v, if e.v in c then Only(c[e.v]) else Free, e.cond);
    if e.v in c {
      GatheredValid(t, op, e.v);
    }
  }

  lemma OwnConditionAt(t: Task, op: SasOperator, e: Effect, u: nat)
    requires WellBuiltTask(t) && op in t.ops && e in op.prePost && u in PrevailMap(e.cond)
    ensures u !in Gathered(op) && Fact(u, PrevailMap(e.cond)[u]) in e.cond && ValidFact(t.ranges, Fact(u, PrevailMap(e.cond)[u]))
  {
    PrevailMapIs(e.cond);
    assert ValidOperator(t.ranges, op);
    OwnCondition(op, e, Fact(u, PrevailMap(e.cond)[u]));
  }

  lemma GatheredValid(t: Task, op: SasOperator, v: nat)
    requires WellBuiltTask(t) && op in t.ops && v in Gathered(op)
    ensures ValidFact(t.ranges, Fact(v, Gathered(op)[v]))
  {
    GatheredIs(op);
    assert Demands(op, Fact(v, Gathered(op)[v])) && ValidOperator(t.ranges, op);
  }

  lemma DomainTaken(t: Task, all: seq<Arcs>, v: nat, domain: set<nat>)
    requires WellBuiltTask(t) && ArcsAre(t, all, |t.ops|) && v < |all| && IsReachable(all[v], t.init[v], domain)
    ensures AreTaken(t, v, domain)
  {
    assert t.ops[..|t.ops|] == t.ops;
    forall xs: set<nat>
      ensures ClosedUnder(all[v], xs) <==> ClosedUnderSteps(t, v, xs)
    {
      SameClosed(t, all, v, xs);
    }
  }

  lemma SameClosed(t: Task, all: seq<Arcs>, v: nat, xs: set<nat>)
    requires WellBuiltTask(t) && v < |t.ranges| && v < |all|
    requires forall x: nat, y: nat :: y in From(all[v], x) <==> ArcOf(t.ops, t.ranges[v], v, x, y)
    ensures ClosedUnder(all[v], xs) <==> ClosedUnderSteps(t, v, xs)
  {
    forall x, y | x != y
      ensures y in From(all[v], x) <==> ValueStep(t, v, x, y)
    {
      ArcIffStep(t, v, x, y);
    }
  }

  // ---- the simplified task ----

  method Enumerate(values: seq<nat>) returns (pairs: seq<Fact>)
    ensures |pairs| == |values| && forall v | 0 <= v < |pairs| :: pairs[v] == Fact(v, values[v])
  {
    pairs := [];
    for v := 0 to |values|
      invariant |pairs| == v && forall u | 0 <= u < v :: pairs[u] == Fact(u, values[u])
    {
      pairs := pairs + [Fact(v, values[v])];
    }
  }

  /** apply_to_init: no initial value is dropped as unreachable, and every new variable gets one. */
  method ConvertInit(ghost t: Task, ghost domains: seq<set<nat>>, tab: Table, init: State) returns (values: State)
    requires Renames(t, domains, tab) && InDomains(domains, init) && ValidState(t.ranges, init)
    ensures values == Rename(t.ranges, domains, tab, init)
  {
    var pairs := Enumerate(init);
    forall f | f in pairs
      ensures f.v < |init| && f.x == init[f.v]
    {
    }
    var converted := ConvertPairs(t, domains, tab, pairs);
    assert Kept(domains, pairs);
    ghost var renamed := Rename(t.ranges, domains, tab, init);
    assert HoldsAll(init, pairs);
    values := SetValues(|tab.sizes|, renamed, converted.value);
    forall n: nat | n < |values|
      ensures values[n] == renamed[n]
    {
      NewVariableSet(t, domains, tab, init, pairs, converted.value, n);
    }
  }

  method SetValues(n: nat, ghost renamed: State, pairs: seq<Fact>) returns (values: seq<nat>)
    requires |renamed| == n && HoldsAll(renamed, pairs)
    ensures |values| == n && forall g | g in pairs :: g.v < n && values[g.v] == renamed[g.v]
  {
    values := seq(n, _ => 0);
    for i := 0 to |pairs|
      invariant |values| == n && forall j | 0 <= j < i :: pairs[j].v < n && values[pairs[j].v] == renamed[pairs[j].v]
    {
      assert pairs[i] in pairs && Holds(renamed, pairs[i]);
      values := values[pairs[i].v := pairs[i].x];
    }
  }

  lemma NewVariableSet(t: Task, domains: seq<set<nat>>, tab: Table, init: State, pairs: seq<Fact>, converted: seq<Fact>, n: nat)
    requires Renames(t, domains, tab) && InDomains(domains, init) && ValidState(t.ranges, init) && n < |tab.sizes|
    requires |pairs| == |init| && (forall v | 0 <= v < |pairs| :: pairs[v] == Fact(v, init[v]))
    requires ValidFacts(t.ranges, pairs) && Images(t, domains, tab, pairs, converted)
    ensures exists g | g in converted :: g.v == n
  {
    var v := tab.back[n];
    assert pairs[v] in pairs && ValuesFor(t.ranges[v], domains[v], tab.values[v]);
    assert TranslatePair(tab, pairs[v]).1.Value?;
  }

  /** Operators from the first `n`, each in `kept` with its origin, in the original order; the
      operators without a successor are in `idle`. */
  ghost predicate Traced(n: nat, ops: seq<SasOperator>, origin: seq<nat>, kept: iset<(nat, SasOperator)>, idle: iset<nat>) {
    && |ops| == |origin|
    && (forall j | 0 <= j < |ops| :: origin[j] < n && (origin[j], ops[j]) in kept)
    && (forall j, l | 0 <= j < l < |ops| :: origin[j] < origin[l])
    && (forall i: nat | i < n && i !in origin :: i in idle)
  }

  lemma TracedNext(n: nat, c: nat, ops: seq<SasOperator>, origin: seq<nat>, kept: iset<(nat, SasOperator)>, idle: iset<nat>,
                   r: Option<SasOperator>)
    requires Traced(n, ops, origin, kept, idle) && c == n + 1
    requires if r.Some? then (n, r.value) in kept else n in idle
    ensures if r.Some? then Traced(c, ops + [r.value], origin + [n], kept, idle) else Traced(c, ops, origin, kept, idle)
  {
    assert n in origin + [n];
  }

  ghost function RenamedPairs(t: Task, domains: seq<set<nat>>, tab: Table): iset<(nat, SasOperator)>
    requires Renames(t, domains, tab)
  {
    iset i: nat, op | i < |t.ops| && OperatorRenamed(t, domains, tab, t.ops[i], Some(op)) && OperatorMade(t, domains, tab, t.ops[i], Some(op)) :: (i, op)
  }

  ghost function IdleOperators(t: Task, domains: seq<set<nat>>, tab: Table): iset<nat>
    requires Renames(t, domains, tab)
  {
    iset i: nat | i < |t.ops| && OperatorRenamed(t, domains, tab, t.ops[i], None) && OperatorMade(t, domains, tab, t.ops[i], None)
  }

  /** The operators kept are renamed; the others never change a reachable state. */
  ghost predicate OperatorsRenamed(t: Task, domains: seq<set<nat>>, tab: Table, ops: seq<SasOperator>, origin: seq<nat>)
    requires Renames(t, domains, tab)
  {
    Traced(|t.ops|, ops, origin, RenamedPairs(t, domains, tab), IdleOperators(t, domains, tab))
  }

  lemma KeptIs(t: Task, domains: seq<set<nat>>, tab: Table, r: Task, origin: seq<nat>, j: nat)
    requires Renames(t, domains, tab) && OperatorsRenamed(t, domains, tab, r.ops, origin) && j < |origin|
    ensures origin[j] < |t.ops| && j < |r.ops| && OperatorRenamed(t, domains, tab, t.ops[origin[j]], Some(r.ops[j]))
    ensures OperatorMade(t, domains, tab, t.ops[origin[j]], Some(r.ops[j]))
  {
    assert (origin[j], r.ops[j]) in RenamedPairs(t, domains, tab);
  }

  lemma IdleIs(t: Task, domains: seq<set<nat>>, tab: Table, r: Task, origin: seq<nat>, i: nat)
    requires Renames(t, domains, tab) && OperatorsRenamed(t, domains, tab, r.ops, origin) && i < |t.ops| && i !in origin
    ensures OperatorRenamed(t, domains, tab, t.ops[i], None) && OperatorMade(t, domains, tab, t.ops[i], None)
  {
    assert i in IdleOperators(t, domains, tab);
  }

  lemma KeptOrIdle(t: Task, domains: seq<set<nat>>, tab: Table, r: Task, origin: seq<nat>, i: nat)
    requires Renames(t, domains, tab) && OperatorsRenamed(t, domains, tab, r.ops, origin) && i < |t.ops|
    ensures i in origin || OperatorMade(t, domains, tab, t.ops[i], None)
  {
    if i !in origin {
      IdleIs(t, domains, tab, r, origin, i);
    }
  }

  /** apply_to_operators */
  method ConvertOperators(t: Task, ghost domains: seq<set<nat>>, tab: Table) returns (ops: seq<SasOperator>, origin: seq<nat>)
    requires Renames(t, domains, tab)
    ensures OperatorsRenamed(t, domains, tab, ops, origin)
  {
    ops, origin := [], [];
    ghost var kept, idle := RenamedPairs(t, domains, tab), IdleOperators(t, domains, tab);
    for i := 0 to |t.ops|
      invariant Traced(i, ops, origin, kept, idle)
    {
      assert t.ops[i] in t.ops;
      var r := TranslateOperator(t, domains, tab, t.ops[i]);
      TracedNext(i, i + 1, ops, origin, kept, idle, r);
      if r.Some? {
        ops, origin := ops + [r.value], origin + [i];
      }
    }
  }

  /** The simplified task is the renamed task. */
  ghost predicate Represents(t: Task, domains: seq<set<nat>>, tab: Table, r: Task, origin: seq<nat>) {
    && Renames(t, domains, tab) && r.ranges == tab.sizes
    && InDomains(domains, t.init) && r.init == Rename(t.ranges, domains, tab, t.init)
    && OperatorsRenamed(t, domains, tab, r.ops, origin)
    && forall s | InDomains(domains, s) :: HoldsAll(s, t.goal) <==> HoldsAll(Rename(t.ranges, domains, tab, s), r.goal)
  }

  /** The goal is impossible exactly if a value it demands is not left, and nothing is left of it exactly if it demands
      the only values left. */
  lemma GoalConverted(t: Task, domains: seq<set<nat>>, tab: Table, r: Option<seq<Fact>>)
    requires Renames(t, domains, tab) && Converted(t, domains, tab, t.goal, r)
    ensures r.None? <==> exists f | f in t.goal :: f.v < |domains| && f.x !in domains[f.v]
    ensures r == Some([]) <==> forall f | f in t.goal :: f.v < |domains| && domains[f.v] == {f.x}
  {
    assert ValidFacts(t.ranges, t.goal);
    forall f | f in t.goal
      ensures f.x in domains[f.v] ==> (TranslatePair(tab, f).1.Value? <==> domains[f.v] != {f.x})
    {
      ValueLeft(t, domains, tab, f);
    }
    if r.Some? && r.value != [] {
      SomethingLeft(t, domains, tab, t.goal, r.value);
    }
  }

  lemma ValueLeft(t: Task, domains: seq<set<nat>>, tab: Table, f: Fact)
    requires Renames(t, domains, tab) && ValidFact(t.ranges, f)
    ensures f.x in domains[f.v] ==> (TranslatePair(tab, f).1.Value? <==> domains[f.v] != {f.x})
    ensures TranslatePair(tab, f).1.Value? ==> f.x in domains[f.v]
  {
    assert ValuesFor(t.ranges[f.v], domains[f.v], tab.values[f.v]);
    if f.x in domains[f.v] {
      var rest := domains[f.v] - {f.x};
      assert domains[f.v] == rest + {f.x} && |domains[f.v]| == |rest| + 1;
    }
  }

  lemma SomethingLeft(t: Task, domains: seq<set<nat>>, tab: Table, fs: seq<Fact>, r: seq<Fact>)
    requires Renames(t, domains, tab) && ValidFacts(t.ranges, fs) && Images(t, domains, tab, fs, r) && r != []
    ensures exists f | f in fs :: f.v < |domains| && domains[f.v] != {f.x}
  {
    var g := r[0];
    assert g in r && IsImage(t, domains, tab, fs, g);
    var f :| f in fs && TranslatePair(tab, f) == (Some(g.v), Value(g.x));
    ValueLeft(t, domains, tab, f);
  }

  /** filter_unreachable_propositions without axioms and mutex groups. */
  method FilterUnreachable(t: Task) returns (r: Outcome, ghost domains: seq<set<nat>>, ghost tab: Table)
    requires WellBuiltTask(t)
    ensures DomainsTaken(t, domains)
    ensures r.Impossible? ==> !Solvable(t)
    ensures r.Impossible? <==> exists f | f in t.goal :: f.v < |domains| && f.x !in domains[f.v]
    ensures r.TriviallySolvable? ==> HoldsAll(t.init, t.goal)
    ensures r.TriviallySolvable? <==> forall f | f in t.goal :: f.v < |domains| && domains[f.v] == {f.x}
    ensures r.Simplified? ==> Represents(t, domains, tab, r.task, r.origin) && ValidTask(r.task) && r.task.goal != []
  {
    var dtgs := BuildDtgs(t);
    var renaming;
    renaming, domains := BuildRenaming(t, dtgs);
    forall op | op in t.ops
      ensures PostsReached(op, domains)
    {
      ReachableClosed(t, AllArcs(dtgs), domains, op);
    }
    forall v | 0 <= v < |domains|
      ensures AreTaken(t, v, domains[v])
    {
      DomainTaken(t, AllArcs(dtgs), v, domains[v]);
    }
    var table := renaming.Now();
    tab := table;
    assert Renames(t, domains, tab);
    var init := ConvertInit(t, domains, table, t.init);
    var goal := ConvertPairs(t, domains, table, t.goal);
    GoalConverted(t, domains, tab, goal);
    if goal.None? {
      forall states, acts | IsRun(t, states, acts)
        ensures !HoldsAll(states[|acts|], t.goal)
      {
        RunStays(t, domains, tab, states, acts, |acts|);
      }
      return Impossible, domains, tab;
    }
    if goal.value == [] {
      return TriviallySolvable, domains, tab;
    }
    var ops, origin := ConvertOperators(t, domains, table);
    RenamedValid(t.ranges, domains, tab, t.init);
    r := Simplified(Task(table.sizes, init, goal.value, ops), origin);
  }

  // ---- plans correspond ----

  /** Some run ends in `s`. */
  ghost predicate Reached(t: Task, s: State) {
    exists states, acts :: IsRun(t, states, acts) && states[|acts|] == s
  }

  /** In reached states, effects that fire together on a variable agree. */
  ghost predicate Clear(t: Task) {
    forall s, op | Reached(t, s) && op in t.ops && Applicable(op, s) :: Unambiguous(op, s)
  }

  lemma InitReached(t: Task)
    ensures Reached(t, t.init)
  {
    assert IsRun(t, [t.init], []) && [t.init][0] == t.init;
  }

  lemma ReachedStep(t: Task, s: State, i: nat, s': State)
    requires Reached(t, s) && StepBy(t, s, i, s')
    ensures Reached(t, s')
  {
    var states, acts :| IsRun(t, states, acts) && states[|acts|] == s;
    var states', acts' := states + [s'], acts + [i];
    forall k | 0 <= k < |acts'|
      ensures StepBy(t, states'[k], acts'[k], states'[k + 1])
    {
      assert k < |acts| ==> StepBy(t, states[k], acts[k], states[k + 1]);
    }
    assert states'[|acts'|] == s';
  }

  lemma {:induction false} RunReached(t: Task, states: seq<State>, acts: seq<nat>, k: nat)
    requires IsRun(t, states, acts) && k <= |acts|
    ensures Reached(t, states[k])
  {
    if k == 0 {
      InitReached(t);
    } else {
      RunReached(t, states, acts, k - 1);
      assert StepBy(t, states[k - 1], acts[k - 1], states[k]);
      ReachedStep(t, states[k - 1], acts[k - 1], states[k]);
    }
  }

  lemma ReachedInDomains(t: Task, domains: seq<set<nat>>, tab: Table, s: State)
    requires Renames(t, domains, tab) && Reached(t, s)
    ensures InDomains(domains, s)
  {
    var states, acts :| IsRun(t, states, acts) && states[|acts|] == s;
    RunStays(t, domains, tab, states, acts, |acts|);
  }

  /** A step of the task is a step of the simplified task, or leaves the renamed state as it is. */
  lemma StepMoves(t: Task, domains: seq<set<nat>>, tab: Table, r: Task, origin: seq<nat>, s: State, i: nat, s': State)
    requires Represents(t, domains, tab, r, origin) && Clear(t) && Reached(t, s) && StepBy(t, s, i, s')
    ensures InDomains(domains, s) && InDomains(domains, s') && i < |t.ops|
    ensures IsMove(r, Rename(t.ranges, domains, tab, s), PositionIn(origin, i), Rename(t.ranges, domains, tab, s'), t.ops[i].cost)
  {
    ReachedInDomains(t, domains, tab, s);
    assert t.ops[i] in t.ops && Unambiguous(t.ops[i], s);
    if i in origin {
      var l := PositionIn(origin, i).value;
      KeptIs(t, domains, tab, r, origin, l);
      assert Moves(r, Rename(t.ranges, domains, tab, s), l, Rename(t.ranges, domains, tab, s'), t.ops[i].cost);
    } else {
      IdleIs(t, domains, tab, r, origin, i);
    }
  }

  ghost function RenameAll(t: Task, domains: seq<set<nat>>, tab: Table, states: seq<State>): (codes: seq<State>)
    requires Renames(t, domains, tab) && forall k | 0 <= k < |states| :: InDomains(domains, states[k])
    ensures |codes| == |states| && forall k | 0 <= k < |codes| :: codes[k] == Rename(t.ranges, domains, tab, states[k])
  {
    seq(|states|, k requires 0 <= k < |states| => Rename(t.ranges, domains, tab, states[k]))
  }

  /** Every plan of the task, with exactly the steps of dropped operators deleted, is a plan of the
      simplified task through the renamed states in which the other steps are taken. */
  lemma PlanSurvives(t: Task, domains: seq<set<nat>>, tab: Table, r: Task, origin: seq<nat>, states: seq<State>, acts: seq<nat>)
    returns (states': seq<State>, acts': seq<nat>, pos: seq<nat>)
    requires Represents(t, domains, tab, r, origin) && Clear(t) && IsPlan(t, states, acts)
    ensures forall k | 0 <= k < |states| :: InDomains(domains, states[k])
    ensures IsPlan(r, states', acts') && DeletesOthers(RenameAll(t, domains, tab, states), acts, origin, states', acts', pos)
    ensures Below(acts', |origin|) && Originals(origin, acts') == Surviving(acts, origin)
    ensures Below(acts, |t.ops|) && Below(acts', |r.ops|) && PlanCost(r, acts') <= PlanCost(t, acts)
  {
    RunBelow(t, states, acts);
    forall k | 0 <= k < |states|
      ensures InDomains(domains, states[k])
    {
      RunStays(t, domains, tab, states, acts, k);
    }
    var codes := RenameAll(t, domains, tab, states);
    forall k | 0 <= k < |acts|
      ensures IsMove(r, codes[k], PositionIn(origin, acts[k]), codes[k + 1], Costs(t, acts)[k])
    {
      RunReached(t, states, acts, k);
      assert StepBy(t, states[k], acts[k], states[k + 1]);
      StepMoves(t, domains, tab, r, origin, states[k], acts[k], states[k + 1]);
    }
    states', acts', pos := DeleteOthers(r, codes, Costs(t, acts), acts, origin);
  }

  /** Reached states and their new names. */
  ghost function NamedPairs(t: Task, domains: seq<set<nat>>, tab: Table): iset<(State, State)>
    requires Renames(t, domains, tab)
  {
    iset s | Reached(t, s) && InDomains(domains, s) :: (s, Rename(t.ranges, domains, tab, s))
  }

  /** Steps of the task, numbered by the operators of the simplified task. */
  ghost function OldSteps(t: Task, origin: seq<nat>): iset<(State, nat, State)> {
    iset s, l: nat, s' | l < |origin| && StepBy(t, s, origin[l], s') :: (s, l, s')
  }

  lemma OperatorFollowed(t: Task, domains: seq<set<nat>>, tab: Table, r: Task, origin: seq<nat>, e: State, l: nat, e': State)
    requires Represents(t, domains, tab, r, origin) && Clear(t) && StepBy(r, e, l, e')
    ensures Follows(NamedPairs(t, domains, tab), OldSteps(t, origin), e, l, e')
  {
    KeptIs(t, domains, tab, r, origin, l);
    var op := t.ops[origin[l]];
    forall s | (s, e) in NamedPairs(t, domains, tab)
      ensures FollowsFrom(NamedPairs(t, domains, tab), OldSteps(t, origin), s, l, e')
    {
      assert op in t.ops && Unambiguous(op, s);
      var s' := Successor(op, s);
      assert StepBy(t, s, origin[l], s');
      ReachedStep(t, s, origin[l], s');
      assert (s, l, s') in OldSteps(t, origin) && (s', e') in NamedPairs(t, domains, tab);
    }
  }

  /** Every plan of the simplified task is a plan of the task with the same cost. */
  lemma SimplifiedPlanIsReal(t: Task, domains: seq<set<nat>>, tab: Table, r: Task, origin: seq<nat>, states: seq<State>, acts: seq<nat>)
    returns (olds: seq<State>)
    requires Represents(t, domains, tab, r, origin) && Clear(t) && IsPlan(r, states, acts)
    ensures Below(acts, |origin|) && IsPlan(t, olds, Originals(origin, acts))
    ensures Below(acts, |r.ops|) && Below(Originals(origin, acts), |t.ops|)
    ensures PlanCost(t, Originals(origin, acts)) == PlanCost(r, acts)
    ensures forall k | 0 <= k <= |acts| :: InDomains(domains, olds[k]) && states[k] == Rename(t.ranges, domains, tab, olds[k])
  {
    RunBelow(r, states, acts);
    forall k | 0 <= k < |acts|
      ensures Follows(NamedPairs(t, domains, tab), OldSteps(t, origin), states[k], acts[k], states[k + 1])
    {
      assert StepBy(r, states[k], acts[k], states[k + 1]);
      OperatorFollowed(t, domains, tab, r, origin, states[k], acts[k], states[k + 1]);
    }
    InitReached(t);
    olds := Lift(t.init, NamedPairs(t, domains, tab), OldSteps(t, origin), states, acts);
    LiftedRun(t, domains, tab, origin, states, acts, olds);
    SameCosts(t, domains, tab, r, origin, acts);
  }

  lemma LiftedRun(t: Task, domains: seq<set<nat>>, tab: Table, origin: seq<nat>, states: seq<State>, acts: seq<nat>, olds: seq<State>)
    requires Renames(t, domains, tab) && Below(acts, |origin|) && |olds| > 0 && olds[0] == t.init
    requires IsLift(NamedPairs(t, domains, tab), OldSteps(t, origin), states, acts, olds)
    ensures IsRun(t, olds, Originals(origin, acts))
    ensures forall k | 0 <= k <= |acts| :: InDomains(domains, olds[k]) && states[k] == Rename(t.ranges, domains, tab, olds[k])
  {
    forall k | 0 <= k < |acts|
      ensures StepBy(t, olds[k], Originals(origin, acts)[k], olds[k + 1])
    {
      assert (olds[k], acts[k], olds[k + 1]) in OldSteps(t, origin);
    }
    forall k | 0 <= k <= |acts|
      ensures InDomains(domains, olds[k]) && states[k] == Rename(t.ranges, domains, tab, olds[k])
    {
      assert (olds[k], states[k]) in NamedPairs(t, domains, tab);
    }
  }

  lemma SameCosts(t: Task, domains: seq<set<nat>>, tab: Table, r: Task, origin: seq<nat>, acts: seq<nat>)
    requires Represents(t, domains, tab, r, origin) && Below(acts, |origin|)
    ensures Below(acts, |r.ops|) && Below(Originals(origin, acts), |t.ops|)
    ensures PlanCost(t, Originals(origin, acts)) == PlanCost(r, acts)
  {
    forall k | 0 <= k < |acts|
      ensures origin[acts[k]] < |t.ops| && acts[k] < |r.ops| && r.ops[acts[k]].cost == t.ops[origin[acts[k]]].cost
    {
      KeptIs(t, domains, tab, r, origin, acts[k]);
    }
    assert Costs(t, Originals(origin, acts)) == Costs(r, acts);
  }
}
