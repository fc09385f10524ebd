/** Domain transition graphs and the values reachable in them (simplify.py:40-153). */
module Dtg {
  import opened Sas
  import opened Conditions
  import opened Collections

  type Arcs = map<nat, set<nat>>

  function From(arcs: Arcs, u: nat): set<nat> {
    if u in arcs then arcs[u] else {}
  }

  ghost predicate ClosedUnder(arcs: Arcs, xs: set<nat>) {
    forall u, v | u in xs && v in From(arcs, u) :: v in xs
  }

  /** The least set of values that contains `init` and is closed under the arcs. */
  ghost predicate IsReachable(arcs: Arcs, init: nat, r: set<nat>) {
    && init in r && ClosedUnder(arcs, r)
    && forall xs | init in xs && ClosedUnder(arcs, xs) :: r <= xs
  }

  class DomainTransitionGraph {
    const init: nat
    const size: nat
    var arcs: Arcs

    constructor (i: nat, n: nat)
      ensures init == i && size == n && arcs == map[]
    {
      init, size, arcs := i, n, map[];
    }

    method AddArc(u: nat, v: nat)
      modifies this
      ensures forall x, y :: y in From(arcs, x) <==> y in From(old(arcs), x) || (x == u && y == v)
      ensures arcs.Keys <= old(arcs.Keys) + {u}
    {
      arcs := arcs[u := From(arcs, u) + {v}];
    }

    method Reachable() returns (reachable: set<nat>)
      requires init < size && forall u, v | v in From(arcs, u) :: v < size
      ensures IsReachable(arcs, init, reachable) && forall v | v in reachable :: v < size
    {
      var queue := [init];
      reachable := {init};
      var graph := arcs;
      StartsExploring(graph, init, size);
      while queue != []
        invariant Exploring(graph, init, size, reachable, queue)
        decreases Range(size) - reachable, |queue|
      {
        var node, rest := queue[|queue| - 1], queue[..|queue| - 1];
        var newNeighbors := From(graph, node) - reachable;
        var more := ListOf(newNeighbors);
        Explored(graph, init, size, reachable, queue, node, rest, more);
        queue, reachable := rest + more, reachable + newNeighbors;
      }
      Exhausted(arcs, init, size, reachable);
    }
  }

  /** The values found are in every closed set, and those not queued have their neighbours found. */
  ghost predicate Exploring(arcs: Arcs, init: nat, size: nat, reachable: set<nat>, queue: seq<nat>) {
    && init in reachable && (forall v | v in reachable :: v < size)
    && (forall u | u in queue :: u in reachable)
    && (forall u, v | u in reachable && u !in queue && v in From(arcs, u) :: v in reachable)
    && (forall xs | init in xs && ClosedUnder(arcs, xs) :: reachable <= xs)
  }

  lemma StartsExploring(arcs: Arcs, init: nat, size: nat)
    requires init < size
    ensures Exploring(arcs, init, size, {init}, [init])
  {
  }

  lemma Exhausted(arcs: Arcs, init: nat, size: nat, reachable: set<nat>)
    requires Exploring(arcs, init, size, reachable, [])
    ensures IsReachable(arcs, init, reachable) && forall v | v in reachable :: v < size
  {
  }

  lemma Explored(arcs: Arcs, init: nat, size: nat, reachable: set<nat>, queue: seq<nat>, node: nat, rest: seq<nat>, more: seq<nat>)
    requires Exploring(arcs, init, size, reachable, queue) && queue == rest + [node]
    requires forall u, v | v in From(arcs, u) :: v < size
    requires forall v :: v in more <==> v in From(arcs, node) - reachable
    ensures Exploring(arcs, init, size, reachable + (From(arcs, node) - reachable), rest + more)
    ensures more == [] || Range(size) - (reachable + (From(arcs, node) - reachable)) < Range(size) - reachable
    ensures more == [] ==> reachable + (From(arcs, node) - reachable) == reachable
  {
    assert node in queue && forall u | u in queue :: u in rest || u == node;
    if more != [] {
      assert more[0] in more && more[0] in Range(size) - reachable;
    }
  }

  // ---- the graphs of a task ----

  /** What an effect demands of its variable: nothing, one value, or two different values. */
  datatype EffectivePre = Free | Only(x: nat) | Contradictory

  /** The structural rules for operators (sas_tasks.py:323-341): conditions mention a variable once,
      an effect variable has no prevail condition and one precondition, and effect conditions do
      not repeat preconditions. */
  ghost predicate WellBuilt(op: SasOperator) {
    && DistinctFacts(op.prevail)
    && (forall f, e {:trigger f in op.prevail, e in op.prePost} | f in op.prevail && e in op.prePost :: f.v != e.v)
    && (forall e, e' | e in op.prePost && e' in op.prePost && e.v == e'.v :: e.pre == e'.pre)
    && (forall e | e in op.prePost :: DistinctFacts(e.cond))
    && (forall e, f, e' | e in op.prePost && f in e.cond && e' in op.prePost && f.v == e'.v :: e'.pre.None?)
    && (forall e, f, g | e in op.prePost && f in e.cond && g in op.prevail :: f.v != g.v)
  }

  ghost predicate WellBuiltTask(t: Task) {
    ValidTask(t) && forall op | op in t.ops :: WellBuilt(op)
  }

  /** The applicability conditions of the operator. */
  ghost predicate Demands(op: SasOperator, f: Fact) {
    f in op.prevail || exists e | e in op.prePost :: e.v == f.v && e.pre == Some(f.x)
  }

  ghost predicate IsApplicability(op: SasOperator, c: Cond) {
    forall v: nat, x: nat :: (v in c && c[v] == x) <==> Demands(op, Fact(v, x))
  }

  lemma ApplicabilityHolds(op: SasOperator, c: Cond, s: State)
    requires IsApplicability(op, c)
    ensures Satisfies(s, c) <==> Applicable(op, s)
  {
    if Applicable(op, s) {
      forall v | v in c
        ensures Holds(s, Fact(v, c[v]))
      {
        assert Demands(op, Fact(v, c[v]));
      }
    }
    if Satisfies(s, c) {
      forall f | f in op.prevail
        ensures Holds(s, f)
      {
        assert f == Fact(f.v, f.x) && Demands(op, Fact(f.v, f.x));
      }
      forall e | e in op.prePost
        ensures PreHolds(s, e)
      {
        assert e.pre.Some? ==> Demands(op, Fact(e.v, e.pre.value));
      }
    }
  }

  function PrevailMap(fs: seq<Fact>): Cond {
    if fs == [] then map[] else var f := fs[|fs| - 1]; PrevailMap(fs[..|fs| - 1])[f.v := f.x]
  }

  function PreMap(effects: seq<Effect>, c: Cond): Cond {
    if effects == [] then c
    else
      var e, d := effects[|effects| - 1], PreMap(effects[..|effects| - 1], c);
      if e.pre.Some? then d[e.v := e.pre.value] else d
  }

  function Gathered(op: SasOperator): Cond {
    PreMap(op.prePost, PrevailMap(op.prevail))
  }

  lemma {:induction false} PrevailMapIs(fs: seq<Fact>)
    requires DistinctFacts(fs)
    ensures forall v: nat, x: nat :: (v in PrevailMap(fs) && PrevailMap(fs)[v] == x) <==> Fact(v, x) in fs
  {
    if fs != [] {
      var n := |fs| - 1;
      PrevailMapIs(fs[..n]);
      assert fs == fs[..n] + [fs[n]];
      assert forall f | f in fs[..n] :: f.v != fs[n].v;
    }
  }

  predicate Maps(c: Cond, v: nat, x: nat) {
    v in c && c[v] == x
  }

  lemma HasPreNext(effects: seq<Effect>, e: Effect, v: nat, x: nat)
    ensures HasPre(effects + [e], v, x) <==> HasPre(effects, v, x) || (e.v == v && e.pre == Some(x))
  {
    assert e in effects + [e];
    if HasPre(effects, v, x) {
      var e' :| e' in effects && e'.v == v && e'.pre == Some(x);
      assert e' in effects + [e];
    }
  }

  lemma {:induction false} PreMapIs(effects: seq<Effect>, c: Cond, v: nat, x: nat)
    requires forall e, e' | e in effects && e' in effects && e.v == e'.v :: e.pre == e'.pre
    requires forall e | e in effects :: e.v !in c
    ensures Maps(PreMap(effects, c), v, x) <==> Maps(c, v, x) || HasPre(effects, v, x)
  {
    if effects != [] {
      var n := |effects| - 1;
      var e := effects[n];
      assert effects == effects[..n] + [e] && e in effects;
      PreMapIs(effects[..n], c, v, x);
      HasPreNext(effects[..n], e, v, x);
      if HasPre(effects[..n], v, x) && e.v == v {
        var e' :| e' in effects[..n] && e'.v == v && e'.pre == Some(x);
        assert e' in effects;
      }
    }
  }

  lemma GatheredIs(op: SasOperator)
    requires WellBuilt(op)
    ensures IsApplicability(op, Gathered(op))
  {
    PrevailMapIs(op.prevail);
    var c := PrevailMap(op.prevail);
    assert forall v | v in c :: Fact(v, c[v]) in op.prevail;
    forall v: nat, x: nat
      ensures (v in Gathered(op) && Gathered(op)[v] == x) <==> Demands(op, Fact(v, x))
    {
      PreMapIs(op.prePost, c, v, x);
      assert Maps(c, v, x) <==> Fact(v, x) in op.prevail;
    }
  }

  /** get_applicability_conditions */
  method ApplicabilityConditions(op: SasOperator) returns (c: Cond)
    ensures c == Gathered(op)
  {
    c := map[];
    for i := 0 to |op.prevail|
      invariant c == PrevailMap(op.prevail[..i])
    {
      assert op.prevail[..i + 1][..i] == op.prevail[..i];
      c := c[op.prevail[i].v := op.prevail[i].x];
    }
    assert op.prevail[..|op.prevail|] == op.prevail;
    for i := 0 to |op.prePost|
      invariant c == PreMap(op.prePost[..i], PrevailMap(op.prevail))
    {
      assert op.prePost[..i + 1][..i] == op.prePost[..i];
      if op.prePost[i].pre.Some? {
        c := c[op.prePost[i].v := op.prePost[i].pre.value];
      }
    }
    assert op.prePost[..|op.prePost|] == op.prePost;
  }

  /** get_effective_pre */
  function EffectivePreOf(v: nat, c: Cond, cond: seq<Fact>): (r: EffectivePre) {
    ScanConditions(v, if v in c then Only(c[v]) else Free, cond)
  }

  function ScanConditions(v: nat, known: EffectivePre, cond: seq<Fact>): EffectivePre
    decreases cond
  {
    if cond == [] then known
    else if cond[0].v != v then ScanConditions(v, known, cond[1..])
    else if known == Free then ScanConditions(v, Only(cond[0].x), cond[1..])
    else if known == Only(cond[0].x) then ScanConditions(v, known, cond[1..])
    else Contradictory
  }

  ghost predicate Meets(s: State, v: nat, p: EffectivePre) {
    match p
    case Free => true
    case Only(x) => Holds(s, Fact(v, x))
    case Contradictory => false
  }

  /** Where the effect can fire its variable has a value the effective precondition admits. */
  lemma {:induction false} ScanMeets(v: nat, known: EffectivePre, cond: seq<Fact>, s: State)
    requires HoldsAll(s, cond) && Meets(s, v, known)
    ensures Meets(s, v, ScanConditions(v, known, cond))
    decreases cond
  {
    if cond != [] {
      assert Holds(s, cond[0]) && HoldsAll(s, cond[1..]);
      if cond[0].v != v {
        ScanMeets(v, known, cond[1..], s);
      } else if known == Free {
        ScanMeets(v, Only(cond[0].x), cond[1..], s);
      } else if known == Only(cond[0].x) {
        ScanMeets(v, known, cond[1..], s);
      }
    }
  }

  predicate AdmitsValue(p: EffectivePre, x: nat) {
    p.Free? || p == Only(x)
  }

  /** A value the effective precondition admits contradicts none of the conditions it was computed from. */
  lemma {:induction false} ScanAdmits(v: nat, known: EffectivePre, cond: seq<Fact>, x: nat)
    requires AdmitsValue(ScanConditions(v, known, cond), x)
    ensures AdmitsValue(known, x) && forall f | f in cond && f.v == v :: f.x == x
    decreases cond
  {
    if cond != [] {
      if cond[0].v != v {
        ScanAdmits(v, known, cond[1..], x);
      } else {
        ScanAdmits(v, Only(cond[0].x), cond[1..], x);
      }
      assert cond == [cond[0]] + cond[1..];
    }
  }

  /** The effective precondition names a value that a condition names. */
  lemma {:induction false} ScanOrigin(v: nat, known: EffectivePre, cond: seq<Fact>)
    ensures ScanConditions(v, known, cond).Only? ==>
              known == ScanConditions(v, known, cond) || Fact(v, ScanConditions(v, known, cond).x) in cond
    ensures ScanConditions(v, known, cond).Free? ==> known.Free?
    ensures DistinctFacts(cond) && !known.Contradictory? && (known.Only? ==> forall f | f in cond :: f.v != v) ==>
              !ScanConditions(v, known, cond).Contradictory?
    decreases cond
  {
    if cond != [] {
      assert DistinctFacts(cond) ==> DistinctFacts(cond[1..]);
      if cond[0].v != v {
        ScanOrigin(v, known, cond[1..]);
      } else if known == Free {
        ScanOrigin(v, Only(cond[0].x), cond[1..]);
        assert DistinctFacts(cond) ==> forall f | f in cond[1..] :: f.v != v;
      } else if known == Only(cond[0].x) {
        ScanOrigin(v, known, cond[1..]);
      }
    }
  }

  function EffPre(op: SasOperator, e: Effect): EffectivePre {
    EffectivePreOf(e.v, Gathered(op), e.cond)
  }

  /** An effect with this effective precondition changes the value `x` to `y`. */
  predicate Admits(size: nat, p: EffectivePre, x: nat, y: nat) {
    match p
    case Free => x < size && x != y
    case Only(q) => x == q
    case Contradictory => false
  }

  /** Some effect of the operators changes `x` to `y` at variable `v`. */
  ghost predicate ArcOf(ops: seq<SasOperator>, size: nat, v: nat, x: nat, y: nat) {
    exists op | op in ops :: ArcBy(op, op.prePost, size, v, x, y)
  }

  ghost predicate ArcBy(op: SasOperator, effects: seq<Effect>, size: nat, v: nat, x: nat, y: nat) {
    exists e | e in effects :: e.v == v && e.post == y && Admits(size, EffPre(op, e), x, y)
  }

  ghost function AllArcs(dtgs: seq<DomainTransitionGraph>): seq<Arcs>
    reads dtgs
  {
    seq(|dtgs|, v requires 0 <= v < |dtgs| reads dtgs => dtgs[v].arcs)
  }

  ghost predicate OneEach(t: Task, dtgs: seq<DomainTransitionGraph>) {
    && |dtgs| == |t.ranges| == |t.init|
    && (forall v | 0 <= v < |dtgs| :: dtgs[v].init == t.init[v] && dtgs[v].size == t.ranges[v])
    && (forall u, v | 0 <= u < v < |dtgs| :: dtgs[u] != dtgs[v])
  }

  /** add_arc */
  method AddArcs(t: Task, dtgs: seq<DomainTransitionGraph>, v: nat, pre: EffectivePre, post: nat)
    requires OneEach(t, dtgs) && v < |dtgs|
    modifies dtgs[v]
    ensures forall u | 0 <= u < |dtgs| && u != v :: AllArcs(dtgs)[u] == old(AllArcs(dtgs))[u]
    ensures forall x: nat, y: nat :: y in From(AllArcs(dtgs)[v], x) <==>
              y in From(old(AllArcs(dtgs))[v], x) || (y == post && Admits(t.ranges[v], pre, x, y))
  {
    var g := dtgs[v];
    match pre
    case Contradictory =>
    case Only(x) => g.AddArc(x, post);
    case Free =>
      var others := ListOf(Range(t.ranges[v]) - {post});
      for i := 0 to |others|
        invariant forall x: nat, y: nat :: y in From(g.arcs, x) <==> y in From(old(g.arcs), x) || (y == post && x in others[..i])
      {
        assert others[..i + 1] == others[..i] + [others[i]];
        g.AddArc(others[i], post);
      }
      assert others[..|others|] == others;
  }

  ghost predicate ArcsAre(t: Task, all: seq<Arcs>, n: nat)
    requires n <= |t.ops|
  {
    |all| == |t.ranges| && forall v, x: nat, y: nat | 0 <= v < |all| ::
      y in From(all[v], x) <==> ArcOf(t.ops[..n], t.ranges[v], v, x, y)
  }

  ghost predicate ArcsWithin(t: Task, all: seq<Arcs>, n: nat, k: nat)
    requires n < |t.ops| && k <= |t.ops[n].prePost|
  {
    |all| == |t.ranges| && forall v, x: nat, y: nat | 0 <= v < |all| ::
      y in From(all[v], x) <==> ArcOf(t.ops[..n], t.ranges[v], v, x, y)
                                || ArcBy(t.ops[n], t.ops[n].prePost[..k], t.ranges[v], v, x, y)
  }

  lemma ArcByNext(op: SasOperator, effects: seq<Effect>, e: Effect, size: nat, v: nat, x: nat, y: nat)
    ensures ArcBy(op, effects + [e], size, v, x, y) <==>
            ArcBy(op, effects, size, v, x, y) || (e.v == v && e.post == y && Admits(size, EffPre(op, e), x, y))
  {
    assert e in effects + [e];
    if ArcBy(op, effects, size, v, x, y) {
      var d :| d in effects && d.v == v && d.post == y && Admits(size, EffPre(op, d), x, y);
      assert d in effects + [e];
    }
  }

  lemma ArcOfNext(ops: seq<SasOperator>, op: SasOperator, size: nat, v: nat, x: nat, y: nat)
    ensures ArcOf(ops + [op], size, v, x, y) <==> ArcOf(ops, size, v, x, y) || ArcBy(op, op.prePost, size, v, x, y)
  {
    assert op in ops + [op];
    if ArcOf(ops, size, v, x, y) {
      var o :| o in ops && ArcBy(o, o.prePost, size, v, x, y);
      assert o in ops + [op];
    }
  }

  lemma EffectDone(t: Task, before: seq<Arcs>, all: seq<Arcs>, n: nat, k: nat, c: nat)
    requires n < |t.ops| && k < |t.ops[n].prePost| && c == k + 1 && ArcsWithin(t, before, n, k) && |all| == |before|
    requires var e := t.ops[n].prePost[k];
             && e.v < |all| && (forall u | 0 <= u < |all| && u != e.v :: all[u] == before[u])
             && forall x: nat, y: nat :: y in From(all[e.v], x) <==>
                  y in From(before[e.v], x) || (y == e.post && Admits(t.ranges[e.v], EffPre(t.ops[n], e), x, y))
    ensures ArcsWithin(t, all, n, c)
  {
    var op := t.ops[n];
    assert op.prePost[..c] == op.prePost[..k] + [op.prePost[k]];
    forall v, x: nat, y: nat | 0 <= v < |all|
      ensures y in From(all[v], x) <==> ArcOf(t.ops[..n], t.ranges[v], v, x, y) || ArcBy(op, op.prePost[..c], t.ranges[v], v, x, y)
    {
      ArcByNext(op, op.prePost[..k], op.prePost[k], t.ranges[v], v, x, y);
    }
  }

  lemma OperatorDone(t: Task, all: seq<Arcs>, n: nat, c: nat)
    requires n < |t.ops| && c == n + 1 && ArcsWithin(t, all, n, |t.ops[n].prePost|)
    ensures ArcsAre(t, all, c)
  {
    assert t.ops[..c] == t.ops[..n] + [t.ops[n]];
    assert t.ops[n].prePost[..|t.ops[n].prePost|] == t.ops[n].prePost;
    forall v, x: nat, y: nat | 0 <= v < |all|
      ensures y in From(all[v], x) <==> ArcOf(t.ops[..c], t.ranges[v], v, x, y)
    {
      ArcOfNext(t.ops[..n], t.ops[n], t.ranges[v], v, x, y);
    }
  }

  /** build_dtgs */
  method BuildDtgs(t: Task) returns (dtgs: seq<DomainTransitionGraph>)
    requires ValidTask(t)
    ensures OneEach(t, dtgs) && ArcsAre(t, AllArcs(dtgs), |t.ops|)
    ensures forall v | 0 <= v < |dtgs| :: fresh(dtgs[v])
  {
    dtgs := CreateGraphs(t);
    for i := 0 to |t.ops|
      invariant OneEach(t, dtgs) && ArcsAre(t, AllArcs(dtgs), i)
      invariant forall v | 0 <= v < |dtgs| :: fresh(dtgs[v])
    {
      AddOperator(t, dtgs, i);
      OperatorDone(t, AllArcs(dtgs), i, i + 1);
    }
  }

  method CreateGraphs(t: Task) returns (dtgs: seq<DomainTransitionGraph>)
    requires ValidTask(t)
    ensures OneEach(t, dtgs) && ArcsAre(t, AllArcs(dtgs), 0)
    ensures forall v | 0 <= v < |dtgs| :: fresh(dtgs[v])
  {
    dtgs := [];
    for v := 0 to |t.ranges|
      invariant |dtgs| == v
      invariant forall u | 0 <= u < v :: fresh(dtgs[u]) && dtgs[u].init == t.init[u] && dtgs[u].size == t.ranges[u] && dtgs[u].arcs == map[]
      invariant forall u, w | 0 <= u < w < v :: dtgs[u] != dtgs[w]
    {
      var g := new DomainTransitionGraph(t.init[v], t.ranges[v]);
      dtgs := dtgs + [g];
    }
  }

  method AddOperator(t: Task, dtgs: seq<DomainTransitionGraph>, i: nat)
    requires ValidTask(t) && OneEach(t, dtgs) && i < |t.ops| && ArcsAre(t, AllArcs(dtgs), i)
    modifies dtgs
    ensures ArcsWithin(t, AllArcs(dtgs), i, |t.ops[i].prePost|)
  {
    var op := t.ops[i];
    var conditions := ApplicabilityConditions(op);
    assert op in t.ops;
    for k := 0 to |op.prePost|
      invariant ArcsWithin(t, AllArcs(dtgs), i, k)
    {
      var e := op.prePost[k];
      assert e in op.prePost && ValidFact(t.ranges, Fact(e.v, e.post));
      ghost var before := AllArcs(dtgs);
      AddArcs(t, dtgs, e.v, EffectivePreOf(e.v, conditions, e.cond), e.post);
      EffectDone(t, before, AllArcs(dtgs), i, k, k + 1);
    }
  }
}
