/** Variables that can influence the goal, and the task restricted to them
    (variable_order.py:44-54, 98-114, 181-268). */
module Relevance {
  import opened Sas
  import opened Collections
  import opened Simulation

  type Predecessors = map<nat, set<nat>>

  function PredecessorsOf(pred: Predecessors, v: nat): set<nat> {
    if v in pred then pred[v] else {}
  }

  ghost predicate Mentions(fs: seq<Fact>, v: nat) {
    exists f | f in fs :: f.v == v
  }

  /** The operator has a condition on `u`. */
  ghost predicate Requires(op: SasOperator, u: nat) {
    Mentions(op.prevail, u) || exists e | e in op.prePost :: e.v == u && e.pre.Some?
  }

  /** The value of `u` matters for the effect. */
  ghost predicate Influences(op: SasOperator, e: Effect, u: nat) {
    u != e.v && (Requires(op, u) || Mentions(e.cond, u))
  }

  ghost predicate InfluencesVar(op: SasOperator, effects: seq<Effect>, u: nat, v: nat) {
    exists e | e in effects :: e.v == v && Influences(op, e, u)
  }

  ghost predicate Precedes(ops: seq<SasOperator>, u: nat, v: nat) {
    exists op | op in ops :: InfluencesVar(op, op.prePost, u, v)
  }

  /** The operator applies and the effect fires. */
  predicate Fires(op: SasOperator, e: Effect, s: State) {
    Applicable(op, s) && HoldsAll(s, e.cond)
  }

  /** The effect fires, and no longer with another value of the variable. */
  ghost predicate StopsFiring(ranges: seq<nat>, op: SasOperator, e: Effect, u: nat, s: State, x: nat)
    requires u < |ranges|
  {
    ValidState(ranges, s) && x < ranges[u] && Fires(op, e, s) && !Fires(op, e, s[u := x])
  }

  /** A variable influences an effect that can fire exactly if the effect fires in some state and no longer when only that
      variable has another value. */
  lemma InfluencesIff(ranges: seq<nat>, op: SasOperator, e: Effect, u: nat, base: State)
    requires ValidState(ranges, base) && Fires(op, e, base) && u < |ranges| && ranges[u] > 1 && u != e.v
    ensures Influences(op, e, u) <==>
            exists s, x: nat :: StopsFiring(ranges, op, e, u, s, x)
  {
    if Influences(op, e, u) {
      var x := if base[u] == 0 then 1 else 0;
      Distinguished(op, e, u, base, x);
      assert StopsFiring(ranges, op, e, u, base, x);
    } else {
      forall s, x: nat | ValidState(ranges, s) && Fires(op, e, s)
        ensures !StopsFiring(ranges, op, e, u, s, x)
      {
        Unaffected(op, e, u, s, x);
      }
    }
  }

  lemma Distinguished(op: SasOperator, e: Effect, u: nat, s: State, x: nat)
    requires Influences(op, e, u) && Fires(op, e, s) && u < |s| && x != s[u]
    ensures !Fires(op, e, s[u := x])
  {
    var s' := s[u := x];
    if f :| (f in op.prevail || f in e.cond) && f.v == u {
      assert Holds(s, f) && !Holds(s', f);
    } else {
      var d :| d in op.prePost && d.v == u && d.pre.Some?;
      assert PreHolds(s, d) && !PreHolds(s', d);
    }
  }

  lemma Unaffected(op: SasOperator, e: Effect, u: nat, s: State, x: nat)
    requires u != e.v && !Influences(op, e, u) && Fires(op, e, s) && u < |s|
    ensures Fires(op, e, s[u := x])
  {
    var s' := s[u := x];
    forall f | f in op.prevail || f in e.cond
      ensures Holds(s', f)
    {
      assert Holds(s, f) && f.v != u;
    }
    forall d | d in op.prePost
      ensures PreHolds(s', d)
    {
      assert PreHolds(s, d) && (d.v == u ==> d.pre.None?);
    }
  }

  // ---- the predecessor graph ----

  method VarsOf(fs: seq<Fact>) returns (vars: set<nat>)
    ensures forall v: nat :: v in vars <==> Mentions(fs, v)
  {
    vars := {};
    for i := 0 to |fs|
      invariant forall v: nat :: v in vars <==> Mentions(fs[..i], v)
    {
      MentionsNext(fs[..i], fs[i]);
      assert fs[..i + 1] == fs[..i] + [fs[i]];
      vars := vars + {fs[i].v};
    }
    assert fs[..|fs|] == fs;
  }

  lemma MentionsNext(fs: seq<Fact>, f: Fact)
    ensures forall v: nat :: Mentions(fs + [f], v) <==> Mentions(fs, v) || f.v == v
  {
    assert f in fs + [f];
    forall v: nat | Mentions(fs, v)
      ensures Mentions(fs + [f], v)
    {
      var g :| g in fs && g.v == v;
      assert g in fs + [f];
    }
  }

  method SourceVars(op: SasOperator) returns (vars: set<nat>)
    ensures forall v: nat :: v in vars <==> Requires(op, v)
  {
    vars := VarsOf(op.prevail);
    ghost var prevailVars := vars;
    for i := 0 to |op.prePost|
      invariant forall v: nat :: v in vars <==> v in prevailVars || exists e | e in op.prePost[..i] :: e.v == v && e.pre.Some?
    {
      var e := op.prePost[i];
      assert op.prePost[..i + 1] == op.prePost[..i] + [e];
      if e.pre.Some? {
        vars := vars + {e.v};
      }
    }
    assert op.prePost[..|op.prePost|] == op.prePost;
  }

  /** weight_graph_from_ops, for one operator. */
  method AddOperator(pred0: Predecessors, op: SasOperator) returns (pred: Predecessors)
    ensures forall u: nat, v: nat :: u in PredecessorsOf(pred, v) <==> u in PredecessorsOf(pred0, v) || InfluencesVar(op, op.prePost, u, v)
  {
    pred := pred0;
    var sources := SourceVars(op);
    for i := 0 to |op.prePost|
      invariant forall u: nat, v: nat :: u in PredecessorsOf(pred, v) <==>
                  u in PredecessorsOf(pred0, v) || InfluencesVar(op, op.prePost[..i], u, v)
    {
      var e := op.prePost[i];
      assert op.prePost[..i + 1] == op.prePost[..i] + [e];
      InfluencesNext(op, op.prePost[..i], e);
      var vars := VarsOf(e.cond);
      pred := pred[e.v := PredecessorsOf(pred, e.v) + (sources + vars - {e.v})];
    }
    assert op.prePost[..|op.prePost|] == op.prePost;
  }

  lemma InfluencesNext(op: SasOperator, effects: seq<Effect>, e: Effect)
    ensures forall u: nat, v: nat :: InfluencesVar(op, effects + [e], u, v) <==>
              InfluencesVar(op, effects, u, v) || (e.v == v && Influences(op, e, u))
  {
    assert e in effects + [e];
    forall u: nat, v: nat | InfluencesVar(op, effects, u, v)
      ensures InfluencesVar(op, effects + [e], u, v)
    {
      var d :| d in effects && d.v == v && Influences(op, d, u);
      assert d in effects + [e];
    }
  }

  method BuildPredecessors(ops: seq<SasOperator>) returns (pred: Predecessors)
    ensures forall u: nat, v: nat :: u in PredecessorsOf(pred, v) <==> Precedes(ops, u, v)
  {
    pred := map[];
    for i := 0 to |ops|
      invariant forall u: nat, v: nat :: u in PredecessorsOf(pred, v) <==> Precedes(ops[..i], u, v)
    {
      assert ops[..i + 1] == ops[..i] + [ops[i]];
      PrecedesNext(ops[..i], ops[i]);
      pred := AddOperator(pred, ops[i]);
    }
    assert ops[..|ops|] == ops;
  }

  lemma PrecedesNext(ops: seq<SasOperator>, op: SasOperator)
    ensures forall u: nat, v: nat :: Precedes(ops + [op], u, v) <==> Precedes(ops, u, v) || InfluencesVar(op, op.prePost, u, v)
  {
    assert op in ops + [op];
    forall u: nat, v: nat | Precedes(ops, u, v)
      ensures Precedes(ops + [op], u, v)
    {
      var o :| o in ops && InfluencesVar(o, o.prePost, u, v);
      assert o in ops + [op];
    }
  }

  // ---- necessary variables ----

  ghost predicate ClosedUnder(pred: Predecessors, xs: set<nat>) {
    forall v | v in xs :: PredecessorsOf(pred, v) <= xs
  }

  /** In every closed set that contains the goal variables. */
  ghost predicate InAllClosed(pred: Predecessors, goal: seq<Fact>, v: nat) {
    forall xs: set<nat> | ClosedUnder(pred, xs) && (forall f | f in goal :: f.v in xs) :: v in xs
  }

  /** The least closed set that contains the goal variables. */
  ghost predicate IsNecessary(pred: Predecessors, goal: seq<Fact>, necessary: set<nat>) {
    && ClosedUnder(pred, necessary) && (forall f | f in goal :: f.v in necessary)
    && forall v | v in necessary :: InAllClosed(pred, goal, v)
  }

  /** calculate_important_vars */
  method CalculateImportantVars(pred: Predecessors, goal: seq<Fact>, ghost n: nat) returns (necessary: set<nat>)
    requires forall u: nat, v: nat | u in PredecessorsOf(pred, v) :: u < n
    requires forall f | f in goal :: f.v < n
    ensures IsNecessary(pred, goal, necessary) && forall v | v in necessary :: v < n
  {
    necessary := {};
    for i := 0 to |goal|
      invariant ClosedUnder(pred, necessary) && forall v | v in necessary :: v < n && InAllClosed(pred, goal, v)
      invariant forall j | 0 <= j < i :: goal[j].v in necessary
    {
      assert goal[i] in goal;
      if goal[i].v !in necessary {
        necessary := Dfs(pred, goal, n, goal[i].v, necessary + {goal[i].v});
      }
    }
  }

  /** dfs: everything that reaches the node becomes necessary. */
  method Dfs(pred: Predecessors, ghost goal: seq<Fact>, ghost n: nat, node: nat, necessary0: set<nat>) returns (necessary: set<nat>)
    requires forall u: nat, v: nat | u in PredecessorsOf(pred, v) :: u < n
    requires node in necessary0 && forall v | v in necessary0 :: v < n && InAllClosed(pred, goal, v)
    requires forall v | v in necessary0 && v != node :: PredecessorsOf(pred, v) <= necessary0
    ensures necessary0 <= necessary && ClosedUnder(pred, necessary)
    ensures forall v | v in necessary :: v < n && InAllClosed(pred, goal, v)
  {
    necessary := necessary0;
    var first := ListOf(PredecessorsOf(pred, node));
    var stack: seq<nat> := first;
    SearchStarts(pred, goal, n, node, necessary0, first);
    while stack != []
      invariant necessary0 <= necessary
      invariant Searching(pred, goal, n, necessary, stack)
      decreases Range(n) - necessary, |stack|
    {
      necessary, stack := Visit(pred, goal, n, necessary, stack);
    }
    SearchEnds(pred, goal, n, necessary);
  }

  /** The top of the stack becomes necessary, unless it is. */
  method Visit(pred: Predecessors, ghost goal: seq<Fact>, ghost n: nat, necessary0: set<nat>, stack0: seq<nat>)
    returns (necessary: set<nat>, stack: seq<nat>)
    requires Searching(pred, goal, n, necessary0, stack0) && stack0 != []
    requires forall u: nat, v: nat | u in PredecessorsOf(pred, v) :: u < n
    ensures Searching(pred, goal, n, necessary, stack) && necessary0 <= necessary
    ensures if necessary == necessary0 then |stack| < |stack0| else Range(n) - necessary < Range(n) - necessary0
  {
    var top := stack0[|stack0| - 1];
    necessary, stack := necessary0, stack0[..|stack0| - 1];
    if top !in necessary {
      var more := ListOf(PredecessorsOf(pred, top));
      Visited(pred, goal, n, necessary0, stack0, more);
      assert top in Range(n) - necessary0;
      necessary := necessary + {top};
      stack := stack + more;
    } else {
      Passed(pred, goal, n, necessary0, stack0);
    }
  }

  /** During the search: predecessors of necessary variables are necessary or wait on the stack. */
  ghost predicate Searching(pred: Predecessors, goal: seq<Fact>, n: nat, necessary: set<nat>, stack: seq<nat>) {
    && (forall v | v in necessary :: v < n && InAllClosed(pred, goal, v))
    && (forall v | v in stack :: v < n && InAllClosed(pred, goal, v))
    && (forall v: nat, u: nat | v in necessary && u in PredecessorsOf(pred, v) :: u in necessary || u in stack)
  }

  lemma SearchStarts(pred: Predecessors, goal: seq<Fact>, n: nat, node: nat, necessary: set<nat>, first: seq<nat>)
    requires forall u: nat, v: nat | u in PredecessorsOf(pred, v) :: u < n
    requires node in necessary && forall v | v in necessary :: v < n && InAllClosed(pred, goal, v)
    requires forall v | v in necessary && v != node :: PredecessorsOf(pred, v) <= necessary
    requires forall u :: u in first <==> u in PredecessorsOf(pred, node)
    ensures Searching(pred, goal, n, necessary, first)
  {
    forall u | u in first
      ensures u < n && InAllClosed(pred, goal, u)
    {
      PredecessorInAll(pred, goal, node, u);
    }
  }

  lemma SearchEnds(pred: Predecessors, goal: seq<Fact>, n: nat, necessary: set<nat>)
    requires Searching(pred, goal, n, necessary, [])
    ensures ClosedUnder(pred, necessary) && forall v | v in necessary :: v < n && InAllClosed(pred, goal, v)
  {
  }

  /** The top is necessary already. */
  lemma Passed(pred: Predecessors, goal: seq<Fact>, n: nat, necessary: set<nat>, stack: seq<nat>)
    requires Searching(pred, goal, n, necessary, stack) && stack != [] && stack[|stack| - 1] in necessary
    ensures Searching(pred, goal, n, necessary, stack[..|stack| - 1])
  {
    var rest, top := stack[..|stack| - 1], stack[|stack| - 1];
    assert stack == rest + [top];
    assert (forall u | u in stack :: u in rest || u == top) && forall u | u in rest :: u in stack;
  }

  lemma Visited(pred: Predecessors, goal: seq<Fact>, n: nat, necessary: set<nat>, stack: seq<nat>, more: seq<nat>)
    requires Searching(pred, goal, n, necessary, stack) && stack != []
    requires forall u: nat, v: nat | u in PredecessorsOf(pred, v) :: u < n
    requires forall u :: u in more <==> u in PredecessorsOf(pred, stack[|stack| - 1])
    ensures stack[|stack| - 1] < n
    ensures Searching(pred, goal, n, necessary + {stack[|stack| - 1]}, stack[..|stack| - 1] + more)
  {
    var top, rest := stack[|stack| - 1], stack[..|stack| - 1];
    assert stack == rest + [top] && top in stack;
    assert forall v | v in rest :: v in stack;
    forall u | u in more
      ensures u < n && InAllClosed(pred, goal, u)
    {
      PredecessorInAll(pred, goal, top, u);
    }
    forall v: nat, u: nat | v in necessary + {top} && u in PredecessorsOf(pred, v)
      ensures u in necessary + {top} || u in rest + more
    {
      assert v in necessary ==> u in necessary || u in rest + [top];
    }
  }

  lemma PredecessorInAll(pred: Predecessors, goal: seq<Fact>, v: nat, u: nat)
    requires InAllClosed(pred, goal, v) && u in PredecessorsOf(pred, v)
    ensures InAllClosed(pred, goal, u)
  {
  }

  // ---- the restricted task ----

  ghost predicate IsIndex(order: seq<nat>, newVar: map<nat, nat>) {
    && (forall v :: v in newVar <==> v in order)
    && (forall v | v in newVar :: newVar[v] < |order| && order[newVar[v]] == v)
    && (forall i | 0 <= i < |order| :: order[i] in newVar && newVar[order[i]] == i)
  }

  ghost predicate Fits(order: seq<nat>, s: State) {
    forall i | 0 <= i < |order| :: order[i] < |s|
  }

  ghost function Project(order: seq<nat>, s: State): (r: State)
    requires Fits(order, s)
    ensures |r| == |order| && forall i | 0 <= i < |r| :: r[i] == s[order[i]]
  {
    seq(|order|, i requires 0 <= i < |order| => s[order[i]])
  }

  function RenameFacts(newVar: map<nat, nat>, fs: seq<Fact>): seq<Fact> {
    if fs == [] then []
    else
      var f := fs[|fs| - 1];
      RenameFacts(newVar, fs[..|fs| - 1]) + if f.v in newVar then [Fact(newVar[f.v], f.x)] else []
  }

  function RenameEffects(newVar: map<nat, nat>, effects: seq<Effect>): seq<Effect> {
    if effects == [] then []
    else
      var e := effects[0];
      (if e.v in newVar then [Effect(newVar[e.v], e.pre, e.post, RenameFacts(newVar, e.cond))] else []) + RenameEffects(newVar, effects[1..])
  }

  /** All variables of the facts are kept. */
  ghost predicate Covered(newVar: map<nat, nat>, fs: seq<Fact>) {
    forall f | f in fs :: f.v in newVar
  }

  lemma {:induction false} FactsRenamed(order: seq<nat>, newVar: map<nat, nat>, fs: seq<Fact>, s: State)
    requires IsIndex(order, newVar) && Fits(order, s) && Covered(newVar, fs)
    ensures HoldsAll(Project(order, s), RenameFacts(newVar, fs)) <==> HoldsAll(s, fs)
  {
    if fs != [] {
      var n := |fs| - 1;
      var f := fs[n];
      assert fs == fs[..n] + [f] && f in fs;
      FactsRenamed(order, newVar, fs[..n], s);
      assert Holds(Project(order, s), Fact(newVar[f.v], f.x)) <==> Holds(s, f);
      assert HoldsAll(s, fs) <==> HoldsAll(s, fs[..n]) && Holds(s, f);
      var left := RenameFacts(newVar, fs[..n]);
      assert HoldsAll(Project(order, s), left + [Fact(newVar[f.v], f.x)]) <==>
             HoldsAll(Project(order, s), left) && Holds(Project(order, s), Fact(newVar[f.v], f.x));
    }
  }

  /** Conditions of effects on kept variables only mention kept variables. */
  lemma UpdateProjected(order: seq<nat>, newVar: map<nat, nat>, s: State, v: nat, x: nat)
    requires IsIndex(order, newVar) && Fits(order, s)
    ensures v in newVar ==> v < |s| && Project(order, s[v := x]) == Project(order, s)[newVar[v] := x]
    ensures v !in newVar && v < |s| ==> Project(order, s[v := x]) == Project(order, s)
  {
  }

  ghost predicate EffectsCovered(newVar: map<nat, nat>, effects: seq<Effect>) {
    forall e | e in effects && e.v in newVar :: Covered(newVar, e.cond)
  }

  lemma {:induction false} EffectsRenamed(order: seq<nat>, newVar: map<nat, nat>, effects: seq<Effect>, s: State, current: State)
    requires IsIndex(order, newVar) && |s| == |current| && Fits(order, s) && EffectsCovered(newVar, effects)
    ensures ApplyEffects(RenameEffects(newVar, effects), Project(order, s), Project(order, current)) ==
            Project(order, ApplyEffects(effects, s, current))
    decreases |effects|
  {
    if effects != [] {
      var e, rest := effects[0], effects[1..];
      var next := if HoldsAll(s, e.cond) && e.v < |current| then current[e.v := e.post] else current;
      EffectsRenamed(order, newVar, rest, s, next);
      if e.v in newVar {
        var d := Effect(newVar[e.v], e.pre, e.post, RenameFacts(newVar, e.cond));
        FactsRenamed(order, newVar, e.cond, s);
        assert RenameEffects(newVar, effects)[0] == d && RenameEffects(newVar, effects)[1..] == RenameEffects(newVar, rest);
        UpdateProjected(order, newVar, current, e.v, e.post);
      } else {
        UpdateProjected(order, newVar, current, e.v, e.post);
        assert RenameEffects(newVar, effects) == RenameEffects(newVar, rest);
      }
    }
  }

  /** The variables kept are closed under the influences of the operators. */
  ghost predicate Relevant(t: Task, order: seq<nat>, newVar: map<nat, nat>) {
    && ValidTask(t) && IsIndex(order, newVar) && Fits(order, t.ranges)
    && Covered(newVar, t.goal)
    && forall u, v | v in newVar && Precedes(t.ops, u, v) :: u in newVar
  }

  /** An operator that affects a kept variable has its conditions on kept variables. */
  lemma ConditionsKept(t: Task, order: seq<nat>, newVar: map<nat, nat>, op: SasOperator)
    requires Relevant(t, order, newVar) && op in t.ops
    ensures EffectsCovered(newVar, op.prePost)
    ensures (exists e | e in op.prePost :: e.v in newVar) ==>
              Covered(newVar, op.prevail) && forall e | e in op.prePost && e.pre.Some? :: e.v in newVar
  {
    forall e, f | e in op.prePost && e.v in newVar && f in e.cond
      ensures f.v in newVar
    {
      InfluenceKept(t, order, newVar, op, e, f.v);
    }
    if e :| e in op.prePost && e.v in newVar {
      forall f | f in op.prevail
        ensures f.v in newVar
      {
        InfluenceKept(t, order, newVar, op, e, f.v);
      }
      forall d | d in op.prePost && d.pre.Some?
        ensures d.v in newVar
      {
        InfluenceKept(t, order, newVar, op, e, d.v);
      }
    }
  }

  lemma InfluenceKept(t: Task, order: seq<nat>, newVar: map<nat, nat>, op: SasOperator, e: Effect, u: nat)
    requires Relevant(t, order, newVar) && op in t.ops && e in op.prePost && e.v in newVar
    requires Requires(op, u) || Mentions(e.cond, u)
    ensures u in newVar
  {
    if u != e.v {
      assert Influences(op, e, u);
      assert InfluencesVar(op, op.prePost, u, e.v);
      assert Precedes(t.ops, u, e.v);
    }
  }

  /** The operator restricted to the kept variables; None when nothing of its effects is left
      (_apply_to_operators). */
  method RestrictOperator(newVar: map<nat, nat>, op: SasOperator) returns (r: Option<SasOperator>)
    ensures r == if RenameEffects(newVar, op.prePost) == [] then None
                 else Some(SasOperator(RenameFacts(newVar, op.prevail), RenameEffects(newVar, op.prePost), op.cost))
  {
    var prePost: seq<Effect> := [];
    for i := 0 to |op.prePost|
      invariant prePost + RenameEffects(newVar, op.prePost[i..]) == RenameEffects(newVar, op.prePost)
    {
      var e := op.prePost[i];
      assert op.prePost[i..][1..] == op.prePost[i + 1..];
      if e.v in newVar {
        var cond := RestrictFacts(newVar, e.cond);
        prePost := prePost + [Effect(newVar[e.v], e.pre, e.post, cond)];
      }
    }
    assert op.prePost[|op.prePost|..] == [];
    assert prePost == RenameEffects(newVar, op.prePost);
    if prePost == [] {
      return None;
    }
    var prevail := RestrictFacts(newVar, op.prevail);
    return Some(SasOperator(prevail, prePost, op.cost));
  }

  method RestrictFacts(newVar: map<nat, nat>, fs: seq<Fact>) returns (r: seq<Fact>)
    ensures r == RenameFacts(newVar, fs)
  {
    r := [];
    for i := 0 to |fs|
      invariant r == RenameFacts(newVar, fs[..i])
    {
      assert fs[..i + 1][..i] == fs[..i];
      if fs[i].v in newVar {
        r := r + [Fact(newVar[fs[i].v], fs[i].x)];
      }
    }
    assert fs[..|fs|] == fs;
  }

  lemma {:induction false} NothingLeft(newVar: map<nat, nat>, effects: seq<Effect>)
    ensures RenameEffects(newVar, effects) == [] <==> forall e | e in effects :: e.v !in newVar
  {
    if effects != [] {
      NothingLeft(newVar, effects[1..]);
      assert effects == [effects[0]] + effects[1..];
    }
  }

  lemma {:induction false} PresRenamed(order: seq<nat>, newVar: map<nat, nat>, effects: seq<Effect>, s: State)
    requires IsIndex(order, newVar) && Fits(order, s) && forall e | e in effects && e.pre.Some? :: e.v in newVar
    ensures (forall d | d in RenameEffects(newVar, effects) :: PreHolds(Project(order, s), d)) <==> forall e | e in effects :: PreHolds(s, e)
  {
    if effects != [] {
      var e, rest := effects[0], effects[1..];
      assert effects == [e] + rest;
      PresRenamed(order, newVar, rest, s);
      if e.v in newVar {
        var d := Effect(newVar[e.v], e.pre, e.post, RenameFacts(newVar, e.cond));
        assert PreHolds(Project(order, s), d) <==> PreHolds(s, e);
        assert forall x :: x in RenameEffects(newVar, effects) <==> x == d || x in RenameEffects(newVar, rest);
      }
    }
  }

  /** The restricted operator behaves on projected states like the operator. */
  lemma OperatorRestricted(t: Task, order: seq<nat>, newVar: map<nat, nat>, op: SasOperator, s: State)
    requires Relevant(t, order, newVar) && op in t.ops && Fits(order, s)
    ensures Fits(order, Successor(op, s))
    ensures var effects := RenameEffects(newVar, op.prePost);
            if effects == [] then Project(order, Successor(op, s)) == Project(order, s)
            else var r := SasOperator(RenameFacts(newVar, op.prevail), effects, op.cost);
              (Applicable(r, Project(order, s)) <==> Applicable(op, s))
              && Successor(r, Project(order, s)) == Project(order, Successor(op, s))
  {
    ConditionsKept(t, order, newVar, op);
    EffectsRenamed(order, newVar, op.prePost, s, s);
    NothingLeft(newVar, op.prePost);
    if RenameEffects(newVar, op.prePost) != [] {
      FactsRenamed(order, newVar, op.prevail, s);
      PresRenamed(order, newVar, op.prePost, s);
    }
  }

  /** `r` is the task restricted to the variables of the order. */
  ghost predicate Restricts(t: Task, order: seq<nat>, newVar: map<nat, nat>, r: Task, origin: seq<nat>) {
    && Relevant(t, order, newVar) && |r.ops| == |origin|
    && r.ranges == Project(order, t.ranges) && Fits(order, t.init) && r.init == Project(order, t.init)
    && r.goal == RenameFacts(newVar, t.goal)
    && (forall j | 0 <= j < |r.ops| ::
          origin[j] < |t.ops| && RenameEffects(newVar, t.ops[origin[j]].prePost) != []
          && r.ops[j] == RestrictedTo(newVar, t.ops[origin[j]]))
    && (forall i | 0 <= i < |t.ops| && RenameEffects(newVar, t.ops[i].prePost) != [] :: i in origin)
    && (forall j, l | 0 <= j < l < |origin| :: origin[j] < origin[l])
  }

  function RestrictedTo(newVar: map<nat, nat>, op: SasOperator): SasOperator {
    SasOperator(RenameFacts(newVar, op.prevail), RenameEffects(newVar, op.prePost), op.cost)
  }

  lemma RunFits(t: Task, order: seq<nat>, newVar: map<nat, nat>, states: seq<State>, acts: seq<nat>, k: nat)
    requires Relevant(t, order, newVar) && IsRun(t, states, acts) && k < |states|
    ensures Fits(order, states[k])
  {
    RunStatesValid(t, states, acts, k);
  }

  lemma StepProjected(t: Task, order: seq<nat>, newVar: map<nat, nat>, r: Task, origin: seq<nat>, s: State, i: nat, s': State)
    requires Restricts(t, order, newVar, r, origin) && Fits(order, s) && StepBy(t, s, i, s')
    ensures Fits(order, s') && IsMove(r, Project(order, s), PositionIn(origin, i), Project(order, s'), t.ops[i].cost)
    ensures i in origin <==> RenameEffects(newVar, t.ops[i].prePost) != []
  {
    assert t.ops[i] in t.ops;
    OperatorRestricted(t, order, newVar, t.ops[i], s);
    if RenameEffects(newVar, t.ops[i].prePost) != [] {
      var l := PositionIn(origin, i).value;
      assert Moves(r, Project(order, s), l, Project(order, s'), t.ops[i].cost);
    }
  }

  ghost function ProjectAll(order: seq<nat>, states: seq<State>): (codes: seq<State>)
    requires forall k | 0 <= k < |states| :: Fits(order, states[k])
    ensures |codes| == |states| && forall k | 0 <= k < |codes| :: codes[k] == Project(order, states[k])
  {
    seq(|states|, k requires 0 <= k < |states| => Project(order, states[k]))
  }

  /** An operator is pruned if it affects no variable of the order. */
  ghost predicate IsPruned(newVar: map<nat, nat>, op: SasOperator) {
    forall e | e in op.prePost :: e.v !in newVar
  }

  /** Every plan, with exactly the steps of pruned operators deleted, is a plan of the restricted
      task through the projected states in which the other steps are taken. */
  lemma PlanProjects(t: Task, order: seq<nat>, newVar: map<nat, nat>, r: Task, origin: seq<nat>, states: seq<State>, acts: seq<nat>)
    returns (states': seq<State>, acts': seq<nat>, pos: seq<nat>)
    requires Restricts(t, order, newVar, r, origin) && IsPlan(t, states, acts)
    ensures forall k | 0 <= k < |states| :: Fits(order, states[k])
    ensures IsPlan(r, states', acts') && DeletesOthers(ProjectAll(order, states), acts, origin, states', acts', pos)
    ensures Below(acts, |t.ops|) && forall k | 0 <= k < |acts| :: k !in pos <==> IsPruned(newVar, t.ops[acts[k]])
    ensures Below(acts', |origin|) && Originals(origin, acts') == Surviving(acts, origin)
    ensures Below(acts', |r.ops|) && PlanCost(r, acts') <= PlanCost(t, acts)
  {
    RunBelow(t, states, acts);
    forall k | 0 <= k < |states|
      ensures Fits(order, states[k])
    {
      RunFits(t, order, newVar, states, acts, k);
    }
    var codes := ProjectAll(order, states);
    forall k | 0 <= k < |acts|
      ensures IsMove(r, codes[k], PositionIn(origin, acts[k]), codes[k + 1], Costs(t, acts)[k])
      ensures acts[k] in origin <==> !IsPruned(newVar, t.ops[acts[k]])
    {
      assert StepBy(t, states[k], acts[k], states[k + 1]);
      StepProjected(t, order, newVar, r, origin, states[k], acts[k], states[k + 1]);
      NothingLeft(newVar, t.ops[acts[k]].prePost);
    }
    states', acts', pos := DeleteOthers(r, codes, Costs(t, acts), acts, origin);
    FactsRenamed(order, newVar, t.goal, states[|acts|]);
  }

  ghost function ProjectedPairs(order: seq<nat>): iset<(State, State)> {
    iset s | Fits(order, s) :: (s, Project(order, s))
  }

  ghost function FullSteps(t: Task, origin: seq<nat>): iset<(State, nat, State)> {
    iset s, l: nat, s' | l < |origin| && StepBy(t, s, origin[l], s') :: (s, l, s')
  }

  lemma StepFollowed(t: Task, order: seq<nat>, newVar: map<nat, nat>, r: Task, origin: seq<nat>, e: State, l: nat, e': State)
    requires Restricts(t, order, newVar, r, origin) && StepBy(r, e, l, e')
    ensures Follows(ProjectedPairs(order), FullSteps(t, origin), e, l, e')
  {
    var op := t.ops[origin[l]];
    forall s | (s, e) in ProjectedPairs(order)
      ensures FollowsFrom(ProjectedPairs(order), FullSteps(t, origin), s, l, e')
    {
      OperatorRestricted(t, order, newVar, op, s);
      assert (s, l, Successor(op, s)) in FullSteps(t, origin) && (Successor(op, s), e') in ProjectedPairs(order);
    }
  }

  /** Every plan of the restricted task is a plan of the task with the same cost. */
  lemma RestrictedPlanIsReal(t: Task, order: seq<nat>, newVar: map<nat, nat>, r: Task, origin: seq<nat>, states: seq<State>, acts: seq<nat>)
    returns (full: seq<State>)
    requires Restricts(t, order, newVar, r, origin) && IsPlan(r, states, acts)
    ensures Below(acts, |origin|) && IsPlan(t, full, Originals(origin, acts))
    ensures Below(acts, |r.ops|) && Below(Originals(origin, acts), |t.ops|)
    ensures PlanCost(t, Originals(origin, acts)) == PlanCost(r, acts)
    ensures forall k | 0 <= k <= |acts| :: Fits(order, full[k]) && states[k] == Project(order, full[k])
  {
    RunBelow(r, states, acts);
    forall k | 0 <= k < |acts|
      ensures Follows(ProjectedPairs(order), FullSteps(t, origin), states[k], acts[k], states[k + 1])
    {
      assert StepBy(r, states[k], acts[k], states[k + 1]);
      StepFollowed(t, order, newVar, r, origin, states[k], acts[k], states[k + 1]);
    }
    full := Lift(t.init, ProjectedPairs(order), FullSteps(t, origin), states, acts);
    LiftedRun(t, order, origin, states, acts, full);
    FactsRenamed(order, newVar, t.goal, full[|acts|]);
    assert Costs(t, Originals(origin, acts)) == Costs(r, acts);
  }

  lemma LiftedRun(t: Task, order: seq<nat>, origin: seq<nat>, states: seq<State>, acts: seq<nat>, full: seq<State>)
    requires IsLift(ProjectedPairs(order), FullSteps(t, origin), states, acts, full) && full[0] == t.init && Below(acts, |origin|)
    ensures IsRun(t, full, Originals(origin, acts))
    ensures forall k | 0 <= k <= |acts| :: Fits(order, full[k]) && states[k] == Project(order, full[k])
  {
    forall k | 0 <= k < |acts|
      ensures StepBy(t, full[k], Originals(origin, acts)[k], full[k + 1])
    {
      assert (full[k], acts[k], full[k + 1]) in FullSteps(t, origin);
    }
    forall k | 0 <= k <= |acts|
      ensures Fits(order, full[k]) && states[k] == Project(order, full[k])
    {
      assert (full[k], states[k]) in ProjectedPairs(order);
    }
  }

  // ---- the whole filter ----

  method IndexOf(order: seq<nat>) returns (newVar: map<nat, nat>)
    requires forall i, j | 0 <= i < j < |order| :: order[i] != order[j]
    ensures IsIndex(order, newVar)
  {
    newVar := map[];
    for i := 0 to |order|
      invariant forall v :: v in newVar <==> v in order[..i]
      invariant forall j | 0 <= j < i :: order[j] in newVar && newVar[order[j]] == j
      invariant forall v | v in newVar :: newVar[v] < i && order[newVar[v]] == v
    {
      assert order[..i + 1] == order[..i] + [order[i]];
      newVar := newVar[order[i] := i];
    }
    assert order[..|order|] == order;
  }

  method ProjectValues(order: seq<nat>, s: State) returns (r: State)
    requires Fits(order, s)
    ensures r == Project(order, s)
  {
    r := [];
    for i := 0 to |order|
      invariant |r| == i && forall j | 0 <= j < i :: r[j] == s[order[j]]
    {
      r := r + [s[order[i]]];
    }
  }

  method RestrictOperators(newVar: map<nat, nat>, ops: seq<SasOperator>) returns (made: seq<SasOperator>, origin: seq<nat>)
    ensures |made| == |origin|
    ensures forall j | 0 <= j < |made| ::
              origin[j] < |ops| && RenameEffects(newVar, ops[origin[j]].prePost) != [] && made[j] == RestrictedTo(newVar, ops[origin[j]])
    ensures forall i | 0 <= i < |ops| && RenameEffects(newVar, ops[i].prePost) != [] :: i in origin
    ensures forall j, l | 0 <= j < l < |origin| :: origin[j] < origin[l]
  {
    made, origin := [], [];
    for i := 0 to |ops|
      invariant |made| == |origin|
      invariant forall j | 0 <= j < |made| ::
                  origin[j] < i && RenameEffects(newVar, ops[origin[j]].prePost) != [] && made[j] == RestrictedTo(newVar, ops[origin[j]])
      invariant forall l | 0 <= l < i && RenameEffects(newVar, ops[l].prePost) != [] :: l in origin
      invariant forall j, l | 0 <= j < l < |origin| :: origin[j] < origin[l]
    {
      var r := RestrictOperator(newVar, ops[i]);
      if r.Some? {
        made, origin := made + [r.value], origin + [i];
      }
    }
  }

  ghost predicate ListedBefore(order: seq<nat>, x: nat, y: nat) {
    exists i, j | 0 <= i < j < |order| :: order[i] == x && order[j] == y
  }

  /** The variables kept come in the given order. */
  ghost predicate KeepsOrder(order: seq<nat>, kept: seq<nat>) {
    forall a, b | 0 <= a < b < |kept| :: ListedBefore(order, kept[a], kept[b])
  }

  lemma OrderNext(order: seq<nat>, kept: seq<nat>, i: nat)
    requires i < |order| && KeepsOrder(order, kept) && forall v | v in kept :: v in order[..i]
    ensures KeepsOrder(order, kept + [order[i]])
  {
    forall a | 0 <= a < |kept|
      ensures ListedBefore(order, kept[a], order[i])
    {
      assert kept[a] in order[..i];
      var p :| 0 <= p < i && order[p] == kept[a];
    }
  }

  method KeepNecessary(order: seq<nat>, necessary: set<nat>) returns (kept: seq<nat>)
    requires forall i, j | 0 <= i < j < |order| :: order[i] != order[j]
    ensures forall v :: v in kept <==> v in order && v in necessary
    ensures forall i, j | 0 <= i < j < |kept| :: kept[i] != kept[j]
    ensures KeepsOrder(order, kept)
  {
    kept := [];
    for i := 0 to |order|
      invariant forall v :: v in kept <==> v in order[..i] && v in necessary
      invariant forall a, b | 0 <= a < b < |kept| :: kept[a] != kept[b]
      invariant KeepsOrder(order, kept)
    {
      assert order[..i + 1] == order[..i] + [order[i]];
      assert order[i] !in order[..i];
      if order[i] in necessary {
        OrderNext(order, kept, i);
        kept := kept + [order[i]];
      }
    }
    assert order[..|order|] == order;
  }

  ghost predicate IsPredecessorGraph(ops: seq<SasOperator>, pred: Predecessors) {
    forall u: nat, v: nat :: u in PredecessorsOf(pred, v) <==> Precedes(ops, u, v)
  }

  /** find_and_apply_variable_order with filtering, for any order of the variables. */
  method FilterVariables(t: Task, order: seq<nat>)
    returns (r: Task, origin: seq<nat>, kept: seq<nat>, newVar: map<nat, nat>, pred: Predecessors, necessary: set<nat>)
    requires ValidTask(t) && (forall i, j | 0 <= i < j < |order| :: order[i] != order[j])
    requires forall v: nat :: v in order <==> v < |t.ranges|
    ensures IsPredecessorGraph(t.ops, pred) && IsNecessary(pred, t.goal, necessary)
    ensures (forall v: nat :: v in kept <==> v in necessary) && KeepsOrder(order, kept)
    ensures Restricts(t, kept, newVar, r, origin)
  {
    pred := BuildPredecessors(t.ops);
    PredecessorsInRange(t);
    necessary := CalculateImportantVars(pred, t.goal, |t.ranges|);
    kept := KeepNecessary(order, necessary);
    newVar := IndexOf(kept);
    NecessaryRelevant(t, pred, necessary, kept, newVar);
    r, origin := Restrict(t, kept, newVar);
  }

  lemma NecessaryRelevant(t: Task, pred: Predecessors, necessary: set<nat>, kept: seq<nat>, newVar: map<nat, nat>)
    requires ValidTask(t) && IsPredecessorGraph(t.ops, pred) && IsNecessary(pred, t.goal, necessary)
    requires (forall v: nat :: v in kept <==> v in necessary) && IsIndex(kept, newVar)
    requires forall v: nat | v in necessary :: v < |t.ranges|
    ensures Relevant(t, kept, newVar)
  {
    assert forall i | 0 <= i < |kept| :: kept[i] in kept;
    forall u: nat, v: nat | v in newVar && Precedes(t.ops, u, v)
      ensures u in newVar
    {
      assert u in PredecessorsOf(pred, v) && v in necessary;
    }
  }

  /** VariableOrder.apply_to_task */
  method Restrict(t: Task, kept: seq<nat>, newVar: map<nat, nat>) returns (r: Task, origin: seq<nat>)
    requires Relevant(t, kept, newVar)
    ensures Restricts(t, kept, newVar, r, origin)
  {
    var ranges := ProjectValues(kept, t.ranges);
    var init := ProjectValues(kept, t.init);
    var goal := RestrictFacts(newVar, t.goal);
    var ops;
    ops, origin := RestrictOperators(newVar, t.ops);
    r := Task(ranges, init, goal, ops);
  }

  lemma PredecessorsInRange(t: Task)
    requires ValidTask(t)
    ensures forall u: nat, v: nat | Precedes(t.ops, u, v) :: u < |t.ranges|
    ensures forall f | f in t.goal :: f.v < |t.ranges|
  {
    forall u: nat, v: nat | Precedes(t.ops, u, v)
      ensures u < |t.ranges|
    {
      var op :| op in t.ops && InfluencesVar(op, op.prePost, u, v);
      var e :| e in op.prePost && e.v == v && Influences(op, e, u);
      if Mentions(op.prevail, u) {
        var f :| f in op.prevail && f.v == u;
        assert ValidFact(t.ranges, f);
      } else if Mentions(e.cond, u) {
        var f :| f in e.cond && f.v == u;
        assert ValidFact(t.ranges, f);
      } else {
        var d :| d in op.prePost && d.v == u && d.pre.Some?;
        assert ValidFact(t.ranges, Fact(d.v, d.post));
      }
    }
  }
}
