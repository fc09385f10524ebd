/** Evaluation of axioms with one counter per rule and a queue of true literals (axioms.cc:10-160). */
module AxiomEvaluation {
  import opened Sas
  import opened Axioms

  /** The number of conditions whose literal was not handled yet. */
  function Missing(cond: seq<Fact>, popped: set<Fact>): (n: nat)
    ensures n == 0 <==> forall f | f in cond :: f in popped
  {
    if cond == [] then 0 else (if cond[0] in popped then 0 else 1) + Missing(cond[1..], popped)
  }

  lemma {:induction false} MissingPopped(cond: seq<Fact>, popped: set<Fact>, f: Fact)
    requires f !in popped
    ensures Missing(cond, popped + {f}) + multiset(cond)[f] == Missing(cond, popped)
  {
    if cond != [] {
      MissingPopped(cond[1..], popped, f);
      assert cond == [cond[0]] + cond[1..];
    }
  }

  /** The evaluation at some moment as a value: `popped` are the literals handled, `queue` those
      waiting. */
  datatype Working = Working(state: State, unsat: seq<int>, popped: set<Fact>, queue: seq<Fact>)

  ghost predicate Known(w: Working, f: Fact) {
    f in w.popped || f in w.queue
  }

  /** The rules are the axioms that do not set a default value. */
  ghost predicate RulesOf(t: AxiomTask, rules: seq<Axiom>) {
    forall a :: a in rules <==> a in t.axioms && IsRule(t, a)
  }

  ghost predicate Queued(t: AxiomTask, s: State, w: Working)
    requires ValidAxioms(t)
  {
    && (forall i, j | 0 <= i < j < |w.queue| :: w.queue[i] != w.queue[j])
    && (forall f | f in w.queue :: f !in w.popped)
    && (forall f | Known(w, f) :: ValidFact(t.ranges, f) && f.v < |t.defaults| && FactIn(t, s, AllTrue(t, s), f))
  }

  /** Base values are known; a derived variable is known to be true as soon as it is set, and known
      to be false once its layer is finished without setting it. */
  ghost predicate Recorded(t: AxiomTask, s: State, w: Working, l: nat)
    requires ValidAxioms(t)
  {
    && |w.state| == |s| == |t.ranges|
    && (forall v | 0 <= v < |s| && !Derived(t, v) :: w.state[v] == s[v] && Known(w, Fact(v, s[v])))
    && (forall v | 0 <= v < |s| && Derived(t, v) ::
          && (w.state[v] == t.defaults[v] || w.state[v] == 1 - t.defaults[v])
          && (Known(w, Fact(v, 1 - t.defaults[v])) <==> w.state[v] != t.defaults[v])
          && (Known(w, Fact(v, t.defaults[v])) <==> w.state[v] == t.defaults[v] && BelowLayer(t, v, l))
          && (BelowLayer(t, v, l) ==> (w.state[v] != t.defaults[v] <==> v in AllTrue(t, s))))
  }

  ghost predicate Fired(rules: seq<Axiom>, w: Working) {
    |w.unsat| == |rules| && forall r | 0 <= r < |rules| ::
      rules[r].head.v < |w.state| && (w.unsat[r] == 0 ==> w.state[rules[r].head.v] == rules[r].head.x)
  }

  /** Between two literals: every counter is right. */
  ghost predicate Settled(t: AxiomTask, rules: seq<Axiom>, s: State, w: Working, l: nat) {
    && ValidAxioms(t) && RulesOf(t, rules) && Queued(t, s, w) && Recorded(t, s, w, l) && Fired(rules, w)
    && forall r | 0 <= r < |rules| :: w.unsat[r] == Missing(rules[r].cond, w.popped)
  }

  /** While the rules that read `f` are updated: `handled` lists those updated so far. */
  ghost predicate Updating(t: AxiomTask, rules: seq<Axiom>, s: State, w: Working, l: nat, f: Fact, handled: seq<nat>) {
    && ValidAxioms(t) && RulesOf(t, rules) && Queued(t, s, w) && Recorded(t, s, w, l) && Fired(rules, w)
    && f in w.popped && Counted(rules, w.unsat, w.popped, f, handled)
  }

  lemma PopStarts(t: AxiomTask, rules: seq<Axiom>, s: State, w: Working, l: nat)
    requires Settled(t, rules, s, w, l) && w.queue != []
    ensures var f := w.queue[|w.queue| - 1];
            Updating(t, rules, s, w.(queue := w.queue[..|w.queue| - 1], popped := w.popped + {f}), l, f, [])
  {
    var n := |w.queue| - 1;
    var f := w.queue[n];
    var w' := w.(queue := w.queue[..n], popped := w.popped + {f});
    assert forall g :: Known(w', g) <==> Known(w, g);
    forall r: nat | r < |rules|
      ensures w'.unsat[r] == Missing(rules[r].cond, w'.popped) + multiset(rules[r].cond)[f]
    {
      MissingPopped(rules[r].cond, w.popped, f);
    }
  }

  /** Set the head of a rule unless it is set. */
  function Set(w: Working, head: Fact): Working
    requires head.v < |w.state|
  {
    if w.state[head.v] == head.x then w else w.(state := w.state[head.v := head.x], queue := w.queue + [head])
  }

  /** The body of the rule is known to hold, so the head is true in the model. */
  lemma HeadTrue(t: AxiomTask, s: State, w: Working, l: nat, a: Axiom)
    requires ValidAxioms(t) && Queued(t, s, w) && a in t.axioms && IsRule(t, a)
    requires forall f | f in a.cond :: Known(w, f)
    ensures a.head.v in AllTrue(t, s) && FactIn(t, s, AllTrue(t, s), a.head)
  {
    assert BodyIn(t, s, AllTrue(t, s), a);
    RuleHolds(t, s, a);
  }

  lemma SetKeeps(t: AxiomTask, rules: seq<Axiom>, s: State, w: Working, l: nat, head: Fact)
    requires ValidAxioms(t) && Queued(t, s, w) && Recorded(t, s, w, l)
    requires ValidFact(t.ranges, head) && Derived(t, head.v) && head.x != t.defaults[head.v] && head.v in AllTrue(t, s)
    ensures var w' := Set(w, head);
            && Queued(t, s, w') && Recorded(t, s, w', l) && w'.popped == w.popped && w'.unsat == w.unsat
            && w'.state[head.v] == head.x
            && forall v | 0 <= v < |w.state| && v != head.v :: w'.state[v] == w.state[v]
  {
    var w' := Set(w, head);
    if w' != w {
      assert forall g :: Known(w', g) <==> Known(w, g) || g == head;
      assert !Known(w, head);
    }
  }

  /** All rules for a variable set the same value. */
  lemma SameHead(t: AxiomTask, rules: seq<Axiom>, i: nat, j: nat)
    requires ValidAxioms(t) && RulesOf(t, rules) && i < |rules| && j < |rules| && rules[i].head.v == rules[j].head.v
    ensures rules[i].head == rules[j].head
  {
    assert rules[i] in t.axioms && rules[j] in t.axioms && IsRule(t, rules[i]) && IsRule(t, rules[j]);
    assert Derived(t, rules[i].head.v);
  }

  function Handled(rules: seq<Axiom>, w: Working, r: nat): Working
    requires r < |w.unsat| && r < |rules| && rules[r].head.v < |w.state|
  {
    var w1 := w.(unsat := w.unsat[r := w.unsat[r] - 1]);
    if w1.unsat[r] == 0 then Set(w1, rules[r].head) else w1
  }

  /** Setting a true head keeps what is recorded, and every rule whose counter is zero has fired. */
  lemma HeadSet(t: AxiomTask, rules: seq<Axiom>, s: State, w: Working, l: nat, r: nat)
    requires ValidAxioms(t) && RulesOf(t, rules) && Queued(t, s, w) && Recorded(t, s, w, l) && r < |rules|
    requires |w.unsat| == |rules| && forall q | 0 <= q < |rules| && q != r ::
               rules[q].head.v < |w.state| && (w.unsat[q] == 0 ==> w.state[rules[q].head.v] == rules[q].head.x)
    requires forall f | f in rules[r].cond :: Known(w, f)
    ensures rules[r].head.v < |w.state| && var w' := Set(w, rules[r].head);
            Queued(t, s, w') && Recorded(t, s, w', l) && Fired(rules, w') && w'.popped == w.popped && w'.unsat == w.unsat
  {
    var a := rules[r];
    assert a in rules && ValidFact(t.ranges, a.head) && Derived(t, a.head.v);
    HeadTrue(t, s, w, l, a);
    SetKeeps(t, rules, s, w, l, a.head);
    forall q: nat | q < |rules| && rules[q].head.v == a.head.v
      ensures rules[q].head == a.head
    {
      SameHead(t, rules, q, r);
    }
  }

  /** Every counter is right for the rules in `handled` having been updated. */
  ghost predicate Counted(rules: seq<Axiom>, unsat: seq<int>, popped: set<Fact>, f: Fact, handled: seq<nat>) {
    |unsat| == |rules| && forall r: nat | r < |rules| ::
      unsat[r] == Missing(rules[r].cond, popped) + multiset(rules[r].cond)[f] - multiset(handled)[r]
  }

  lemma CountedNext(rules: seq<Axiom>, unsat: seq<int>, popped: set<Fact>, f: Fact, handled: seq<nat>, r: nat)
    requires Counted(rules, unsat, popped, f, handled) && r < |rules| && multiset(handled)[r] < multiset(rules[r].cond)[f]
    ensures Counted(rules, unsat[r := unsat[r] - 1], popped, f, handled + [r])
    ensures unsat[r] - 1 == 0 ==> forall g | g in rules[r].cond :: g in popped
  {
    assert multiset(handled + [r]) == multiset(handled) + multiset{r};
  }

  /** What is recorded does not depend on the counters. */
  lemma OtherCounters(t: AxiomTask, s: State, w: Working, l: nat, unsat: seq<int>)
    requires ValidAxioms(t) && Queued(t, s, w) && Recorded(t, s, w, l)
    ensures Queued(t, s, w.(unsat := unsat)) && Recorded(t, s, w.(unsat := unsat), l)
  {
    assert forall g :: Known(w.(unsat := unsat), g) <==> Known(w, g);
  }

  /** Counting down a rule that is not satisfied by it. */
  lemma StillFired(rules: seq<Axiom>, w: Working, r: nat)
    requires Fired(rules, w) && r < |rules| && w.unsat[r] - 1 != 0
    ensures Fired(rules, w.(unsat := w.unsat[r := w.unsat[r] - 1]))
  {
  }

  lemma RuleHandled(t: AxiomTask, rules: seq<Axiom>, s: State, w: Working, l: nat, f: Fact, handled: seq<nat>, r: nat, after: seq<nat>)
    requires Updating(t, rules, s, w, l, f, handled) && r < |rules| && after == handled + [r]
    requires multiset(handled)[r] < multiset(rules[r].cond)[f]
    ensures Updating(t, rules, s, Handled(rules, w, r), l, f, after)
  {
    var w1 := w.(unsat := w.unsat[r := w.unsat[r] - 1]);
    CountedNext(rules, w.unsat, w.popped, f, handled, r);
    OtherCounters(t, s, w, l, w1.unsat);
    if w1.unsat[r] == 0 {
      HeadSet(t, rules, s, w1, l, r);
    } else {
      StillFired(rules, w, r);
    }
  }

  lemma PopEnds(t: AxiomTask, rules: seq<Axiom>, s: State, w: Working, l: nat, f: Fact, handled: seq<nat>)
    requires Updating(t, rules, s, w, l, f, handled)
    requires forall r: nat | r < |rules| :: multiset(handled)[r] == multiset(rules[r].cond)[f]
    ensures Settled(t, rules, s, w, l)
  {
  }

  ghost function SetVars(t: AxiomTask, state: State): set<nat>
    requires |t.defaults| == |state|
  {
    set v: nat | v < |state| && Derived(t, v) && state[v] != t.defaults[v]
  }

  /** When nothing is left to handle, every true variable of the layer is set. */
  lemma LayerDone(t: AxiomTask, rules: seq<Axiom>, s: State, w: Working, l: nat)
    requires Settled(t, rules, s, w, l) && w.queue == [] && l < LayerCount(t.layers)
    ensures forall v: nat | InLayer(t, v, l) :: w.state[v] != t.defaults[v] <==> v in AllTrue(t, s)
  {
    var ys := SetVars(t, w.state);
    assert AgreeBelow(t, l, AllTrue(t, s), ys);
    forall a | a in t.axioms && IsRule(t, a) && InLayer(t, a.head.v, l) && BodyIn(t, s, ys, a)
      ensures a.head.v in ys
    {
      BodyPopped(t, rules, s, w, l, a, ys);
      var r :| 0 <= r < |rules| && rules[r] == a;
      assert w.unsat[r] == Missing(a.cond, w.popped);
    }
    forall v: nat | InLayer(t, v, l)
      ensures w.state[v] != t.defaults[v] <==> v in AllTrue(t, s)
    {
      if v in AllTrue(t, s) {
        LeastInLayer(t, s, l, ys, v);
      }
      if w.state[v] != t.defaults[v] {
        assert Known(w, Fact(v, 1 - t.defaults[v]));
      }
    }
  }

  lemma BodyPopped(t: AxiomTask, rules: seq<Axiom>, s: State, w: Working, l: nat, a: Axiom, ys: set<nat>)
    requires Settled(t, rules, s, w, l) && w.queue == [] && ys == SetVars(t, w.state)
    requires a in t.axioms && IsRule(t, a) && InLayer(t, a.head.v, l) && BodyIn(t, s, ys, a)
    ensures forall f | f in a.cond :: f in w.popped
  {
    assert Stratified(t, a);
    forall f | f in a.cond
      ensures f in w.popped
    {
      assert FactIn(t, s, ys, f) && ValidFact(t.ranges, f);
      if Derived(t, f.v) {
        assert f.x == t.defaults[f.v] || f.x == 1 - t.defaults[f.v];
        assert f == Fact(f.v, f.x);
      } else {
        assert f == Fact(f.v, s[f.v]);
      }
      assert Known(w, f);
    }
  }

  // ---- negation by failure ----

  /** The first variables `done` of layer `l` that kept their default value are known to be false. */
  ghost predicate Negating(t: AxiomTask, rules: seq<Axiom>, s: State, w: Working, l: nat, done: seq<nat>) {
    && ValidAxioms(t) && RulesOf(t, rules) && Queued(t, s, w) && Fired(rules, w)
    && (forall r | 0 <= r < |rules| :: w.unsat[r] == Missing(rules[r].cond, w.popped))
    && |w.state| == |s| == |t.ranges|
    && (forall v | 0 <= v < |s| && !Derived(t, v) :: w.state[v] == s[v] && Known(w, Fact(v, s[v])))
    && (forall v | 0 <= v < |s| && Derived(t, v) :: NegatingAt(t, s, w, l, done, v))
  }

  ghost predicate NegatingAt(t: AxiomTask, s: State, w: Working, l: nat, done: seq<nat>, v: nat)
    requires ValidAxioms(t) && Derived(t, v) && |w.state| == |s| == |t.ranges|
  {
    && (w.state[v] == t.defaults[v] || w.state[v] == 1 - t.defaults[v])
    && (Known(w, Fact(v, 1 - t.defaults[v])) <==> w.state[v] != t.defaults[v])
    && (Known(w, Fact(v, t.defaults[v])) <==> w.state[v] == t.defaults[v] && (BelowLayer(t, v, l) || (InLayer(t, v, l) && v in done)))
    && (BelowLayer(t, v, l) || InLayer(t, v, l) ==> (w.state[v] != t.defaults[v] <==> v in AllTrue(t, s)))
  }

  lemma NegationStarts(t: AxiomTask, rules: seq<Axiom>, s: State, w: Working, l: nat)
    requires Settled(t, rules, s, w, l) && w.queue == [] && l < LayerCount(t.layers)
    ensures Negating(t, rules, s, w, l, [])
  {
    LayerDone(t, rules, s, w, l);
  }

  lemma NegationStep(t: AxiomTask, rules: seq<Axiom>, s: State, w: Working, l: nat, done: seq<nat>, v: nat)
    requires Negating(t, rules, s, w, l, done) && InLayer(t, v, l) && v !in done
    ensures v < |w.state| && var w' := if w.state[v] == t.defaults[v] then w.(queue := w.queue + [Fact(v, t.defaults[v])]) else w;
            Negating(t, rules, s, w', l, done + [v])
  {
    var f := Fact(v, t.defaults[v]);
    assert NegatingAt(t, s, w, l, done, v);
    var w' := if w.state[v] == t.defaults[v] then w.(queue := w.queue + [f]) else w;
    assert forall g :: Known(w', g) <==> Known(w, g) || (w' != w && g == f);
    forall u | 0 <= u < |s| && Derived(t, u)
      ensures NegatingAt(t, s, w', l, done + [v], u)
    {
      assert NegatingAt(t, s, w, l, done, u);
    }
  }

  lemma NegationEnds(t: AxiomTask, rules: seq<Axiom>, s: State, w: Working, l: nat, c: nat, done: seq<nat>)
    requires Negating(t, rules, s, w, l, done) && c == l + 1
    requires forall v: nat | InLayer(t, v, l) :: v in done
    ensures Settled(t, rules, s, w, c)
  {
    forall v | 0 <= v < |s| && Derived(t, v)
      ensures BelowLayer(t, v, c) <==> BelowLayer(t, v, l) || InLayer(t, v, l)
      ensures NegatingAt(t, s, w, l, done, v)
    {
    }
  }

  /** After the last layer the state is the model. */
  lemma ModelReached(t: AxiomTask, rules: seq<Axiom>, s: State, w: Working, l: nat)
    requires Settled(t, rules, s, w, l) && w.queue == [] && l + 1 == LayerCount(t.layers)
    ensures w.state == Model(t, s)
  {
    LayerDone(t, rules, s, w, l);
    forall v: nat | v < |s|
      ensures w.state[v] == Model(t, s)[v]
    {
      assert Derived(t, v) ==> BelowLayer(t, v, l) || InLayer(t, v, l);
    }
  }

  // ---- the evaluator ----

  ghost predicate CrossReferenced(rules: seq<Axiom>, conditionOf: map<Fact, seq<nat>>) {
    && (forall f, r | r in Readers(conditionOf, f) :: r < |rules|)
    && (forall f, r: nat | r < |rules| :: multiset(rules[r].cond)[f] == multiset(Readers(conditionOf, f))[r])
  }

  /** The rules that have the literal as a condition, once per occurrence. */
  function Readers(conditionOf: map<Fact, seq<nat>>, f: Fact): seq<nat> {
    if f in conditionOf then conditionOf[f] else []
  }

  /** The variables of each layer; nothing for the last layer. */
  ghost predicate NegationInfo(t: AxiomTask, nbf: seq<seq<nat>>) {
    && |nbf| == LayerCount(t.layers)
    && (forall l, v | 0 <= l < |nbf| - 1 :: v in nbf[l] <==> InLayer(t, v, l))
    && (forall l, i, j | 0 <= l < |nbf| && 0 <= i < j < |nbf[l]| :: nbf[l][i] != nbf[l][j])
  }

  class AxiomEvaluator {
    const t: AxiomTask
    const rules: seq<Axiom>
    const conditionOf: map<Fact, seq<nat>>
    const nbf: seq<seq<nat>>
    var unsat: seq<int>
    var queue: seq<Fact>
    ghost var popped: set<Fact>

    ghost predicate Valid()
      reads this
    {
      && ValidAxioms(t) && DerivedByAxioms(t) && RulesOf(t, rules) && CrossReferenced(rules, conditionOf) && NegationInfo(t, nbf)
      && |unsat| == |rules| && queue == []
    }

    ghost function Now(state: array<nat>): Working
      reads this, state
    {
      Working(state[..], unsat, popped, queue)
    }

    /** AxiomEvaluator::AxiomEvaluator */
    constructor (task: AxiomTask)
      requires ValidAxioms(task) && DerivedByAxioms(task)
      ensures t == task && Valid()
    {
      var rs := CollectRules(task);
      var references := CrossReference(rs);
      var byLayer := CollectNegations(task);
      t, rules, conditionOf, nbf := task, rs, references, byLayer;
      unsat := seq(|rs|, _ => 0);
      queue := [];
      popped := {};
    }

    /** AxiomEvaluator::evaluate: the derived variables get their values in the model. */
    method Evaluate(state: array<nat>)
      requires Valid() && state.Length == |t.ranges|
      requires forall v | 0 <= v < state.Length && !Derived(t, v) :: state[v] < t.ranges[v]
      modifies this, state
      ensures Valid() && state[..] == Model(t, old(state[..]))
    {
      ghost var s := state[..];
      if t.axioms == [] {
        assert Model(t, s) == s;
        return;
      }
      Initialize(state, s);
      StartRules(state, s);
      LayersExist(t);
      for layer := 0 to |nbf|
        invariant CrossReferenced(rules, conditionOf) && NegationInfo(t, nbf)
        invariant if layer < |nbf| then Settled(t, rules, s, Now(state), layer)
                  else queue == [] && |unsat| == |rules| && state[..] == Model(t, s)
      {
        ApplyHornRules(state, s, layer);
        if layer != |nbf| - 1 {
          ApplyNegation(state, s, layer, layer + 1);
        } else {
          ModelReached(t, rules, s, Now(state), layer);
        }
      }
    }

    /** Base values are queued, derived variables reset (axioms.cc:92-101). */
    method Initialize(state: array<nat>, ghost s: State)
      requires ValidAxioms(t) && queue == [] && state[..] == s && |s| == |t.ranges|
      requires forall v | 0 <= v < |s| && !Derived(t, v) :: s[v] < t.ranges[v]
      modifies this`queue, this`popped, state
      ensures Queued(t, s, Now(state)) && Recorded(t, s, Now(state), 0) && popped == {}
    {
      popped := {};
      for v := 0 to state.Length
        invariant popped == {}
        invariant forall u | 0 <= u < v && Derived(t, u) :: state[u] == t.defaults[u]
        invariant forall u | 0 <= u < |s| && (v <= u || !Derived(t, u)) :: state[u] == s[u]
        invariant forall f :: f in queue <==> f.v < v && !Derived(t, f.v) && f.x == s[f.v]
        invariant forall i, j | 0 <= i < j < |queue| :: queue[i] != queue[j]
      {
        if Derived(t, v) {
          state[v] := t.defaults[v];
        } else {
          assert Fact(v, state[v]) !in queue;
          queue := queue + [Fact(v, state[v])];
        }
      }
    }

    /** Counters are reset and rules without conditions fire (axioms.cc:103-124). */
    method StartRules(state: array<nat>, ghost s: State)
      requires ValidAxioms(t) && RulesOf(t, rules) && |unsat| == |rules| && popped == {}
      requires Queued(t, s, Now(state)) && Recorded(t, s, Now(state), 0)
      modifies this`unsat, this`queue, state
      ensures Settled(t, rules, s, Now(state), 0)
    {
      for r := 0 to |rules|
        invariant Starting(t, rules, s, Now(state), r)
      {
        ghost var w := Now(state);
        RuleStarts(t, rules, s, w, r, r + 1);
        unsat := unsat[r := |rules[r].cond|];
        if |rules[r].cond| == 0 {
          Fire(state, r);
        }
        assert Now(state) == Started(rules, w, r);
      }
      AllStarted(t, rules, s, Now(state));
    }

    /** Derived variables of a finished layer that were not set are false (axioms.cc:144-156). */
    method ApplyNegation(state: array<nat>, ghost s: State, l: nat, ghost c: nat)
      requires Settled(t, rules, s, Now(state), l) && queue == [] && NegationInfo(t, nbf) && l < |nbf| - 1 && c == l + 1
      modifies this`queue
      ensures Settled(t, rules, s, Now(state), c)
    {
      NegationStarts(t, rules, s, Now(state), l);
      for i := 0 to |nbf[l]|
        invariant Negating(t, rules, s, Now(state), l, nbf[l][..i])
      {
        ghost var w := Now(state);
        var v := nbf[l][i];
        assert v in nbf[l];
        assert nbf[l][..i + 1] == nbf[l][..i] + [v];
        NegationStep(t, rules, s, w, l, nbf[l][..i], v);
        if state[v] == t.defaults[v] {
          queue := queue + [Fact(v, t.defaults[v])];
        }
      }
      assert nbf[l][..|nbf[l]|] == nbf[l];
      NegationEnds(t, rules, s, Now(state), l, c, nbf[l]);
    }

    /** Handle all waiting literals (axioms.cc:123-138). */
    method ApplyHornRules(state: array<nat>, ghost s: State, ghost l: nat)
      requires Settled(t, rules, s, Now(state), l) && CrossReferenced(rules, conditionOf)
      modifies this, state
      ensures Settled(t, rules, s, Now(state), l) && queue == []
    {
      while queue != []
        invariant Settled(t, rules, s, Now(state), l)
        decreases AllFacts(t.ranges) - popped
      {
        HandleLiteral(state, s, l);
      }
    }

    method HandleLiteral(state: array<nat>, ghost s: State, ghost l: nat)
      requires Settled(t, rules, s, Now(state), l) && CrossReferenced(rules, conditionOf) && queue != []
      modifies this, state
      ensures Settled(t, rules, s, Now(state), l)
      ensures AllFacts(t.ranges) - popped < AllFacts(t.ranges) - old(popped)
    {
      var f := PopLiteral(state, s, l);
      UpdateReaders(state, s, l, f);
    }

    method PopLiteral(state: array<nat>, ghost s: State, ghost l: nat) returns (f: Fact)
      requires Settled(t, rules, s, Now(state), l) && queue != []
      modifies this`queue, this`popped
      ensures Updating(t, rules, s, Now(state), l, f, [])
      ensures AllFacts(t.ranges) - popped < AllFacts(t.ranges) - old(popped)
    {
      ghost var w := Now(state);
      f := queue[|queue| - 1];
      PopStarts(t, rules, s, w, l);
      PopProgress(t, s, w, f);
      queue := queue[..|queue| - 1];
      popped := popped + {f};
      assert Now(state) == w.(queue := queue, popped := popped);
    }

    /** Count down the rules that read the literal, firing those that become satisfied. */
    method UpdateReaders(state: array<nat>, ghost s: State, ghost l: nat, f: Fact)
      requires Updating(t, rules, s, Now(state), l, f, []) && CrossReferenced(rules, conditionOf)
      modifies this`unsat, this`queue, state
      ensures Settled(t, rules, s, Now(state), l)
    {
      ghost var w := Now(state);
      var readers := Readers(conditionOf, f);
      for i := 0 to |readers|
        invariant w == Now(state) && Updating(t, rules, s, w, l, f, readers[..i])
      {
        ReaderHandled(t, rules, conditionOf, s, w, l, f, i, i + 1);
        CountRule(state, w, readers[i]);
        w := Now(state);
      }
      ReadersDone(t, rules, conditionOf, s, w, l, f);
    }

    method CountRule(state: array<nat>, ghost w: Working, r: nat)
      requires w == Now(state) && |unsat| == |rules| && r < |rules| && rules[r].head.v < state.Length
      modifies this`unsat, this`queue, state
      ensures Now(state) == Handled(rules, w, r)
    {
      unsat := unsat[r := unsat[r] - 1];
      if unsat[r] == 0 {
        Fire(state, r);
      }
    }

    method Fire(state: array<nat>, r: nat)
      requires r < |rules| && rules[r].head.v < state.Length
      modifies this`queue, state
      ensures Now(state) == Set(old(Now(state)), rules[r].head)
    {
      var head := rules[r].head;
      if state[head.v] != head.x {
        state[head.v] := head.x;
        queue := queue + [head];
      }
    }
  }

  lemma ReaderHandled(t: AxiomTask, rules: seq<Axiom>, conditionOf: map<Fact, seq<nat>>, s: State, w: Working, l: nat,
                      f: Fact, i: nat, c: nat)
    requires CrossReferenced(rules, conditionOf) && i < |Readers(conditionOf, f)| && c == i + 1
    requires Updating(t, rules, s, w, l, f, Readers(conditionOf, f)[..i])
    ensures var r := Readers(conditionOf, f)[i];
            && r < |rules| && r < |w.unsat| && rules[r].head.v < |w.state|
            && Updating(t, rules, s, Handled(rules, w, r), l, f, Readers(conditionOf, f)[..c])
  {
    var readers := Readers(conditionOf, f);
    NextReader(rules, conditionOf, f, i, c);
    RuleHandled(t, rules, s, w, l, f, readers[..i], readers[i], readers[..c]);
  }

  lemma NextReader(rules: seq<Axiom>, conditionOf: map<Fact, seq<nat>>, f: Fact, i: nat, c: nat)
    requires CrossReferenced(rules, conditionOf) && i < |Readers(conditionOf, f)| && c == i + 1
    ensures var readers := Readers(conditionOf, f);
            && readers[i] < |rules| && multiset(readers[..i])[readers[i]] < multiset(rules[readers[i]].cond)[f]
            && readers[..c] == readers[..i] + [readers[i]]
  {
    var readers := Readers(conditionOf, f);
    assert readers[i] in readers;
    CountBelow(readers, i);
  }

  lemma ReadersDone(t: AxiomTask, rules: seq<Axiom>, conditionOf: map<Fact, seq<nat>>, s: State, w: Working, l: nat, f: Fact)
    requires CrossReferenced(rules, conditionOf) && var readers := Readers(conditionOf, f);
             Updating(t, rules, s, w, l, f, readers[..|readers|])
    ensures Settled(t, rules, s, w, l)
  {
    var readers := Readers(conditionOf, f);
    assert readers[..|readers|] == readers;
    PopEnds(t, rules, s, w, l, f, readers);
  }

  ghost function AllFacts(ranges: seq<nat>): set<Fact> {
    set v: nat, x: nat | v < |ranges| && x < ranges[v] :: Fact(v, x)
  }

  lemma PopProgress(t: AxiomTask, s: State, w: Working, f: Fact)
    requires ValidAxioms(t) && Queued(t, s, w) && f in w.queue
    ensures AllFacts(t.ranges) - (w.popped + {f}) < AllFacts(t.ranges) - w.popped
  {
    assert Known(w, f) && f == Fact(f.v, f.x);
    assert f in AllFacts(t.ranges) - w.popped;
  }

  lemma CountBelow(xs: seq<nat>, i: nat)
    requires i < |xs|
    ensures multiset(xs[..i])[xs[i]] < multiset(xs)[xs[i]]
  {
    assert xs == xs[..i] + [xs[i]] + xs[i + 1..];
  }

  /** The first `n` rules have their counters set and have fired if they have no condition. */
  ghost predicate Starting(t: AxiomTask, rules: seq<Axiom>, s: State, w: Working, n: nat) {
    && ValidAxioms(t) && RulesOf(t, rules) && Queued(t, s, w) && Recorded(t, s, w, 0)
    && w.popped == {} && |w.unsat| == |rules|
    && forall r | 0 <= r < |rules| :: rules[r].head.v < |w.state|
         && (r < n ==> w.unsat[r] == |rules[r].cond| && (w.unsat[r] == 0 ==> w.state[rules[r].head.v] == rules[r].head.x))
  }

  function Started(rules: seq<Axiom>, w: Working, r: nat): Working
    requires r < |w.unsat| && r < |rules| && rules[r].head.v < |w.state|
  {
    var w1 := w.(unsat := w.unsat[r := |rules[r].cond|]);
    if rules[r].cond == [] then Set(w1, rules[r].head) else w1
  }

  lemma RuleStarts(t: AxiomTask, rules: seq<Axiom>, s: State, w: Working, r: nat, c: nat)
    requires Starting(t, rules, s, w, r) && r < |rules| && c == r + 1
    ensures Starting(t, rules, s, Started(rules, w, r), c)
  {
    var w1, a := w.(unsat := w.unsat[r := |rules[r].cond|]), rules[r];
    assert forall g :: Known(w1, g) <==> Known(w, g);
    if a.cond == [] {
      assert a in rules && ValidFact(t.ranges, a.head) && Derived(t, a.head.v);
      HeadTrue(t, s, w1, 0, a);
      SetKeeps(t, rules, s, w1, 0, a.head);
      forall q: nat | q < |rules| && rules[q].head.v == a.head.v
        ensures rules[q].head == a.head
      {
        SameHead(t, rules, q, r);
      }
    }
  }

  lemma {:induction false} NothingPopped(cond: seq<Fact>)
    ensures Missing(cond, {}) == |cond|
  {
    if cond != [] {
      NothingPopped(cond[1..]);
    }
  }

  lemma AllStarted(t: AxiomTask, rules: seq<Axiom>, s: State, w: Working)
    requires Starting(t, rules, s, w, |rules|)
    ensures Settled(t, rules, s, w, 0)
  {
    forall r | 0 <= r < |rules|
      ensures w.unsat[r] == Missing(rules[r].cond, w.popped)
    {
      NothingPopped(rules[r].cond);
    }
  }

  lemma LayersExist(t: AxiomTask)
    requires ValidAxioms(t) && t.axioms != []
    ensures LayerCount(t.layers) > 0
  {
    assert t.axioms[0] in t.axioms;
    assert Derived(t, t.axioms[0].head.v);
  }

  /** Axioms that set the default value are ignored (axioms.cc:27-42). */
  method CollectRules(t: AxiomTask) returns (rules: seq<Axiom>)
    requires ValidAxioms(t)
    ensures RulesOf(t, rules)
  {
    rules := [];
    for i := 0 to |t.axioms|
      invariant forall a :: a in rules <==> a in t.axioms[..i] && IsRule(t, a)
    {
      var a := t.axioms[i];
      assert t.axioms[..i + 1] == t.axioms[..i] + [a];
      assert a in t.axioms;
      if a.head.x != t.defaults[a.head.v] {
        rules := rules + [a];
      }
    }
    assert t.axioms[..|t.axioms|] == t.axioms;
  }

  /** axioms.cc:44-58 */
  method CrossReference(rules: seq<Axiom>) returns (conditionOf: map<Fact, seq<nat>>)
    ensures CrossReferenced(rules, conditionOf)
  {
    conditionOf := map[];
    for r := 0 to |rules|
      invariant ReferencesTo(rules, conditionOf, r, 0)
    {
      for i := 0 to |rules[r].cond|
        invariant ReferencesTo(rules, conditionOf, r, i)
      {
        var f := rules[r].cond[i];
        ReferenceAdded(rules, conditionOf, r, i, i + 1);
        conditionOf := conditionOf[f := Readers(conditionOf, f) + [r]];
      }
      ReferencesRow(rules, conditionOf, r, r + 1);
    }
  }

  /** All conditions of the rules before `r` and the first `i` of rule `r` are referenced. */
  ghost predicate ReferencesTo(rules: seq<Axiom>, conditionOf: map<Fact, seq<nat>>, r: nat, i: nat) {
    && (r < |rules| ==> i <= |rules[r].cond|)
    && (forall f, q | q in Readers(conditionOf, f) :: q < |rules|)
    && (forall f, q: nat | q < |rules| ::
          multiset(Readers(conditionOf, f))[q] == CountTo(rules, r, i, f, q))
  }

  lemma ReadersAdded(conditionOf: map<Fact, seq<nat>>, f: Fact, r: nat, g: Fact)
    ensures multiset(Readers(conditionOf[f := Readers(conditionOf, f) + [r]], g)) ==
            multiset(Readers(conditionOf, g)) + if g == f then multiset{r} else multiset{}
  {
  }

  function CountTo(rules: seq<Axiom>, r: nat, i: nat, f: Fact, q: nat): nat
    requires q < |rules| && (q == r ==> i <= |rules[q].cond|)
  {
    if q < r then multiset(rules[q].cond)[f] else if q == r then multiset(rules[q].cond[..i])[f] else 0
  }

  lemma CountNext(rules: seq<Axiom>, r: nat, i: nat, c: nat, f: Fact, q: nat)
    requires r < |rules| && i < |rules[r].cond| && c == i + 1 && q < |rules|
    ensures CountTo(rules, r, c, f, q) == CountTo(rules, r, i, f, q) + if q == r && f == rules[r].cond[i] then 1 else 0
  {
    assert rules[r].cond[..c] == rules[r].cond[..i] + [rules[r].cond[i]];
  }

  lemma ReferenceAdded(rules: seq<Axiom>, conditionOf: map<Fact, seq<nat>>, r: nat, i: nat, c: nat)
    requires ReferencesTo(rules, conditionOf, r, i) && r < |rules| && i < |rules[r].cond| && c == i + 1
    ensures var f := rules[r].cond[i];
            ReferencesTo(rules, conditionOf[f := Readers(conditionOf, f) + [r]], r, c)
  {
    var f := rules[r].cond[i];
    var next := conditionOf[f := Readers(conditionOf, f) + [r]];
    forall g, q | q in Readers(next, g)
      ensures q < |rules|
    {
      assert g != f ==> Readers(next, g) == Readers(conditionOf, g);
    }
    forall g, q: nat | q < |rules|
      ensures multiset(Readers(next, g))[q] == CountTo(rules, r, c, g, q)
    {
      ReadersAdded(conditionOf, f, r, g);
      CountNext(rules, r, i, c, g, q);
    }
  }

  lemma ReferencesRow(rules: seq<Axiom>, conditionOf: map<Fact, seq<nat>>, r: nat, c: nat)
    requires r < |rules| && ReferencesTo(rules, conditionOf, r, |rules[r].cond|) && c == r + 1
    ensures ReferencesTo(rules, conditionOf, c, 0)
  {
    assert rules[r].cond[..|rules[r].cond|] == rules[r].cond;
  }

  /** axioms.cc:60-80 */
  method CollectNegations(t: AxiomTask) returns (nbf: seq<seq<nat>>)
    requires ValidAxioms(t)
    ensures NegationInfo(t, nbf)
  {
    var count := LayerCount(t.layers);
    nbf := seq(count, _ => []);
    for v := 0 to |t.layers|
      invariant |nbf| == count
      invariant forall l: nat, u: nat | l + 1 < count :: u in nbf[l] <==> u < v && InLayer(t, u, l)
      invariant forall l, u: nat | 0 <= l < count && u in nbf[l] :: u < v
      invariant forall l, i, j | 0 <= l < count && 0 <= i < j < |nbf[l]| :: nbf[l][i] != nbf[l][j]
    {
      if t.layers[v].Some? {
        var l := t.layers[v].value;
        if l != count - 1 {
          assert v !in nbf[l];
          nbf := nbf[l := nbf[l] + [v]];
        }
      }
    }
  }
}
