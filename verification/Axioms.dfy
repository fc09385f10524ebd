/** Derived variables: the layer-by-layer least model, and its computation with counters and
    negation by failure (axioms.cc). */
module Axioms {
  import opened Sas

  datatype Axiom = Axiom(cond: seq<Fact>, head: Fact)

  /** Derived variables have a layer; `defaults` counts for them only. */
  datatype AxiomTask = AxiomTask(ranges: seq<nat>, layers: seq<Option<nat>>, defaults: seq<nat>, axioms: seq<Axiom>)

  predicate Derived(t: AxiomTask, v: nat) {
    v < |t.layers| && t.layers[v].Some?
  }

  predicate InLayer(t: AxiomTask, v: nat, l: nat) {
    Derived(t, v) && t.layers[v].value == l
  }

  predicate BelowLayer(t: AxiomTask, v: nat, l: nat) {
    Derived(t, v) && t.layers[v].value < l
  }

  /** Axioms that set a variable to its default value are ignored. */
  predicate IsRule(t: AxiomTask, a: Axiom) {
    a.head.v < |t.defaults| && a.head.x != t.defaults[a.head.v]
  }

  /** A rule reads derived variables of its layer or below, and default values only from below. */
  predicate Stratified(t: AxiomTask, a: Axiom) {
    Derived(t, a.head.v) && forall f | f in a.cond && Derived(t, f.v) && f.v < |t.defaults| ::
      if f.x == t.defaults[f.v] then BelowLayer(t, f.v, t.layers[a.head.v].value)
      else t.layers[f.v].value <= t.layers[a.head.v].value
  }

  ghost predicate ValidAxioms(t: AxiomTask) {
    && |t.layers| == |t.defaults| == |t.ranges|
    && (forall v | 0 <= v < |t.ranges| && Derived(t, v) :: t.ranges[v] == 2 && t.defaults[v] < 2)
    && (forall a | a in t.axioms :: ValidFact(t.ranges, a.head) && Derived(t, a.head.v) && forall f | f in a.cond :: ValidFact(t.ranges, f))
    && (forall a | a in t.axioms && IsRule(t, a) :: Stratified(t, a))
  }

  /** A task without axioms has no derived variables, as the evaluator expects. */
  ghost predicate DerivedByAxioms(t: AxiomTask) {
    t.axioms == [] ==> forall v | 0 <= v < |t.ranges| :: !Derived(t, v)
  }

  // ---- the model ----

  /** The fact holds when exactly the derived variables in `ys` have their non-default value. */
  predicate FactIn(t: AxiomTask, s: State, ys: set<nat>, f: Fact)
    requires f.v < |t.defaults|
  {
    if Derived(t, f.v) then (f.x != t.defaults[f.v]) == (f.v in ys) else Holds(s, f)
  }

  ghost predicate BodyIn(t: AxiomTask, s: State, ys: set<nat>, a: Axiom)
    requires ValidAxioms(t) && a in t.axioms
  {
    forall f | f in a.cond :: FactIn(t, s, ys, f)
  }

  /** Closed under the rules of layer `l`. */
  ghost predicate Closed(t: AxiomTask, s: State, l: nat, ys: set<nat>)
    requires ValidAxioms(t)
  {
    forall a | a in t.axioms && IsRule(t, a) && InLayer(t, a.head.v, l) && BodyIn(t, s, ys, a) :: a.head.v in ys
  }

  function Under(t: AxiomTask, l: nat, xs: set<nat>): set<nat> {
    set v | v in xs && BelowLayer(t, v, l)
  }

  ghost predicate AgreeBelow(t: AxiomTask, l: nat, xs: set<nat>, ys: set<nat>) {
    Under(t, l, xs) == Under(t, l, ys)
  }

  lemma AgreeAt(t: AxiomTask, l: nat, xs: set<nat>, ys: set<nat>, v: nat)
    requires AgreeBelow(t, l, xs, ys) && BelowLayer(t, v, l)
    ensures v in xs <==> v in ys
  {
    assert v in Under(t, l, xs) <==> v in Under(t, l, ys);
  }

  /** In every set that agrees with `below` on the lower layers and is closed in layer `l`. */
  ghost predicate Forced(t: AxiomTask, s: State, l: nat, below: set<nat>, v: nat)
    requires ValidAxioms(t)
  {
    InLayer(t, v, l) && forall ys | AgreeBelow(t, l, below, ys) && Closed(t, s, l, ys) :: v in ys
  }

  ghost function ForcedIn(t: AxiomTask, s: State, l: nat, below: set<nat>): set<nat>
    requires ValidAxioms(t)
  {
    set v: nat | v < |t.layers| && Forced(t, s, l, below, v)
  }

  /** The derived variables of the first `n` layers that are true: in each layer the least set
      closed under its rules, given the layers below. */
  ghost function TrueVars(t: AxiomTask, s: State, n: nat): set<nat>
    requires ValidAxioms(t)
  {
    if n == 0 then {} else TrueVars(t, s, n - 1) + ForcedIn(t, s, n - 1, TrueVars(t, s, n - 1))
  }

  function LayerCount(layers: seq<Option<nat>>): (n: nat)
    ensures forall v | 0 <= v < |layers| && layers[v].Some? :: layers[v].value < n
    ensures n > 0 ==> exists v | 0 <= v < |layers| :: layers[v] == Some(n - 1)
  {
    if layers == [] then 0
    else
      var n := LayerCount(layers[1..]);
      assert forall v | 0 <= v < |layers[1..]| :: layers[1..][v] == layers[v + 1];
      if layers[0].Some? && layers[0].value >= n then layers[0].value + 1 else n
  }

  ghost function AllTrue(t: AxiomTask, s: State): set<nat>
    requires ValidAxioms(t)
  {
    TrueVars(t, s, LayerCount(t.layers))
  }

  /** The state with the derived variables set to the layered least model over its base values. */
  ghost function Model(t: AxiomTask, s: State): (m: State)
    requires ValidAxioms(t) && |s| == |t.ranges|
    ensures |m| == |s|
  {
    seq(|s|, v requires 0 <= v < |s| =>
      if !Derived(t, v) then s[v] else if v in AllTrue(t, s) then 1 - t.defaults[v] else t.defaults[v])
  }

  lemma {:induction false} TrueLayers(t: AxiomTask, s: State, n: nat)
    requires ValidAxioms(t)
    ensures forall v | v in TrueVars(t, s, n) :: BelowLayer(t, v, n)
  {
    if n > 0 {
      TrueLayers(t, s, n - 1);
    }
  }

  lemma TrueStep(t: AxiomTask, s: State, l: nat)
    requires ValidAxioms(t)
    ensures TrueVars(t, s, l + 1) == TrueVars(t, s, l) + ForcedIn(t, s, l, TrueVars(t, s, l))
  {
  }

  lemma ForcedAbove(t: AxiomTask, s: State, n: nat, l: nat, xs: set<nat>, ys: set<nat>)
    requires ValidAxioms(t) && n <= l && AgreeBelow(t, n, xs, ys)
    ensures AgreeBelow(t, n, xs, ys + ForcedIn(t, s, l, ys))
  {
  }

  lemma AgreeStep(t: AxiomTask, s: State, n: nat, l: nat, m: nat)
    requires ValidAxioms(t) && n <= l && m == l + 1 && AgreeBelow(t, n, TrueVars(t, s, n), TrueVars(t, s, l))
    ensures AgreeBelow(t, n, TrueVars(t, s, n), TrueVars(t, s, m))
  {
    TrueStep(t, s, l);
    ForcedAbove(t, s, n, l, TrueVars(t, s, n), TrueVars(t, s, l));
  }

  lemma {:induction false} TrueAgree(t: AxiomTask, s: State, n: nat, m: nat)
    requires ValidAxioms(t) && n <= m
    ensures AgreeBelow(t, n, TrueVars(t, s, n), TrueVars(t, s, m))
    decreases m
  {
    if n < m {
      TrueAgree(t, s, n, m - 1);
      AgreeStep(t, s, n, m - 1, m);
    }
  }

  lemma ForcedInLayer(t: AxiomTask, s: State, l: nat, c: nat, below: set<nat>, next: set<nat>, all: set<nat>)
    requires ValidAxioms(t) && AgreeBelow(t, c, next, all) && c == l + 1
    requires next == below + ForcedIn(t, s, l, below) && forall v | v in below :: BelowLayer(t, v, l)
    ensures forall v | InLayer(t, v, l) :: v in all <==> Forced(t, s, l, below, v)
  {
    forall v | InLayer(t, v, l)
      ensures v in all <==> Forced(t, s, l, below, v)
    {
      AgreeAt(t, c, next, all, v);
    }
  }

  lemma TrueIsForced(t: AxiomTask, s: State, l: nat, c: nat, n: nat)
    requires ValidAxioms(t) && c == l + 1 && c <= n
    ensures forall v | InLayer(t, v, l) :: v in TrueVars(t, s, n) <==> Forced(t, s, l, TrueVars(t, s, l), v)
  {
    TrueAgree(t, s, c, n);
    TrueLayers(t, s, l);
    TrueStep(t, s, l);
    ForcedInLayer(t, s, l, c, TrueVars(t, s, l), TrueVars(t, s, c), TrueVars(t, s, n));
  }

  /** The true variables of one layer are the forced ones, given the layers below. */
  lemma TrueInLayer(t: AxiomTask, s: State, l: nat) returns (below: set<nat>)
    requires ValidAxioms(t) && l < LayerCount(t.layers)
    ensures AgreeBelow(t, l, below, AllTrue(t, s))
    ensures forall v | InLayer(t, v, l) :: v in AllTrue(t, s) <==> Forced(t, s, l, below, v)
  {
    below := TrueVars(t, s, l);
    TrueAgree(t, s, l, LayerCount(t.layers));
    TrueIsForced(t, s, l, l + 1, LayerCount(t.layers));
  }

  lemma BodyStays(t: AxiomTask, s: State, a: Axiom, all: set<nat>, ys: set<nat>, l: nat)
    requires ValidAxioms(t) && a in t.axioms && IsRule(t, a) && InLayer(t, a.head.v, l)
    requires AgreeBelow(t, l, all, ys) && BodyIn(t, s, all, a)
    requires forall v | InLayer(t, v, l) && v in all :: v in ys
    ensures BodyIn(t, s, ys, a)
  {
    assert Stratified(t, a);
    forall f | f in a.cond
      ensures FactIn(t, s, ys, f)
    {
      assert FactIn(t, s, all, f) && ValidFact(t.ranges, f);
      if BelowLayer(t, f.v, l) {
        AgreeAt(t, l, all, ys, f.v);
      }
      assert Derived(t, f.v) ==> BelowLayer(t, f.v, l) || InLayer(t, f.v, l);
    }
  }

  /** A rule whose body holds in the model has its head in the model. */
  lemma RuleHolds(t: AxiomTask, s: State, a: Axiom)
    requires ValidAxioms(t) && a in t.axioms && IsRule(t, a) && BodyIn(t, s, AllTrue(t, s), a)
    ensures a.head.v in AllTrue(t, s)
  {
    var l, all := t.layers[a.head.v].value, AllTrue(t, s);
    var below := TrueInLayer(t, s, l);
    forall ys | AgreeBelow(t, l, below, ys) && Closed(t, s, l, ys)
      ensures a.head.v in ys
    {
      BodyStays(t, s, a, all, ys, l);
    }
  }

  /** A set that is right below layer `l` and closed in it contains the true variables of the layer. */
  lemma LeastInLayer(t: AxiomTask, s: State, l: nat, ys: set<nat>, v: nat)
    requires ValidAxioms(t) && AgreeBelow(t, l, AllTrue(t, s), ys) && Closed(t, s, l, ys)
    requires v in AllTrue(t, s) && InLayer(t, v, l)
    ensures v in ys
  {
    var below := TrueInLayer(t, s, l);
  }

  /** Every true derived variable has a rule whose body holds in the model. */
  lemma Supported(t: AxiomTask, s: State, v: nat)
    requires ValidAxioms(t) && v in AllTrue(t, s)
    ensures exists a | a in t.axioms && IsRule(t, a) && a.head.v == v :: BodyIn(t, s, AllTrue(t, s), a)
  {
    var all := AllTrue(t, s);
    TrueLayers(t, s, LayerCount(t.layers));
    if forall a | a in t.axioms && IsRule(t, a) && a.head.v == v :: !BodyIn(t, s, all, a) {
      var l, ys := t.layers[v].value, all - {v};
      forall a | a in t.axioms && IsRule(t, a) && InLayer(t, a.head.v, l) && BodyIn(t, s, ys, a)
        ensures a.head.v in ys
      {
        forall f | f in a.cond
          ensures FactIn(t, s, all, f)
        {
          assert FactIn(t, s, ys, f);
        }
        RuleHolds(t, s, a);
      }
      LeastInLayer(t, s, l, ys, v);
    }
  }

  lemma SameBodies(t: AxiomTask, s: State, s': State, l: nat, ys: set<nat>)
    requires ValidAxioms(t) && |s| == |s'| == |t.ranges|
    requires forall v | 0 <= v < |s| && !Derived(t, v) :: s[v] == s'[v]
    ensures Closed(t, s, l, ys) <==> Closed(t, s', l, ys)
  {
    forall a | a in t.axioms
      ensures BodyIn(t, s, ys, a) <==> BodyIn(t, s', ys, a)
    {
      assert forall f | f in a.cond :: FactIn(t, s, ys, f) <==> FactIn(t, s', ys, f);
    }
  }

  lemma SameForced(t: AxiomTask, s: State, s': State, l: nat, below: set<nat>, v: nat)
    requires ValidAxioms(t) && |s| == |s'| == |t.ranges|
    requires forall u | 0 <= u < |s| && !Derived(t, u) :: s[u] == s'[u]
    ensures Forced(t, s, l, below, v) <==> Forced(t, s', l, below, v)
  {
    forall ys | AgreeBelow(t, l, below, ys)
      ensures Closed(t, s, l, ys) <==> Closed(t, s', l, ys)
    {
      SameBodies(t, s, s', l, ys);
    }
  }

  /** Only the base values matter. */
  lemma {:induction false} SameBase(t: AxiomTask, s: State, s': State, n: nat)
    requires ValidAxioms(t) && |s| == |s'| == |t.ranges|
    requires forall v | 0 <= v < |s| && !Derived(t, v) :: s[v] == s'[v]
    ensures TrueVars(t, s, n) == TrueVars(t, s', n)
  {
    if n > 0 {
      var l := n - 1;
      SameBase(t, s, s', l);
      var below := TrueVars(t, s, l);
      forall v: nat | InLayer(t, v, l)
        ensures Forced(t, s, l, below, v) <==> Forced(t, s', l, below, v)
      {
        SameForced(t, s, s', l, below, v);
      }
    }
  }

  /** Evaluating twice is the same as evaluating once. */
  lemma ModelIdempotent(t: AxiomTask, s: State)
    requires ValidAxioms(t) && |s| == |t.ranges|
    ensures Model(t, Model(t, s)) == Model(t, s)
  {
    SameBase(t, s, Model(t, s), LayerCount(t.layers));
  }
}
