/** The instantiated operators delete no more and no less than the recorded inconsistencies allow
    (h2_mutexes.cc:660-878). */
module H2Tight {
  import opened Sas
  import opened H2Theory
  import opened H2Instantiate
  import opened H2Knowledge

  /** The operator can be applied in the state, which has the augmented values. */
  ghost predicate CanStep(ix: Index, op: SasOperator, augmented: seq<Fact>, s: State) {
    ValidState(ix.ranges, s) && Applicable(op, s) && HoldsAll(s, augmented)
  }

  /** The operator has a condition, an augmented value or an effect on the variable. */
  ghost predicate Touches(op: SasOperator, augmented: seq<Fact>, v: nat) {
    Affects(op.prePost, v) || (exists f | f in op.prevail :: f.v == v) || (exists f | f in augmented :: f.v == v)
  }

  ghost predicate IsInstance(ix: Index, inc: map<Fact, set<Fact>>, op: SasOperator, augmented: seq<Fact>) {
    && ValidIndex(ix) && ValidInconsistent(ix, inc) && ValidOperator(ix.ranges, op) && Plain(op)
    && ValidAugmented(ix, op, augmented)
  }

  // ---- steps exist ----

  /** Conditions on one variable agree. */
  lemma OneCondition(ix: Index, op: SasOperator, augmented: seq<Fact>, v: nat, x: nat, y: nat)
    requires Plain(op) && ValidAugmented(ix, op, augmented)
    requires ForwardPre(op, augmented, Fact(v, x)) && ForwardPre(op, augmented, Fact(v, y))
    ensures x == y
  {
    var f, g := Fact(v, x), Fact(v, y);
    PostsAndPres(op.prePost);
    if f in op.prevail && g in op.prevail {
      var i :| 0 <= i < |op.prevail| && op.prevail[i] == f;
      var j :| 0 <= j < |op.prevail| && op.prevail[j] == g;
      assert i == j || i < j || j < i;
    } else if f in augmented && g in augmented {
      var i :| 0 <= i < |augmented| && augmented[i] == f;
      var j :| 0 <= j < |augmented| && augmented[j] == g;
      assert i == j || i < j || j < i;
    } else if f in Pres(op.prePost) && g in Pres(op.prePost) {
      var e :| e in op.prePost && e.v == v && e.pre == Some(x);
      var d :| d in op.prePost && d.v == v && d.pre == Some(y);
      EffectUnique(op, e, d);
    }
  }

  lemma CanStepIff(ix: Index, op: SasOperator, augmented: seq<Fact>, s: State)
    requires ValidState(ix.ranges, s)
    ensures CanStep(ix, op, augmented, s) <==> forall f | ForwardPre(op, augmented, f) :: Holds(s, f)
  {
    PostsAndPres(op.prePost);
    if forall f | ForwardPre(op, augmented, f) :: Holds(s, f) {
      forall e | e in op.prePost
        ensures PreHolds(s, e)
      {
        assert e.pre.Some? ==> ForwardPre(op, augmented, Fact(e.v, e.pre.value));
      }
    }
  }

  ghost function Adapted(op: SasOperator, augmented: seq<Fact>, s: State): (r: State)
    ensures |r| == |s|
  {
    seq(|s|, v requires 0 <= v < |s| => AdaptedValue(op, augmented, v, s[v]))
  }

  ghost function AdaptedValue(op: SasOperator, augmented: seq<Fact>, v: nat, x: nat): nat {
    if exists y: nat :: ForwardPre(op, augmented, Fact(v, y)) then var y: nat :| ForwardPre(op, augmented, Fact(v, y)); y else x
  }

  lemma ConditionValid(ix: Index, inc: map<Fact, set<Fact>>, op: SasOperator, augmented: seq<Fact>, f: Fact)
    requires IsInstance(ix, inc, op, augmented) && ForwardPre(op, augmented, f)
    ensures ValidFact(ix.ranges, f) && Touches(op, augmented, f.v)
  {
    PostsAndPres(op.prePost);
  }

  /** Any state can be adapted to the conditions, so the operator takes some step. */
  lemma StepExists(ix: Index, inc: map<Fact, set<Fact>>, op: SasOperator, augmented: seq<Fact>, base: State) returns (s: State)
    requires IsInstance(ix, inc, op, augmented) && ValidState(ix.ranges, base)
    ensures CanStep(ix, op, augmented, s)
  {
    s := Adapted(op, augmented, base);
    forall v | 0 <= v < |s|
      ensures s[v] < ix.ranges[v]
    {
      if exists y: nat :: ForwardPre(op, augmented, Fact(v, y)) {
        ConditionValid(ix, inc, op, augmented, Fact(v, s[v]));
      }
    }
    forall f | ForwardPre(op, augmented, f)
      ensures Holds(s, f)
    {
      ConditionValid(ix, inc, op, augmented, f);
      OneCondition(ix, op, augmented, f.v, f.x, s[f.v]);
    }
    CanStepIff(ix, op, augmented, s);
  }

  /** A variable can have any value that contradicts no condition on it. */
  lemma StepVaried(ix: Index, op: SasOperator, augmented: seq<Fact>, s: State, v: nat, x: nat)
    requires CanStep(ix, op, augmented, s) && v < |ix.ranges| && x < ix.ranges[v]
    requires forall y | ForwardPre(op, augmented, Fact(v, y)) :: y == x
    ensures CanStep(ix, op, augmented, s[v := x])
  {
    CanStepIff(ix, op, augmented, s);
    CanStepIff(ix, op, augmented, s[v := x]);
    forall f | ForwardPre(op, augmented, f)
      ensures Holds(s[v := x], f)
    {
      assert f == Fact(f.v, f.x) && Holds(s, f);
    }
  }

  // ---- progression ----

  /** The condition holds in every state in which the operator can be applied, and in no other way is it required. */
  lemma RequiredIff(ix: Index, inc: map<Fact, set<Fact>>, op: SasOperator, augmented: seq<Fact>, base: State, g: Fact)
    requires IsInstance(ix, inc, op, augmented) && ValidState(ix.ranges, base) && ValidFact(ix.ranges, g) && ix.ranges[g.v] > 1
    ensures ForwardPre(op, augmented, g) <==> forall s | CanStep(ix, op, augmented, s) :: Holds(s, g)
  {
    forall s | CanStep(ix, op, augmented, s) && ForwardPre(op, augmented, g)
      ensures Holds(s, g)
    {
      CanStepIff(ix, op, augmented, s);
    }
    if !ForwardPre(op, augmented, g) {
      var s := StepExists(ix, inc, op, augmented, base);
      if Holds(s, g) {
        CanStepIff(ix, op, augmented, s);
        var x := if g.x == 0 then 1 else 0;
        assert forall y | ForwardPre(op, augmented, Fact(g.v, y)) :: Holds(s, Fact(g.v, y)) && y == g.x;
        StepVaried(ix, op, augmented, s, g.v, x);
        assert !Holds(s[g.v := x], g);
      }
    }
  }

  /** The operator sets the fact in some state that lacks it. */
  lemma SetIff(ix: Index, op: SasOperator, base: State, g: Fact)
    requires Plain(op) && ValidOperator(ix.ranges, op) && ValidState(ix.ranges, base) && ValidFact(ix.ranges, g) && ix.ranges[g.v] > 1
    ensures ForwardAdd(op, g) <==> exists s :: ValidState(ix.ranges, s) && !Holds(s, g) && Holds(Successor(op, s), g)
  {
    PostsAndPres(op.prePost);
    forall s | ValidState(ix.ranges, s) && !Holds(s, g) && Holds(Successor(op, s), g)
      ensures ForwardAdd(op, g)
    {
      PlainSuccessor(op, s, g.v);
    }
    if ForwardAdd(op, g) {
      var s := base[g.v := if g.x == 0 then 1 else 0];
      PlainSuccessor(op, s, g.v);
      assert ValidState(ix.ranges, s) && !Holds(s, g) && Holds(Successor(op, s), g);
    }
  }

  /** No step ends with the fact. */
  ghost predicate NeverAfter(ix: Index, op: SasOperator, augmented: seq<Fact>, g: Fact) {
    forall s | CanStep(ix, op, augmented, s) :: !Holds(Successor(op, s), g)
  }

  /** Every step ends with a value of the variable that is recorded as inconsistent with the fact. */
  ghost predicate ExcludedAfter(ix: Index, inc: map<Fact, set<Fact>>, op: SasOperator, augmented: seq<Fact>, v: nat, g: Fact) {
    forall s | CanStep(ix, op, augmented, s) :: v < |s| && IsInconsistent(inc, Fact(v, Successor(op, s)[v]), g)
  }

  ghost predicate IsInconsistent(inc: map<Fact, set<Fact>>, f: Fact, g: Fact) {
    f in inc && g in inc[f]
  }

  /** The value the operator leaves on a variable it touches is the same after each step. */
  lemma FixedAfter(ix: Index, inc: map<Fact, set<Fact>>, op: SasOperator, augmented: seq<Fact>, f: Fact)
    requires IsInstance(ix, inc, op, augmented)
    requires f in op.prevail || f in Posts(op.prePost) || (f in augmented && !Affects(op.prePost, f.v))
    ensures ValidFact(ix.ranges, f) && Touches(op, augmented, f.v)
    ensures forall s | CanStep(ix, op, augmented, s) :: Holds(Successor(op, s), f)
  {
    PostsAndPres(op.prePost);
    forall s | CanStep(ix, op, augmented, s)
      ensures Holds(Successor(op, s), f)
    {
      assert ValidFact(ix.ranges, f);
      PlainSuccessor(op, s, f.v);
    }
  }

  /** On a touched variable each step ends with such a value. */
  lemma AfterFixed(ix: Index, inc: map<Fact, set<Fact>>, op: SasOperator, augmented: seq<Fact>, s: State, v: nat)
    requires IsInstance(ix, inc, op, augmented) && CanStep(ix, op, augmented, s) && Touches(op, augmented, v)
    ensures v < |s| && var f := Fact(v, Successor(op, s)[v]);
            f in op.prevail || f in Posts(op.prePost) || (f in augmented && !Affects(op.prePost, f.v))
  {
    PostsAndPres(op.prePost);
    if e :| e in op.prePost && e.v == v {
      PlainSuccessor(op, s, v);
    } else if f :| f in op.prevail && f.v == v {
      PlainSuccessor(op, s, v);
      assert Holds(s, f) && f == Fact(v, f.x);
    } else {
      var f :| f in augmented && f.v == v;
      PlainSuccessor(op, s, v);
      assert Holds(s, f) && f == Fact(v, f.x);
    }
  }

  lemma FixedExcludes(ix: Index, inc: map<Fact, set<Fact>>, op: SasOperator, augmented: seq<Fact>, f: Fact, g: Fact)
    requires IsInstance(ix, inc, op, augmented) && Excludes(ix, inc, f, g)
    requires f in op.prevail || f in Posts(op.prePost) || (f in augmented && !Affects(op.prePost, f.v))
    ensures Touches(op, augmented, f.v)
    ensures NeverAfter(ix, op, augmented, g) || ExcludedAfter(ix, inc, op, augmented, f.v, g)
  {
    FixedAfter(ix, inc, op, augmented, f);
    forall s | CanStep(ix, op, augmented, s)
      ensures f.v < |s| && Fact(f.v, Successor(op, s)[f.v]) == f
      ensures !IsInconsistent(inc, f, g) ==> !Holds(Successor(op, s), g)
    {
      assert Holds(Successor(op, s), f);
    }
  }

  /** A fact is deleted or added exactly if no step ends with it, or a variable the operator touches always ends with a
      value recorded as inconsistent with it. */
  lemma DeletedIff(ix: Index, inc: map<Fact, set<Fact>>, op: SasOperator, augmented: seq<Fact>, base: State, g: Fact)
    requires IsInstance(ix, inc, op, augmented) && ValidState(ix.ranges, base) && ValidFact(ix.ranges, g) && !ForwardAdd(op, g)
    ensures ForwardDel(ix, inc, op, augmented, g) <==>
            NeverAfter(ix, op, augmented, g) || exists v: nat :: Touches(op, augmented, v) && ExcludedAfter(ix, inc, op, augmented, v, g)
  {
    if ForwardDel(ix, inc, op, augmented, g) {
      var f :| (f in op.prevail || f in Posts(op.prePost) || (f in augmented && !Affects(op.prePost, f.v))) && Excludes(ix, inc, f, g);
      FixedExcludes(ix, inc, op, augmented, f, g);
    } else {
      NotDeleted(ix, inc, op, augmented, base, g);
    }
  }

  /** A fact that is neither deleted nor added is true after some step, and each touched variable ends with a value
      that is not recorded as inconsistent with it. */
  lemma NotDeleted(ix: Index, inc: map<Fact, set<Fact>>, op: SasOperator, augmented: seq<Fact>, base: State, g: Fact)
    requires IsInstance(ix, inc, op, augmented) && ValidState(ix.ranges, base) && ValidFact(ix.ranges, g)
    requires !ForwardAdd(op, g) && !ForwardDel(ix, inc, op, augmented, g)
    ensures !NeverAfter(ix, op, augmented, g)
    ensures forall v: nat | Touches(op, augmented, v) :: !ExcludedAfter(ix, inc, op, augmented, v, g)
  {
    PostsAndPres(op.prePost);
    var s := StepExists(ix, inc, op, augmented, base);
    forall e | e in op.prePost
      ensures e.v != g.v
    {
      assert Fact(e.v, e.post) in Posts(op.prePost) && !Excludes(ix, inc, Fact(e.v, e.post), g);
    }
    forall y | ForwardPre(op, augmented, Fact(g.v, y))
      ensures y == g.x
    {
      var f := Fact(g.v, y);
      assert f in op.prevail || f in augmented;
      assert !Excludes(ix, inc, f, g);
    }
    StepVaried(ix, op, augmented, s, g.v, g.x);
    PlainSuccessor(op, s[g.v := g.x], g.v);
    assert Holds(Successor(op, s[g.v := g.x]), g);
    forall v: nat | Touches(op, augmented, v)
      ensures !ExcludedAfter(ix, inc, op, augmented, v, g)
    {
      AfterFixed(ix, inc, op, augmented, s, v);
      assert !Excludes(ix, inc, Fact(v, Successor(op, s)[v]), g);
    }
  }

  /** Each variable the operator touches has a value that is not recorded as inconsistent with the fact. */
  ghost predicate AgreesOnTouched(inc: map<Fact, set<Fact>>, op: SasOperator, augmented: seq<Fact>, s: State, g: Fact) {
    forall v: nat | Touches(op, augmented, v) :: v < |s| && !IsInconsistent(inc, Fact(v, s[v]), g)
  }

  /** Some step ends with the fact, next to values on the touched variables that are not inconsistent with it. */
  ghost predicate EndsWith(ix: Index, inc: map<Fact, set<Fact>>, op: SasOperator, augmented: seq<Fact>, g: Fact) {
    exists s | CanStep(ix, op, augmented, s) :: Holds(Successor(op, s), g) && AgreesOnTouched(inc, op, augmented, Successor(op, s), g)
  }

  lemma KeptIff(ix: Index, inc: map<Fact, set<Fact>>, op: SasOperator, augmented: seq<Fact>, base: State, g: Fact)
    requires IsInstance(ix, inc, op, augmented) && ValidState(ix.ranges, base) && ValidFact(ix.ranges, g) && !ForwardAdd(op, g)
    ensures ForwardDel(ix, inc, op, augmented, g) <==> !EndsWith(ix, inc, op, augmented, g)
  {
    DeletedIff(ix, inc, op, augmented, base, g);
    if !ForwardDel(ix, inc, op, augmented, g) {
      var s :| CanStep(ix, op, augmented, s) && Holds(Successor(op, s), g);
      forall v: nat | Touches(op, augmented, v)
        ensures v < |Successor(op, s)| && !IsInconsistent(inc, Fact(v, Successor(op, s)[v]), g)
      {
        NotExcludedHere(ix, inc, op, augmented, s, v, g);
      }
    }
  }

  lemma NotExcludedHere(ix: Index, inc: map<Fact, set<Fact>>, op: SasOperator, augmented: seq<Fact>, s: State, v: nat, g: Fact)
    requires IsInstance(ix, inc, op, augmented) && CanStep(ix, op, augmented, s)
    requires Touches(op, augmented, v) && !ExcludedAfter(ix, inc, op, augmented, v, g)
    ensures v < |Successor(op, s)| && !IsInconsistent(inc, Fact(v, Successor(op, s)[v]), g)
  {
    AfterFixed(ix, inc, op, augmented, s, v);
    var f := Fact(v, Successor(op, s)[v]);
    FixedAfter(ix, inc, op, augmented, f);
    forall s' | CanStep(ix, op, augmented, s')
      ensures v < |s'| && Fact(v, Successor(op, s')[v]) == f
    {
      assert Holds(Successor(op, s'), f);
    }
  }

  /** What the three lists of a forward instance contain, said by the steps of the operator. */
  lemma ForwardTight(ix: Index, inc: map<Fact, set<Fact>>, op: SasOperator, augmented: seq<Fact>, o: OpH2, base: State, p: nat)
    requires IsInstance(ix, inc, op, augmented) && IsForward(ix, inc, op, augmented, o) && ValidState(ix.ranges, base) && p < |ix.facts|
    ensures var g := ix.facts[p];
            && (ix.ranges[g.v] > 1 ==> (p in o.pre <==> forall s | CanStep(ix, op, augmented, s) :: Holds(s, g)))
            && (ix.ranges[g.v] > 1 ==>
                  (p in o.add <==> exists s :: ValidState(ix.ranges, s) && !Holds(s, g) && Holds(Successor(op, s), g)))
            && (p in o.del <==> p !in o.add && !EndsWith(ix, inc, op, augmented, g))
  {
    var g := ix.facts[p];
    if ix.ranges[g.v] > 1 {
      RequiredIff(ix, inc, op, augmented, base, g);
      SetIff(ix, op, base, g);
    }
    if !ForwardAdd(op, g) {
      KeptIff(ix, inc, op, augmented, base, g);
    }
  }

  // ---- the source looks at single inconsistencies only ----

  /** It sets variable 0 from 0 to 1. */
  function OneSetter(): SasOperator {
    SasOperator([], [Effect(0, Some(0), 1, [])], 1)
  }

  /** Value 0 of variable 1 is inconsistent with both values of variable 2. */
  ghost function Hemmed(ix: Index): map<Fact, set<Fact>> {
    map f | f in ix.prop.Keys :: set g | g in ix.prop.Keys && ((f == Fact(1, 0) && g.v == 2) || (g == Fact(1, 0) && f.v == 2))
  }

  /** So value 0 of variable 1 is true in no state that respects what is recorded, and the instance keeps it all the same. */
  lemma KeptThoughImpossible(ix: Index, o: OpH2)
    requires ValidIndex(ix) && ix.ranges == [2, 2, 2] && IsForward(ix, Hemmed(ix), OneSetter(), [], o)
    ensures ValidFact(ix.ranges, Fact(1, 0)) && ix.prop[Fact(1, 0)] !in o.add && ix.prop[Fact(1, 0)] !in o.del
    ensures forall s | ValidState(ix.ranges, s) && RespectsInconsistent(Hemmed(ix), s) :: !Holds(s, Fact(1, 0))
  {
    PostsAndPres(OneSetter().prePost);
    var g := Fact(1, 0);
    assert ValidFact(ix.ranges, g) && Posts(OneSetter().prePost) == [Fact(0, 1)];
    forall s | ValidState(ix.ranges, s) && RespectsInconsistent(Hemmed(ix), s)
      ensures !Holds(s, g)
    {
      var f := Fact(2, s[2]);
      assert f in Hemmed(ix) && g in Hemmed(ix)[f] && Holds(s, f);
    }
  }

  // ---- regression ----

  /** The step starts with potential values where the operator has none demanded. */
  ghost predicate CanStepBack(ix: Index, op: SasOperator, augmented: seq<Fact>, potential: seq<Fact>, s: State) {
    CanStep(ix, op, augmented, s) && PotentialsCover(op, potential, s)
  }

  ghost predicate IsBackInstance(ix: Index, inc: map<Fact, set<Fact>>, op: SasOperator, augmented: seq<Fact>, potential: seq<Fact>) {
    && IsInstance(ix, inc, op, augmented) && InIndex(ix, potential) && PotentialsOnOpen(op, potential)
  }

  /** No step starts with the fact. */
  ghost predicate NeverBefore(ix: Index, op: SasOperator, augmented: seq<Fact>, g: Fact) {
    forall s | CanStep(ix, op, augmented, s) :: !Holds(s, g)
  }

  /** Every step that starts with potential values starts with a value of the variable that is inconsistent with the fact. */
  ghost predicate ExcludedBefore(ix: Index, inc: map<Fact, set<Fact>>, op: SasOperator, augmented: seq<Fact>, potential: seq<Fact>, v: nat, g: Fact) {
    forall s | CanStepBack(ix, op, augmented, potential, s) :: v < |s| && IsInconsistent(inc, Fact(v, s[v]), g)
  }

  lemma NothingRequired(ix: Index, inc: map<Fact, set<Fact>>, op: SasOperator, augmented: seq<Fact>, v: nat)
    requires IsInstance(ix, inc, op, augmented) && !Touches(op, augmented, v)
    ensures forall y: nat :: !ForwardPre(op, augmented, Fact(v, y))
  {
    forall y: nat
      ensures !ForwardPre(op, augmented, Fact(v, y))
    {
      if ForwardPre(op, augmented, Fact(v, y)) {
        ConditionValid(ix, inc, op, augmented, Fact(v, y));
      }
    }
  }

  lemma BackRequiredIff(ix: Index, inc: map<Fact, set<Fact>>, op: SasOperator, augmented: seq<Fact>, base: State, g: Fact)
    requires IsInstance(ix, inc, op, augmented) && ValidState(ix.ranges, base) && ValidFact(ix.ranges, g) && ix.ranges[g.v] > 1
    ensures BackwardPre(op, augmented, g) <==> forall s | CanStep(ix, op, augmented, s) :: Holds(Successor(op, s), g)
  {
    if BackwardPre(op, augmented, g) {
      FixedAfter(ix, inc, op, augmented, g);
    } else {
      var s := StepExists(ix, inc, op, augmented, base);
      if Touches(op, augmented, g.v) {
        AfterFixed(ix, inc, op, augmented, s, g.v);
      } else {
        var x := if g.x == 0 then 1 else 0;
        NothingRequired(ix, inc, op, augmented, g.v);
        StepVaried(ix, op, augmented, s, g.v, x);
        PlainSuccessor(op, s[g.v := x], g.v);
      }
    }
  }

  /** An affected variable can start with the value. */
  lemma BackSetIff(ix: Index, inc: map<Fact, set<Fact>>, op: SasOperator, augmented: seq<Fact>, potential: seq<Fact>, s0: State, g: Fact)
    requires IsBackInstance(ix, inc, op, augmented, potential) && CanStepBack(ix, op, augmented, potential, s0) && ValidFact(ix.ranges, g)
    ensures BackwardAdd(op, potential, g) <==>
            Affects(op.prePost, g.v) && exists s :: CanStepBack(ix, op, [], potential, s) && Holds(s, g)
  {
    forall s | CanStepBack(ix, op, [], potential, s) && Holds(s, g) && Affects(op.prePost, g.v)
      ensures BackwardAdd(op, potential, g)
    {
      StartsAdded(ix, op, potential, s, g);
    }
    if BackwardAdd(op, potential, g) {
      var s := AddedStarts(ix, inc, op, augmented, potential, s0, g);
    }
  }

  lemma StartsAdded(ix: Index, op: SasOperator, potential: seq<Fact>, s: State, g: Fact)
    requires CanStepBack(ix, op, [], potential, s) && Holds(s, g) && Affects(op.prePost, g.v)
    ensures BackwardAdd(op, potential, g)
  {
    PostsAndPres(op.prePost);
    var e :| e in op.prePost && e.v == g.v;
    assert PreHolds(s, e) && g == Fact(e.v, s[e.v]);
  }

  lemma AddedStarts(ix: Index, inc: map<Fact, set<Fact>>, op: SasOperator, augmented: seq<Fact>, potential: seq<Fact>, s0: State, g: Fact)
    returns (s: State)
    requires IsBackInstance(ix, inc, op, augmented, potential) && CanStepBack(ix, op, augmented, potential, s0) && BackwardAdd(op, potential, g)
    ensures Affects(op.prePost, g.v) && CanStepBack(ix, op, [], potential, s) && Holds(s, g)
  {
    if g in Pres(op.prePost) {
      PreStarts(op, s0, g);
      s := s0;
    } else {
      assert OpenEffect(op, g.v);
      var e :| e in op.prePost && e.v == g.v && e.pre.None?;
      WithoutAugmented(ix, inc, op, augmented, potential, s0);
      OpenVaried(ix, inc, op, [], potential, s0, e, g);
      s := s0[g.v := g.x];
    }
  }

  lemma PreStarts(op: SasOperator, s: State, g: Fact)
    requires Applicable(op, s) && g in Pres(op.prePost)
    ensures Affects(op.prePost, g.v) && Holds(s, g)
  {
    PostsAndPres(op.prePost);
    var e :| e in op.prePost && e.v == g.v && e.pre == Some(g.x);
    assert PreHolds(s, e);
  }

  lemma WithoutAugmented(ix: Index, inc: map<Fact, set<Fact>>, op: SasOperator, augmented: seq<Fact>, potential: seq<Fact>, s: State)
    requires IsBackInstance(ix, inc, op, augmented, potential) && CanStepBack(ix, op, augmented, potential, s)
    ensures IsBackInstance(ix, inc, op, [], potential) && CanStepBack(ix, op, [], potential, s)
  {
  }

  /** An open variable can have each of its potential values. */
  lemma OpenVaried(ix: Index, inc: map<Fact, set<Fact>>, op: SasOperator, augmented: seq<Fact>, potential: seq<Fact>, s: State, e: Effect, g: Fact)
    requires IsBackInstance(ix, inc, op, augmented, potential) && CanStepBack(ix, op, augmented, potential, s)
    requires e in op.prePost && e.v == g.v && e.pre.None? && g in potential && forall f | f in augmented :: f.v != g.v
    ensures CanStepBack(ix, op, augmented, potential, s[g.v := g.x])
  {
    forall y | ForwardPre(op, augmented, Fact(g.v, y))
      ensures y == g.x
    {
      PostsAndPres(op.prePost);
      if Fact(g.v, y) in Pres(op.prePost) {
        var d :| d in op.prePost && d.v == g.v && d.pre == Some(y);
        EffectUnique(op, e, d);
      }
    }
    StepVaried(ix, op, augmented, s, g.v, g.x);
    forall d | d in op.prePost && d.pre.None?
      ensures Fact(d.v, s[g.v := g.x][d.v]) in potential
    {
      assert Fact(d.v, s[d.v]) in potential;
      assert d.v == g.v ==> g == Fact(g.v, g.x);
    }
  }

  lemma BackDeletedIff(ix: Index, inc: map<Fact, set<Fact>>, op: SasOperator, augmented: seq<Fact>, potential: seq<Fact>, s0: State, g: Fact)
    requires IsBackInstance(ix, inc, op, augmented, potential) && CanStepBack(ix, op, augmented, potential, s0)
    requires ValidFact(ix.ranges, g) && !BackwardAdd(op, potential, g)
    ensures BackwardDel(ix, inc, op, augmented, potential, g) <==>
            || NeverBefore(ix, op, augmented, g)
            || exists v: nat :: Touches(op, augmented, v) && ExcludedBefore(ix, inc, op, augmented, potential, v, g)
  {
    if BackwardDel(ix, inc, op, augmented, potential, g) {
      if f :| ForwardPre(op, augmented, f) && Excludes(ix, inc, f, g) {
        RequiredExcludes(ix, inc, op, augmented, potential, f, g);
      } else {
        var v: nat :| PotentialDel(ix, inc, potential, v, g);
        PotentialsExclude(ix, inc, op, augmented, potential, v, g);
      }
    } else {
      NotDeletedBack(ix, inc, op, augmented, potential, s0, g);
    }
  }

  lemma RequiredExcludes(ix: Index, inc: map<Fact, set<Fact>>, op: SasOperator, augmented: seq<Fact>, potential: seq<Fact>, f: Fact, g: Fact)
    requires IsInstance(ix, inc, op, augmented) && ForwardPre(op, augmented, f) && Excludes(ix, inc, f, g)
    ensures Touches(op, augmented, f.v)
    ensures NeverBefore(ix, op, augmented, g) || ExcludedBefore(ix, inc, op, augmented, potential, f.v, g)
  {
    ConditionValid(ix, inc, op, augmented, f);
    forall s | CanStep(ix, op, augmented, s)
      ensures f.v < |s| && Fact(f.v, s[f.v]) == f
      ensures !IsInconsistent(inc, f, g) ==> !Holds(s, g)
    {
      CanStepIff(ix, op, augmented, s);
      assert Holds(s, f);
    }
  }

  lemma PotentialsExclude(ix: Index, inc: map<Fact, set<Fact>>, op: SasOperator, augmented: seq<Fact>, potential: seq<Fact>, v: nat, g: Fact)
    requires IsBackInstance(ix, inc, op, augmented, potential) && PotentialDel(ix, inc, potential, v, g) && !BackwardAdd(op, potential, g)
    ensures Touches(op, augmented, v) && ExcludedBefore(ix, inc, op, augmented, potential, v, g)
  {
    var h :| h in potential && h.v == v;
    assert OpenEffect(op, v);
    var e :| e in op.prePost && e.v == v && e.pre.None?;
    forall s | CanStepBack(ix, op, augmented, potential, s)
      ensures v < |s| && IsInconsistent(inc, Fact(v, s[v]), g)
    {
      assert Fact(e.v, s[e.v]) in potential;
      assert PotentialExcludes(ix, inc, Fact(v, s[v]), g);
    }
  }

  lemma NotDeletedBack(ix: Index, inc: map<Fact, set<Fact>>, op: SasOperator, augmented: seq<Fact>, potential: seq<Fact>, s0: State, g: Fact)
    requires IsBackInstance(ix, inc, op, augmented, potential) && CanStepBack(ix, op, augmented, potential, s0)
    requires ValidFact(ix.ranges, g) && !BackwardAdd(op, potential, g) && !BackwardDel(ix, inc, op, augmented, potential, g)
    ensures !NeverBefore(ix, op, augmented, g)
    ensures forall v: nat | Touches(op, augmented, v) :: !ExcludedBefore(ix, inc, op, augmented, potential, v, g)
  {
    forall y | ForwardPre(op, augmented, Fact(g.v, y))
      ensures y == g.x
    {
      assert !Excludes(ix, inc, Fact(g.v, y), g);
    }
    StepVaried(ix, op, augmented, s0, g.v, g.x);
    assert Holds(s0[g.v := g.x], g);
    forall v: nat | Touches(op, augmented, v)
      ensures !ExcludedBefore(ix, inc, op, augmented, potential, v, g)
    {
      NotExcludedBack(ix, inc, op, augmented, potential, s0, v, g);
    }
  }

  lemma NotExcludedBack(ix: Index, inc: map<Fact, set<Fact>>, op: SasOperator, augmented: seq<Fact>, potential: seq<Fact>, s0: State, v: nat, g: Fact)
    requires IsBackInstance(ix, inc, op, augmented, potential) && CanStepBack(ix, op, augmented, potential, s0) && Touches(op, augmented, v)
    requires ValidFact(ix.ranges, g) && !BackwardDel(ix, inc, op, augmented, potential, g)
    ensures !ExcludedBefore(ix, inc, op, augmented, potential, v, g)
  {
    if y: nat :| ForwardPre(op, augmented, Fact(v, y)) {
      RequiredNotExcluded(ix, inc, op, augmented, potential, s0, v, y, g);
    } else {
      var e := OnlyOpen(op, augmented, v);
      OpenNotExcluded(ix, inc, op, augmented, potential, s0, e, g);
    }
  }

  lemma RequiredNotExcluded(ix: Index, inc: map<Fact, set<Fact>>, op: SasOperator, augmented: seq<Fact>, potential: seq<Fact>, s0: State, v: nat, y: nat, g: Fact)
    requires CanStepBack(ix, op, augmented, potential, s0) && ForwardPre(op, augmented, Fact(v, y))
    requires ValidFact(ix.ranges, g) && !BackwardDel(ix, inc, op, augmented, potential, g)
    ensures !ExcludedBefore(ix, inc, op, augmented, potential, v, g)
  {
    CanStepIff(ix, op, augmented, s0);
    assert Holds(s0, Fact(v, y)) && !Excludes(ix, inc, Fact(v, y), g);
  }

  /** A variable that is touched without a condition is set by an effect without precondition. */
  lemma OnlyOpen(op: SasOperator, augmented: seq<Fact>, v: nat) returns (e: Effect)
    requires Touches(op, augmented, v) && forall y: nat :: !ForwardPre(op, augmented, Fact(v, y))
    ensures e in op.prePost && e.v == v && e.pre.None? && forall f | f in augmented :: f.v != v
  {
    forall f | f in op.prevail || f in augmented
      ensures f.v != v
    {
      assert ForwardPre(op, augmented, Fact(f.v, f.x));
    }
    PostsAndPres(op.prePost);
    e :| e in op.prePost && e.v == v;
    if e.pre.Some? {
      assert ForwardPre(op, augmented, Fact(v, e.pre.value));
    }
  }

  lemma OpenNotExcluded(ix: Index, inc: map<Fact, set<Fact>>, op: SasOperator, augmented: seq<Fact>, potential: seq<Fact>, s0: State, e: Effect, g: Fact)
    requires IsBackInstance(ix, inc, op, augmented, potential) && CanStepBack(ix, op, augmented, potential, s0)
    requires e in op.prePost && e.pre.None? && forall f | f in augmented :: f.v != e.v
    requires !BackwardDel(ix, inc, op, augmented, potential, g)
    ensures !ExcludedBefore(ix, inc, op, augmented, potential, e.v, g)
  {
    assert Fact(e.v, s0[e.v]) in potential && !PotentialDel(ix, inc, potential, e.v, g);
    var f :| f in potential && f.v == e.v && !PotentialExcludes(ix, inc, f, g);
    OpenVaried(ix, inc, op, augmented, potential, s0, e, f);
    assert s0[f.v := f.x][f.v] == f.x && f == Fact(f.v, f.x);
  }

  /** The same for the lists of a backward instance. */
  lemma BackwardTight(ix: Index, inc: map<Fact, set<Fact>>, op: SasOperator, augmented: seq<Fact>, potential: seq<Fact>, o: OpH2, s0: State, p: nat)
    requires IsBackInstance(ix, inc, op, augmented, potential) && IsBackward(ix, inc, op, augmented, potential, o)
    requires CanStepBack(ix, op, augmented, potential, s0) && p < |ix.facts|
    ensures var g := ix.facts[p];
            && (ix.ranges[g.v] > 1 ==> (p in o.pre <==> forall s | CanStep(ix, op, augmented, s) :: Holds(Successor(op, s), g)))
            && (p in o.add <==> Affects(op.prePost, g.v) && exists s :: CanStepBack(ix, op, [], potential, s) && Holds(s, g))
            && (p in o.del <==>
                  && p !in o.add
                  && (NeverBefore(ix, op, augmented, g)
                      || exists v: nat :: Touches(op, augmented, v) && ExcludedBefore(ix, inc, op, augmented, potential, v, g)))
  {
    var g := ix.facts[p];
    if ix.ranges[g.v] > 1 {
      BackRequiredIff(ix, inc, op, augmented, s0, g);
    }
    BackSetIff(ix, inc, op, augmented, potential, s0, g);
    if !BackwardAdd(op, potential, g) {
      BackDeletedIff(ix, inc, op, augmented, potential, s0, g);
    }
  }

  /** A fact that is neither deleted nor added is a start of a step with potential values exactly if its variable has no
      open effect.  For an open effect the source means to delete the other values of the variable, but inserts the
      listed value itself (h2_mutexes.cc:857-859). */
  lemma KeptIffNotOpen(ix: Index, inc: map<Fact, set<Fact>>, op: SasOperator, augmented: seq<Fact>, potential: seq<Fact>, o: OpH2, s0: State, p: nat)
    requires IsBackInstance(ix, inc, op, augmented, potential) && IsBackward(ix, inc, op, augmented, potential, o)
    requires CanStepBack(ix, op, augmented, potential, s0) && p < |ix.facts| && p !in o.del && p !in o.add
    ensures (exists s :: CanStepBack(ix, op, augmented, potential, s) && Holds(s, ix.facts[p])) <==> !OpenEffect(op, ix.facts[p].v)
  {
    var g := ix.facts[p];
    PostsAndPres(op.prePost);
    if OpenEffect(op, g.v) {
      forall s | CanStepBack(ix, op, augmented, potential, s)
        ensures !Holds(s, g)
      {
        var e :| e in op.prePost && e.v == g.v && e.pre.None?;
        assert Fact(e.v, s[e.v]) in potential;
      }
    } else {
      forall y | ForwardPre(op, augmented, Fact(g.v, y))
        ensures y == g.x
      {
        assert !Excludes(ix, inc, Fact(g.v, y), g);
      }
      StepVaried(ix, op, augmented, s0, g.v, g.x);
      var s := s0[g.v := g.x];
      forall d | d in op.prePost && d.pre.None?
        ensures d.v < |s| && Fact(d.v, s[d.v]) in potential
      {
        assert d.v != g.v && Fact(d.v, s0[d.v]) in potential;
      }
      assert CanStepBack(ix, op, augmented, potential, s) && Holds(s, g);
    }
  }
}
