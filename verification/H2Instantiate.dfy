/** Operators instantiated over propositions (Op_h2), for progression and for regression.
    Facts that exclude a fact the operator guarantees are "e-deleted": they cannot be carried
    over the operator even though no effect mentions them. */
module H2Instantiate {
  import opened Sas
  import opened H2Theory

  /** Facts numbered as propositions, in variable order. */
  datatype Index = Index(ranges: seq<nat>, facts: seq<Fact>, prop: map<Fact, nat>)

  ghost predicate ValidIndex(ix: Index) {
    && (forall f :: f in ix.prop <==> ValidFact(ix.ranges, f))
    && (forall f | f in ix.prop :: ix.prop[f] < |ix.facts| && ix.facts[ix.prop[f]] == f)
    && (forall p | 0 <= p < |ix.facts| :: ix.facts[p] in ix.prop && ix.prop[ix.facts[p]] == p)
  }

  ghost predicate ValidInconsistent(ix: Index, inc: map<Fact, set<Fact>>) {
    && inc.Keys == ix.prop.Keys
    && forall f, g {:trigger g in inc[f]} | f in inc && g in inc[f] :: g in ix.prop && g.v != f.v
  }

  /** The propositions true in a state. */
  ghost function TrueProps(ix: Index, s: State): set<nat> {
    set p | 0 <= p < |ix.facts| && Holds(s, ix.facts[p])
  }

  /** Operators handled by h^2 in both directions: unconditional effects on distinct variables
      and prevail conditions on distinct other variables. */
  ghost predicate Plain(op: SasOperator) {
    && (forall i, j | 0 <= i < j < |op.prevail| :: op.prevail[i].v != op.prevail[j].v)
    && (forall e | e in op.prePost :: e.cond == [])
    && (forall i, j | 0 <= i < j < |op.prePost| :: op.prePost[i].v != op.prePost[j].v)
    && (forall f, e {:trigger f in op.prevail, e in op.prePost} | f in op.prevail && e in op.prePost :: f.v != e.v)
  }

  function NotAffected(effects: seq<Effect>, fs: seq<Fact>): (r: seq<Fact>)
    ensures forall g :: g in r <==> g in fs && !Affects(effects, g.v)
  {
    if fs == [] then []
    else (if Affects(effects, fs[0].v) then [] else [fs[0]]) + NotAffected(effects, fs[1..])
  }

  lemma PlainSuccessor(op: SasOperator, s: State, v: nat)
    requires Plain(op) && v < |s|
    ensures forall e | e in op.prePost && e.v == v :: Successor(op, s)[v] == e.post
    ensures !Affects(op.prePost, v) ==> Successor(op, s)[v] == s[v]
  {
    ApplyEffectsAt(op.prePost, s, s, v);
    forall e | e in op.prePost && e.v == v
      ensures Successor(op, s)[v] == e.post
    {
      assert e.cond == [];
      forall e' | e' in op.prePost && e'.v == v
        ensures e'.post == e.post
      {
        EffectUnique(op, e, e');
      }
    }
  }

  lemma EffectUnique(op: SasOperator, e: Effect, e': Effect)
    requires Plain(op) && e in op.prePost && e' in op.prePost && e.v == e'.v
    ensures e == e'
  {
    var i :| 0 <= i < |op.prePost| && op.prePost[i] == e;
    var j :| 0 <= j < |op.prePost| && op.prePost[j] == e';
    assert i == j || i < j || j < i;
  }

  /** `g` cannot be true together with `f`. */
  ghost predicate Excludes(ix: Index, inc: map<Fact, set<Fact>>, f: Fact, g: Fact) {
    ValidFact(ix.ranges, g) && ((g.v == f.v && g.x != f.x) || (f in inc && g in inc[f]))
  }

  ghost predicate RespectsInconsistent(inc: map<Fact, set<Fact>>, s: State) {
    forall f, g {:trigger g in inc[f]} | f in inc && g in inc[f] :: !(Holds(s, f) && Holds(s, g))
  }

  ghost predicate ForwardPre(op: SasOperator, augmented: seq<Fact>, g: Fact) {
    g in op.prevail || g in Pres(op.prePost) || g in augmented
  }

  ghost predicate ForwardAdd(op: SasOperator, g: Fact) {
    g in Posts(op.prePost)
  }

  ghost predicate ForwardDel(ix: Index, inc: map<Fact, set<Fact>>, op: SasOperator, augmented: seq<Fact>, g: Fact) {
    || (exists f | f in op.prevail :: Excludes(ix, inc, f, g))
    || (exists f | f in Posts(op.prePost) :: Excludes(ix, inc, f, g))
    || (exists f | f in augmented :: !Affects(op.prePost, f.v) && Excludes(ix, inc, f, g))
  }

  ghost predicate BackwardPre(op: SasOperator, augmented: seq<Fact>, g: Fact) {
    g in op.prevail || ForwardAdd(op, g) || (g in augmented && !Affects(op.prePost, g.v))
  }

  ghost predicate BackwardAdd(op: SasOperator, potential: seq<Fact>, g: Fact) {
    g in Pres(op.prePost) || g in potential
  }

  /** `g` is excluded by each of the values listed for variable `v`.  The source also inserts the
      listed value itself (h2_mutexes.cc:859); harmless, since that value is added. */
  ghost predicate PotentialDel(ix: Index, inc: map<Fact, set<Fact>>, potential: seq<Fact>, v: nat, g: Fact) {
    && (exists f | f in potential :: f.v == v)
    && forall f | f in potential && f.v == v :: PotentialExcludes(ix, inc, f, g)
  }

  ghost predicate PotentialExcludes(ix: Index, inc: map<Fact, set<Fact>>, f: Fact, g: Fact) {
    (f in inc && g in inc[f]) || (g == f && f.v < |ix.ranges| && ix.ranges[f.v] > 1)
  }

  ghost predicate BackwardDel(ix: Index, inc: map<Fact, set<Fact>>, op: SasOperator, augmented: seq<Fact>,
                              potential: seq<Fact>, g: Fact) {
    || (exists f | f in op.prevail :: Excludes(ix, inc, f, g))
    || (exists f | f in Pres(op.prePost) :: Excludes(ix, inc, f, g))
    || (exists f | f in augmented :: Excludes(ix, inc, f, g))
    || (exists v: nat :: PotentialDel(ix, inc, potential, v, g))
  }

  ghost predicate IsForward(ix: Index, inc: map<Fact, set<Fact>>, op: SasOperator, augmented: seq<Fact>, o: OpH2) {
    && ValidOp(o, |ix.facts|)
    && forall p | 0 <= p < |ix.facts| ::
         && (p in o.pre <==> ForwardPre(op, augmented, ix.facts[p]))
         && (p in o.add <==> ForwardAdd(op, ix.facts[p]))
         && (p in o.del <==> ForwardDel(ix, inc, op, augmented, ix.facts[p]) && !ForwardAdd(op, ix.facts[p]))
  }

  ghost predicate IsBackward(ix: Index, inc: map<Fact, set<Fact>>, op: SasOperator, augmented: seq<Fact>,
                             potential: seq<Fact>, o: OpH2) {
    && ValidOp(o, |ix.facts|)
    && forall p | 0 <= p < |ix.facts| ::
         && (p in o.pre <==> BackwardPre(op, augmented, ix.facts[p]))
         && (p in o.add <==> BackwardAdd(op, potential, ix.facts[p]))
         && (p in o.del <==> BackwardDel(ix, inc, op, augmented, potential, ix.facts[p])
                             && !BackwardAdd(op, potential, ix.facts[p]))
  }

  /** Variable `v` has an effect but no precondition. */
  ghost predicate OpenEffect(op: SasOperator, v: nat) {
    exists e | e in op.prePost :: e.v == v && e.pre.None?
  }

  ghost predicate PotentialsOnOpen(op: SasOperator, potential: seq<Fact>) {
    forall f | f in potential :: OpenEffect(op, f.v)
  }

  /** Where an effect has no precondition, the listed values include the one `s` has. */
  ghost predicate PotentialsCover(op: SasOperator, potential: seq<Fact>, s: State) {
    forall e | e in op.prePost && e.pre.None? :: e.v < |s| && Fact(e.v, s[e.v]) in potential
  }

  /** A forward operator explains every fact of the successor of a step that respects the
      recorded inconsistencies, although the deletes list facts no effect mentions. */
  lemma ForwardExplainsStep(ix: Index, inc: map<Fact, set<Fact>>, op: SasOperator, augmented: seq<Fact>,
                            o: OpH2, s: State, s': State)
    requires ValidIndex(ix) && ValidInconsistent(ix, inc)
    requires ValidOperator(ix.ranges, op) && Plain(op) && IsForward(ix, inc, op, augmented, o)
    requires ValidState(ix.ranges, s) && Applicable(op, s) && s' == Successor(op, s)
    requires HoldsAll(s, augmented) && RespectsInconsistent(inc, s')
    ensures StepCovered(o, TrueProps(ix, s), TrueProps(ix, s'))
  {
    PostsAndPres(op.prePost);
    forall p | p in o.pre
      ensures p in TrueProps(ix, s)
    {
      assert ForwardPre(op, augmented, ix.facts[p]);
    }
    forall q | q in TrueProps(ix, s')
      ensures q in o.add || (q in TrueProps(ix, s) && q !in o.del)
    {
      var g := ix.facts[q];
      PlainSuccessor(op, s, g.v);
      if !ForwardAdd(op, g) {
        assert forall e | e in op.prePost :: ForwardAdd(op, Fact(e.v, e.post));
        if ForwardDel(ix, inc, op, augmented, g) {
          ForwardDelFalse(ix, inc, op, augmented, s, s', g);
        }
      }
    }
  }

  lemma ForwardDelFalse(ix: Index, inc: map<Fact, set<Fact>>, op: SasOperator, augmented: seq<Fact>,
                        s: State, s': State, g: Fact)
    requires ValidOperator(ix.ranges, op) && Plain(op)
    requires ValidState(ix.ranges, s) && Applicable(op, s) && s' == Successor(op, s)
    requires HoldsAll(s, augmented) && RespectsInconsistent(inc, s')
    requires ForwardDel(ix, inc, op, augmented, g)
    ensures !Holds(s', g)
  {
    PostsAndPres(op.prePost);
    if f :| f in op.prevail && Excludes(ix, inc, f, g) {
      assert !Affects(op.prePost, f.v);
      PlainSuccessor(op, s, f.v);
      assert Holds(s', f);
    } else if f :| f in Posts(op.prePost) && Excludes(ix, inc, f, g) {
      PlainSuccessor(op, s, f.v);
      assert Holds(s', f);
    } else {
      var f :| f in augmented && !Affects(op.prePost, f.v) && Excludes(ix, inc, f, g);
      assert Holds(s, f);
      PlainSuccessor(op, s, f.v);
      assert Holds(s', f);
    }
  }

  /** A backward operator explains every fact of the predecessor of a step. */
  lemma BackwardExplainsStep(ix: Index, inc: map<Fact, set<Fact>>, op: SasOperator, augmented: seq<Fact>,
                             potential: seq<Fact>, o: OpH2, s: State, s': State)
    requires ValidIndex(ix) && ValidInconsistent(ix, inc)
    requires ValidOperator(ix.ranges, op) && Plain(op) && IsBackward(ix, inc, op, augmented, potential, o)
    requires ValidState(ix.ranges, s) && Applicable(op, s) && s' == Successor(op, s)
    requires HoldsAll(s, augmented) && RespectsInconsistent(inc, s)
    requires PotentialsOnOpen(op, potential) && PotentialsCover(op, potential, s)
    ensures StepCovered(o, TrueProps(ix, s'), TrueProps(ix, s))
  {
    forall p | p in o.pre
      ensures p in TrueProps(ix, s')
    {
      BackwardPreTrue(ix, op, augmented, s, ix.facts[p]);
    }
    forall q | q in TrueProps(ix, s)
      ensures q in o.add || (q in TrueProps(ix, s') && q !in o.del)
    {
      var g := ix.facts[q];
      if !BackwardAdd(op, potential, g) {
        BackwardNotAdded(op, potential, s, g);
        if BackwardDel(ix, inc, op, augmented, potential, g) {
          BackwardDelFalse(ix, inc, op, augmented, potential, s, g);
        }
      }
    }
  }

  lemma BackwardPreTrue(ix: Index, op: SasOperator, augmented: seq<Fact>, s: State, g: Fact)
    requires Plain(op) && ValidFact(ix.ranges, g) && ValidState(ix.ranges, s) && Applicable(op, s)
    requires HoldsAll(s, augmented) && BackwardPre(op, augmented, g)
    ensures Holds(Successor(op, s), g)
  {
    PlainSuccessor(op, s, g.v);
    PostsAndPres(op.prePost);
    if g in op.prevail {
      assert !Affects(op.prePost, g.v);
    }
  }

  /** A fact of the predecessor that is not added lies on a variable the operator leaves alone. */
  lemma BackwardNotAdded(op: SasOperator, potential: seq<Fact>, s: State, g: Fact)
    requires Plain(op) && Applicable(op, s) && PotentialsCover(op, potential, s)
    requires Holds(s, g) && !BackwardAdd(op, potential, g)
    ensures Holds(Successor(op, s), g)
  {
    PlainSuccessor(op, s, g.v);
    PostsAndPres(op.prePost);
    forall e | e in op.prePost
      ensures e.v < |s| && BackwardAdd(op, potential, Fact(e.v, s[e.v]))
    {
      assert PreHolds(s, e);
    }
  }

  lemma BackwardDelFalse(ix: Index, inc: map<Fact, set<Fact>>, op: SasOperator, augmented: seq<Fact>,
                         potential: seq<Fact>, s: State, g: Fact)
    requires Applicable(op, s) && HoldsAll(s, augmented) && RespectsInconsistent(inc, s)
    requires PotentialsOnOpen(op, potential) && PotentialsCover(op, potential, s)
    requires BackwardDel(ix, inc, op, augmented, potential, g) && !BackwardAdd(op, potential, g)
    ensures !Holds(s, g)
  {
    if f :| f in op.prevail && Excludes(ix, inc, f, g) {
      assert Holds(s, f);
    } else if f :| f in Pres(op.prePost) && Excludes(ix, inc, f, g) {
      PostsAndPres(op.prePost);
      assert Holds(s, f);
    } else if f :| f in augmented && Excludes(ix, inc, f, g) {
      assert Holds(s, f);
    } else {
      var v: nat :| PotentialDel(ix, inc, potential, v, g);
      assert OpenEffect(op, v);
      assert Fact(v, s[v]) in potential;
      assert PotentialExcludes(ix, inc, Fact(v, s[v]), g);
    }
  }

  // ---- building the vectors ----

  method PushFacts(ix: Index, fs: seq<Fact>, props: seq<nat>) returns (r: seq<nat>)
    requires ValidIndex(ix) && InRange(props, |ix.facts|)
    requires forall f | f in fs :: f in ix.prop
    ensures InRange(r, |ix.facts|)
    ensures forall p | 0 <= p < |ix.facts| :: p in r <==> p in props || ix.facts[p] in fs
  {
    r := props;
    for j := 0 to |fs|
      invariant InRange(r, |ix.facts|)
      invariant forall p | 0 <= p < |ix.facts| :: p in r <==> p in props || ix.facts[p] in fs[..j]
    {
      r := r + [ix.prop[fs[j]]];
      assert fs[..j + 1] == fs[..j] + [fs[j]];
    }
    assert fs[..|fs|] == fs;
  }

  /** Push every other value of the fact's variable, then every fact recorded as inconsistent. */
  method PushExcluded(ix: Index, inc: map<Fact, set<Fact>>, f: Fact, props: seq<nat>) returns (r: seq<nat>)
    requires ValidIndex(ix) && ValidInconsistent(ix, inc) && InRange(props, |ix.facts|) && f in ix.prop
    ensures InRange(r, |ix.facts|)
    ensures forall p | 0 <= p < |ix.facts| :: p in r <==> p in props || Excludes(ix, inc, f, ix.facts[p])
  {
    r := props;
    for k := 0 to ix.ranges[f.v]
      invariant InRange(r, |ix.facts|)
      invariant forall p | 0 <= p < |ix.facts| :: p in r <==>
                  p in props || (ix.facts[p].v == f.v && ix.facts[p].x < k && ix.facts[p].x != f.x)
    {
      if k != f.x {
        r := r + [ix.prop[Fact(f.v, k)]];
      }
    }
    ghost var values := r;
    var rest := inc[f];
    while rest != {}
      invariant rest <= inc[f] && InRange(r, |ix.facts|)
      invariant forall p | 0 <= p < |ix.facts| :: p in r <==> p in values || ix.facts[p] in inc[f] - rest
    {
      var g :| g in rest;
      r := r + [ix.prop[g]];
      rest := rest - {g};
    }
  }

  method PushExcludedAll(ix: Index, inc: map<Fact, set<Fact>>, fs: seq<Fact>, props: seq<nat>) returns (r: seq<nat>)
    requires ValidIndex(ix) && ValidInconsistent(ix, inc) && InRange(props, |ix.facts|)
    requires forall f | f in fs :: f in ix.prop
    ensures InRange(r, |ix.facts|)
    ensures forall p | 0 <= p < |ix.facts| ::
              p in r <==> p in props || exists f | f in fs :: Excludes(ix, inc, f, ix.facts[p])
  {
    r := props;
    for j := 0 to |fs|
      invariant InRange(r, |ix.facts|)
      invariant forall p | 0 <= p < |ix.facts| ::
                  p in r <==> p in props || exists f | f in fs[..j] :: Excludes(ix, inc, f, ix.facts[p])
    {
      r := PushExcluded(ix, inc, fs[j], r);
      assert fs[..j + 1] == fs[..j] + [fs[j]];
    }
    assert fs[..|fs|] == fs;
  }

  method Difference(del: seq<nat>, add: seq<nat>, ghost n: nat) returns (r: seq<nat>)
    requires InRange(del, n)
    ensures InRange(r, n)
    ensures forall p :: p in r <==> p in del && p !in add
  {
    r := [];
    for j := 0 to |del|
      invariant InRange(r, n)
      invariant forall p :: p in r <==> p in del[..j] && p !in add
    {
      if del[j] !in add {
        r := r + [del[j]];
      }
      assert del[..j + 1] == del[..j] + [del[j]];
    }
    assert del[..|del|] == del;
  }

  method InstantiateForward(ix: Index, inc: map<Fact, set<Fact>>, op: SasOperator, augmented: seq<Fact>,
                            triggered: Reachability) returns (o: OpH2)
    requires ValidIndex(ix) && ValidInconsistent(ix, inc) && ValidOperator(ix.ranges, op)
    requires forall f | f in augmented :: f in ix.prop
    ensures IsForward(ix, inc, op, augmented, o) && o.triggered == triggered
  {
    PostsAndPres(op.prePost);
    var pre := PushFacts(ix, op.prevail, []);
    pre := PushFacts(ix, Pres(op.prePost), pre);
    var add := PushFacts(ix, Posts(op.prePost), []);
    var del := ForwardDeletes(ix, inc, op, augmented);
    pre := PushFacts(ix, augmented, pre);
    var kept := Difference(del, add, |ix.facts|);
    o := OpH2(pre, add, kept, triggered);
  }

  method ForwardDeletes(ix: Index, inc: map<Fact, set<Fact>>, op: SasOperator, augmented: seq<Fact>) returns (del: seq<nat>)
    requires ValidIndex(ix) && ValidInconsistent(ix, inc) && ValidOperator(ix.ranges, op)
    requires forall f | f in augmented :: f in ix.prop
    ensures InRange(del, |ix.facts|)
    ensures forall p | 0 <= p < |ix.facts| :: p in del <==> ForwardDel(ix, inc, op, augmented, ix.facts[p])
  {
    PostsAndPres(op.prePost);
    del := PushExcludedAll(ix, inc, op.prevail, []);
    del := PushExcludedAll(ix, inc, Posts(op.prePost), del);
    del := PushExcludedAll(ix, inc, NotAffected(op.prePost, augmented), del);
  }

  method InstantiateBackward(ix: Index, inc: map<Fact, set<Fact>>, op: SasOperator, augmented: seq<Fact>,
                             potential: seq<Fact>, triggered: Reachability) returns (o: OpH2)
    requires ValidIndex(ix) && ValidInconsistent(ix, inc) && ValidOperator(ix.ranges, op)
    requires forall f | f in augmented :: f in ix.prop
    requires forall f | f in potential :: f in ix.prop
    ensures IsBackward(ix, inc, op, augmented, potential, o) && o.triggered == triggered
  {
    PostsAndPres(op.prePost);
    var pre := PushFacts(ix, op.prevail, []);
    var add := PushFacts(ix, Pres(op.prePost), []);
    pre := PushFacts(ix, Posts(op.prePost), pre);
    var del := BackwardDeletes(ix, inc, op, augmented, potential);
    pre := PushFacts(ix, NotAffected(op.prePost, augmented), pre);
    add := PushFacts(ix, potential, add);
    var kept := Difference(del, add, |ix.facts|);
    o := OpH2(pre, add, kept, triggered);
  }

  method BackwardDeletes(ix: Index, inc: map<Fact, set<Fact>>, op: SasOperator, augmented: seq<Fact>,
                         potential: seq<Fact>) returns (del: seq<nat>)
    requires ValidIndex(ix) && ValidInconsistent(ix, inc) && ValidOperator(ix.ranges, op)
    requires forall f | f in augmented :: f in ix.prop
    requires forall f | f in potential :: f in ix.prop
    ensures InRange(del, |ix.facts|)
    ensures forall p | 0 <= p < |ix.facts| ::
              p in del <==> BackwardDel(ix, inc, op, augmented, potential, ix.facts[p])
  {
    PostsAndPres(op.prePost);
    del := PushExcludedAll(ix, inc, op.prevail, []);
    del := PushExcludedAll(ix, inc, Pres(op.prePost), del);
    del := PushExcludedAll(ix, inc, augmented, del);
    del := PushPotentialDeletes(ix, inc, potential, del);
  }

  lemma PotentialDelExtend(ix: Index, inc: map<Fact, set<Fact>>, fs: seq<Fact>, f: Fact, v: nat, g: Fact)
    ensures PotentialDel(ix, inc, fs + [f], v, g) <==>
            if v != f.v then PotentialDel(ix, inc, fs, v, g)
            else PotentialExcludes(ix, inc, f, g) && ((forall f' | f' in fs :: f'.v != v) || PotentialDel(ix, inc, fs, v, g))
  {
    assert f in fs + [f];
    assert forall f' | f' in fs :: f' in fs + [f];
  }

  /** The facts one potential value excludes, with the value itself as in the source. */
  method ExcludedBy(ix: Index, inc: map<Fact, set<Fact>>, f: Fact) returns (excluded: set<Fact>)
    requires ValidIndex(ix) && ValidInconsistent(ix, inc) && f in ix.prop
    ensures forall g :: g in excluded <==> PotentialExcludes(ix, inc, f, g)
    ensures forall g | g in excluded :: g in ix.prop
  {
    excluded := inc[f];
    for k := 0 to ix.ranges[f.v]
      invariant excluded == inc[f] + if k > 1 || (k == 1 && f.x != 0) then {f} else {}
    {
      if k != f.x {
        excluded := excluded + {f};
      }
    }
  }

  /** For each variable with a potential value, the facts excluded by all of its values. */
  ghost predicate DeletesOf(ix: Index, inc: map<Fact, set<Fact>>, fs: seq<Fact>, deletes: map<nat, set<Fact>>) {
    && (forall v: nat :: v in deletes <==> exists f | f in fs :: f.v == v)
    && (forall v: nat, g | v in deletes :: g in deletes[v] <==> PotentialDel(ix, inc, fs, v, g))
  }

  lemma DeletesNext(ix: Index, inc: map<Fact, set<Fact>>, fs: seq<Fact>, f: Fact, deletes: map<nat, set<Fact>>, excluded: set<Fact>)
    requires DeletesOf(ix, inc, fs, deletes) && forall g :: g in excluded <==> PotentialExcludes(ix, inc, f, g)
    ensures DeletesOf(ix, inc, fs + [f], deletes[f.v := if f.v in deletes then deletes[f.v] * excluded else excluded])
  {
    var next := deletes[f.v := if f.v in deletes then deletes[f.v] * excluded else excluded];
    assert f in fs + [f];
    forall v: nat
      ensures v in next <==> exists h | h in fs + [f] :: h.v == v
    {
      if v in deletes {
        var h :| h in fs && h.v == v;
        assert h in fs + [f];
      }
    }
    forall v: nat, g | v in next
      ensures g in next[v] <==> PotentialDel(ix, inc, fs + [f], v, g)
    {
      PotentialDelExtend(ix, inc, fs, f, v, g);
    }
  }

  /** For each variable, push the facts excluded by all of its listed values. */
  method PushPotentialDeletes(ix: Index, inc: map<Fact, set<Fact>>, potential: seq<Fact>, props: seq<nat>)
    returns (r: seq<nat>)
    requires ValidIndex(ix) && ValidInconsistent(ix, inc) && InRange(props, |ix.facts|)
    requires forall f | f in potential :: f in ix.prop
    ensures InRange(r, |ix.facts|)
    ensures forall p | 0 <= p < |ix.facts| ::
              p in r <==> p in props || exists v: nat :: PotentialDel(ix, inc, potential, v, ix.facts[p])
  {
    var deletes: map<nat, set<Fact>> := map[];
    for j := 0 to |potential|
      invariant DeletesOf(ix, inc, potential[..j], deletes)
    {
      var f := potential[j];
      var excluded := ExcludedBy(ix, inc, f);
      assert potential[..j + 1] == potential[..j] + [f];
      DeletesNext(ix, inc, potential[..j], f, deletes, excluded);
      if f.v in deletes {
        deletes := deletes[f.v := deletes[f.v] * excluded];
      } else {
        deletes := deletes[f.v := excluded];
      }
    }
    assert potential[..|potential|] == potential;
    r := PushSets(ix, deletes, props);
  }

  method PushSets(ix: Index, sets: map<nat, set<Fact>>, props: seq<nat>) returns (r: seq<nat>)
    requires ValidIndex(ix) && InRange(props, |ix.facts|)
    requires forall v, g | v in sets && g in sets[v] :: g in ix.prop
    ensures InRange(r, |ix.facts|)
    ensures forall p | 0 <= p < |ix.facts| ::
              p in r <==> p in props || exists v | v in sets :: ix.facts[p] in sets[v]
  {
    r := props;
    var vars := sets.Keys;
    while vars != {}
      invariant vars <= sets.Keys && InRange(r, |ix.facts|)
      invariant forall p | 0 <= p < |ix.facts| ::
                  p in r <==> p in props || exists v | v in sets.Keys - vars :: ix.facts[p] in sets[v]
    {
      var v :| v in vars;
      ghost var done := r;
      var rest := sets[v];
      while rest != {}
        invariant rest <= sets[v] && InRange(r, |ix.facts|)
        invariant forall p | 0 <= p < |ix.facts| :: p in r <==> p in done || ix.facts[p] in sets[v] - rest
      {
        var g :| g in rest;
        r := r + [ix.prop[g]];
        rest := rest - {g};
      }
      vars := vars - {v};
    }
  }

  /** Number the facts in variable order (h2_mutexes.cc:217-226). */
  method BuildIndex(ranges: seq<nat>) returns (ix: Index)
    ensures ValidIndex(ix) && ix.ranges == ranges
    ensures forall p, q | 0 <= p < q < |ix.facts| ::
              ix.facts[p].v < ix.facts[q].v || (ix.facts[p].v == ix.facts[q].v && ix.facts[p].x < ix.facts[q].x)
  {
    var facts: seq<Fact>, prop: map<Fact, nat> := [], map[];
    for v := 0 to |ranges|
      invariant Numbered(ranges, facts, prop, v, 0)
    {
      for x := 0 to ranges[v]
        invariant Numbered(ranges, facts, prop, v, x)
      {
        prop := prop[Fact(v, x) := |facts|];
        facts := facts + [Fact(v, x)];
      }
    }
    ix := Index(ranges, facts, prop);
  }

  /** The facts before value `x` of variable `v` are numbered in order. */
  ghost predicate Numbered(ranges: seq<nat>, facts: seq<Fact>, prop: map<Fact, nat>, v: nat, x: nat) {
    && (forall f :: f in prop <==> ValidFact(ranges, f) && (f.v < v || (f.v == v && f.x < x)))
    && (forall f | f in prop :: prop[f] < |facts| && facts[prop[f]] == f)
    && (forall p | 0 <= p < |facts| :: facts[p] in prop && prop[facts[p]] == p)
    && (forall p, q | 0 <= p < q < |facts| ::
          facts[p].v < facts[q].v || (facts[p].v == facts[q].v && facts[p].x < facts[q].x))
  }
}
