/** A grounded action and the operators made from it: the translation commutes with the encoding. */
module TranslateAction {
  import opened Sas
  import opened Strips
  import opened Conditions
  import opened Translation
  import opened BuildOperator

  /** Every atom of the action has a place. */
  ghost predicate EncodedAction(d: Encoding, a: Action) {
    Encoded(d, a.precondition) && EncodedEffects(d, a.adds) && EncodedEffects(d, a.dels)
  }

  /** The action can happen in `s`, and at most one atom of every group is true before and after. */
  ghost predicate Steps(d: Encoding, a: Action, s: Atoms) {
    Encodable(d, s) && Encodable(d, Result(a, s)) && LiteralsHold(a.precondition, s)
  }

  lemma AtomAt(d: Encoding, s: Atoms, v: nat)
    requires ValidEncoding(d) && Encodable(d, s) && v < |d.groups|
    ensures forall x: nat | x < |d.groups[v]| :: d.groups[v][x] in s <==> Enc(d, s)[v] == x
    ensures Enc(d, s)[v] <= |d.groups[v]|
  {
    assert d.groups[v] in d.groups;
    ValueNames(d.groups[v], s);
  }

  lemma TriggeredFires(d: Encoding, effects: seq<AtomEffect>, s: Atoms, v: nat)
    requires ValidEncoding(d) && EncodedEffects(d, effects) && v < |d.groups|
    ensures forall x: nat :: Fires(d, effects, s, v, x) <==> x < |d.groups[v]| && d.groups[v][x] in Triggered(effects, s)
  {
    forall x: nat
      ensures Fires(d, effects, s, v, x) <==> x < |d.groups[v]| && d.groups[v][x] in Triggered(effects, s)
    {
      if Fires(d, effects, s, v, x) {
        var ae :| ae in effects && LiteralsHold(ae.conditions, s) && ae.fact in d.dict && Fact(v, x) in d.dict[ae.fact];
        assert d.groups[v][x] == ae.fact;
      }
      if x < |d.groups[v]| && d.groups[v][x] in Triggered(effects, s) {
        var ae :| ae in effects && LiteralsHold(ae.conditions, s) && ae.fact == d.groups[v][x];
        assert Fact(v, x) in d.dict[ae.fact];
      }
    }
  }

  /** The table built from the add and the delete effects. */
  ghost predicate TableOf(d: Encoding, a: Action, eff: Effects, adds: Effects, dels: Effects, triggers: Triggers) {
    && Tabulates(d, a.adds, adds) && Collects(d, a.adds, triggers) && Tabulates(d, a.dels, dels)
    && DeletesAdded(d, adds, dels, triggers, dels.Keys, eff)
  }

  /** What the table says about one variable, in terms of atoms. */
  lemma TableMeans(d: Encoding, a: Action, eff: Effects, adds: Effects, dels: Effects, triggers: Triggers, s: Atoms, v: nat, x: nat)
    requires ValidEncoding(d) && EncodedAction(d, a) && Encodable(d, s) && v < |d.groups|
    requires TableOf(d, a, eff, adds, dels, triggers)
    ensures var group, e := d.groups[v], Enc(d, s);
            Says(eff, e, v, x) <==>
              (x < |group| && group[x] in Triggered(a.adds, s))
              || (x == |group| && e[v] < |group| && group[e[v]] in Triggered(a.dels, s)
                  && forall y: nat | y < |group| :: group[y] !in Triggered(a.adds, s))
  {
    var group, e := d.groups[v], Enc(d, s);
    TriggeredFires(d, a.adds, s, v);
    TriggeredFires(d, a.dels, s, v);
    assert Says(eff, e, v, x) <==> SaysOrEmptied(d, adds, dels, triggers, dels.Keys, s, v, x);
    assert Says(adds, e, v, x) <==> Fires(d, a.adds, s, v, x);
    assert Says(dels, e, v, e[v]) <==> Fires(d, a.dels, s, v, e[v]);
    assert FiresOn(d, a.adds, s, v) <==> exists y: nat | y < |group| :: group[y] in Triggered(a.adds, s);
  }

  /** The value of a variable after the action, in terms of atoms. */
  lemma ResultAt(d: Encoding, a: Action, s: Atoms, v: nat)
    requires ValidEncoding(d) && Encodable(d, s) && Encodable(d, Result(a, s)) && v < |d.groups|
    ensures var group, adds, x, x' := d.groups[v], Triggered(a.adds, s), Enc(d, s)[v], Enc(d, Result(a, s))[v];
            && (forall y: nat | y < |group| && group[y] in adds :: x' == y)
            && ((forall y: nat | y < |group| :: group[y] !in adds) ==>
                  x' == if x < |group| && group[x] in Triggered(a.dels, s) then |group| else x)
  {
    AtomAt(d, s, v);
    AtomAt(d, Result(a, s), v);
    var group, x, x' := d.groups[v], Enc(d, s)[v], Enc(d, Result(a, s))[v];
    assert x' < |group| ==> group[x'] in Result(a, s);
    assert x < |group| ==> group[x] in s;
  }

  /** Updating the encoded state as the table says gives the encoded result. */
  lemma TableUpdates(d: Encoding, a: Action, eff: Effects, adds: Effects, dels: Effects, triggers: Triggers, s: Atoms)
    requires ValidEncoding(d) && EncodedAction(d, a) && Steps(d, a, s) && TableOf(d, a, eff, adds, dels, triggers)
    requires ValidEffects(d.ranges, eff)
    ensures Functional(eff, Enc(d, s)) && IsUpdate(eff, Enc(d, s), Enc(d, Result(a, s)))
  {
    var e, e' := Enc(d, s), Enc(d, Result(a, s));
    forall v: nat, x: nat | Says(eff, e, v, x)
      ensures v < |e| && e'[v] == x
    {
      TableMeans(d, a, eff, adds, dels, triggers, s, v, x);
      ResultAt(d, a, s, v);
    }
    forall v: nat | v < |e| && forall x: nat :: !Says(eff, e, v, x)
      ensures e'[v] == e[v]
    {
      forall x: nat | x < |d.groups[v]|
        ensures d.groups[v][x] !in Triggered(a.adds, s)
      {
        TableMeans(d, a, eff, adds, dels, triggers, s, v, x);
      }
      TableMeans(d, a, eff, adds, dels, triggers, s, v, |d.groups[v]|);
      ResultAt(d, a, s, v);
    }
  }

  /** The operator made for one condition, or None where it changes nothing. */
  ghost predicate OperatorFor(d: Encoding, a: Action, c: Cond, r: Option<SasOperator>) {
    && (r.Some? ==> ValidOperator(d.ranges, r.value) && r.value.cost == a.cost
                    && forall e :: Applicable(r.value, e) <==> Satisfies(e, c))
    && forall s | Steps(d, a, s) && Satisfies(Enc(d, s), c) ::
         Enc(d, Result(a, s)) == if r.None? then Enc(d, s) else Successor(r.value, Enc(d, s))
  }

  lemma UpdateUnique(eff: Effects, e: State, e': State, e'': State)
    requires IsUpdate(eff, e, e') && IsUpdate(eff, e, e'')
    ensures e' == e''
  {
    forall v: nat | v < |e|
      ensures e'[v] == e''[v]
    {
      if x: nat :| Says(eff, e, v, x) {
        assert e'[v] == x;
      }
    }
  }

  /** translate_strips_operator_aux */
  method TranslateForCondition(a: Action, d: Encoding, c: Cond) returns (r: Option<SasOperator>)
    requires ValidEncoding(d) && EncodedAction(d, a) && ValidCond(d.ranges, c)
    ensures OperatorFor(d, a, c, r)
  {
    var adds, triggers := CollectEffects(d, a.adds);
    var dels, _ := CollectEffects(d, a.dels);
    var eff := AddDeletes(d, adds, dels, triggers);
    r := Build(c, eff, d.ranges, a.cost);
    forall s | Steps(d, a, s) && Satisfies(Enc(d, s), c)
      ensures Enc(d, Result(a, s)) == if r.None? then Enc(d, s) else Successor(r.value, Enc(d, s))
    {
      EncodedValid(d.groups, d.dict, d.ranges, s);
      TableUpdates(d, a, eff, adds, dels, triggers, s);
      UpdateUnique(eff, Enc(d, s), Enc(d, Result(a, s)), if r.None? then Enc(d, s) else Successor(r.value, Enc(d, s)));
    }
  }

  ghost predicate SomeApplies(ops: seq<SasOperator>, e: State) {
    exists op | op in ops :: Applicable(op, e)
  }

  /** The operators for the first conditions. */
  ghost predicate Made(d: Encoding, a: Action, conds: seq<Cond>, n: nat, ops: seq<SasOperator>)
    requires n <= |conds|
  {
    && (forall op | op in ops :: ValidOperator(d.ranges, op) && op.cost == a.cost)
    && (forall e, op | op in ops && Applicable(op, e) :: SomeHolds(conds[..n], e))
    && (forall s, op | op in ops && Steps(d, a, s) && Applicable(op, Enc(d, s)) :: Successor(op, Enc(d, s)) == Enc(d, Result(a, s)))
    && (forall s | Steps(d, a, s) && SomeHolds(conds[..n], Enc(d, s)) ::
          SomeApplies(ops, Enc(d, s)) || Enc(d, Result(a, s)) == Enc(d, s))
    && (forall i, j, e | 0 <= i < j < |ops| :: !(Applicable(ops[i], e) && Applicable(ops[j], e)))
    && (forall op, j, e | op in ops && n <= j < |conds| :: !(Applicable(op, e) && Satisfies(e, conds[j])))
  }

  lemma MadeNext(d: Encoding, a: Action, conds: seq<Cond>, n: nat, ops: seq<SasOperator>, r: Option<SasOperator>, c: nat)
    requires n < |conds| && c == n + 1 && Exclusive(conds)
    requires Made(d, a, conds, n, ops) && OperatorFor(d, a, conds[n], r)
    ensures Made(d, a, conds, c, if r.None? then ops else ops + [r.value])
  {
    var ops' := if r.None? then ops else ops + [r.value];
    assert conds[..c] == conds[..n] + [conds[n]];
    forall e
      ensures SomeHolds(conds[..c], e) <==> SomeHolds(conds[..n], e) || Satisfies(e, conds[n])
      ensures SomeApplies(ops', e) <==> SomeApplies(ops, e) || (r.Some? && Satisfies(e, conds[n]))
    {
      SomeHoldsEither(conds[..n], [conds[n]], e);
      SomeHoldsOne(conds[n], e);
      if SomeApplies(ops, e) {
        var op :| op in ops && Applicable(op, e);
        assert op in ops';
      }
      assert r.Some? ==> r.value in ops';
    }
    forall j, e | c <= j < |conds|
      ensures !(Satisfies(e, conds[n]) && Satisfies(e, conds[j]))
    {
      ExclusiveHold(conds[n], conds[j], e);
    }
  }

  lemma ExclusiveHold(c: Cond, c': Cond, e: State)
    requires Disagree(c, c')
    ensures !(Satisfies(e, c) && Satisfies(e, c'))
  {
    var v: nat :| v in c && v in c' && c[v] != c'[v];
    assert Satisfies(e, c) ==> Holds(e, Fact(v, c[v]));
    assert Satisfies(e, c') ==> Holds(e, Fact(v, c'[v]));
  }

  /** Where the action can happen one operator applies and leads to the encoded result, unless
      the action leaves the encoded state as it is; where it cannot, no operator applies. */
  ghost predicate Commutes(d: Encoding, a: Action, ops: seq<SasOperator>) {
    && (forall op | op in ops :: ValidOperator(d.ranges, op) && op.cost == a.cost)
    && (forall s, op | Encodable(d, s) && op in ops && Applicable(op, Enc(d, s)) :: LiteralsHold(a.precondition, s))
    && (forall s, op | Steps(d, a, s) && op in ops && Applicable(op, Enc(d, s)) :: Successor(op, Enc(d, s)) == Enc(d, Result(a, s)))
    && (forall s | Steps(d, a, s) :: SomeApplies(ops, Enc(d, s)) || Enc(d, Result(a, s)) == Enc(d, s))
    && (forall i, j, e | 0 <= i < j < |ops| :: !(Applicable(ops[i], e) && Applicable(ops[j], e)))
  }

  /** translate_strips_operator */
  method TranslateOperator(a: Action, d: Encoding) returns (ops: seq<SasOperator>)
    requires ValidEncoding(d) && EncodedAction(d, a)
    ensures Commutes(d, a, ops) && (Refuted(d, a.precondition) ==> ops == [])
  {
    ops := [];
    var conditions := TranslateConditions(a.precondition, d);
    if conditions.None? {
      NothingCommutes(d, a);
      return;
    }
    ops := OperatorsFor(a, d, conditions.value);
    AllMade(d, a, conditions.value, ops);
  }

  method OperatorsFor(a: Action, d: Encoding, conds: seq<Cond>) returns (ops: seq<SasOperator>)
    requires ValidEncoding(d) && EncodedAction(d, a) && Exclusive(conds) && forall c | c in conds :: ValidCond(d.ranges, c)
    ensures Made(d, a, conds, |conds|, ops)
  {
    ops := [];
    for i := 0 to |conds|
      invariant Made(d, a, conds, i, ops)
    {
      var op := TranslateForCondition(a, d, conds[i]);
      MadeNext(d, a, conds, i, ops, op, i + 1);
      if op.Some? {
        ops := ops + [op.value];
      }
    }
  }

  lemma NothingCommutes(d: Encoding, a: Action)
    requires forall s | Encodable(d, s) :: !LiteralsHold(a.precondition, s)
    ensures Commutes(d, a, [])
  {
  }

  lemma AllMade(d: Encoding, a: Action, conds: seq<Cond>, ops: seq<SasOperator>)
    requires ValidEncoding(d) && EncodedAction(d, a) && Made(d, a, conds, |conds|, ops)
    requires forall s | Encodable(d, s) :: HoldEncoded(d.dict, a.precondition, s) <==> SomeHolds(conds, Enc(d, s))
    ensures Commutes(d, a, ops)
  {
    assert conds[..|conds|] == conds;
    forall s | Encodable(d, s)
      ensures LiteralsHold(a.precondition, s) <==> SomeHolds(conds, Enc(d, s))
    {
      EncodedHold(d, a.precondition, s);
    }
  }
}
