/** Translation of grounded actions into operators over encoded states (translate.py:160-274). */
module Translation {
  import opened Sas
  import opened Strips
  import opened Conditions
  import opened Collections

  /** The chosen groups define the variables; the mutex groups only refute conditions. */
  datatype Encoding = Encoding(groups: seq<seq<Atom>>, dict: Dictionary, ranges: seq<nat>,
                               mutexGroups: seq<seq<Atom>>, mutexDict: Dictionary, mutexRanges: seq<nat>)

  ghost predicate ValidEncoding(d: Encoding) {
    ValidDictionary(d.groups, d.dict, d.ranges) && ValidDictionary(d.mutexGroups, d.mutexDict, d.mutexRanges)
  }

  /** At most one atom of every group and of every mutex group is true. */
  ghost predicate Encodable(d: Encoding, s: Atoms) {
    Respects(d.groups, s) && Respects(d.mutexGroups, s)
  }

  function Enc(d: Encoding, s: Atoms): State {
    Encode(d.groups, s)
  }

  ghost predicate Encoded(d: Encoding, ls: seq<Literal>) {
    forall l | l in ls :: l.atom in d.dict
  }

  /** The literals contradict a group that makes a variable or a mutex group. */
  ghost predicate Refuted(d: Encoding, ls: seq<Literal>) {
    Contradicts(d.groups, ls) || Contradicts(d.mutexGroups, ls)
  }

  /** Two atoms of a mutex group that are encoded by different variables. */
  lemma OnlyMutexRefutes(p: Atom, q: Atom, d: Encoding)
    requires p != q && d.groups == [[p], [q]] && d.mutexGroups == [[p, q]]
    ensures var ls := [Literal(p, false), Literal(q, false)];
            Refuted(d, ls) && !Contradicts(d.groups, ls)
  {
    var ls := [Literal(p, false), Literal(q, false)];
    assert ls[0] in ls && ls[1] in ls && d.mutexGroups[0] in d.mutexGroups;
    assert [p, q][0] == p && [p, q][1] == q && GroupContradicts([p, q], ls);
  }

  /** translate_strips_conditions: None exactly if the literals contradict a group. */
  method TranslateConditions(conditions: seq<Literal>, d: Encoding) returns (r: Option<seq<Cond>>)
    requires ValidEncoding(d)
    ensures r.None? <==> Refuted(d, conditions)
    ensures r.Some? ==> (map[] in r.value <==> NoPlaces(d.dict, conditions))
    ensures r.None? ==> forall s | Encodable(d, s) :: !LiteralsHold(conditions, s)
    ensures r.Some? ==> Exclusive(r.value) && forall c | c in r.value :: ValidCond(d.ranges, c)
    ensures r.Some? ==> forall s | Encodable(d, s) :: HoldEncoded(d.dict, conditions, s) <==> SomeHolds(r.value, Enc(d, s))
    ensures r.Some? && NothingNegated(d.dict, conditions) ==> |r.value| == 1
    ensures r.Some? && FewPlaces(d.dict, conditions) ==> (|r.value| == 1 <==> !KeepsTwo(d.dict, d.ranges, conditions))
  {
    if conditions == [] {
      var c: Cond := map[];
      forall e
        ensures SomeHolds([c], e)
      {
        assert c in [c] && Satisfies(e, c);
      }
      return Some([c]);
    }
    var refuted := TranslateAux(conditions, d.mutexGroups, d.mutexDict, d.mutexRanges);
    if refuted.None? {
      return None;
    }
    r := TranslateAux(conditions, d.groups, d.dict, d.ranges);
  }

  // ---- negated disjunctions ----

  ghost predicate SomeConjunction(condition: seq<seq<Literal>>, s: Atoms) {
    exists ls | ls in condition :: LiteralsHold(ls, s)
  }

  function Negated(ls: seq<Literal>): (r: seq<Literal>)
    ensures |r| == |ls| && forall i | 0 <= i < |ls| :: r[i] == Negate(ls[i])
  {
    seq(|ls|, i requires 0 <= i < |ls| => Negate(ls[i]))
  }

  /** No literal of the list holds. */
  ghost predicate AllFalse(ls: seq<Literal>, s: Atoms) {
    forall i | 0 <= i < |ls| :: !LiteralHolds(ls[i], s)
  }

  lemma NegatedHold(ls: seq<Literal>, s: Atoms)
    ensures LiteralsHold(Negated(ls), s) <==> AllFalse(ls, s)
  {
    forall i | 0 <= i < |ls|
      ensures LiteralHolds(Negated(ls)[i], s) <==> !LiteralHolds(ls[i], s)
    {
    }
    if LiteralsHold(Negated(ls), s) {
      forall i | 0 <= i < |ls|
        ensures !LiteralHolds(ls[i], s)
      {
        assert Negated(ls)[i] in Negated(ls);
      }
    }
  }

  /** No conjunction holds iff some choice of one literal from each is false throughout. */
  lemma {:induction false} ProductRefutes(condition: seq<seq<Literal>>, s: Atoms)
    ensures !SomeConjunction(condition, s) <==> exists x | x in Product(condition) :: AllFalse(x, s)
  {
    if condition == [] {
      assert [] in Product(condition) && AllFalse([], s);
    } else {
      var head, rest := condition[0], condition[1..];
      ProductRefutes(rest, s);
      assert condition == [head] + rest;
      if !SomeConjunction(condition, s) {
        assert !LiteralsHold(head, s) by { assert head in condition; }
        var l :| l in head && !LiteralHolds(l, s);
        assert !SomeConjunction(rest, s);
        var y :| y in Product(rest) && AllFalse(y, s);
        var x := [l] + y;
        assert x[1..] == y;
        InPrefixed(head, Product(rest), x);
        assert x in Product(condition) && AllFalse(x, s);
      }
      if x :| x in Product(condition) && AllFalse(x, s) {
        InPrefixed(head, Product(rest), x);
        assert AllFalse(x[1..], s) && !LiteralHolds(x[0], s);
        assert !LiteralsHold(head, s) && !SomeConjunction(rest, s);
      }
    }
  }

  lemma {:induction false} ProductEncoded(d: Encoding, condition: seq<seq<Literal>>, x: seq<Literal>)
    requires (forall ls | ls in condition :: Encoded(d, ls)) && x in Product(condition)
    ensures Encoded(d, Negated(x))
  {
    if condition != [] {
      InPrefixed(condition[0], Product(condition[1..]), x);
      assert condition[0] in condition;
      ProductEncoded(d, condition[1..], x[1..]);
      forall l | l in Negated(x)
        ensures l.atom in d.dict
      {
        var i :| 0 <= i < |x| && Negated(x)[i] == l;
        assert i > 0 ==> Negated(x[1..])[i - 1] == l;
      }
    }
  }

  lemma EncodedHold(d: Encoding, ls: seq<Literal>, s: Atoms)
    requires Encoded(d, ls)
    ensures HoldEncoded(d.dict, ls, s) <==> LiteralsHold(ls, s)
  {
  }

  /** negate_and_translate_condition */
  method NegateAndTranslate(condition: seq<seq<Literal>>, d: Encoding) returns (r: Option<seq<Cond>>)
    requires ValidEncoding(d) && forall ls | ls in condition :: Encoded(d, ls)
    ensures r.None? ==> forall s | Encodable(d, s) :: SomeConjunction(condition, s)
    ensures r.Some? ==> forall c | c in r.value :: ValidCond(d.ranges, c)
    ensures r.Some? ==> forall s | Encodable(d, s) :: !SomeConjunction(condition, s) <==> SomeHolds(r.value, Enc(d, s))
  {
    if [] in condition {
      var none: seq<Literal> := [];
      forall s
        ensures SomeConjunction(condition, s)
      {
        assert none in condition && LiteralsHold(none, s);
      }
      return None;
    }
    var combinations := Product(condition);
    var negation: seq<Cond> := [];
    for i := 0 to |combinations|
      invariant forall c | c in negation :: ValidCond(d.ranges, c)
      invariant forall s | Encodable(d, s) ::
                  SomeHolds(negation, Enc(d, s)) <==> exists j | 0 <= j < i :: AllFalse(combinations[j], s)
    {
      ProductEncoded(d, condition, combinations[i]);
      var cond := TranslateConditions(Negated(combinations[i]), d);
      ghost var before := negation;
      if cond.Some? {
        negation := negation + cond.value;
      }
      forall s | Encodable(d, s)
        ensures SomeHolds(negation, Enc(d, s)) <==> SomeHolds(before, Enc(d, s)) || AllFalse(combinations[i], s)
      {
        NegatedHold(combinations[i], s);
        EncodedHold(d, Negated(combinations[i]), s);
        if cond.Some? {
          SomeHoldsEither(before, cond.value, Enc(d, s));
        }
      }
    }
    forall s | Encodable(d, s)
      ensures !SomeConjunction(condition, s) <==> SomeHolds(negation, Enc(d, s))
    {
      ProductRefutes(condition, s);
    }
    r := if negation == [] then None else Some(negation);
  }

  lemma SomeHoldsEither(a: seq<Cond>, b: seq<Cond>, e: State)
    ensures SomeHolds(a + b, e) <==> SomeHolds(a, e) || SomeHolds(b, e)
  {
    if SomeHolds(a, e) {
      var c :| c in a && Satisfies(e, c);
      assert c in a + b;
    }
    if SomeHolds(b, e) {
      var c :| c in b && Satisfies(e, c);
      assert c in a + b;
    }
  }

  // ---- effects by variable and value ----

  /** For each variable and each value the conditions under which the variable gets the value. */
  type Effects = map<nat, map<nat, seq<Cond>>>

  ghost predicate Says(eff: Effects, e: State, v: nat, x: nat) {
    v in eff && x in eff[v] && SomeHolds(eff[v][x], e)
  }

  ghost predicate ValidEffects(ranges: seq<nat>, eff: Effects) {
    && (forall v | v in eff :: v < |ranges|)
    && (forall v, x | v in eff && x in eff[v] :: x < ranges[v] && forall c | c in eff[v][x] :: ValidCond(ranges, c))
  }

  function CondsAt(eff: Effects, f: Fact): seq<Cond> {
    if f.v in eff && f.x in eff[f.v] then eff[f.v][f.x] else []
  }

  /** effects_by_variable[var][val].extend(more) */
  function Extended(eff: Effects, f: Fact, more: seq<Cond>): Effects {
    var inner: map<nat, seq<Cond>> := if f.v in eff then eff[f.v] else map[];
    eff[f.v := inner[f.x := CondsAt(eff, f) + more]]
  }

  lemma ExtendedSays(ranges: seq<nat>, eff: Effects, f: Fact, more: seq<Cond>)
    requires ValidEffects(ranges, eff) && ValidFact(ranges, f) && forall c | c in more :: ValidCond(ranges, c)
    ensures ValidEffects(ranges, Extended(eff, f, more))
    ensures forall e, v, x :: Says(Extended(eff, f, more), e, v, x) <==>
              Says(eff, e, v, x) || (f == Fact(v, x) && SomeHolds(more, e))
  {
    forall e, v: nat, x: nat
      ensures Says(Extended(eff, f, more), e, v, x) <==> Says(eff, e, v, x) || (f == Fact(v, x) && SomeHolds(more, e))
    {
      SomeHoldsEither(CondsAt(eff, f), more, e);
    }
  }

  /** Some effect gives the variable the value in `s`. */
  ghost predicate Fires(d: Encoding, effects: seq<AtomEffect>, s: Atoms, v: nat, x: nat) {
    exists ae | ae in effects :: LiteralsHold(ae.conditions, s) && ae.fact in d.dict && Fact(v, x) in d.dict[ae.fact]
  }

  ghost predicate EncodedEffects(d: Encoding, effects: seq<AtomEffect>) {
    forall ae | ae in effects :: ae.fact in d.dict && Encoded(d, ae.conditions)
  }

  /** The table tells for encodable states which effects fire. */
  ghost predicate Tabulates(d: Encoding, effects: seq<AtomEffect>, eff: Effects) {
    forall s, v, x | Encodable(d, s) :: Says(eff, Enc(d, s), v, x) <==> Fires(d, effects, s, v, x)
  }

  type Triggers = map<nat, seq<seq<Literal>>>

  function TriggersOf(triggers: Triggers, v: nat): seq<seq<Literal>> {
    if v in triggers then triggers[v] else []
  }

  /** The conditions collected for a variable tell whether some effect on it fires. */
  ghost predicate Collects(d: Encoding, effects: seq<AtomEffect>, triggers: Triggers) {
    && (forall v: nat, ls | ls in TriggersOf(triggers, v) :: Encoded(d, ls))
    && (forall s, v: nat | Encodable(d, s) :: SomeConjunction(TriggersOf(triggers, v), s) <==> FiresOn(d, effects, s, v))
  }

  ghost predicate FiresOn(d: Encoding, effects: seq<AtomEffect>, s: Atoms, v: nat) {
    exists x: nat :: Fires(d, effects, s, v, x)
  }

  lemma FiresEither(d: Encoding, effects: seq<AtomEffect>, ae: AtomEffect)
    requires ae.fact in d.dict
    ensures forall s, v, x :: Fires(d, effects + [ae], s, v, x) <==>
              Fires(d, effects, s, v, x) || (LiteralsHold(ae.conditions, s) && Fact(v, x) in d.dict[ae.fact])
  {
    forall s, v: nat, x: nat
      ensures Fires(d, effects + [ae], s, v, x) <==>
              Fires(d, effects, s, v, x) || (LiteralsHold(ae.conditions, s) && Fact(v, x) in d.dict[ae.fact])
    {
      assert ae in effects + [ae];
      if Fires(d, effects, s, v, x) {
        var b :| b in effects && LiteralsHold(b.conditions, s) && b.fact in d.dict && Fact(v, x) in d.dict[b.fact];
        assert b in effects + [ae];
      }
    }
  }

  predicate OnVariable(places: seq<Fact>, v: nat) {
    exists f | f in places :: f.v == v
  }

  lemma TriggerAdded(triggers: Triggers, places: seq<Fact>, f: Fact, ls: seq<Literal>)
    ensures forall v: nat, x :: x in TriggersOf(triggers[f.v := TriggersOf(triggers, f.v) + [ls]], v) <==>
              x in TriggersOf(triggers, v) || (x == ls && f.v == v)
    ensures forall v :: OnVariable(places + [f], v) <==> OnVariable(places, v) || f.v == v
  {
    assert f in places + [f];
    var after := triggers[f.v := TriggersOf(triggers, f.v) + [ls]];
    forall v: nat, x
      ensures x in TriggersOf(after, v) <==> x in TriggersOf(triggers, v) || (x == ls && f.v == v)
    {
      assert v == f.v ==> TriggersOf(after, v) == TriggersOf(triggers, v) + [ls];
    }
    forall v | OnVariable(places, v)
      ensures OnVariable(places + [f], v)
    {
      var g :| g in places && g.v == v;
      assert g in places + [f];
    }
  }

  /** Enter one effect at all places of its atom (translate.py:226-228). */
  method Enter(d: Encoding, eff0: Effects, triggers0: Triggers, ae: AtomEffect, conds: seq<Cond>)
    returns (eff: Effects, triggers: Triggers)
    requires ValidEncoding(d) && ae.fact in d.dict && ValidEffects(d.ranges, eff0)
    requires forall c | c in conds :: ValidCond(d.ranges, c)
    ensures ValidEffects(d.ranges, eff)
    ensures forall e, v, x :: Says(eff, e, v, x) <==> Says(eff0, e, v, x) || (Fact(v, x) in d.dict[ae.fact] && SomeHolds(conds, e))
    ensures forall v, ls :: ls in TriggersOf(triggers, v) <==>
              ls in TriggersOf(triggers0, v) || (ls == ae.conditions && OnVariable(d.dict[ae.fact], v))
  {
    var places := d.dict[ae.fact];
    eff, triggers := eff0, triggers0;
    for i := 0 to |places|
      invariant ValidEffects(d.ranges, eff)
      invariant forall e, v, x :: Says(eff, e, v, x) <==> Says(eff0, e, v, x) || (Fact(v, x) in places[..i] && SomeHolds(conds, e))
      invariant forall v, ls :: ls in TriggersOf(triggers, v) <==>
                  ls in TriggersOf(triggers0, v) || (ls == ae.conditions && OnVariable(places[..i], v))
    {
      var f := places[i];
      assert places[..i + 1] == places[..i] + [f] && f in places;
      ExtendedSays(d.ranges, eff, f, conds);
      eff := Extended(eff, f, conds);
      TriggerAdded(triggers, places[..i], f, ae.conditions);
      ghost var before := triggers;
      triggers := triggers[f.v := TriggersOf(triggers, f.v) + [ae.conditions]];
      forall v: nat, ls
        ensures ls in TriggersOf(triggers, v) <==>
                ls in TriggersOf(triggers0, v) || (ls == ae.conditions && OnVariable(places[..i + 1], v))
      {
        assert ls in TriggersOf(triggers, v) <==> ls in TriggersOf(before, v) || (ls == ae.conditions && f.v == v);
        assert OnVariable(places[..i + 1], v) <==> OnVariable(places[..i], v) || f.v == v;
      }
    }
    assert places[..|places|] == places;
  }

  /** The loops over the add and the delete effects (translate.py:216-240); the conditions are
      used for add effects only. */
  method CollectEffects(d: Encoding, effects: seq<AtomEffect>) returns (eff: Effects, triggers: Triggers)
    requires ValidEncoding(d) && EncodedEffects(d, effects)
    ensures ValidEffects(d.ranges, eff) && Tabulates(d, effects, eff) && Collects(d, effects, triggers)
  {
    eff, triggers := map[], map[];
    for i := 0 to |effects|
      invariant ValidEffects(d.ranges, eff)
      invariant Tabulates(d, effects[..i], eff) && Collects(d, effects[..i], triggers)
    {
      var ae := effects[i];
      assert effects[..i + 1] == effects[..i] + [ae] && ae in effects;
      var conds := TranslateConditions(ae.conditions, d);
      ghost var eff0, triggers0 := eff, triggers;
      if conds.Some? {
        eff, triggers := Enter(d, eff, triggers, ae, conds.value);
        Entered(d, effects[..i], ae, conds.value, eff0, triggers0, eff, triggers);
      } else {
        ImpossibleEffect(d, effects[..i], ae, eff, triggers);
      }
    }
    assert effects[..|effects|] == effects;
  }

  lemma Entered(d: Encoding, effects: seq<AtomEffect>, ae: AtomEffect, conds: seq<Cond>, eff0: Effects, triggers0: Triggers,
                eff: Effects, triggers: Triggers)
    requires ValidEncoding(d) && ae.fact in d.dict && Encoded(d, ae.conditions)
    requires Tabulates(d, effects, eff0) && Collects(d, effects, triggers0)
    requires forall s | Encodable(d, s) :: HoldEncoded(d.dict, ae.conditions, s) <==> SomeHolds(conds, Enc(d, s))
    requires forall e, v, x :: Says(eff, e, v, x) <==> Says(eff0, e, v, x) || (Fact(v, x) in d.dict[ae.fact] && SomeHolds(conds, e))
    requires forall v, ls :: ls in TriggersOf(triggers, v) <==>
               ls in TriggersOf(triggers0, v) || (ls == ae.conditions && OnVariable(d.dict[ae.fact], v))
    ensures Tabulates(d, effects + [ae], eff) && Collects(d, effects + [ae], triggers)
  {
    FiresEither(d, effects, ae);
    forall s, v: nat, x: nat | Encodable(d, s)
      ensures Says(eff, Enc(d, s), v, x) <==> Fires(d, effects + [ae], s, v, x)
    {
      EncodedHold(d, ae.conditions, s);
    }
    forall s, v: nat | Encodable(d, s)
      ensures SomeConjunction(TriggersOf(triggers, v), s) <==> FiresOn(d, effects + [ae], s, v)
    {
      TriggersEntered(d, effects, ae, triggers0, triggers, s, v);
    }
  }

  lemma TriggersEntered(d: Encoding, effects: seq<AtomEffect>, ae: AtomEffect, triggers0: Triggers, triggers: Triggers, s: Atoms, v: nat)
    requires ae.fact in d.dict
    requires SomeConjunction(TriggersOf(triggers0, v), s) <==> FiresOn(d, effects, s, v)
    requires forall ls :: ls in TriggersOf(triggers, v) <==>
               ls in TriggersOf(triggers0, v) || (ls == ae.conditions && OnVariable(d.dict[ae.fact], v))
    ensures SomeConjunction(TriggersOf(triggers, v), s) <==> FiresOn(d, effects + [ae], s, v)
  {
    FiresEither(d, effects, ae);
    if SomeConjunction(TriggersOf(triggers, v), s) && !FiresOn(d, effects, s, v) {
      var ls :| ls in TriggersOf(triggers, v) && LiteralsHold(ls, s);
      var f :| f in d.dict[ae.fact] && f.v == v;
      assert f == Fact(v, f.x);
      assert Fires(d, effects + [ae], s, v, f.x);
    }
    if FiresOn(d, effects, s, v) {
      var x: nat :| Fires(d, effects, s, v, x);
      assert Fires(d, effects + [ae], s, v, x);
      var ls :| ls in TriggersOf(triggers0, v) && LiteralsHold(ls, s);
      assert ls in TriggersOf(triggers, v);
    } else if FiresOn(d, effects + [ae], s, v) {
      var x: nat :| Fires(d, effects + [ae], s, v, x);
      assert Fact(v, x) in d.dict[ae.fact] && LiteralsHold(ae.conditions, s);
      assert ae.conditions in TriggersOf(triggers, v);
    }
  }

  lemma ImpossibleEffect(d: Encoding, effects: seq<AtomEffect>, ae: AtomEffect, eff: Effects, triggers: Triggers)
    requires ae.fact in d.dict && forall s | Encodable(d, s) :: !LiteralsHold(ae.conditions, s)
    requires Tabulates(d, effects, eff) && Collects(d, effects, triggers)
    ensures Tabulates(d, effects + [ae], eff) && Collects(d, effects + [ae], triggers)
  {
    FiresEither(d, effects, ae);
    forall s, v: nat | Encodable(d, s)
      ensures FiresOn(d, effects + [ae], s, v) <==> FiresOn(d, effects, s, v)
    {
      if x: nat :| Fires(d, effects + [ae], s, v, x) {
        assert Fires(d, effects, s, v, x);
      }
      if x: nat :| Fires(d, effects, s, v, x) {
        assert Fires(d, effects + [ae], s, v, x);
      }
    }
  }

  // ---- delete effects ----

  /** Two conditions as one; None when they disagree (translate.py:250-274). */
  method Merge(c: Cond, more: Cond) returns (r: Option<Cond>)
    ensures r.None? ==> forall e :: !(Satisfies(e, c) && Satisfies(e, more))
    ensures r.Some? ==> forall e :: Satisfies(e, r.value) <==> Satisfies(e, c) && Satisfies(e, more)
    ensures r.Some? ==> forall v | v in r.value :: (v in c && r.value[v] == c[v]) || (v in more && r.value[v] == more[v])
  {
    var rest, merged := more.Keys, c;
    while rest != {}
      invariant rest <= more.Keys
      invariant forall v :: v in merged <==> v in c || v in more.Keys - rest
      invariant forall v | v in c :: merged[v] == c[v]
      invariant forall v | v in more.Keys - rest :: merged[v] == more[v]
      decreases rest
    {
      var v :| v in rest;
      if v in merged && merged[v] != more[v] {
        return None;
      }
      merged := merged[v := more[v]];
      rest := rest - {v};
    }
    return Some(merged);
  }

  /** Conditions for deleting the value of `f`: it is the current value, a delete condition holds
      and no add effect on the variable fires (translate.py:251-276). */
  method Guarded(ranges: seq<nat>, conds: seq<Cond>, f: Fact, noAdd: seq<Cond>) returns (r: seq<Cond>)
    requires ValidFact(ranges, f)
    requires (forall c | c in conds :: ValidCond(ranges, c)) && forall c | c in noAdd :: ValidCond(ranges, c)
    ensures forall c | c in r :: ValidCond(ranges, c)
    ensures forall e :: SomeHolds(r, e) <==> Holds(e, f) && SomeHolds(conds, e) && SomeHolds(noAdd, e)
  {
    r := [];
    for i := 0 to |conds|
      invariant forall c | c in r :: ValidCond(ranges, c)
      invariant forall e :: SomeHolds(r, e) <==> Holds(e, f) && SomeHolds(conds[..i], e) && SomeHolds(noAdd, e)
    {
      var c := conds[i];
      assert conds[..i + 1] == conds[..i] + [c] && c in conds;
      ghost var before := r;
      var more: seq<Cond> := [];
      if !(f.v in c && c[f.v] != f.x) {
        more := WithEach(ranges, c[f.v := f.x], noAdd);
        r := r + more;
      }
      forall e
        ensures SomeHolds(r, e) <==> SomeHolds(before, e) || (Holds(e, f) && Satisfies(e, c) && SomeHolds(noAdd, e))
        ensures SomeHolds(conds[..i + 1], e) <==> SomeHolds(conds[..i], e) || Satisfies(e, c)
      {
        GuardAdded(c, f, e);
        SomeHoldsEither(before, more, e);
        SomeHoldsEither(conds[..i], [c], e);
        SomeHoldsOne(c, e);
      }
    }
    assert conds[..|conds|] == conds;
  }

  lemma SomeHoldsOne(c: Cond, e: State)
    ensures SomeHolds([c], e) <==> Satisfies(e, c)
  {
    assert c in [c];
  }

  lemma GuardAdded(c: Cond, f: Fact, e: State)
    ensures f.v in c && c[f.v] != f.x ==> !(Holds(e, f) && Satisfies(e, c))
    ensures !(f.v in c && c[f.v] != f.x) ==> (Satisfies(e, c[f.v := f.x]) <==> Holds(e, f) && Satisfies(e, c))
  {
    var c' := c[f.v := f.x];
    assert f == Fact(f.v, f.x);
    if Satisfies(e, c') && (f.v in c ==> c[f.v] == f.x) {
      assert f.v in c' && Holds(e, Fact(f.v, c'[f.v]));
      assert forall v | v in c :: v in c' && c'[v] == c[v];
    }
  }

  method WithEach(ranges: seq<nat>, c: Cond, noAdd: seq<Cond>) returns (r: seq<Cond>)
    requires ValidCond(ranges, c) && forall x | x in noAdd :: ValidCond(ranges, x)
    ensures forall x | x in r :: ValidCond(ranges, x)
    ensures forall e :: SomeHolds(r, e) <==> Satisfies(e, c) && SomeHolds(noAdd, e)
  {
    r := [];
    for i := 0 to |noAdd|
      invariant forall x | x in r :: ValidCond(ranges, x)
      invariant forall e :: SomeHolds(r, e) <==> Satisfies(e, c) && SomeHolds(noAdd[..i], e)
    {
      var x := noAdd[i];
      assert noAdd[..i + 1] == noAdd[..i] + [x] && x in noAdd;
      var merged := Merge(c, x);
      ghost var before := r;
      var more := if merged.Some? then [merged.value] else [];
      r := r + more;
      forall e
        ensures SomeHolds(r, e) <==> SomeHolds(before, e) || (Satisfies(e, c) && Satisfies(e, x))
        ensures SomeHolds(noAdd[..i + 1], e) <==> SomeHolds(noAdd[..i], e) || Satisfies(e, x)
      {
        SomeHoldsEither(before, more, e);
        SomeHoldsEither(noAdd[..i], [x], e);
        SomeHoldsOne(x, e);
        if merged.Some? {
          SomeHoldsOne(merged.value, e);
        }
      }
    }
    assert noAdd[..|noAdd|] == noAdd;
  }

  /** A delete condition of the current value holds. */
  ghost predicate Loses(byValue: map<nat, seq<Cond>>, done: set<nat>, e: State, v: nat) {
    v < |e| && e[v] in byValue && e[v] in done && SomeHolds(byValue[e[v]], e)
  }

  ghost predicate SaysOrLoses(eff: Effects, ranges: seq<nat>, byValue: map<nat, seq<Cond>>, noAdd: seq<Cond>, done: set<nat>,
                              e: State, at: nat, v: nat, x: nat) {
    Says(eff, e, v, x)
    || (v == at && v < |ranges| && x + 1 == ranges[v] && SomeHolds(noAdd, e) && Loses(byValue, done, e, v))
  }

  /** The delete effects on one variable (translate.py:250-276). */
  method DeleteOn(ranges: seq<nat>, eff0: Effects, v: nat, byValue: map<nat, seq<Cond>>, noAdd: seq<Cond>) returns (eff: Effects)
    requires ValidEffects(ranges, eff0) && v < |ranges| && ranges[v] > 0 && forall c | c in noAdd :: ValidCond(ranges, c)
    requires forall x | x in byValue :: x < ranges[v] && forall c | c in byValue[x] :: ValidCond(ranges, c)
    ensures ValidEffects(ranges, eff)
    ensures forall e, u, x :: Says(eff, e, u, x) <==> SaysOrLoses(eff0, ranges, byValue, noAdd, byValue.Keys, e, v, u, x)
  {
    eff := eff0;
    var rest, noneOfThose := byValue.Keys, Fact(v, ranges[v] - 1);
    while rest != {}
      invariant rest <= byValue.Keys && ValidEffects(ranges, eff)
      invariant forall e, u, x :: Says(eff, e, u, x) <==> SaysOrLoses(eff0, ranges, byValue, noAdd, byValue.Keys - rest, e, v, u, x)
      decreases rest
    {
      var val :| val in rest;
      var more := Guarded(ranges, byValue[val], Fact(v, val), noAdd);
      rest := rest - {val};
      if more != [] {
        ExtendedSays(ranges, eff, noneOfThose, more);
        eff := Extended(eff, noneOfThose, more);
      }
      assert forall e :: SomeHolds(more, e) <==> Holds(e, Fact(v, val)) && SomeHolds(byValue[val], e) && SomeHolds(noAdd, e);
    }
  }

  /** The variable loses its value: a delete effect on the current value fires and no add effect. */
  ghost predicate Emptied(d: Encoding, dels: Effects, triggers: Triggers, s: Atoms, v: nat) {
    v in dels && Loses(dels[v], dels[v].Keys, Enc(d, s), v) && !SomeConjunction(TriggersOf(triggers, v), s)
  }

  /** The table `eff` is `eff0` with the deletes on the variables `done`. */
  ghost predicate DeletesAdded(d: Encoding, eff0: Effects, dels: Effects, triggers: Triggers, done: set<nat>, eff: Effects) {
    forall s, v: nat, x: nat | Encodable(d, s) ::
      Says(eff, Enc(d, s), v, x) <==> SaysOrEmptied(d, eff0, dels, triggers, done, s, v, x)
  }

  ghost predicate SaysOrEmptied(d: Encoding, eff0: Effects, dels: Effects, triggers: Triggers, done: set<nat>, s: Atoms, v: nat, x: nat) {
    Says(eff0, Enc(d, s), v, x)
    || (v < |d.ranges| && x + 1 == d.ranges[v] && v in done && Emptied(d, dels, triggers, s, v))
  }

  lemma DeletesNext(d: Encoding, eff0: Effects, dels: Effects, triggers: Triggers, done: set<nat>, eff: Effects,
                    v: nat, noAdd: Option<seq<Cond>>, eff': Effects)
    requires DeletesAdded(d, eff0, dels, triggers, done, eff) && v in dels && v < |d.ranges|
    requires noAdd.None? ==> eff' == eff && forall s | Encodable(d, s) :: SomeConjunction(TriggersOf(triggers, v), s)
    requires noAdd.Some? ==>
               && (forall s | Encodable(d, s) :: !SomeConjunction(TriggersOf(triggers, v), s) <==> SomeHolds(noAdd.value, Enc(d, s)))
               && (forall e, u, x :: Says(eff', e, u, x) <==> SaysOrLoses(eff, d.ranges, dels[v], noAdd.value, dels[v].Keys, e, v, u, x))
    ensures DeletesAdded(d, eff0, dels, triggers, done + {v}, eff')
  {
    forall s, u: nat, x: nat | Encodable(d, s)
      ensures Says(eff', Enc(d, s), u, x) <==> SaysOrEmptied(d, eff0, dels, triggers, done + {v}, s, u, x)
    {
      assert Says(eff, Enc(d, s), u, x) <==> SaysOrEmptied(d, eff0, dels, triggers, done, s, u, x);
    }
  }

  /** translate.py:244-276 */
  method AddDeletes(d: Encoding, eff0: Effects, dels: Effects, triggers: Triggers) returns (eff: Effects)
    requires ValidEncoding(d) && ValidEffects(d.ranges, eff0) && ValidEffects(d.ranges, dels)
    requires forall v: nat, ls | ls in TriggersOf(triggers, v) :: Encoded(d, ls)
    ensures ValidEffects(d.ranges, eff) && DeletesAdded(d, eff0, dels, triggers, dels.Keys, eff)
  {
    eff := eff0;
    var rest := dels.Keys;
    while rest != {}
      invariant rest <= dels.Keys && ValidEffects(d.ranges, eff)
      invariant DeletesAdded(d, eff0, dels, triggers, dels.Keys - rest, eff)
      decreases rest
    {
      var v :| v in rest;
      ghost var before, done := eff, dels.Keys - rest;
      var noAdd := NegateAndTranslate(TriggersOf(triggers, v), d);
      if noAdd.Some? {
        eff := DeleteOn(d.ranges, eff, v, dels[v], noAdd.value);
      }
      DeletesNext(d, eff0, dels, triggers, done, before, v, noAdd, eff);
      rest := rest - {v};
      assert dels.Keys - rest == done + {v};
    }
    assert dels.Keys - rest == dels.Keys;
  }
}
