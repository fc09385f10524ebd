/** Rules that keep indexes of the atoms given to their conditions and fire for each new atom
    (build_model.py:54-175). */
module BuildRules {
  import opened Datalog
  import opened Collections
  import opened Firing
  import opened RuleIndexes
  import opened BindingPicks
  import Strips

  ghost predicate ValidState(rule: Rule, common: seq<nat>, positions: seq<seq<nat>>, seen: Seen, index: Index) {
    && ValidRule(rule) && Validated(rule) && ValidSeen(rule.conditions, seen) && Indexes(rule, positions, seen, index)
    && (rule.kind == JOIN ==> ArePositions(rule, common, positions))
  }

  // ---- loops over arguments ----

  method Overwrite(args: seq<Arg>, c: Pattern, a: Atom) returns (r: seq<Arg>)
    requires |c.args| == |a.args|
    ensures r == Overwritten(args, c, a, |c.args|)
  {
    r := args;
    for p := 0 to |c.args|
      invariant r == Overwritten(args, c, a, p)
    {
      if c.args[p].Var? && c.args[p].no < |r| {
        r := r[c.args[p].no := Const(a.args[p])];
      }
    }
  }

  method GetBindings(c: Pattern, a: Atom) returns (r: seq<Binding>)
    requires |c.args| == |a.args|
    ensures r == Bindings(c, a, |c.args|)
  {
    r := [];
    for p := 0 to |c.args|
      invariant r == Bindings(c, a, p)
    {
      if c.args[p].Var? {
        r := r + [Binding(c.args[p].no, a.args[p])];
      }
    }
  }

  method BuildFactors(conditions: seq<Pattern>, lists: Seen, k: nat) returns (r: seq<seq<seq<Binding>>>)
    requires ValidSeen(conditions, lists)
    ensures r == Factors(conditions, lists, k, |conditions|)
  {
    r := [];
    for i := 0 to |conditions|
      invariant r == Factors(conditions, lists, k, i)
    {
      if i != k {
        var factor := [];
        for j := 0 to |lists[i]|
          invariant |factor| == j && forall m | 0 <= m < j :: factor[m] == BindingLists(conditions[i], lists[i])[m]
        {
          assert lists[i][j] in lists[i];
          var bindings := GetBindings(conditions[i], lists[i][j]);
          factor := factor + [bindings];
        }
        assert factor == BindingLists(conditions[i], lists[i]);
        r := r + [factor];
      }
    }
  }

  method Assign(args: seq<Arg>, bindings: seq<Binding>) returns (r: seq<Arg>)
    ensures r == Assigned(args, bindings)
  {
    r := args;
    for i := 0 to |bindings|
      invariant r == Assigned(args, bindings[..i])
    {
      assert bindings[..i + 1][..i] == bindings[..i];
      if bindings[i].no < |r| {
        r := r[bindings[i].no := Const(bindings[i].value)];
      }
    }
    assert bindings[..|bindings|] == bindings;
  }

  // ---- joins ----

  function Pair(k: nat, x: Atom, other: Atom): seq<Atom> {
    if k == 0 then [x, other] else [other, x]
  }

  /** The combinations whose other atom is among the first `m`. */
  ghost function JoinDone(list: seq<Atom>, k: nat, m: nat): iset<seq<Atom>>
    requires k < 2 && m <= |list|
  {
    iset atoms: seq<Atom> | |atoms| == 2 && atoms[1 - k] in list[..m]
  }

  /** An atom under the key of the new one makes a combination with it. */
  lemma PairUses(rule: Rule, common: seq<nat>, positions: seq<seq<nat>>, seen: Seen, index: Index, x: Atom, k: nat, other: Atom)
    requires ValidState(rule, common, positions, seen, index) && rule.kind == JOIN && k < 2 && x in seen[k]
    requires InRange(positions[k], |x.args|) && other in AtKey(index.sides[1 - k], KeyOf(positions[k], x))
    ensures Matches(rule.conditions[1 - k], other) && Uses(rule, seen, x, k, Pair(k, x, other))
  {
    var atoms := Pair(k, x, other);
    assert SideOf(positions[1 - k], |rule.conditions[1 - k].args|, seen[1 - k], index.sides[1 - k]);
    assert AllMatch(rule.conditions, atoms);
    KeysAgree(rule, common, positions, atoms);
  }

  /** Every combination with the new atom has its other atom under the key. */
  lemma UsesIsPair(rule: Rule, common: seq<nat>, positions: seq<seq<nat>>, seen: Seen, index: Index, x: Atom, k: nat, atoms: seq<Atom>)
    requires ValidState(rule, common, positions, seen, index) && rule.kind == JOIN && k < 2
    requires InRange(positions[k], |x.args|) && Uses(rule, seen, x, k, atoms)
    ensures |atoms| == 2 && atoms[1 - k] in AtKey(index.sides[1 - k], KeyOf(positions[k], x))
  {
    KeysAgree(rule, common, positions, atoms);
    assert SideOf(positions[1 - k], |rule.conditions[1 - k].args|, seen[1 - k], index.sides[1 - k]);
  }

  /** Entering the other atom of a pair completes the effect. */
  lemma PairFills(rule: Rule, seen: Seen, x: Atom, k: nat, other: Atom, args: seq<Arg>)
    requires ValidRule(rule) && |rule.conditions| == 2 && k < 2 && Uses(rule, seen, x, k, Pair(k, x, other))
    requires |other.args| == |rule.conditions[1 - k].args| && KeepsConstants(rule, args) && HoldsAt(rule.conditions, k, x, args)
    ensures var r := Overwritten(args, rule.conditions[1 - k], other, |other.args|);
            && KeepsConstants(rule, r) && HoldsAt(rule.conditions, k, x, r) && Filled(r)
            && Strips.Atom(rule.effect.symbol, Objects(r)) == EffectOf(rule, Pair(k, x, other))
  {
    var atoms := Pair(k, x, other);
    OverwriteEnters(rule, other, 1 - k, args);
    OverwriteKeeps(rule, atoms, k, 1 - k, args);
    FilledIn(rule, atoms, Overwritten(args, rule.conditions[1 - k], other, |other.args|));
  }

  lemma JoinStep(rule: Rule, seen: Seen, x: Atom, k: nat, list: seq<Atom>, m: nat, before: seq<Atom>, after: seq<Atom>)
    requires k < 2 && |rule.conditions| == 2 && m < |list| && Uses(rule, seen, x, k, Pair(k, x, list[m]))
    requires FiredFor(rule, seen, x, k, before, after, JoinDone(list, k, m))
    ensures FiredFor(rule, seen, x, k, before, Enqueued(after, EffectOf(rule, Pair(k, x, list[m]))), JoinDone(list, k, m + 1))
  {
    var a := EffectOf(rule, Pair(k, x, list[m]));
    forall atoms | atoms in JoinDone(list, k, m + 1) && atoms !in JoinDone(list, k, m) && Uses(rule, seen, x, k, atoms)
      ensures EffectOf(rule, atoms) == a
    {
      assert list[..m + 1] == list[..m] + [list[m]];
      assert atoms == Pair(k, x, list[m]);
    }
    FireStep(rule, seen, x, k, before, after, JoinDone(list, k, m), a, JoinDone(list, k, m + 1));
  }

  lemma AllFired(rule: Rule, seen: Seen, x: Atom, k: nat, before: seq<Atom>, after: seq<Atom>, done: iset<seq<Atom>>)
    requires FiredFor(rule, seen, x, k, before, after, done)
    requires forall atoms | Uses(rule, seen, x, k, atoms) :: atoms in done
    ensures Fired(rule, seen, x, k, before, after)
  {
  }

  // ---- products ----

  ghost function ProductDone(rule: Rule, k: nat, picks: seq<seq<seq<Binding>>>, n: nat): iset<seq<Atom>>
    requires n <= |picks|
  {
    iset atoms: seq<Atom> | AllMatch(rule.conditions, atoms) && PickOf(rule.conditions, k, atoms) in picks[..n]
  }

  /** A pick comes from a combination with the new atom. */
  lemma PickUses(rule: Rule, seen: Seen, x: Atom, k: nat, pick: seq<seq<Binding>>) returns (atoms: seq<Atom>)
    requires ValidRule(rule) && Validated(rule) && rule.kind != JOIN && ValidSeen(rule.conditions, seen)
    requires k < |rule.conditions| && x in seen[k] && pick in Product(Factors(rule.conditions, seen, k, |rule.conditions|))
    ensures Uses(rule, seen, x, k, atoms) && PickOf(rule.conditions, k, atoms) == pick
  {
    InProduct(Factors(rule.conditions, seen, k, |rule.conditions|), pick);
    atoms := ChoiceIsPick(rule.conditions, seen, k, x, pick, |rule.conditions|);
    OthersAgree(rule, atoms);
  }

  /** Every combination with the new atom is picked. */
  lemma UsesIsPicked(rule: Rule, seen: Seen, x: Atom, k: nat, atoms: seq<Atom>)
    requires ValidSeen(rule.conditions, seen) && Uses(rule, seen, x, k, atoms)
    ensures PickOf(rule.conditions, k, atoms) in Product(Factors(rule.conditions, seen, k, |rule.conditions|))
  {
    PickIsChoice(rule.conditions, seen, k, atoms);
    InProduct(Factors(rule.conditions, seen, k, |rule.conditions|), PickOf(rule.conditions, k, atoms));
  }

  lemma PickFills(rule: Rule, atoms: seq<Atom>, k: nat, args: seq<Arg>)
    requires ValidRule(rule) && AllMatch(rule.conditions, atoms) && Agree(rule.conditions, atoms) && k < |atoms|
    requires KeepsConstants(rule, args) && HoldsAt(rule.conditions, k, atoms[k], args)
    ensures var r := Assigned(args, Chained(PickOf(rule.conditions, k, atoms)));
            && KeepsConstants(rule, r) && HoldsAt(rule.conditions, k, atoms[k], r) && Filled(r)
            && Strips.Atom(rule.effect.symbol, Objects(r)) == EffectOf(rule, atoms)
  {
    PickEnters(rule, atoms, k, args, |atoms|);
    assert atoms[..|atoms|] == atoms;
    FilledIn(rule, atoms, Assigned(args, Chained(PickOf(rule.conditions, k, atoms))));
  }

  lemma ProductStep(rule: Rule, seen: Seen, x: Atom, k: nat, picks: seq<seq<seq<Binding>>>, n: nat, args: seq<Arg>,
                    before: seq<Atom>, after: seq<Atom>, chosen: seq<Atom>)
    requires ValidRule(rule) && n < |picks| && Uses(rule, seen, x, k, chosen) && PickOf(rule.conditions, k, chosen) == picks[n]
    requires KeepsConstants(rule, args) && HoldsAt(rule.conditions, k, x, args)
    requires FiredFor(rule, seen, x, k, before, after, ProductDone(rule, k, picks, n))
    ensures FiredFor(rule, seen, x, k, before, Enqueued(after, EffectOf(rule, chosen)), ProductDone(rule, k, picks, n + 1))
  {
    PickFills(rule, chosen, k, args);
    forall atoms | atoms in ProductDone(rule, k, picks, n + 1) && atoms !in ProductDone(rule, k, picks, n) && Uses(rule, seen, x, k, atoms)
      ensures EffectOf(rule, atoms) == EffectOf(rule, chosen)
    {
      assert picks[..n + 1] == picks[..n] + [picks[n]];
      PickFills(rule, atoms, k, args);
    }
    FireStep(rule, seen, x, k, before, after, ProductDone(rule, k, picks, n), EffectOf(rule, chosen), ProductDone(rule, k, picks, n + 1));
  }

  lemma ProjectFires(rule: Rule, seen: Seen, x: Atom, before: seq<Atom>, args: seq<Arg>)
    requires ValidRule(rule) && Validated(rule) && rule.kind == PROJECT && ValidSeen(rule.conditions, seen) && x in seen[0]
    requires KeepsConstants(rule, args) && HoldsAt(rule.conditions, 0, x, args)
    ensures Filled(args) && Fired(rule, seen, x, 0, before, Enqueued(before, Strips.Atom(rule.effect.symbol, Objects(args))))
  {
    var atoms := [x];
    assert AllMatch(rule.conditions, atoms);
    OthersAgree(rule, atoms);
    FilledIn(rule, atoms, args);
    assert Uses(rule, seen, x, 0, atoms);
    forall other | Uses(rule, seen, x, 0, other)
      ensures other == atoms
    {
    }
  }

  // ---- the rule ----

  lemma JoinGrows(rule: Rule, positions: seq<seq<nat>>, seen: Seen, index: Index, k: nat, x: Atom)
    requires rule.kind == JOIN && Indexes(rule, positions, seen, index) && k < 2
    requires Matches(rule.conditions[k], x) && InRange(positions[k], |x.args|)
    ensures var key, side := KeyOf(positions[k], x), index.sides[k];
            Indexes(rule, positions, Given(seen, k, x), ByKey(index.sides[k := side[key := AtKey(side, key) + [x]]]))
  {
    SideGrows(positions[k], |x.args|, seen[k], index.sides[k], x);
  }

  class BuildRule {
    const rule: Rule
    ghost const common: seq<nat>
    const positions: seq<seq<nat>>
    var index: Index
    ghost var seen: Seen

    ghost predicate Valid()
      reads this
    {
      ValidState(rule, common, positions, seen, index)
    }

    constructor (rule: Rule)
      requires ValidRule(rule) && Validated(rule)
      ensures Valid() && this.rule == rule && seen == seq(|rule.conditions|, _ => [])
    {
      this.rule := rule;
      var lists: Seen := seq(|rule.conditions|, _ => []);
      seen := lists;
      if rule.kind == JOIN {
        var shared := CommonVariables(rule);
        var left := PositionsOf(rule.conditions[0], shared);
        var right := PositionsOf(rule.conditions[1], shared);
        common, positions := shared, [left, right];
        index := ByKey([map[], map[]]);
      } else {
        common, positions := [], [];
        index := if rule.kind == PRODUCT then ByCondition(lists, EmptyLists(lists)) else Unindexed;
      }
    }

    /** update_index */
    method UpdateIndex(x: Atom, k: nat)
      requires Valid() && k < |rule.conditions| && Matches(rule.conditions[k], x)
      modifies this
      ensures Valid() && seen == Given(old(seen), k, x)
    {
      GivenValid(rule.conditions, seen, k, x);
      if rule.kind == JOIN {
        PositionsInRange(rule, common, positions, k, x);
        JoinGrows(rule, positions, seen, index, k, x);
        var key, side := KeyOf(positions[k], x), index.sides[k];
        index := ByKey(index.sides[k := side[key := AtKey(side, key) + [x]]]);
      } else if rule.kind == PRODUCT {
        EmptyListsUpdate(seen, k, seen[k] + [x]);
        var list := index.lists[k];
        index := ByCondition(index.lists[k := list + [x]], if list == [] then index.empty - 1 else index.empty);
      }
      seen := Given(seen, k, x);
    }

    /** prepare_effect */
    method PrepareEffect(x: Atom, k: nat) returns (args: seq<Arg>)
      requires ValidRule(rule) && k < |rule.conditions| && Matches(rule.conditions[k], x)
      ensures KeepsConstants(rule, args) && HoldsAt(rule.conditions, k, x, args)
    {
      OverwriteEnters(rule, x, k, rule.effect.args);
      args := Overwrite(rule.effect.args, rule.conditions[k], x);
    }

    /** fire: the queue gets the effects of the combinations of given atoms that use the new one. */
    method Fire(x: Atom, k: nat, q: Queue)
      requires Valid() && q.Valid() && k < |rule.conditions| && x in seen[k]
      modifies q
      ensures q.Valid() && q.pos == old(q.pos) && Fired(rule, seen, x, k, old(q.queue), q.queue)
    {
      match rule.kind
      case JOIN => FireJoin(x, k, q);
      case PRODUCT => FireProduct(x, k, q);
      case PROJECT =>
        var args := PrepareEffect(x, k);
        ProjectFires(rule, seen, x, q.queue, args);
        q.Push(rule.effect.symbol, Objects(args));
    }

    method FireJoin(x: Atom, k: nat, q: Queue)
      requires Valid() && rule.kind == JOIN && q.Valid() && k < |rule.conditions| && x in seen[k]
      modifies q
      ensures q.Valid() && q.pos == old(q.pos) && Fired(rule, seen, x, k, old(q.queue), q.queue)
    {
      var args := PrepareEffect(x, k);
      PositionsInRange(rule, common, positions, k, x);
      var list := AtKey(index.sides[1 - k], KeyOf(positions[k], x));
      ghost var before := q.queue;
      for m := 0 to |list|
        invariant q.Valid() && q.pos == old(q.pos) && index == old(index) && seen == old(seen)
        invariant KeepsConstants(rule, args) && HoldsAt(rule.conditions, k, x, args)
        invariant FiredFor(rule, seen, x, k, before, q.queue, JoinDone(list, k, m))
      {
        PairUses(rule, common, positions, seen, index, x, k, list[m]);
        PairFills(rule, seen, x, k, list[m], args);
        JoinStep(rule, seen, x, k, list, m, before, q.queue);
        args := Overwrite(args, rule.conditions[1 - k], list[m]);
        q.Push(rule.effect.symbol, Objects(args));
      }
      forall atoms | Uses(rule, seen, x, k, atoms)
        ensures atoms in JoinDone(list, k, |list|)
      {
        UsesIsPair(rule, common, positions, seen, index, x, k, atoms);
        assert list[..|list|] == list;
      }
      AllFired(rule, seen, x, k, before, q.queue, JoinDone(list, k, |list|));
    }

    method FireProduct(x: Atom, k: nat, q: Queue)
      requires Valid() && rule.kind == PRODUCT && q.Valid() && k < |rule.conditions| && x in seen[k]
      modifies q
      ensures q.Valid() && q.pos == old(q.pos) && Fired(rule, seen, x, k, old(q.queue), q.queue)
    {
      if index.empty > 0 {
        assert forall atoms :: !Uses(rule, seen, x, k, atoms);
        return;
      }
      var factors := BuildFactors(rule.conditions, index.lists, k);
      var args := PrepareEffect(x, k);
      var picks := Product(factors);
      ghost var before := q.queue;
      for n := 0 to |picks|
        invariant q.Valid() && q.pos == old(q.pos) && index == old(index) && seen == old(seen)
        invariant KeepsConstants(rule, args) && HoldsAt(rule.conditions, k, x, args)
        invariant FiredFor(rule, seen, x, k, before, q.queue, ProductDone(rule, k, picks, n))
      {
        assert picks[n] in picks;
        ghost var chosen := PickUses(rule, seen, x, k, picks[n]);
        ProductStep(rule, seen, x, k, picks, n, args, before, q.queue, chosen);
        PickFills(rule, chosen, k, args);
        args := Assign(args, Chained(picks[n]));
        q.Push(rule.effect.symbol, Objects(args));
      }
      forall atoms | Uses(rule, seen, x, k, atoms)
        ensures atoms in ProductDone(rule, k, picks, |picks|)
      {
        UsesIsPicked(rule, seen, x, k, atoms);
        assert picks[..|picks|] == picks;
      }
      AllFired(rule, seen, x, k, before, q.queue, ProductDone(rule, k, picks, |picks|));
    }
  }
}
