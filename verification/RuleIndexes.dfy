/** Indexes of the atoms given to the conditions of a rule, by the objects two conditions share or by
    condition (build_model.py:67-98, 113-133). */
module RuleIndexes {
  import opened Datalog
  import opened Collections
  import opened Firing

  // ---- validation ----

  predicate IsVariable(arg: Arg) {
    !arg.Const?
  }

  function Variables(c: Pattern): (r: set<Arg>)
    ensures forall arg :: arg in r <==> IsVariable(arg) && arg in c.args
  {
    set arg | arg in c.args && IsVariable(arg)
  }

  function AllVariables(conditions: seq<Pattern>): set<Arg> {
    if conditions == [] then {} else AllVariables(conditions[..|conditions| - 1]) + Variables(conditions[|conditions| - 1])
  }

  function CountVariables(conditions: seq<Pattern>): nat {
    if conditions == [] then 0 else CountVariables(conditions[..|conditions| - 1]) + |Variables(conditions[|conditions| - 1])|
  }

  /** validate */
  predicate Validated(rule: Rule) {
    match rule.kind
    case JOIN =>
      && |rule.conditions| == 2
      && var left, right := Variables(rule.conditions[0]), Variables(rule.conditions[1]);
      left * right != {} && left + right == (left * right) + Variables(rule.effect)
    case PRODUCT =>
      && |rule.conditions| >= 2
      && |AllVariables(rule.conditions)| == |Variables(rule.effect)|
      && |AllVariables(rule.conditions)| == CountVariables(rule.conditions)
    case PROJECT => |rule.conditions| == 1
  }

  lemma UnionSize<T>(a: set<T>, b: set<T>)
    ensures |a + b| <= |a| + |b|
    ensures |a + b| == |a| + |b| ==> a !! b
  {
    assert |a + b| + |a * b| == |a| + |b|;
    if |a + b| == |a| + |b| {
      assert a * b == {};
      forall x | x in a
        ensures x !in b
      {
        assert x in a * b <==> x in b;
      }
    }
  }

  lemma {:induction false} AllVariablesHas(conditions: seq<Pattern>, i: nat)
    requires i < |conditions|
    ensures Variables(conditions[i]) <= AllVariables(conditions)
  {
    if i < |conditions| - 1 {
      AllVariablesHas(conditions[..|conditions| - 1], i);
    }
  }

  lemma {:induction false} CountBounds(conditions: seq<Pattern>)
    ensures |AllVariables(conditions)| <= CountVariables(conditions)
  {
    if conditions != [] {
      var last := |conditions| - 1;
      CountBounds(conditions[..last]);
      UnionSize(AllVariables(conditions[..last]), Variables(conditions[last]));
    }
  }

  /** If the variables add up, no two conditions share one. */
  lemma {:induction false} CountDisjoint(conditions: seq<Pattern>, i: nat, j: nat)
    requires |AllVariables(conditions)| == CountVariables(conditions) && i < j < |conditions|
    ensures Variables(conditions[i]) !! Variables(conditions[j])
  {
    var last := |conditions| - 1;
    var first := conditions[..last];
    CountBounds(first);
    UnionSize(AllVariables(first), Variables(conditions[last]));
    if j == last {
      AllVariablesHas(first, i);
    } else {
      CountDisjoint(first, i, j);
    }
  }

  /** The conditions of a validated product share no variable. */
  lemma ProductDisjoint(rule: Rule, i: nat, p: nat, j: nat, q: nat, arg: Arg)
    requires Validated(rule) && rule.kind != JOIN && IsVariable(arg)
    requires OccursAt(rule.conditions, i, p, arg) && OccursAt(rule.conditions, j, q, arg)
    ensures i == j
  {
    assert arg in Variables(rule.conditions[i]) && arg in Variables(rule.conditions[j]);
    if rule.kind == PRODUCT {
      if i < j {
        CountDisjoint(rule.conditions, i, j);
      } else if j < i {
        CountDisjoint(rule.conditions, j, i);
      }
    }
  }

  /** Only joins compare objects. */
  lemma OthersAgree(rule: Rule, atoms: seq<Atom>)
    requires ValidRule(rule) && Validated(rule) && rule.kind != JOIN && AllMatch(rule.conditions, atoms)
    ensures Agree(rule.conditions, atoms)
  {
    forall n: nat, i: nat, p: nat, j: nat, q: nat | OccursAt(rule.conditions, i, p, Var(n)) && OccursAt(rule.conditions, j, q, Var(n))
      ensures atoms[i].args[p] == atoms[j].args[q]
    {
      ProductDisjoint(rule, i, p, j, q, Var(n));
    }
  }

  /** Validated products and projections share no variable at all; for joins this is the condition. */
  lemma SharesNumberedUnlessJoin(rule: Rule)
    requires Validated(rule) && rule.kind != JOIN
    ensures SharesNumbered(rule)
  {
    forall i: nat, p: nat, j: nat, q: nat, name: string | OccursAt(rule.conditions, i, p, Free(name)) && OccursAt(rule.conditions, j, q, Free(name))
      ensures i == j
    {
      ProductDisjoint(rule, i, p, j, q, Free(name));
    }
  }

  // ---- keys of a join ----

  type Key = seq<string>

  predicate InRange(positions: seq<nat>, arity: nat) {
    forall k | 0 <= k < |positions| :: positions[k] < arity
  }

  function KeyOf(positions: seq<nat>, a: Atom): (key: Key)
    requires InRange(positions, |a.args|)
    ensures |key| == |positions| && forall k | 0 <= k < |key| :: key[k] == a.args[positions[k]]
  {
    seq(|positions|, k requires 0 <= k < |positions| => a.args[positions[k]])
  }

  /** The numbers both conditions share, in order. */
  ghost predicate IsCommon(rule: Rule, common: seq<nat>) {
    |rule.conditions| == 2 && forall n: nat :: n in common <==> Var(n) in rule.conditions[0].args && Var(n) in rule.conditions[1].args
  }

  /** Where each condition has the shared numbers. */
  ghost predicate ArePositions(rule: Rule, common: seq<nat>, positions: seq<seq<nat>>) {
    && IsCommon(rule, common) && |positions| == 2 && |positions[0]| == |positions[1]| == |common|
    && (forall k | 0 <= k < |common| :: OccursAt(rule.conditions, 0, positions[0][k], Var(common[k])))
    && (forall k | 0 <= k < |common| :: OccursAt(rule.conditions, 1, positions[1][k], Var(common[k])))
  }

  method CommonVariables(rule: Rule) returns (common: seq<nat>)
    requires ValidRule(rule) && |rule.conditions| == 2
    ensures IsCommon(rule, common)
  {
    common := [];
    for n := 0 to |rule.effect.args|
      invariant forall m: nat :: m in common <==> m < n && Var(m) in rule.conditions[0].args && Var(m) in rule.conditions[1].args
    {
      if Var(n) in rule.conditions[0].args && Var(n) in rule.conditions[1].args {
        common := common + [n];
      }
    }
    forall m: nat | Var(m) in rule.conditions[0].args
      ensures m < |rule.effect.args|
    {
      var p :| 0 <= p < |rule.conditions[0].args| && rule.conditions[0].args[p] == Var(m);
      assert OccursAt(rule.conditions, 0, p, Var(m));
    }
  }

  method PositionsOf(c: Pattern, common: seq<nat>) returns (r: seq<nat>)
    requires forall n | n in common :: Var(n) in c.args
    ensures |r| == |common| && forall k | 0 <= k < |r| :: r[k] < |c.args| && c.args[r[k]] == Var(common[k])
  {
    r := [];
    for k := 0 to |common|
      invariant |r| == k && forall m | 0 <= m < k :: r[m] < |c.args| && c.args[r[m]] == Var(common[m])
    {
      assert common[k] in common;
      var p := 0;
      while c.args[p] != Var(common[k])
        invariant p < |c.args| && exists q :: p <= q < |c.args| && c.args[q] == Var(common[k])
        decreases |c.args| - p
      {
        p := p + 1;
      }
      r := r + [p];
    }
  }

  lemma PositionsInRange(rule: Rule, common: seq<nat>, positions: seq<seq<nat>>, i: nat, a: Atom)
    requires ArePositions(rule, common, positions) && i < 2 && Matches(rule.conditions[i], a)
    ensures InRange(positions[i], |a.args|)
  {
    forall k | 0 <= k < |positions[i]|
      ensures positions[i][k] < |a.args|
    {
      assert OccursAt(rule.conditions, i, positions[i][k], Var(common[k]));
    }
  }

  /** Equal keys are agreement on all shared numbers. */
  lemma KeysAgree(rule: Rule, common: seq<nat>, positions: seq<seq<nat>>, atoms: seq<Atom>)
    requires ValidRule(rule) && ArePositions(rule, common, positions) && AllMatch(rule.conditions, atoms)
    ensures InRange(positions[0], |atoms[0].args|) && InRange(positions[1], |atoms[1].args|)
    ensures KeyOf(positions[0], atoms[0]) == KeyOf(positions[1], atoms[1]) <==> Agree(rule.conditions, atoms)
  {
    PositionsInRange(rule, common, positions, 0, atoms[0]);
    PositionsInRange(rule, common, positions, 1, atoms[1]);
    var left, right := KeyOf(positions[0], atoms[0]), KeyOf(positions[1], atoms[1]);
    if Agree(rule.conditions, atoms) {
      forall k | 0 <= k < |common|
        ensures left[k] == right[k]
      {
        assert AgreeOn(rule.conditions, atoms, Var(common[k]));
      }
    }
    if left == right {
      forall n: nat, i: nat, p: nat, j: nat, q: nat | OccursAt(rule.conditions, i, p, Var(n)) && OccursAt(rule.conditions, j, q, Var(n))
        ensures atoms[i].args[p] == atoms[j].args[q]
      {
        if i != j {
          SharedEqual(rule, common, positions, atoms, n, if i == 0 then p else q, if i == 0 then q else p);
        }
      }
    }
  }

  lemma SharedEqual(rule: Rule, common: seq<nat>, positions: seq<seq<nat>>, atoms: seq<Atom>, n: nat, p: nat, q: nat)
    requires ValidRule(rule) && ArePositions(rule, common, positions) && AllMatch(rule.conditions, atoms)
    requires InRange(positions[0], |atoms[0].args|) && InRange(positions[1], |atoms[1].args|)
    requires KeyOf(positions[0], atoms[0]) == KeyOf(positions[1], atoms[1])
    requires OccursAt(rule.conditions, 0, p, Var(n)) && OccursAt(rule.conditions, 1, q, Var(n))
    ensures atoms[0].args[p] == atoms[1].args[q]
  {
    assert n in common;
    var k :| 0 <= k < |common| && common[k] == n;
    assert OccursAt(rule.conditions, 0, positions[0][k], Var(n)) && OccursAt(rule.conditions, 1, positions[1][k], Var(n));
    assert KeyOf(positions[0], atoms[0])[k] == KeyOf(positions[1], atoms[1])[k];
  }

  // ---- indexes ----

  type Side = map<Key, seq<Atom>>

  datatype Index = ByKey(sides: seq<Side>) | ByCondition(lists: Seen, empty: nat) | Unindexed

  function AtKey(side: Side, key: Key): seq<Atom> {
    if key in side then side[key] else []
  }

  function EmptyLists(lists: Seen): (n: nat)
    ensures n == 0 <==> forall i | 0 <= i < |lists| :: lists[i] != []
  {
    if lists == [] then 0
    else
      var last := |lists| - 1;
      assert forall i | 0 <= i < last :: lists[..last][i] == lists[i];
      EmptyLists(lists[..last]) + if lists[last] == [] then 1 else 0
  }

  lemma {:induction false} EmptyListsUpdate(lists: Seen, k: nat, list: seq<Atom>)
    requires k < |lists| && list != []
    ensures EmptyLists(lists[k := list]) == EmptyLists(lists) - if lists[k] == [] then 1 else 0
  {
    var last := |lists| - 1;
    if k == last {
      assert lists[k := list][..last] == lists[..last];
    } else {
      EmptyListsUpdate(lists[..last], k, list);
      assert lists[k := list][..last] == lists[..last][k := list];
    }
  }

  /** One side of a join: under every key the given atoms with the key. */
  ghost predicate SideOf(positions: seq<nat>, arity: nat, seen: seq<Atom>, side: Side) {
    && InRange(positions, arity) && (forall a | a in seen :: |a.args| == arity)
    && forall key, a :: a in AtKey(side, key) <==> a in seen && |a.args| == arity && KeyOf(positions, a) == key
  }

  lemma SideGrows(positions: seq<nat>, arity: nat, seen: seq<Atom>, side: Side, x: Atom)
    requires SideOf(positions, arity, seen, side) && |x.args| == arity
    ensures SideOf(positions, arity, seen + [x], side[KeyOf(positions, x) := AtKey(side, KeyOf(positions, x)) + [x]])
  {
    var k := KeyOf(positions, x);
    var grown := side[k := AtKey(side, k) + [x]];
    forall key, a
      ensures a in AtKey(grown, key) <==> a in AtKey(side, key) || (key == k && a == x)
    {
    }
  }

  ghost predicate Indexes(rule: Rule, positions: seq<seq<nat>>, seen: Seen, index: Index) {
    match rule.kind
    case JOIN =>
      && index.ByKey? && |index.sides| == |positions| == |seen| == |rule.conditions| == 2
      && SideOf(positions[0], |rule.conditions[0].args|, seen[0], index.sides[0])
      && SideOf(positions[1], |rule.conditions[1].args|, seen[1], index.sides[1])
    case PRODUCT => index == ByCondition(seen, EmptyLists(seen))
    case PROJECT => index.Unindexed?
  }

  function Given(seen: Seen, k: nat, x: Atom): Seen
    requires k < |seen|
  {
    seen[k := seen[k] + [x]]
  }

  lemma GivenValid(conditions: seq<Pattern>, seen: Seen, k: nat, x: Atom)
    requires ValidSeen(conditions, seen) && k < |seen| && Matches(conditions[k], x)
    ensures ValidSeen(conditions, Given(seen, k, x))
  {
  }
}
