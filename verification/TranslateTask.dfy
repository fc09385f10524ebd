/** Translation of a whole grounded task: dictionary, initial values, goal and operators
    (translate.py:55-63, 387-395, 434-491).  Plans correspond. */
module TranslateTask {
  import opened Sas
  import opened Strips
  import opened Conditions
  import opened Translation
  import opened BuildOperator
  import opened TranslateAction
  import opened Simulation

  datatype StripsTask = StripsTask(init: Atoms, goal: seq<Literal>, actions: seq<Action>)

  ghost predicate StripsStep(t: StripsTask, s: Atoms, i: nat, s': Atoms) {
    i < |t.actions| && LiteralsHold(t.actions[i].precondition, s) && s' == Result(t.actions[i], s)
  }

  ghost predicate StripsRun(t: StripsTask, states: seq<Atoms>, acts: seq<nat>) {
    && |states| == |acts| + 1 && states[0] == t.init
    && forall k | 0 <= k < |acts| :: StripsStep(t, states[k], acts[k], states[k + 1])
  }

  ghost predicate StripsPlan(t: StripsTask, states: seq<Atoms>, acts: seq<nat>) {
    StripsRun(t, states, acts) && LiteralsHold(t.goal, states[|acts|])
  }

  function StripsCosts(t: StripsTask, acts: seq<nat>): (r: seq<nat>)
    requires Below(acts, |t.actions|)
    ensures |r| == |acts| && forall k | 0 <= k < |acts| :: r[k] == t.actions[acts[k]].cost
  {
    seq(|acts|, k requires 0 <= k < |acts| => t.actions[acts[k]].cost)
  }

  function StripsCost(t: StripsTask, acts: seq<nat>): nat
    requires Below(acts, |t.actions|)
  {
    Sum(StripsCosts(t, acts))
  }

  /** Some run ends in `s`. */
  ghost predicate Reached(t: StripsTask, s: Atoms) {
    exists states, acts :: StripsRun(t, states, acts) && states[|acts|] == s
  }

  ghost predicate Represented(d: Encoding, t: StripsTask, s: Atoms) {
    Encodable(d, s) && forall l | l in t.goal && l.atom !in d.dict :: LiteralHolds(l, s)
  }

  /** The groups are mutex groups of the task, every action is encoded, and goal literals on atoms
      without a place are statically true. */
  ghost predicate Suits(d: Encoding, t: StripsTask) {
    && ValidEncoding(d) && (forall a | a in t.actions :: EncodedAction(d, a))
    && forall s | Reached(t, s) :: Represented(d, t, s)
  }

  /** Where the goal of the grounded task leads. */
  datatype Translated = GoalViolatesMutex | EmptyGoal | NegativeGoal | Finite(task: Task, origin: seq<nat>)

  // ---- dictionary and initial values ----

  predicate DistinctAtoms(group: seq<Atom>) {
    forall i, j | 0 <= i < j < |group| :: group[i] != group[j]
  }

  ghost predicate Listed(groups: seq<seq<Atom>>, dict: Dictionary, v: nat, n: nat) {
    && (forall a, f {:trigger f in dict[a]} | a in dict && f in dict[a] ::
          f.v < |groups| && f.x < |groups[f.v]| && groups[f.v][f.x] == a && Before(f, v, n))
    && (forall u, x | 0 <= u < |groups| && 0 <= x < |groups[u]| && Before(Fact(u, x), v, n) ::
          groups[u][x] in dict && Fact(u, x) in dict[groups[u][x]])
    && (forall a | a in dict :: dict[a] != [] && DistinctFacts(dict[a]))
  }

  predicate Before(f: Fact, v: nat, n: nat) {
    f.v < v || (f.v == v && f.x < n)
  }

  /** strips_to_sas_dictionary; with a partial encoding every atom must have one place. */
  method BuildDictionary(groups: seq<seq<Atom>>) returns (ranges: seq<nat>, dict: Dictionary)
    requires forall g | g in groups :: DistinctAtoms(g)
    ensures ValidDictionary(groups, dict, ranges)
  {
    dict := map[];
    for v := 0 to |groups|
      invariant Listed(groups, dict, v, 0)
    {
      assert groups[v] in groups;
      for x := 0 to |groups[v]|
        invariant Listed(groups, dict, v, x)
      {
        var atom := groups[v][x];
        ghost var before := dict;
        dict := dict[atom := Places(dict, atom) + [Fact(v, x)]];
        ListedNext(groups, before, v, x, x + 1, dict);
      }
      ListedRow(groups, dict, v, v + 1);
    }
    ranges := seq(|groups|, v requires 0 <= v < |groups| => |groups[v]| + 1);
  }

  lemma ListedNext(groups: seq<seq<Atom>>, dict: Dictionary, v: nat, x: nat, c: nat, dict': Dictionary)
    requires Listed(groups, dict, v, x) && v < |groups| && x < |groups[v]| && c == x + 1 && DistinctAtoms(groups[v])
    requires dict' == dict[groups[v][x] := Places(dict, groups[v][x]) + [Fact(v, x)]]
    ensures Listed(groups, dict', v, c)
  {
    var atom, f := groups[v][x], Fact(v, x);
    NewPlace(groups, dict, v, x, Places(dict, atom));
    forall u, y | 0 <= u < |groups| && 0 <= y < |groups[u]| && Before(Fact(u, y), v, c)
      ensures groups[u][y] in dict' && Fact(u, y) in dict'[groups[u][y]]
    {
      assert Before(Fact(u, y), v, x) || Fact(u, y) == f;
    }
  }

  lemma NewPlace(groups: seq<seq<Atom>>, dict: Dictionary, v: nat, x: nat, places: seq<Fact>)
    requires Listed(groups, dict, v, x) && v < |groups| && x < |groups[v]| && DistinctAtoms(groups[v])
    requires places == Places(dict, groups[v][x])
    ensures DistinctFacts(places + [Fact(v, x)])
  {
    forall i | 0 <= i < |places|
      ensures places[i].v != v
    {
      assert places[i] in places;
    }
  }

  lemma ListedRow(groups: seq<seq<Atom>>, dict: Dictionary, v: nat, c: nat)
    requires v < |groups| && Listed(groups, dict, v, |groups[v]|) && c == v + 1
    ensures Listed(groups, dict, c, 0)
  {
    forall u, y | 0 <= u < |groups| && 0 <= y < |groups[u]| && Before(Fact(u, y), c, 0)
      ensures Before(Fact(u, y), v, |groups[v]|)
    {
    }
  }

  ghost predicate PlacesSet(d: Encoding, init: Atoms, pairs: seq<Fact>, values: seq<nat>) {
    forall f | f in pairs :: f.v < |values| && f.v < |d.groups| && values[f.v] == Enc(d, init)[f.v]
  }

  /** The values given by the facts handled so far, in an encodable state. */
  ghost predicate ValuesOf(d: Encoding, init: Atoms, facts: Atoms, values: seq<nat>) {
    && |values| == |d.groups| && facts <= init
    && (forall a | a in facts :: PlacesSet(d, init, Places(d.dict, a), values))
    && (forall v | 0 <= v < |values| && values[v] != |d.groups[v]| :: values[v] == Enc(d, init)[v])
  }

  /** Closed world: a variable has its last value unless an initial fact says otherwise
      (translate.py:447-456).  The values of an encodable state never conflict. */
  method InitialValues(d: Encoding, init: Atoms) returns (values: seq<nat>)
    requires ValidEncoding(d) && Encodable(d, init)
    ensures values == Enc(d, init)
  {
    values := seq(|d.ranges|, v requires 0 <= v < |d.ranges| => d.ranges[v] - 1);
    var rest := init;
    while rest != {}
      invariant rest <= init && ValuesOf(d, init, init - rest, values)
      decreases rest
    {
      var fact :| fact in rest;
      values := SetFact(d, init, init - rest, fact, values);
      rest := rest - {fact};
    }
    forall v: nat | v < |values|
      ensures values[v] == Enc(d, init)[v]
    {
      AtomAt(d, init, v);
      var x := Enc(d, init)[v];
      if x < |d.groups[v]| {
        assert Fact(v, x) in Places(d.dict, d.groups[v][x]);
      }
    }
  }

  method SetFact(d: Encoding, init: Atoms, ghost done: Atoms, fact: Atom, values0: seq<nat>) returns (values: seq<nat>)
    requires ValidEncoding(d) && Encodable(d, init) && ValuesOf(d, init, done, values0) && fact in init
    ensures ValuesOf(d, init, done + {fact}, values)
  {
    var pairs := Places(d.dict, fact);
    values := values0;
    for i := 0 to |pairs|
      invariant ValuesOf(d, init, done, values)
      invariant PlacesSet(d, init, pairs[..i], values)
    {
      var f := pairs[i];
      assert f in pairs && pairs[..i + 1] == pairs[..i] + [f];
      PlaceSet(d, init, done, fact, pairs[..i], values, f);
      var current := values[f.v];
      assert !(current != d.ranges[f.v] - 1 && current != f.x);
      values := values[f.v := f.x];
    }
    assert pairs[..|pairs|] == pairs;
  }

  lemma PlaceSet(d: Encoding, init: Atoms, done: Atoms, fact: Atom, seen: seq<Fact>, values: seq<nat>, f: Fact)
    requires ValidEncoding(d) && Encodable(d, init) && ValuesOf(d, init, done, values) && PlacesSet(d, init, seen, values)
    requires fact in init && f in Places(d.dict, fact)
    ensures f.v < |values| && f.v < |d.ranges| && (values[f.v] == d.ranges[f.v] - 1 || values[f.v] == f.x)
    ensures ValuesOf(d, init, done, values[f.v := f.x]) && PlacesSet(d, init, seen + [f], values[f.v := f.x])
  {
    AtomValue(d.groups, d.dict, d.ranges, init, fact, f);
    var next := values[f.v := f.x];
    forall a | a in done
      ensures PlacesSet(d, init, Places(d.dict, a), next)
    {
      assert PlacesSet(d, init, Places(d.dict, a), values);
    }
  }

  // ---- operators and goal ----

  ghost predicate OneApplies(ops: seq<SasOperator>, origin: seq<nat>, i: nat, e: State) {
    exists j | 0 <= j < |ops| && j < |origin| && origin[j] == i :: Applicable(ops[j], e)
  }

  /** The operators made from the first `n` actions commute with the encoding. */
  ghost predicate MadeFrom(d: Encoding, actions: seq<Action>, n: nat, ops: seq<SasOperator>, origin: seq<nat>) {
    && |origin| == |ops| && n <= |actions|
    && (forall j | 0 <= j < |ops| ::
          && origin[j] < n && ops[j].cost == actions[origin[j]].cost && ValidOperator(d.ranges, ops[j])
          && !Refuted(d, actions[origin[j]].precondition))
    && (forall s, j | 0 <= j < |ops| && Encodable(d, s) && Applicable(ops[j], Enc(d, s)) ::
          LiteralsHold(actions[origin[j]].precondition, s))
    && (forall s, j | 0 <= j < |ops| && Steps(d, actions[origin[j]], s) && Applicable(ops[j], Enc(d, s)) ::
          Successor(ops[j], Enc(d, s)) == Enc(d, Result(actions[origin[j]], s)))
    && (forall s, i | 0 <= i < n && Steps(d, actions[i], s) ::
          OneApplies(ops, origin, i, Enc(d, s)) || Enc(d, Result(actions[i], s)) == Enc(d, s))
  }

  lemma MadeFromNext(d: Encoding, actions: seq<Action>, n: nat, ops: seq<SasOperator>, origin: seq<nat>,
                     more: seq<SasOperator>, moreOrigin: seq<nat>, c: nat)
    requires n < |actions| && c == n + 1
    requires MadeFrom(d, actions, n, ops, origin) && Commutes(d, actions[n], more) && (Refuted(d, actions[n].precondition) ==> more == [])
    requires |moreOrigin| == |more| && forall j | 0 <= j < |more| :: moreOrigin[j] == n
    ensures MadeFrom(d, actions, c, ops + more, origin + moreOrigin)
  {
    var all, origins := ops + more, origin + moreOrigin;
    forall j | 0 <= j < |all|
      ensures if j < |ops| then all[j] == ops[j] && origins[j] == origin[j] else all[j] in more && origins[j] == n
    {
    }
    forall s, i | 0 <= i < c && Steps(d, actions[i], s)
      ensures OneApplies(all, origins, i, Enc(d, s)) || Enc(d, Result(actions[i], s)) == Enc(d, s)
    {
      if i < n && OneApplies(ops, origin, i, Enc(d, s)) {
        var j :| 0 <= j < |ops| && j < |origin| && origin[j] == i && Applicable(ops[j], Enc(d, s));
        assert all[j] == ops[j] && origins[j] == i;
      }
      if i == n && SomeApplies(more, Enc(d, s)) {
        var op :| op in more && Applicable(op, Enc(d, s));
        var j :| 0 <= j < |more| && more[j] == op;
        assert all[|ops| + j] == op && origins[|ops| + j] == n;
      }
    }
  }

  ghost predicate Apart(op: SasOperator, op': SasOperator) {
    forall e :: !(Applicable(op, e) && Applicable(op', e))
  }

  /** The operators come in the order of their actions, and of those of one action at most one is applicable in a state. */
  ghost predicate InOrder(ops: seq<SasOperator>, origin: seq<nat>) {
    && |ops| == |origin|
    && forall j, l | 0 <= j < l < |ops| :: origin[j] <= origin[l] && (origin[j] == origin[l] ==> Apart(ops[j], ops[l]))
  }

  lemma InOrderNext(ops: seq<SasOperator>, origin: seq<nat>, more: seq<SasOperator>, moreOrigin: seq<nat>, n: nat)
    requires InOrder(ops, origin) && (forall j | 0 <= j < |origin| :: origin[j] < n)
    requires |more| == |moreOrigin| && forall j | 0 <= j < |more| :: moreOrigin[j] == n
    requires forall i, j, e | 0 <= i < j < |more| :: !(Applicable(more[i], e) && Applicable(more[j], e))
    ensures InOrder(ops + more, origin + moreOrigin)
  {
    var all, origins := ops + more, origin + moreOrigin;
    forall j, l | 0 <= j < l < |all|
      ensures origins[j] <= origins[l] && (origins[j] == origins[l] ==> Apart(all[j], all[l]))
    {
      assert l < |ops| ==> all[l] == ops[l] && origins[l] == origin[l];
      assert j < |ops| ==> all[j] == ops[j] && origins[j] == origin[j];
      assert j >= |ops| ==> all[j] == more[j - |ops|] && all[l] == more[l - |ops|];
    }
  }

  /** translate_strips_operators */
  method TranslateOperators(actions: seq<Action>, d: Encoding) returns (ops: seq<SasOperator>, origin: seq<nat>)
    requires ValidEncoding(d) && forall a | a in actions :: EncodedAction(d, a)
    ensures MadeFrom(d, actions, |actions|, ops, origin) && InOrder(ops, origin)
  {
    ops, origin := [], [];
    for i := 0 to |actions|
      invariant MadeFrom(d, actions, i, ops, origin) && InOrder(ops, origin)
    {
      var more := TranslateOperator(actions[i], d);
      var moreOrigin := seq(|more|, _ => i);
      InOrderNext(ops, origin, more, moreOrigin, i);
      MadeFromNext(d, actions, i, ops, origin, more, moreOrigin, i + 1);
      ops, origin := ops + more, origin + moreOrigin;
    }
  }

  /** The translated task has the encoded initial state, a goal that says the same and the
      operators of the actions. */
  ghost predicate Represents(d: Encoding, t: StripsTask, r: Task, origin: seq<nat>) {
    && r.ranges == d.ranges && r.init == Enc(d, t.init)
    && MadeFrom(d, t.actions, |t.actions|, r.ops, origin) && InOrder(r.ops, origin)
    && forall s | Encodable(d, s) :: HoldsAll(Enc(d, s), r.goal) <==> HoldEncoded(d.dict, t.goal, s)
  }

  /** translate_task without axioms.  A goal that is no single conjunction fails an assertion there. */
  method Translate(t: StripsTask, d: Encoding) returns (r: Translated)
    requires Suits(d, t)
    ensures r.GoalViolatesMutex? <==> Refuted(d, t.goal)
    ensures r.GoalViolatesMutex? ==> forall states, acts :: !StripsPlan(t, states, acts)
    ensures r.EmptyGoal? ==> NoPlaces(d.dict, t.goal)
    ensures NoPlaces(d.dict, t.goal) ==> r.EmptyGoal? || r.GoalViolatesMutex?
    ensures r.EmptyGoal? ==> StripsPlan(t, [t.init], [])
    ensures r.NegativeGoal? ==> exists l | l in t.goal && l.negated :: Places(d.dict, l.atom) != []
    ensures FewPlaces(d.dict, t.goal) && !r.GoalViolatesMutex? ==> (r.NegativeGoal? <==> KeepsTwo(d.dict, d.ranges, t.goal))
    ensures r.Finite? ==> Represents(d, t, r.task, r.origin)
  {
    InitReached(t);
    var init := InitialValues(d, t.init);
    var goals := TranslateConditions(t.goal, d);
    if goals.None? {
      forall states, acts
        ensures !StripsPlan(t, states, acts)
      {
        assert StripsRun(t, states, acts) ==> Reached(t, states[|acts|]);
      }
      return GoalViolatesMutex;
    }
    if |goals.value| != 1 {
      NothingKeeps(d.dict, d.ranges, t.goal);
      return NegativeGoal;
    }
    var goal := Items(goals.value[0]);
    forall s | Encodable(d, s)
      ensures HoldsAll(Enc(d, s), goal) <==> HoldEncoded(d.dict, t.goal, s)
    {
      SomeHoldsOne(goals.value[0], Enc(d, s));
      assert goals.value == [goals.value[0]];
    }
    assert goal != [] ==> goal[0] in goal;
    if goal == [] {
      assert goals.value[0] == map[];
      GoalHolds(d, t, [t.init], []);
      return EmptyGoal;
    }
    var ops, origin := TranslateOperators(t.actions, d);
    r := Finite(Task(d.ranges, init, goal, ops), origin);
  }

  /** On states of runs the translated part of the goal is the whole goal. */
  lemma GoalHolds(d: Encoding, t: StripsTask, states: seq<Atoms>, acts: seq<nat>)
    requires Suits(d, t) && StripsRun(t, states, acts)
    ensures Encodable(d, states[|acts|])
    ensures HoldEncoded(d.dict, t.goal, states[|acts|]) <==> LiteralsHold(t.goal, states[|acts|])
  {
    assert Reached(t, states[|acts|]);
  }

  // ---- plans correspond ----

  lemma InitReached(t: StripsTask)
    ensures Reached(t, t.init)
  {
    assert StripsRun(t, [t.init], []) && [t.init][0] == t.init;
  }

  lemma ReachedStep(t: StripsTask, s: Atoms, i: nat, s': Atoms)
    requires Reached(t, s) && StripsStep(t, s, i, s')
    ensures Reached(t, s')
  {
    var states, acts :| StripsRun(t, states, acts) && states[|acts|] == s;
    var states', acts' := states + [s'], acts + [i];
    forall k | 0 <= k < |acts'|
      ensures StripsStep(t, states'[k], acts'[k], states'[k + 1])
    {
      assert k < |acts| ==> StripsStep(t, states[k], acts[k], states[k + 1]);
    }
    assert states'[|acts'|] == s';
  }

  lemma {:induction false} RunReached(t: StripsTask, states: seq<Atoms>, acts: seq<nat>, k: nat)
    requires StripsRun(t, states, acts) && k <= |acts|
    ensures Reached(t, states[k])
  {
    if k == 0 {
      InitReached(t);
    } else {
      RunReached(t, states, acts, k - 1);
      assert StripsStep(t, states[k - 1], acts[k - 1], states[k]);
      ReachedStep(t, states[k - 1], acts[k - 1], states[k]);
    }
  }

  /** Where an action can be applied in a reached state, it steps between encodable states. */
  lemma CanStep(d: Encoding, t: StripsTask, s: Atoms, i: nat)
    requires Suits(d, t) && Reached(t, s) && i < |t.actions| && LiteralsHold(t.actions[i].precondition, s)
    ensures Steps(d, t.actions[i], s) && Reached(t, Result(t.actions[i], s))
  {
    assert StripsStep(t, s, i, Result(t.actions[i], s));
    ReachedStep(t, s, i, Result(t.actions[i], s));
    assert Represented(d, t, s) && Represented(d, t, Result(t.actions[i], s));
  }

  /** The operator made from action `i` that applies in the encoded state. */
  ghost function ActionMove(r: Task, origin: seq<nat>, i: nat, e: State): (move: Option<nat>)
    ensures move.Some? <==> OneApplies(r.ops, origin, i, e)
    ensures move.Some? ==> move.value < |r.ops| && move.value < |origin| && origin[move.value] == i && Applicable(r.ops[move.value], e)
  {
    if OneApplies(r.ops, origin, i, e)
    then var l: nat :| l < |r.ops| && l < |origin| && origin[l] == i && Applicable(r.ops[l], e); Some(l)
    else None
  }

  /** An action step is a step by one of its operators, or leaves the encoded state as it is. */
  lemma ActionMoves(d: Encoding, t: StripsTask, r: Task, origin: seq<nat>, s: Atoms, i: nat, s': Atoms)
    requires Suits(d, t) && Represents(d, t, r, origin) && Reached(t, s) && StripsStep(t, s, i, s')
    ensures IsMove(r, Enc(d, s), ActionMove(r, origin, i, Enc(d, s)), Enc(d, s'), t.actions[i].cost)
  {
    CanStep(d, t, s, i);
    var move := ActionMove(r, origin, i, Enc(d, s));
    if move.Some? {
      assert Moves(r, Enc(d, s), move.value, Enc(d, s'), t.actions[i].cost);
    }
  }

  ghost function EncodeAll(d: Encoding, states: seq<Atoms>): (codes: seq<State>)
    ensures |codes| == |states| && forall k | 0 <= k < |codes| :: codes[k] == Enc(d, states[k])
  {
    seq(|states|, k requires 0 <= k < |states| => Enc(d, states[k]))
  }

  ghost function ActionMovesOf(d: Encoding, r: Task, origin: seq<nat>, states: seq<Atoms>, acts: seq<nat>): (moves: seq<Option<nat>>)
    requires |states| == |acts| + 1
    ensures |moves| == |acts| && forall k | 0 <= k < |moves| :: moves[k] == ActionMove(r, origin, acts[k], Enc(d, states[k]))
  {
    seq(|acts|, k requires 0 <= k < |acts| => ActionMove(r, origin, acts[k], Enc(d, states[k])))
  }

  /** The steps kept are those whose action has an applicable operator, each by such an operator and
      in the encoded state; the others leave the encoded state as it is. */
  ghost predicate KeepsActions(d: Encoding, r: Task, origin: seq<nat>, states: seq<Atoms>, acts: seq<nat>,
                               states': seq<State>, acts': seq<nat>, pos: seq<nat>) {
    && |states| == |acts| + 1 && |states'| == |acts'| + 1 && |pos| == |acts'|
    && (forall j | 0 <= j < |pos| :: pos[j] < |acts| && acts'[j] < |origin| && origin[acts'[j]] == acts[pos[j]]
                                     && states'[j] == Enc(d, states[pos[j]]))
    && (forall i, j | 0 <= i < j < |pos| :: pos[i] < pos[j])
    && (forall k | 0 <= k < |acts| :: k in pos <==> OneApplies(r.ops, origin, acts[k], Enc(d, states[k])))
    && (forall k | 0 <= k < |acts| && k !in pos :: Enc(d, states[k + 1]) == Enc(d, states[k]))
  }

  lemma StripsRunBelow(t: StripsTask, states: seq<Atoms>, acts: seq<nat>)
    requires StripsRun(t, states, acts)
    ensures Below(acts, |t.actions|)
  {
    forall k | 0 <= k < |acts|
      ensures acts[k] < |t.actions|
    {
      assert StripsStep(t, states[k], acts[k], states[k + 1]);
    }
  }

  /** Every plan of the grounded task, with exactly the steps deleted that have no applicable operator
      and change no encoded value, is a plan of the translated task through the encoded states. */
  lemma GroundPlanSurvives(d: Encoding, t: StripsTask, r: Task, origin: seq<nat>, states: seq<Atoms>, acts: seq<nat>)
    returns (states': seq<State>, acts': seq<nat>, pos: seq<nat>)
    requires Suits(d, t) && Represents(d, t, r, origin) && StripsPlan(t, states, acts)
    ensures IsPlan(r, states', acts') && KeepsActions(d, r, origin, states, acts, states', acts', pos)
    ensures Below(acts, |t.actions|) && Below(acts', |r.ops|) && PlanCost(r, acts') <= StripsCost(t, acts)
  {
    StripsRunBelow(t, states, acts);
    var codes, moves := EncodeAll(d, states), ActionMovesOf(d, r, origin, states, acts);
    forall k | 0 <= k < |acts|
      ensures IsMove(r, codes[k], moves[k], codes[k + 1], StripsCosts(t, acts)[k])
    {
      RunReached(t, states, acts, k);
      assert StripsStep(t, states[k], acts[k], states[k + 1]);
      ActionMoves(d, t, r, origin, states[k], acts[k], states[k + 1]);
    }
    states', acts', pos := Compress(r, codes, StripsCosts(t, acts), moves);
    forall k | 0 <= k < |acts| && k !in pos
      ensures Enc(d, states[k + 1]) == Enc(d, states[k])
    {
      assert IsMove(r, codes[k], moves[k], codes[k + 1], StripsCosts(t, acts)[k]);
    }
    GoalHolds(d, t, states, acts);
  }

  /** Reached states and their encodings. */
  ghost function EncodedPairs(d: Encoding, t: StripsTask): iset<(Atoms, State)> {
    iset s: Atoms | Reached(t, s) :: (s, Enc(d, s))
  }

  /** Action steps, numbered by the operators made from the action. */
  ghost function ActionSteps(t: StripsTask, origin: seq<nat>): iset<(Atoms, nat, Atoms)> {
    iset s, l: nat, s' | l < |origin| && StripsStep(t, s, origin[l], s') :: (s, l, s')
  }

  lemma OperatorFollowed(d: Encoding, t: StripsTask, r: Task, origin: seq<nat>, e: State, l: nat, e': State)
    requires Suits(d, t) && Represents(d, t, r, origin) && StepBy(r, e, l, e')
    ensures Follows(EncodedPairs(d, t), ActionSteps(t, origin), e, l, e')
  {
    forall s | (s, e) in EncodedPairs(d, t)
      ensures FollowsFrom(EncodedPairs(d, t), ActionSteps(t, origin), s, l, e')
    {
      assert Represented(d, t, s);
      var i := origin[l];
      CanStep(d, t, s, i);
      var s' := Result(t.actions[i], s);
      assert (s, l, s') in ActionSteps(t, origin) && (s', e') in EncodedPairs(d, t);
    }
  }

  /** Every plan of the translated task is a plan of the grounded task of the same cost. */
  lemma TranslatedPlanIsReal(d: Encoding, t: StripsTask, r: Task, origin: seq<nat>, states: seq<State>, acts: seq<nat>)
    returns (atoms: seq<Atoms>)
    requires Suits(d, t) && Represents(d, t, r, origin) && IsPlan(r, states, acts)
    ensures Below(acts, |origin|) && StripsPlan(t, atoms, Originals(origin, acts))
    ensures forall k | 0 <= k <= |acts| :: states[k] == Enc(d, atoms[k])
    ensures Below(acts, |r.ops|) && Below(Originals(origin, acts), |t.actions|)
    ensures StripsCost(t, Originals(origin, acts)) == PlanCost(r, acts)
  {
    RunBelow(r, states, acts);
    forall k | 0 <= k < |acts|
      ensures Follows(EncodedPairs(d, t), ActionSteps(t, origin), states[k], acts[k], states[k + 1])
    {
      assert StepBy(r, states[k], acts[k], states[k + 1]);
      OperatorFollowed(d, t, r, origin, states[k], acts[k], states[k + 1]);
    }
    InitReached(t);
    atoms := Lift(t.init, EncodedPairs(d, t), ActionSteps(t, origin), states, acts);
    LiftedRun(d, t, origin, states, acts, atoms);
    GoalHolds(d, t, atoms, Originals(origin, acts));
    assert StripsCosts(t, Originals(origin, acts)) == Costs(r, acts);
  }

  lemma LiftedRun(d: Encoding, t: StripsTask, origin: seq<nat>, states: seq<State>, acts: seq<nat>, atoms: seq<Atoms>)
    requires IsLift(EncodedPairs(d, t), ActionSteps(t, origin), states, acts, atoms) && atoms[0] == t.init && Below(acts, |origin|)
    ensures StripsRun(t, atoms, Originals(origin, acts))
    ensures forall k | 0 <= k <= |acts| :: states[k] == Enc(d, atoms[k])
  {
    forall k | 0 <= k < |acts|
      ensures StripsStep(t, atoms[k], Originals(origin, acts)[k], atoms[k + 1])
    {
      assert (atoms[k], acts[k], atoms[k + 1]) in ActionSteps(t, origin);
    }
    forall k | 0 <= k <= |acts|
      ensures states[k] == Enc(d, atoms[k])
    {
      assert (atoms[k], states[k]) in EncodedPairs(d, t);
    }
  }
}
