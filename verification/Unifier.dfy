/** The discrimination tree that finds the conditions an atom matches (build_model.py:177-267). */
module Unifier {
  import opened Datalog

  /** A condition of a rule. */
  datatype Match = Match(rule: nat, cond: nat)

  datatype Constant = Constant(index: nat, name: string)

  datatype Generator =
    | Leaf(matches: seq<Match>)
    | Node(index: nat, matches: seq<Match>, branches: map<string, Generator>, next: Generator)

  /** No node asks for an argument beyond the arity. */
  predicate Within(g: Generator, arity: nat) {
    g.Node? ==> g.index < arity && Within(g.next, arity) && forall o | o in g.branches :: Within(g.branches[o], arity)
  }

  function Generate(g: Generator, a: Atom): seq<Match>
    requires Within(g, |a.args|)
  {
    match g
    case Leaf(matches) => matches
    case Node(index, matches, branches, next) =>
      var o := a.args[index];
      matches + (if o in branches then Generate(branches[o], a) else []) + Generate(next, a)
  }

  /** A path of tests that ends in one match. */
  function Chain(args: seq<Constant>, value: Match): Generator {
    if args == [] then Leaf([value])
    else Node(args[0].index, [], map[args[0].name := Chain(args[1..], value)], Leaf([]))
  }

  function Insert(g: Generator, args: seq<Constant>, value: Match): Generator
    decreases g, |args|
  {
    if args == [] then g.(matches := g.matches + [value])
    else
      var c := args[0];
      match g
      case Leaf(matches) => Chain(args, value).(matches := matches)
      case Node(index, matches, branches, next) =>
        if index < c.index then g.(next := Insert(next, args, value))
        else if index > c.index then Node(c.index, [], map[c.name := InsertNew(args[1..], value)], g)
        else
          var branch := if c.name in branches then Insert(branches[c.name], args[1..], value) else InsertNew(args[1..], value);
          g.(branches := branches[c.name := branch])
  }

  /** Insertion into an empty leaf. */
  function InsertNew(args: seq<Constant>, value: Match): Generator {
    if args == [] then Leaf([value]) else Chain(args, value).(matches := [])
  }

  // ---- an inserted match is found for exactly the atoms that fit ----

  ghost predicate InRange(args: seq<Constant>, arity: nat) {
    forall c | c in args :: c.index < arity
  }

  ghost predicate Fits(args: seq<Constant>, a: Atom)
    requires InRange(args, |a.args|)
  {
    forall c | c in args :: a.args[c.index] == c.name
  }

  ghost function Once(args: seq<Constant>, value: Match, a: Atom): multiset<Match>
    requires InRange(args, |a.args|)
  {
    if Fits(args, a) then multiset{value} else multiset{}
  }

  lemma FitsStep(args: seq<Constant>, a: Atom)
    requires InRange(args, |a.args|) && args != []
    ensures InRange(args[1..], |a.args|)
    ensures Fits(args, a) <==> a.args[args[0].index] == args[0].name && Fits(args[1..], a)
  {
    assert args == [args[0]] + args[1..];
    assert forall c :: c in args <==> c == args[0] || c in args[1..];
  }

  ghost function Found(g: Generator, a: Atom): multiset<Match>
    requires Within(g, |a.args|)
  {
    multiset(Generate(g, a))
  }

  lemma OnceStep(args: seq<Constant>, value: Match, a: Atom)
    requires InRange(args, |a.args|) && args != []
    ensures InRange(args[1..], |a.args|)
    ensures Once(args, value, a) == if a.args[args[0].index] == args[0].name then Once(args[1..], value, a) else multiset{}
  {
    FitsStep(args, a);
  }

  /** What is found below the branch for the argument of the atom. */
  ghost function BranchFound(g: Generator, a: Atom): multiset<Match>
    requires g.Node? && Within(g, |a.args|)
  {
    var o := a.args[g.index];
    if o in g.branches then Found(g.branches[o], a) else multiset{}
  }

  lemma NodeFound(g: Generator, a: Atom)
    requires g.Node? && Within(g, |a.args|)
    ensures Found(g, a) == multiset(g.matches) + BranchFound(g, a) + Found(g.next, a)
  {
    var o := a.args[g.index];
    var branch := if o in g.branches then Generate(g.branches[o], a) else [];
    assert Generate(g, a) == g.matches + branch + Generate(g.next, a);
  }

  /** A node with a single branch. */
  lemma SingleFound(index: nat, matches: seq<Match>, name: string, branch: Generator, next: Generator, a: Atom)
    requires index < |a.args| && Within(branch, |a.args|) && Within(next, |a.args|)
    ensures var g := Node(index, matches, map[name := branch], next);
            && Within(g, |a.args|)
            && Found(g, a) == multiset(matches) + (if a.args[index] == name then Found(branch, a) else multiset{}) + Found(next, a)
  {
    NodeFound(Node(index, matches, map[name := branch], next), a);
  }

  lemma NewParentFound(c: Constant, branch: Generator, g: Generator, more: multiset<Match>, a: Atom)
    requires c.index < |a.args| && Within(branch, |a.args|) && Within(g, |a.args|) && Found(branch, a) == more
    ensures var r := Node(c.index, [], map[c.name := branch], g);
            Within(r, |a.args|) && Found(r, a) == Found(g, a) + if a.args[c.index] == c.name then more else multiset{}
  {
    SingleFound(c.index, [], c.name, branch, g, a);
  }

  lemma {:induction false} ChainFinds(args: seq<Constant>, value: Match, a: Atom)
    requires InRange(args, |a.args|)
    ensures Within(Chain(args, value), |a.args|) && Found(Chain(args, value), a) == Once(args, value, a)
  {
    if args != [] {
      FitsStep(args, a);
      ChainFinds(args[1..], value, a);
      SingleFound(args[0].index, [], args[0].name, Chain(args[1..], value), Leaf([]), a);
    }
  }

  lemma LeafChainFinds(matches: seq<Match>, args: seq<Constant>, value: Match, a: Atom)
    requires InRange(args, |a.args|) && args != []
    ensures var g := Chain(args, value).(matches := matches);
            Within(g, |a.args|) && Found(g, a) == multiset(matches) + Once(args, value, a)
  {
    FitsStep(args, a);
    ChainFinds(args[1..], value, a);
    SingleFound(args[0].index, matches, args[0].name, Chain(args[1..], value), Leaf([]), a);
  }

  lemma InsertNewFinds(args: seq<Constant>, value: Match, a: Atom)
    requires InRange(args, |a.args|)
    ensures Within(InsertNew(args, value), |a.args|) && Found(InsertNew(args, value), a) == Once(args, value, a)
  {
    if args != [] {
      LeafChainFinds([], args, value, a);
    }
  }

  lemma InsertHere(g: Generator, value: Match, a: Atom)
    requires Within(g, |a.args|)
    ensures var r := g.(matches := g.matches + [value]); Within(r, |a.args|) && Found(r, a) == Found(g, a) + multiset{value}
  {
    if g.Node? {
      NodeFound(g, a);
      NodeFound(g.(matches := g.matches + [value]), a);
      assert BranchFound(g.(matches := g.matches + [value]), a) == BranchFound(g, a);
    }
  }

  lemma ReplaceNext(g: Generator, next: Generator, more: multiset<Match>, a: Atom)
    requires g.Node? && Within(g, |a.args|) && Within(next, |a.args|) && Found(next, a) == Found(g.next, a) + more
    ensures Within(g.(next := next), |a.args|) && Found(g.(next := next), a) == Found(g, a) + more
  {
    NodeFound(g, a);
    NodeFound(g.(next := next), a);
    assert BranchFound(g.(next := next), a) == BranchFound(g, a);
  }

  lemma ReplaceBranch(g: Generator, name: string, branch: Generator, more: multiset<Match>, a: Atom)
    requires g.Node? && Within(g, |a.args|) && Within(branch, |a.args|)
    requires Found(branch, a) == (if name in g.branches then Found(g.branches[name], a) else multiset{}) + more
    ensures var r := g.(branches := g.branches[name := branch]);
            Within(r, |a.args|) && Found(r, a) == Found(g, a) + if a.args[g.index] == name then more else multiset{}
  {
    var r := g.(branches := g.branches[name := branch]);
    NodeFound(g, a);
    assert forall o | o in r.branches && o != name :: r.branches[o] == g.branches[o];
    NodeFound(r, a);
  }

  /** Inserting adds the match to what is found for the atoms with the constants, and changes nothing
      for other atoms. */
  lemma {:induction false} InsertFinds(g: Generator, args: seq<Constant>, value: Match, a: Atom)
    requires Within(g, |a.args|) && InRange(args, |a.args|)
    ensures Within(Insert(g, args, value), |a.args|) && Found(Insert(g, args, value), a) == Found(g, a) + Once(args, value, a)
    decreases g, |args|
  {
    if args == [] {
      InsertHere(g, value, a);
    } else if g.Leaf? {
      LeafChainFinds(g.matches, args, value, a);
    } else {
      InsertInNode(g, args, value, a);
    }
  }

  lemma {:induction false} InsertInNode(g: Generator, args: seq<Constant>, value: Match, a: Atom)
    requires g.Node? && args != [] && Within(g, |a.args|) && InRange(args, |a.args|)
    ensures Within(Insert(g, args, value), |a.args|) && Found(Insert(g, args, value), a) == Found(g, a) + Once(args, value, a)
    decreases g, |args|, 0
  {
    var c, rest := args[0], args[1..];
    OnceStep(args, value, a);
    if g.index < c.index {
      InsertFinds(g.next, args, value, a);
      InsertedLater(g, args, value, a);
    } else if g.index > c.index {
      InsertedEarlier(g, args, value, a);
    } else {
      InsertInBranch(g, c.name, rest, value, a);
      InsertedSame(g, args, value, a);
    }
  }

  lemma InsertedLater(g: Generator, args: seq<Constant>, value: Match, a: Atom)
    requires g.Node? && args != [] && Within(g, |a.args|) && InRange(args, |a.args|) && g.index < args[0].index
    requires var next := Insert(g.next, args, value);
             Within(next, |a.args|) && Found(next, a) == Found(g.next, a) + Once(args, value, a)
    ensures Within(Insert(g, args, value), |a.args|) && Found(Insert(g, args, value), a) == Found(g, a) + Once(args, value, a)
  {
    var next := Insert(g.next, args, value);
    ReplaceNext(g, next, Once(args, value, a), a);
    assert Insert(g, args, value) == g.(next := next);
  }

  lemma InsertedEarlier(g: Generator, args: seq<Constant>, value: Match, a: Atom)
    requires g.Node? && args != [] && Within(g, |a.args|) && InRange(args, |a.args|) && g.index > args[0].index
    ensures Within(Insert(g, args, value), |a.args|) && Found(Insert(g, args, value), a) == Found(g, a) + Once(args, value, a)
  {
    var c, rest := args[0], args[1..];
    OnceStep(args, value, a);
    InsertNewFinds(rest, value, a);
    NewParentFound(c, InsertNew(rest, value), g, Once(rest, value, a), a);
    assert Insert(g, args, value) == Node(c.index, [], map[c.name := InsertNew(rest, value)], g);
  }

  function NewBranch(g: Generator, name: string, rest: seq<Constant>, value: Match): Generator
    requires g.Node?
  {
    if name in g.branches then Insert(g.branches[name], rest, value) else InsertNew(rest, value)
  }

  lemma InsertedSame(g: Generator, args: seq<Constant>, value: Match, a: Atom)
    requires g.Node? && args != [] && Within(g, |a.args|) && InRange(args, |a.args|) && g.index == args[0].index
    requires InRange(args[1..], |a.args|)
    requires var branch := NewBranch(g, args[0].name, args[1..], value);
             && Within(branch, |a.args|)
             && Found(branch, a) == (if args[0].name in g.branches then Found(g.branches[args[0].name], a) else multiset{})
                                    + Once(args[1..], value, a)
    ensures Within(Insert(g, args, value), |a.args|) && Found(Insert(g, args, value), a) == Found(g, a) + Once(args, value, a)
  {
    var c, rest := args[0], args[1..];
    OnceStep(args, value, a);
    var branch := NewBranch(g, c.name, rest, value);
    ReplaceBranch(g, c.name, branch, Once(rest, value, a), a);
    assert Insert(g, args, value) == g.(branches := g.branches[c.name := branch]);
  }

  lemma {:induction false} InsertInBranch(g: Generator, name: string, rest: seq<Constant>, value: Match, a: Atom)
    requires g.Node? && Within(g, |a.args|) && InRange(rest, |a.args|)
    ensures var branch := NewBranch(g, name, rest, value);
            && Within(branch, |a.args|)
            && Found(branch, a) == (if name in g.branches then Found(g.branches[name], a) else multiset{}) + Once(rest, value, a)
    decreases g, |rest|, 1
  {
    if name in g.branches {
      InsertFinds(g.branches[name], rest, value, a);
    } else {
      InsertNewFinds(rest, value, a);
    }
  }

  // ---- the unifier ----

  function Constants(args: seq<Arg>, n: nat): (r: seq<Constant>)
    requires n <= |args|
    ensures forall c :: c in r <==> c.index < n && args[c.index] == Const(c.name)
  {
    if n == 0 then []
    else
      var rest := Constants(args, n - 1);
      if args[n - 1].Const? then rest + [Constant(n - 1, args[n - 1].name)] else rest
  }

  lemma FitsIsMatches(c: Pattern, a: Atom)
    requires c.symbol == a.symbol && |c.args| == |a.args|
    ensures InRange(Constants(c.args, |c.args|), |a.args|) && (Fits(Constants(c.args, |c.args|), a) <==> Matches(c, a))
  {
    var constants := Constants(c.args, |c.args|);
    if Fits(constants, a) {
      forall p | 0 <= p < |c.args| && c.args[p].Const?
        ensures a.args[p] == c.args[p].name
      {
        assert Constant(p, c.args[p].name) in constants;
      }
    }
  }

  type Arities = map<string, nat>

  ghost predicate PatternArity(arities: Arities, c: Pattern) {
    c.symbol in arities && |c.args| == arities[c.symbol]
  }

  ghost predicate AtomArity(arities: Arities, a: Atom) {
    a.symbol in arities && |a.args| == arities[a.symbol]
  }

  /** Every symbol is used with one number of arguments. */
  ghost predicate RulesArity(arities: Arities, rules: seq<Rule>) {
    forall rule | rule in rules :: PatternArity(arities, rule.effect) && forall i | 0 <= i < |rule.conditions| :: PatternArity(arities, rule.conditions[i])
  }

  ghost predicate IsMatch(rules: seq<Rule>, m: Match, a: Atom) {
    m.rule < |rules| && m.cond < |rules[m.rule].conditions| && Matches(rules[m.rule].conditions[m.cond], a)
  }

  /** In the first `n` rules, or in the first `k` conditions of the next one. */
  predicate Before(m: Match, n: nat, k: nat) {
    m.rule < n || (m.rule == n && m.cond < k)
  }

  type Generators = map<string, Generator>

  ghost function AllFound(generators: Generators, a: Atom): multiset<Match>
    requires a.symbol in generators ==> Within(generators[a.symbol], |a.args|)
  {
    if a.symbol in generators then Found(generators[a.symbol], a) else multiset{}
  }

  /** For every atom the conditions so far that it matches are found, each once. */
  ghost predicate FindsBefore(arities: Arities, rules: seq<Rule>, generators: Generators, n: nat, k: nat) {
    forall a | AtomArity(arities, a) :: FindsFor(rules, generators, n, k, a)
  }

  ghost predicate FindsFor(rules: seq<Rule>, generators: Generators, n: nat, k: nat, a: Atom) {
    && (a.symbol in generators ==> Within(generators[a.symbol], |a.args|))
    && forall m :: AllFound(generators, a)[m] == if Before(m, n, k) && IsMatch(rules, m, a) then 1 else 0
  }

  function Inserted(generators: Generators, c: Pattern, value: Match): Generators {
    var root := if c.symbol in generators then generators[c.symbol] else Leaf([]);
    generators[c.symbol := Insert(root, Constants(c.args, |c.args|), value)]
  }

  lemma InsertedFinds(arities: Arities, rules: seq<Rule>, generators: Generators, n: nat, k: nat)
    requires n < |rules| && k < |rules[n].conditions| && RulesArity(arities, rules) && FindsBefore(arities, rules, generators, n, k)
    ensures FindsBefore(arities, rules, Inserted(generators, rules[n].conditions[k], Match(n, k)), n, k + 1)
  {
    var c, value := rules[n].conditions[k], Match(n, k);
    assert rules[n] in rules && PatternArity(arities, c);
    forall a | AtomArity(arities, a)
      ensures FindsFor(rules, Inserted(generators, c, value), n, k + 1, a)
    {
      assert FindsFor(rules, generators, n, k, a);
      InsertedFindsFor(rules, generators, n, k, a);
    }
  }

  lemma InsertedFindsFor(rules: seq<Rule>, generators: Generators, n: nat, k: nat, a: Atom)
    requires n < |rules| && k < |rules[n].conditions| && FindsFor(rules, generators, n, k, a)
    requires a.symbol == rules[n].conditions[k].symbol ==> |a.args| == |rules[n].conditions[k].args|
    ensures FindsFor(rules, Inserted(generators, rules[n].conditions[k], Match(n, k)), n, k + 1, a)
  {
    var c, value := rules[n].conditions[k], Match(n, k);
    InsertedFound(generators, c, value, a);
    NextCondition(n, k, k + 1);
    assert IsMatch(rules, value, a) <==> Matches(c, a);
    forall m
      ensures AllFound(Inserted(generators, c, value), a)[m] == if Before(m, n, k + 1) && IsMatch(rules, m, a) then 1 else 0
    {
      assert AllFound(generators, a)[m] == if Before(m, n, k) && IsMatch(rules, m, a) then 1 else 0;
      assert m != value ==> (Before(m, n, k + 1) <==> Before(m, n, k));
    }
  }

  lemma NextCondition(n: nat, k: nat, c: nat)
    requires c == k + 1
    ensures forall m :: Before(m, n, c) <==> Before(m, n, k) || m == Match(n, k)
    ensures !Before(Match(n, k), n, k)
  {
    forall m: Match
      ensures Before(m, n, c) <==> Before(m, n, k) || m == Match(n, k)
    {
      if m.rule == n && m.cond == k {
        assert m == Match(n, k);
      }
    }
  }

  lemma InsertedFound(generators: Generators, c: Pattern, value: Match, a: Atom)
    requires a.symbol in generators ==> Within(generators[a.symbol], |a.args|)
    requires a.symbol == c.symbol ==> |a.args| == |c.args|
    ensures var next := Inserted(generators, c, value);
            && (a.symbol in next ==> Within(next[a.symbol], |a.args|))
            && AllFound(next, a) == AllFound(generators, a) + if Matches(c, a) then multiset{value} else multiset{}
  {
    if a.symbol == c.symbol {
      var root := if c.symbol in generators then generators[c.symbol] else Leaf([]);
      FitsIsMatches(c, a);
      InsertFinds(root, Constants(c.args, |c.args|), value, a);
      assert Inserted(generators, c, value)[a.symbol] == Insert(root, Constants(c.args, |c.args|), value);
      assert Found(root, a) == AllFound(generators, a);
    } else {
      assert a.symbol in generators ==> Inserted(generators, c, value)[a.symbol] == generators[a.symbol];
      assert AllFound(generators, a) + multiset{} == AllFound(generators, a);
    }
  }

  class Unifier {
    const rules: seq<Rule>
    var generators: Generators

    ghost predicate Valid(arities: Arities)
      reads this
    {
      FindsBefore(arities, rules, generators, |rules|, 0)
    }

    constructor (rules: seq<Rule>, ghost arities: Arities)
      requires RulesArity(arities, rules)
      ensures Valid(arities) && this.rules == rules
    {
      this.rules, generators := rules, map[];
      new;
      for n := 0 to |rules|
        invariant FindsBefore(arities, rules, generators, n, 0)
      {
        for k := 0 to |rules[n].conditions|
          invariant FindsBefore(arities, rules, generators, n, k)
        {
          InsertedFinds(arities, rules, generators, n, k);
          InsertCondition(n, k);
        }
        NextRule(arities, rules, generators, n);
      }
    }

    method InsertCondition(n: nat, k: nat)
      requires n < |rules| && k < |rules[n].conditions|
      modifies this
      ensures generators == Inserted(old(generators), rules[n].conditions[k], Match(n, k))
    {
      var c := rules[n].conditions[k];
      var root := if c.symbol in generators then generators[c.symbol] else Leaf([]);
      generators := generators[c.symbol := Insert(root, Constants(c.args, |c.args|), Match(n, k))];
    }

    /** unify: every condition the atom matches, once. */
    method Unify(a: Atom, ghost arities: Arities) returns (r: seq<Match>)
      requires Valid(arities) && AtomArity(arities, a)
      ensures forall m :: multiset(r)[m] == if IsMatch(rules, m, a) then 1 else 0
    {
      assert FindsFor(rules, generators, |rules|, 0, a);
      if a.symbol in generators {
        r := Generate(generators[a.symbol], a);
      } else {
        r := [];
      }
    }
  }

  lemma NextRule(arities: Arities, rules: seq<Rule>, generators: Generators, n: nat)
    requires n < |rules| && FindsBefore(arities, rules, generators, n, |rules[n].conditions|)
    ensures FindsBefore(arities, rules, generators, n + 1, 0)
  {
    forall a | AtomArity(arities, a)
      ensures FindsFor(rules, generators, n + 1, 0, a)
    {
      assert FindsFor(rules, generators, n, |rules[n].conditions|, a);
      assert forall m | IsMatch(rules, m, a) :: Before(m, n + 1, 0) <==> Before(m, n, |rules[n].conditions|);
    }
  }
}
