/** Rules over atoms with numbered variables, what they derive, and their least model
    (build_model.py:12-61, 80-92, 119-128). */
module Datalog {
  import Strips

  type Atom = Strips.Atom

  /** The number of an effect position, an object, or the name of a variable. */
  datatype Arg = Var(no: nat) | Const(name: string) | Free(name: string)

  datatype Pattern = Pattern(symbol: string, args: seq<Arg>)

  datatype Kind = JOIN | PRODUCT | PROJECT

  datatype Rule = Rule(kind: Kind, effect: Pattern, conditions: seq<Pattern>)

  // ---- meaning ----

  type Substitution = Arg -> string

  function GroundArg(sigma: Substitution, arg: Arg): string {
    if arg.Const? then arg.name else sigma(arg)
  }

  function Ground(sigma: Substitution, c: Pattern): (a: Atom)
    ensures a.symbol == c.symbol && |a.args| == |c.args|
    ensures forall p | 0 <= p < |a.args| :: a.args[p] == GroundArg(sigma, c.args[p])
  {
    Strips.Atom(c.symbol, seq(|c.args|, p requires 0 <= p < |c.args| => GroundArg(sigma, c.args[p])))
  }

  /** The rule derives `a` from the atoms of `model`. */
  ghost predicate Derives(rule: Rule, model: iset<Atom>, a: Atom) {
    exists sigma: Substitution :: (forall c | c in rule.conditions :: Ground(sigma, c) in model) && Ground(sigma, rule.effect) == a
  }

  ghost predicate ClosedUnder(rules: seq<Rule>, model: iset<Atom>) {
    forall rule, a | rule in rules && Derives(rule, model, a) :: a in model
  }

  ghost predicate IsLeastModel(rules: seq<Rule>, facts: seq<Atom>, model: iset<Atom>) {
    && (forall a | a in facts :: a in model) && ClosedUnder(rules, model)
    && forall other: iset<Atom> | (forall a | a in facts :: a in other) && ClosedUnder(rules, other) :: model <= other
  }

  // ---- combinations of atoms ----

  predicate Matches(c: Pattern, a: Atom) {
    && c.symbol == a.symbol && |c.args| == |a.args|
    && forall p | 0 <= p < |c.args| && c.args[p].Const? :: a.args[p] == c.args[p].name
  }

  /** The argument occurs at this place of the conditions. */
  predicate OccursAt(conditions: seq<Pattern>, i: nat, p: nat, arg: Arg) {
    i < |conditions| && p < |conditions[i].args| && conditions[i].args[p] == arg
  }

  ghost predicate AllMatch(conditions: seq<Pattern>, atoms: seq<Atom>) {
    |atoms| == |conditions| && forall i | 0 <= i < |atoms| :: Matches(conditions[i], atoms[i])
  }

  /** All places of the argument hold the same object. */
  ghost predicate AgreeOn(conditions: seq<Pattern>, atoms: seq<Atom>, arg: Arg)
    requires AllMatch(conditions, atoms)
  {
    forall i: nat, p: nat, j: nat, q: nat {:trigger OccursAt(conditions, i, p, arg), OccursAt(conditions, j, q, arg)} |
      OccursAt(conditions, i, p, arg) && OccursAt(conditions, j, q, arg) :: atoms[i].args[p] == atoms[j].args[q]
  }

  /** Agreement on the numbered variables, which is all the evaluation looks at. */
  ghost predicate Agree(conditions: seq<Pattern>, atoms: seq<Atom>)
    requires AllMatch(conditions, atoms)
  {
    forall n: nat :: AgreeOn(conditions, atoms, Var(n))
  }

  /** The object some place of the argument holds. */
  ghost function LookUp(conditions: seq<Pattern>, atoms: seq<Atom>, arg: Arg): (o: string)
    requires AllMatch(conditions, atoms)
  {
    if exists i: nat, p: nat :: OccursAt(conditions, i, p, arg)
    then var i: nat, p: nat :| OccursAt(conditions, i, p, arg); atoms[i].args[p]
    else ""
  }

  lemma LookUpAt(conditions: seq<Pattern>, atoms: seq<Atom>, arg: Arg, i: nat, p: nat)
    requires AllMatch(conditions, atoms) && AgreeOn(conditions, atoms, arg) && OccursAt(conditions, i, p, arg)
    ensures LookUp(conditions, atoms, arg) == atoms[i].args[p]
  {
  }

  /** The effect for a combination of atoms. */
  ghost function EffectOf(rule: Rule, atoms: seq<Atom>): (a: Atom)
    requires AllMatch(rule.conditions, atoms)
  {
    Ground((arg: Arg) => if AllMatch(rule.conditions, atoms) then LookUp(rule.conditions, atoms, arg) else "", rule.effect)
  }

  lemma EffectOfAt(rule: Rule, atoms: seq<Atom>, p: nat)
    requires AllMatch(rule.conditions, atoms) && p < |rule.effect.args|
    ensures |EffectOf(rule, atoms).args| == |rule.effect.args| && EffectOf(rule, atoms).symbol == rule.effect.symbol
    ensures EffectOf(rule, atoms).args[p] ==
              if rule.effect.args[p].Const? then rule.effect.args[p].name else LookUp(rule.conditions, atoms, rule.effect.args[p])
  {
  }

  /** What the rule yields when only numbered variables are compared. */
  ghost predicate Yields(rule: Rule, model: iset<Atom>, a: Atom) {
    exists atoms :: YieldsFrom(rule, model, a, atoms)
  }

  ghost predicate YieldsFrom(rule: Rule, model: iset<Atom>, a: Atom, atoms: seq<Atom>) {
    && AllMatch(rule.conditions, atoms) && Agree(rule.conditions, atoms) && EffectOf(rule, atoms) == a
    && forall i | 0 <= i < |atoms| :: atoms[i] in model
  }

  // ---- well-formed rules ----

  ghost predicate Occurs(conditions: seq<Pattern>, arg: Arg) {
    exists i: nat, p: nat :: OccursAt(conditions, i, p, arg)
  }

  /** No variable occurs twice in an atom, effect variables are numbered by their positions and occur
      in the conditions, and conditions have no other numbers. */
  ghost predicate ValidRule(rule: Rule) {
    && rule.conditions != []
    && (forall p | 0 <= p < |rule.effect.args| :: rule.effect.args[p].Const?
                                                  || (rule.effect.args[p] == Var(p) && Occurs(rule.conditions, Var(p))))
    && (forall i: nat, p: nat, n: nat | OccursAt(rule.conditions, i, p, Var(n)) :: n < |rule.effect.args| && rule.effect.args[n] == Var(n))
    && (forall i: nat, p: nat, q: nat, arg: Arg |
          OccursAt(rule.conditions, i, p, arg) && OccursAt(rule.conditions, i, q, arg) && !arg.Const? :: p == q)
  }

  /** No variable that is missing from the effect is shared by conditions. */
  ghost predicate SharesNumbered(rule: Rule) {
    forall i: nat, p: nat, j: nat, q: nat, name: string | OccursAt(rule.conditions, i, p, Free(name)) && OccursAt(rule.conditions, j, q, Free(name)) :: i == j
  }

  // ---- both readings coincide ----

  function Grounds(sigma: Substitution, conditions: seq<Pattern>): (atoms: seq<Atom>)
    ensures |atoms| == |conditions| && forall i | 0 <= i < |atoms| :: atoms[i] == Ground(sigma, conditions[i])
  {
    seq(|conditions|, i requires 0 <= i < |conditions| => Ground(sigma, conditions[i]))
  }

  /** Every derivation is a combination of matching atoms. */
  lemma DerivesYields(rule: Rule, model: iset<Atom>, a: Atom)
    requires ValidRule(rule) && Derives(rule, model, a)
    ensures Yields(rule, model, a)
  {
    var sigma: Substitution :| (forall c | c in rule.conditions :: Ground(sigma, c) in model) && Ground(sigma, rule.effect) == a;
    var atoms := Grounds(sigma, rule.conditions);
    assert AllMatch(rule.conditions, atoms);
    assert forall i: nat, p: nat, n: nat | OccursAt(rule.conditions, i, p, Var(n)) :: atoms[i].args[p] == sigma(Var(n));
    assert Agree(rule.conditions, atoms);
    forall p | 0 <= p < |rule.effect.args|
      ensures EffectOf(rule, atoms).args[p] == a.args[p]
    {
      EffectOfAt(rule, atoms, p);
      if !rule.effect.args[p].Const? {
        var i: nat, q: nat :| OccursAt(rule.conditions, i, q, Var(p));
        LookUpAt(rule.conditions, atoms, Var(p), i, q);
      }
    }
    assert EffectOf(rule, atoms) == a;
    assert YieldsFrom(rule, model, a, atoms);
  }

  /** A combination that agrees on every variable is a derivation. */
  lemma AgreeingDerives(rule: Rule, model: iset<Atom>, atoms: seq<Atom>)
    requires ValidRule(rule) && AllMatch(rule.conditions, atoms) && forall i | 0 <= i < |atoms| :: atoms[i] in model
    requires forall arg: Arg | !arg.Const? :: AgreeOn(rule.conditions, atoms, arg)
    ensures Derives(rule, model, EffectOf(rule, atoms))
  {
    var sigma: Substitution := (arg: Arg) => if AllMatch(rule.conditions, atoms) then LookUp(rule.conditions, atoms, arg) else "";
    forall c | c in rule.conditions
      ensures Ground(sigma, c) in model
    {
      var i :| 0 <= i < |rule.conditions| && rule.conditions[i] == c;
      forall p | 0 <= p < |c.args|
        ensures GroundArg(sigma, c.args[p]) == atoms[i].args[p]
      {
        if !c.args[p].Const? {
          LookUpAt(rule.conditions, atoms, c.args[p], i, p);
        }
      }
      assert Ground(sigma, c).args == atoms[i].args;
      assert Ground(sigma, c) == atoms[i];
    }
    assert Ground(sigma, rule.effect) == EffectOf(rule, atoms);
  }

  /** If conditions share numbered variables only, the rule yields exactly what it derives. */
  lemma YieldsIsDerives(rule: Rule, model: iset<Atom>, a: Atom)
    requires ValidRule(rule) && SharesNumbered(rule)
    ensures Yields(rule, model, a) <==> Derives(rule, model, a)
  {
    if Derives(rule, model, a) {
      DerivesYields(rule, model, a);
    }
    if Yields(rule, model, a) {
      var atoms :| YieldsFrom(rule, model, a, atoms);
      forall arg: Arg | !arg.Const?
        ensures AgreeOn(rule.conditions, atoms, arg)
      {
        FreeAgree(rule, atoms, arg);
      }
      AgreeingDerives(rule, model, atoms);
    }
  }

  lemma FreeAgree(rule: Rule, atoms: seq<Atom>, arg: Arg)
    requires ValidRule(rule) && SharesNumbered(rule) && AllMatch(rule.conditions, atoms) && Agree(rule.conditions, atoms) && !arg.Const?
    ensures AgreeOn(rule.conditions, atoms, arg)
  {
    if arg.Free? {
      forall i: nat, p: nat, j: nat, q: nat | OccursAt(rule.conditions, i, p, arg) && OccursAt(rule.conditions, j, q, arg)
        ensures atoms[i].args[p] == atoms[j].args[q]
      {
        assert OccursAt(rule.conditions, i, p, Free(arg.name)) && OccursAt(rule.conditions, j, q, Free(arg.name));
        assert i == j;
      }
    } else {
      assert arg == Var(arg.no);
    }
  }

  // ---- numbering variables ----

  /** The position of a variable in the effect; the last one if there are several. */
  function Position(args: seq<Arg>, arg: Arg): (n: nat)
    requires arg in args
    ensures n < |args| && args[n] == arg
  {
    if args[|args| - 1] == arg then |args| - 1
    else
      assert args == args[..|args| - 1] + [args[|args| - 1]];
      Position(args[..|args| - 1], arg)
  }

  function Renamed(effect: Pattern, arg: Arg): Arg {
    if arg.Free? && arg in effect.args then Var(Position(effect.args, arg)) else arg
  }

  function RenamedPattern(effect: Pattern, c: Pattern): (r: Pattern)
    ensures r.symbol == c.symbol && |r.args| == |c.args|
    ensures forall p | 0 <= p < |r.args| :: r.args[p] == Renamed(effect, c.args[p])
  {
    Pattern(c.symbol, seq(|c.args|, p requires 0 <= p < |c.args| => Renamed(effect, c.args[p])))
  }

  ghost predicate DistinctArgs(c: Pattern) {
    && (forall p | 0 <= p < |c.args| :: !c.args[p].Var?)
    && forall p, q | 0 <= p < q < |c.args| && c.args[p].Free? :: c.args[p] != c.args[q]
  }

  /** As after normalization: no variable twice in an atom, and effect variables occur in conditions. */
  ghost predicate Normalized(rule: Rule) {
    && rule.conditions != [] && DistinctArgs(rule.effect) && (forall i | 0 <= i < |rule.conditions| :: DistinctArgs(rule.conditions[i]))
    && forall p | 0 <= p < |rule.effect.args| && rule.effect.args[p].Free? :: Occurs(rule.conditions, rule.effect.args[p])
  }

  ghost predicate Numbers(rule: Rule, r: Rule) {
    && r.kind == rule.kind && r.effect == RenamedPattern(rule.effect, rule.effect) && |r.conditions| == |rule.conditions|
    && forall i | 0 <= i < |r.conditions| :: r.conditions[i] == RenamedPattern(rule.effect, rule.conditions[i])
  }

  /** variables_to_numbers */
  method VariablesToNumbers(rule: Rule) returns (r: Rule)
    requires DistinctArgs(rule.effect)
    ensures Numbers(rule, r)
  {
    var args, rename := NumberEffect(rule.effect);
    var conditions := [];
    for j := 0 to |rule.conditions|
      invariant |conditions| == j && forall i | 0 <= i < j :: conditions[i] == RenamedPattern(rule.effect, rule.conditions[i])
    {
      var c := rule.conditions[j];
      var renamed := seq(|c.args|, p requires 0 <= p < |c.args| => if c.args[p] in rename then Var(rename[c.args[p]]) else c.args[p]);
      assert renamed == RenamedPattern(rule.effect, c).args;
      conditions := conditions + [Pattern(c.symbol, renamed)];
    }
    r := Rule(rule.kind, Pattern(rule.effect.symbol, args), conditions);
  }

  method NumberEffect(effect: Pattern) returns (args: seq<Arg>, rename: map<Arg, nat>)
    requires DistinctArgs(effect)
    ensures args == RenamedPattern(effect, effect).args
    ensures forall arg :: arg in rename <==> arg.Free? && arg in effect.args
    ensures forall arg | arg in rename :: rename[arg] == Position(effect.args, arg)
  {
    args, rename := effect.args, map[];
    for i := 0 to |args|
      invariant |args| == |effect.args| && forall p | i <= p < |args| :: args[p] == effect.args[p]
      invariant forall p | 0 <= p < i :: args[p] == Renamed(effect, effect.args[p])
      invariant forall arg :: arg in rename <==> arg.Free? && arg in effect.args[..i]
      invariant forall arg | arg in rename :: rename[arg] == Position(effect.args, arg)
    {
      var arg := effect.args[i];
      assert effect.args[..i + 1] == effect.args[..i] + [arg];
      if arg.Free? {
        PositionIs(effect, i);
        rename := rename[arg := i];
        args := args[i := Var(i)];
      }
    }
    assert effect.args[..|effect.args|] == effect.args;
  }

  lemma PositionIs(effect: Pattern, i: nat)
    requires DistinctArgs(effect) && i < |effect.args| && effect.args[i].Free?
    ensures Position(effect.args, effect.args[i]) == i
  {
  }

  lemma RenamedInjective(effect: Pattern, a: Arg, b: Arg)
    requires !a.Var? && !b.Var? && Renamed(effect, a) == Renamed(effect, b)
    ensures a == b
  {
  }

  lemma NumberedIsValid(rule: Rule, r: Rule)
    requires Normalized(rule) && Numbers(rule, r)
    ensures ValidRule(r)
  {
    forall p | 0 <= p < |r.effect.args| && !r.effect.args[p].Const?
      ensures r.effect.args[p] == Var(p) && Occurs(r.conditions, Var(p))
    {
      var arg := rule.effect.args[p];
      assert Position(rule.effect.args, arg) == p;
      var i: nat, q: nat :| OccursAt(rule.conditions, i, q, arg);
      assert OccursAt(r.conditions, i, q, Var(p));
    }
    forall i: nat, p: nat, q: nat, arg: Arg | OccursAt(r.conditions, i, p, arg) && OccursAt(r.conditions, i, q, arg) && !arg.Const?
      ensures p == q
    {
      RenamedInjective(rule.effect, rule.conditions[i].args[p], rule.conditions[i].args[q]);
      assert DistinctArgs(rule.conditions[i]);
    }
    forall i: nat, p: nat, n: nat | OccursAt(r.conditions, i, p, Var(n))
      ensures n < |r.effect.args| && r.effect.args[n] == Var(n)
    {
      var arg := rule.conditions[i].args[p];
      assert DistinctArgs(rule.conditions[i]) && !arg.Var?;
      assert n == Position(rule.effect.args, arg) && rule.effect.args[n] == arg;
    }
  }

  /** Numbering the variables does not change what a rule derives. */
  lemma NumberedDerivesSame(rule: Rule, r: Rule, model: iset<Atom>, a: Atom)
    requires Normalized(rule) && Numbers(rule, r)
    ensures Derives(rule, model, a) <==> Derives(r, model, a)
  {
    if Derives(rule, model, a) {
      var sigma: Substitution :| (forall c | c in rule.conditions :: Ground(sigma, c) in model) && Ground(sigma, rule.effect) == a;
      var tau: Substitution := (arg: Arg) => if arg.Var? && arg.no < |rule.effect.args| then sigma(rule.effect.args[arg.no]) else sigma(arg);
      GroundSame(rule, r, sigma, tau, model, a);
      DerivesBy(r, model, a, tau);
    }
    if Derives(r, model, a) {
      var tau: Substitution :| (forall c | c in r.conditions :: Ground(tau, c) in model) && Ground(tau, r.effect) == a;
      var sigma: Substitution := (arg: Arg) => tau(Renamed(rule.effect, arg));
      GroundSame(rule, r, sigma, tau, model, a);
      DerivesBy(rule, model, a, sigma);
    }
  }

  lemma DerivesBy(rule: Rule, model: iset<Atom>, a: Atom, sigma: Substitution)
    requires (forall c | c in rule.conditions :: Ground(sigma, c) in model) && Ground(sigma, rule.effect) == a
    ensures Derives(rule, model, a)
  {
  }

  lemma GroundSame(rule: Rule, r: Rule, sigma: Substitution, tau: Substitution, model: iset<Atom>, a: Atom)
    requires Normalized(rule) && Numbers(rule, r)
    requires forall arg: Arg | arg.Free? :: sigma(arg) == tau(Renamed(rule.effect, arg))
    ensures (forall c | c in rule.conditions :: Ground(sigma, c) in model) <==> forall c | c in r.conditions :: Ground(tau, c) in model
    ensures Ground(sigma, rule.effect) == Ground(tau, r.effect)
  {
    assert Ground(sigma, rule.effect).args == Ground(tau, r.effect).args;
    forall i | 0 <= i < |r.conditions|
      ensures Ground(sigma, rule.conditions[i]) == Ground(tau, r.conditions[i])
    {
      assert DistinctArgs(rule.conditions[i]);
      assert Ground(sigma, rule.conditions[i]).args == Ground(tau, r.conditions[i]).args;
    }
    if forall c | c in rule.conditions :: Ground(sigma, c) in model {
      forall c | c in r.conditions
        ensures Ground(tau, c) in model
      {
        var i :| 0 <= i < |r.conditions| && r.conditions[i] == c;
        assert rule.conditions[i] in rule.conditions;
      }
    }
    if forall c | c in r.conditions :: Ground(tau, c) in model {
      forall c | c in rule.conditions
        ensures Ground(sigma, c) in model
      {
        var i :| 0 <= i < |rule.conditions| && rule.conditions[i] == c;
        assert r.conditions[i] in r.conditions;
      }
    }
  }
}
