/** When a join that compares numbered variables only yields exactly what it derives
    (build_model.py:67-111). */
module JoinExactness {
  import opened Datalog
  import opened RuleIndexes
  import Strips

  /** On every set of atoms the rule yields only what it derives. */
  ghost predicate IsExact(rule: Rule) {
    forall model: iset<Atom>, a | Yields(rule, model, a) :: Derives(rule, model, a)
  }

  /** Every variable the two conditions share is in the effect, or they are the same condition. */
  ghost predicate ComparesAll(rule: Rule) {
    SharesNumbered(rule) || (|rule.conditions| == 2 && rule.conditions[0] == rule.conditions[1])
  }

  // ---- two equal conditions ----

  /** One of the two atoms serves both conditions. */
  lemma SameConditionsExact(rule: Rule, model: iset<Atom>, a: Atom)
    requires ValidRule(rule) && |rule.conditions| == 2 && rule.conditions[0] == rule.conditions[1]
    requires Yields(rule, model, a)
    ensures Derives(rule, model, a)
  {
    var atoms :| YieldsFrom(rule, model, a, atoms);
    var twice := [atoms[0], atoms[0]];
    assert AllMatch(rule.conditions, twice);
    forall arg: Arg | !arg.Const?
      ensures AgreeOn(rule.conditions, twice, arg)
    {
      forall i: nat, p: nat, j: nat, q: nat | OccursAt(rule.conditions, i, p, arg) && OccursAt(rule.conditions, j, q, arg)
        ensures twice[i].args[p] == twice[j].args[q]
      {
        assert OccursAt(rule.conditions, 0, p, arg) && OccursAt(rule.conditions, 0, q, arg);
      }
    }
    forall p | 0 <= p < |rule.effect.args|
      ensures EffectOf(rule, twice).args[p] == EffectOf(rule, atoms).args[p]
    {
      EffectOfAt(rule, atoms, p);
      EffectOfAt(rule, twice, p);
      if !rule.effect.args[p].Const? {
        var i: nat, q: nat :| OccursAt(rule.conditions, i, q, Var(p));
        assert OccursAt(rule.conditions, 0, q, Var(p));
        LookUpAt(rule.conditions, atoms, Var(p), 0, q);
        LookUpAt(rule.conditions, twice, Var(p), 0, q);
      }
    }
    assert EffectOf(rule, twice) == a;
    AgreeingDerives(rule, model, twice);
  }

  // ---- objects that tell the two conditions apart ----

  function Pad(n: nat): (r: string)
    ensures |r| == n
  {
    seq(n, _ => ' ')
  }

  /** The object for an argument of the first or second condition; only named variables differ. */
  function Fresh(b: nat, first: bool, arg: Arg): string {
    match arg
    case Const(name) => name
    case Var(no) => ['v'] + Pad(b + no)
    case Free(name) => [if first then 'l' else 'r'] + Pad(b) + name
  }

  lemma FreshParts(b: nat, first: bool, arg: Arg)
    ensures !arg.Const? ==> |Fresh(b, first, arg)| > b
    ensures arg.Var? ==> Fresh(b, first, arg)[0] == 'v' && |Fresh(b, first, arg)| == b + arg.no + 1
    ensures arg.Free? ==> Fresh(b, first, arg)[0] == (if first then 'l' else 'r') && Fresh(b, first, arg)[b + 1..] == arg.name
  {
  }

  lemma FreshInjective(b: nat, f: bool, g: bool, x: Arg, y: Arg)
    requires (x.Const? ==> |x.name| <= b) && (y.Const? ==> |y.name| <= b)
    requires Fresh(b, f, x) == Fresh(b, g, y)
    ensures x == y && (x.Free? ==> f == g)
  {
    FreshParts(b, f, x);
    FreshParts(b, g, y);
  }

  function Longest(args: seq<Arg>): (b: nat)
    ensures forall p | 0 <= p < |args| && args[p].Const? :: |args[p].name| <= b
  {
    if args == [] then 0
    else
      var last := |args| - 1;
      var b := Longest(args[..last]);
      assert forall p | 0 <= p < last :: args[..last][p] == args[p];
      if args[last].Const? && |args[last].name| > b then |args[last].name| else b
  }

  function Bound(rule: Rule): (b: nat)
    requires |rule.conditions| == 2
    ensures forall i: nat, p: nat | i < 2 && p < |rule.conditions[i].args| && rule.conditions[i].args[p].Const? ::
              |rule.conditions[i].args[p].name| <= b
  {
    Longest(rule.conditions[0].args) + Longest(rule.conditions[1].args)
  }

  function Skewed(rule: Rule, i: nat): (a: Atom)
    requires |rule.conditions| == 2 && i < 2
    ensures a.symbol == rule.conditions[i].symbol && |a.args| == |rule.conditions[i].args|
    ensures forall p | 0 <= p < |a.args| :: a.args[p] == Fresh(Bound(rule), i == 0, rule.conditions[i].args[p])
  {
    var b := Bound(rule);
    Ground((arg: Arg) => Fresh(b, i == 0, arg), rule.conditions[i])
  }

  ghost function SkewedModel(rule: Rule): iset<Atom>
    requires |rule.conditions| == 2
  {
    iset{Skewed(rule, 0), Skewed(rule, 1)}
  }

  /** The two atoms agree on the numbered variables, so the rule yields the effect. */
  lemma SkewedYields(rule: Rule)
    requires ValidRule(rule) && |rule.conditions| == 2
    ensures var atoms := [Skewed(rule, 0), Skewed(rule, 1)];
            && AllMatch(rule.conditions, atoms) && Yields(rule, SkewedModel(rule), EffectOf(rule, atoms))
            && forall p: nat | p < |rule.effect.args| && rule.effect.args[p] == Var(p) ::
                 EffectOf(rule, atoms).args[p] == Fresh(Bound(rule), true, Var(p))
  {
    var atoms := [Skewed(rule, 0), Skewed(rule, 1)];
    assert AllMatch(rule.conditions, atoms);
    assert forall i: nat, p: nat, n: nat | OccursAt(rule.conditions, i, p, Var(n)) ::
        atoms[i].args[p] == Fresh(Bound(rule), true, Var(n));
    assert Agree(rule.conditions, atoms);
    assert YieldsFrom(rule, SkewedModel(rule), EffectOf(rule, atoms), atoms);
    forall p: nat | p < |rule.effect.args| && rule.effect.args[p] == Var(p)
      ensures EffectOf(rule, atoms).args[p] == Fresh(Bound(rule), true, Var(p))
    {
      EffectOfAt(rule, atoms, p);
      var i: nat, q: nat :| OccursAt(rule.conditions, i, q, Var(p));
      LookUpAt(rule.conditions, atoms, Var(p), i, q);
    }
  }

  // ---- no substitution explains the effect ----

  /** The substitution keeps the objects of the numbered variables. */
  ghost predicate KeepsNumbers(rule: Rule, sigma: Substitution)
    requires |rule.conditions| == 2
  {
    forall i: nat, p: nat, n: nat | OccursAt(rule.conditions, i, p, Var(n)) :: sigma(Var(n)) == Fresh(Bound(rule), true, Var(n))
  }

  /** Condition `i` becomes the atom of condition `j`. */
  ghost predicate MapsTo(rule: Rule, sigma: Substitution, i: nat, j: nat)
    requires |rule.conditions| == 2 && i < 2 && j < 2
  {
    Ground(sigma, rule.conditions[i]) == Skewed(rule, j)
  }

  /** Then constants and numbers of condition `i` stand at the same places in condition `j`. */
  lemma MapsArg(rule: Rule, sigma: Substitution, i: nat, j: nat, p: nat)
    requires |rule.conditions| == 2 && i < 2 && j < 2 && KeepsNumbers(rule, sigma) && MapsTo(rule, sigma, i, j)
    requires p < |rule.conditions[i].args|
    ensures |rule.conditions[j].args| == |rule.conditions[i].args| && rule.conditions[j].symbol == rule.conditions[i].symbol
    ensures GroundArg(sigma, rule.conditions[i].args[p]) == Fresh(Bound(rule), j == 0, rule.conditions[j].args[p])
    ensures !rule.conditions[i].args[p].Free? ==> rule.conditions[j].args[p] == rule.conditions[i].args[p]
  {
    var x, y := rule.conditions[i].args[p], rule.conditions[j].args[p];
    assert Ground(sigma, rule.conditions[i]).args[p] == Skewed(rule, j).args[p];
    if !x.Free? {
      assert x.Var? ==> OccursAt(rule.conditions, i, p, Var(x.no));
      FreshInjective(Bound(rule), true, j == 0, x, y);
    }
  }

  /** If both conditions become the atom of condition `j`, they are equal. */
  lemma BothMap(rule: Rule, sigma: Substitution, i: nat, j: nat)
    requires ValidRule(rule) && rule.kind == JOIN && Validated(rule) && i < 2 && j < 2 && KeepsNumbers(rule, sigma)
    requires MapsTo(rule, sigma, i, j) && MapsTo(rule, sigma, j, j)
    ensures rule.conditions[i] == rule.conditions[j]
  {
    var c, d := rule.conditions[i], rule.conditions[j];
    assert Ground(sigma, c).symbol == Skewed(rule, j).symbol && |Ground(sigma, c).args| == |Skewed(rule, j).args|;
    forall p | 0 <= p < |c.args|
      ensures c.args[p] == d.args[p]
    {
      MapsArg(rule, sigma, i, j, p);
      if c.args[p].Free? {
        var q := SharedPlace(rule, i, j, p);
        MapsArg(rule, sigma, j, j, q);
        FreshInjective(Bound(rule), j == 0, j == 0, d.args[q], d.args[p]);
      }
    }
    assert c.args == d.args;
  }

  /** In a validated join each named variable occurs in both conditions. */
  lemma SharedPlace(rule: Rule, i: nat, j: nat, p: nat) returns (q: nat)
    requires ValidRule(rule) && rule.kind == JOIN && Validated(rule) && i < 2 && j < 2
    requires p < |rule.conditions[i].args| && rule.conditions[i].args[p].Free?
    ensures q < |rule.conditions[j].args| && rule.conditions[j].args[q] == rule.conditions[i].args[p]
  {
    var arg := rule.conditions[i].args[p];
    assert arg in Variables(rule.conditions[i]);
    assert arg !in Variables(rule.effect);
    assert arg in Variables(rule.conditions[0]) + Variables(rule.conditions[1]);
    assert arg in Variables(rule.conditions[0]) * Variables(rule.conditions[1]);
    assert arg in rule.conditions[j].args;
    q :| 0 <= q < |rule.conditions[j].args| && rule.conditions[j].args[q] == arg;
  }

  /** The conditions cannot become their own two atoms, nor those of each other. */
  lemma NotSeparately(rule: Rule, sigma: Substitution, i: nat, j: nat)
    requires ValidRule(rule) && rule.kind == JOIN && Validated(rule) && KeepsNumbers(rule, sigma) && !SharesNumbered(rule)
    requires i + j == 1
    ensures !(MapsTo(rule, sigma, 0, i) && MapsTo(rule, sigma, 1, j))
  {
    if MapsTo(rule, sigma, 0, i) && MapsTo(rule, sigma, 1, j) {
      var p, q := UnnumberedShared(rule);
      var x, y := rule.conditions[i].args, rule.conditions[j].args;
      MapsArg(rule, sigma, 0, i, p);
      MapsArg(rule, sigma, 1, j, q);
      if i == 1 {
        MapsArg(rule, sigma, 1, j, p);
      }
      FreshInjective(Bound(rule), i == 0, i == 1, x[p], y[q]);
    }
  }

  lemma UnnumberedShared(rule: Rule) returns (p: nat, q: nat)
    requires |rule.conditions| == 2 && !SharesNumbered(rule)
    ensures p < |rule.conditions[0].args| && q < |rule.conditions[1].args|
    ensures rule.conditions[0].args[p].Free? && rule.conditions[0].args[p] == rule.conditions[1].args[q]
  {
    var i: nat, a: nat, j: nat, b: nat, name: string :|
      OccursAt(rule.conditions, i, a, Free(name)) && OccursAt(rule.conditions, j, b, Free(name)) && i != j;
    p, q := if i == 0 then a else b, if i == 0 then b else a;
  }

  lemma SkewedNotDerived(rule: Rule, a: Atom)
    requires ValidRule(rule) && rule.kind == JOIN && Validated(rule) && !ComparesAll(rule)
    requires a == EffectOf(rule, [Skewed(rule, 0), Skewed(rule, 1)])
    requires AllMatch(rule.conditions, [Skewed(rule, 0), Skewed(rule, 1)])
    ensures !Derives(rule, SkewedModel(rule), a)
  {
    if Derives(rule, SkewedModel(rule), a) {
      var sigma: Substitution :|
        (forall c | c in rule.conditions :: Ground(sigma, c) in SkewedModel(rule)) && Ground(sigma, rule.effect) == a;
      SkewedYields(rule);
      NumbersKept(rule, sigma, a);
      assert rule.conditions[0] in rule.conditions && rule.conditions[1] in rule.conditions;
      NotExplained(rule, sigma);
    }
  }

  lemma NumbersKept(rule: Rule, sigma: Substitution, a: Atom)
    requires ValidRule(rule) && |rule.conditions| == 2 && Ground(sigma, rule.effect) == a
    requires forall p: nat | p < |rule.effect.args| && rule.effect.args[p] == Var(p) :: a.args[p] == Fresh(Bound(rule), true, Var(p))
    ensures KeepsNumbers(rule, sigma)
  {
    forall i: nat, p: nat, n: nat | OccursAt(rule.conditions, i, p, Var(n))
      ensures sigma(Var(n)) == Fresh(Bound(rule), true, Var(n))
    {
      assert a.args[n] == GroundArg(sigma, rule.effect.args[n]);
    }
  }

  lemma NotExplained(rule: Rule, sigma: Substitution)
    requires ValidRule(rule) && rule.kind == JOIN && Validated(rule) && !ComparesAll(rule) && KeepsNumbers(rule, sigma)
    ensures !(Ground(sigma, rule.conditions[0]) in SkewedModel(rule) && Ground(sigma, rule.conditions[1]) in SkewedModel(rule))
  {
    NotSeparately(rule, sigma, 0, 1);
    NotSeparately(rule, sigma, 1, 0);
    NotTogether(rule, sigma, 0, 1);
    NotTogether(rule, sigma, 1, 0);
    NoneLeft(rule, sigma);
  }

  lemma NoneLeft(rule: Rule, sigma: Substitution)
    requires |rule.conditions| == 2
    requires !(MapsTo(rule, sigma, 0, 0) && MapsTo(rule, sigma, 1, 1)) && !(MapsTo(rule, sigma, 0, 1) && MapsTo(rule, sigma, 1, 0))
    requires !(MapsTo(rule, sigma, 1, 0) && MapsTo(rule, sigma, 0, 0)) && !(MapsTo(rule, sigma, 0, 1) && MapsTo(rule, sigma, 1, 1))
    ensures !(Ground(sigma, rule.conditions[0]) in SkewedModel(rule) && Ground(sigma, rule.conditions[1]) in SkewedModel(rule))
  {
    InModel(rule, sigma, 0);
    InModel(rule, sigma, 1);
  }

  lemma InModel(rule: Rule, sigma: Substitution, i: nat)
    requires |rule.conditions| == 2 && i < 2
    ensures Ground(sigma, rule.conditions[i]) in SkewedModel(rule) <==> MapsTo(rule, sigma, i, 0) || MapsTo(rule, sigma, i, 1)
  {
  }

  lemma NotTogether(rule: Rule, sigma: Substitution, i: nat, j: nat)
    requires ValidRule(rule) && rule.kind == JOIN && Validated(rule) && !ComparesAll(rule) && KeepsNumbers(rule, sigma)
    requires i + j == 1
    ensures !(MapsTo(rule, sigma, i, j) && MapsTo(rule, sigma, j, j))
  {
    if MapsTo(rule, sigma, i, j) && MapsTo(rule, sigma, j, j) {
      BothMap(rule, sigma, i, j);
    }
  }

  // ---- the exact condition ----

  /** A validated join is evaluated correctly on every set of atoms exactly when each shared variable
      is in the effect or both conditions are the same. */
  lemma JoinExactIff(rule: Rule)
    requires ValidRule(rule) && rule.kind == JOIN && Validated(rule)
    ensures IsExact(rule) <==> ComparesAll(rule)
  {
    if ComparesAll(rule) {
      ComparingIsExact(rule);
    } else {
      var a := EffectOfSkewed(rule);
      assert Yields(rule, SkewedModel(rule), a) && !Derives(rule, SkewedModel(rule), a);
    }
  }

  lemma EffectOfSkewed(rule: Rule) returns (a: Atom)
    requires ValidRule(rule) && rule.kind == JOIN && Validated(rule) && !ComparesAll(rule)
    ensures Yields(rule, SkewedModel(rule), a) && !Derives(rule, SkewedModel(rule), a)
  {
    SkewedYields(rule);
    a := EffectOf(rule, [Skewed(rule, 0), Skewed(rule, 1)]);
    SkewedNotDerived(rule, a);
  }

  lemma ComparingIsExact(rule: Rule)
    requires ValidRule(rule) && ComparesAll(rule)
    ensures IsExact(rule)
  {
    forall model: iset<Atom>, a | Yields(rule, model, a)
      ensures Derives(rule, model, a)
    {
      if SharesNumbered(rule) {
        YieldsIsDerives(rule, model, a);
      } else {
        SameConditionsExact(rule, model, a);
      }
    }
  }

  /** What the condition is for all kinds of rules: only joins can fail it. */
  ghost predicate Comparing(rule: Rule) {
    rule.kind == JOIN ==> ComparesAll(rule)
  }

  lemma ComparingYields(rule: Rule, model: iset<Atom>, a: Atom)
    requires ValidRule(rule) && Validated(rule) && Comparing(rule)
    ensures Yields(rule, model, a) <==> Derives(rule, model, a)
  {
    if rule.kind != JOIN {
      SharesNumberedUnlessJoin(rule);
    }
    ComparingIsExact(rule);
    if Derives(rule, model, a) {
      DerivesYields(rule, model, a);
    }
  }

  // ---- an input ----

  /** r() :- p(?x), q(?x) */
  function ForgetfulJoin(): Rule {
    Rule(JOIN, Pattern("r", []), [Pattern("p", [Free("x")]), Pattern("q", [Free("x")])])
  }

  /** The rule passes its validation, and yields r() from p(a) and q(b) without deriving it. */
  lemma ForgetfulJoinFails()
    ensures ValidRule(ForgetfulJoin()) && Validated(ForgetfulJoin())
    ensures var model := iset{Strips.Atom("p", ["a"]), Strips.Atom("q", ["b"])};
            Yields(ForgetfulJoin(), model, Strips.Atom("r", [])) && !Derives(ForgetfulJoin(), model, Strips.Atom("r", []))
  {
    var rule := ForgetfulJoin();
    var atoms := [Strips.Atom("p", ["a"]), Strips.Atom("q", ["b"])];
    var model := iset{atoms[0], atoms[1]};
    assert Free("x") in Variables(rule.conditions[0]) * Variables(rule.conditions[1]);
    assert Variables(rule.conditions[0]) == Variables(rule.conditions[1]) == {Free("x")} && Variables(rule.effect) == {};
    assert AllMatch(rule.conditions, atoms) && Agree(rule.conditions, atoms);
    assert EffectOf(rule, atoms).args == [];
    assert YieldsFrom(rule, model, Strips.Atom("r", []), atoms);
    if Derives(rule, model, Strips.Atom("r", [])) {
      var sigma: Substitution :|
        (forall c | c in rule.conditions :: Ground(sigma, c) in model) && Ground(sigma, rule.effect) == Strips.Atom("r", []);
      assert rule.conditions[0] in rule.conditions && rule.conditions[1] in rule.conditions;
      ForgetfulNotGround(sigma);
    }
  }

  lemma ForgetfulNotGround(sigma: Substitution)
    ensures var model := iset{Strips.Atom("p", ["a"]), Strips.Atom("q", ["b"])};
            !(Ground(sigma, Pattern("p", [Free("x")])) in model && Ground(sigma, Pattern("q", [Free("x")])) in model)
  {
    var left, right := Ground(sigma, Pattern("p", [Free("x")])), Ground(sigma, Pattern("q", [Free("x")]));
    assert left.args[0] == sigma(Free("x")) == right.args[0];
    assert left.symbol == "p" && right.symbol == "q";
    assert Strips.Atom("p", ["a"]).args[0] == "a" != "b" == Strips.Atom("q", ["b"]).args[0];
  }
}
