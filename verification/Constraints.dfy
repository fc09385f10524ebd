/** Systems of equalities and inequalities between variables and constants (constraints.py). */
module Constraints {
  import opened Sas
  import opened Collections

  /** A variable or a constant, numbered; the source uses strings and a leading "?" for variables. */
  datatype Symbol = Variable(id: nat) | Constant(id: nat)

  type Pair = (Symbol, Symbol)

  /** An assignment of constants: constants stand for themselves, variables for any value.  The
      values are an infinite set. */
  ghost predicate IsValuation(val: Symbol -> Symbol) {
    forall c: Symbol | c.Constant? :: val(c) == c
  }

  ghost predicate AllEqual(eqs: seq<Pair>, val: Symbol -> Symbol) {
    forall p | p in eqs :: val(p.0) == val(p.1)
  }

  ghost predicate SomeDiffers(parts: seq<Pair>, val: Symbol -> Symbol) {
    exists p | p in parts :: val(p.0) != val(p.1)
  }

  /** The equalities force the two symbols to be equal. */
  ghost predicate Entailed(eqs: seq<Pair>, x: Symbol, y: Symbol) {
    forall val: Symbol -> Symbol | AllEqual(eqs, val) :: val(x) == val(y)
  }

  class SymbolSet {
    var elems: set<Symbol>

    constructor (x: Symbol)
      ensures elems == {x}
    {
      elems := {x};
    }
  }

  type Classes = map<Symbol, SymbolSet>

  /** Every symbol is in its class, and all members of a class share the object. */
  ghost predicate ValidClasses(classes: Classes)
    reads classes.Values
  {
    forall x | x in classes :: x in classes[x].elems && forall y | y in classes[x].elems :: y in classes && classes[y] == classes[x]
  }

  /** The classes hold what the equalities force, and every equality is inside a class. */
  ghost predicate ClosureOf(eqs: seq<Pair>, classes: Classes)
    reads classes.Values
  {
    && ValidClasses(classes)
    && (forall p | p in eqs :: p.0 in classes && p.1 in classes && classes[p.0] == classes[p.1])
    && (forall x | x in classes :: AllEntailed(eqs, classes[x].elems))
  }

  lemma EntailedMore(eqs: seq<Pair>, p: Pair, x: Symbol, y: Symbol)
    requires Entailed(eqs, x, y)
    ensures Entailed(eqs + [p], x, y)
  {
    forall val: Symbol -> Symbol | AllEqual(eqs + [p], val)
      ensures AllEqual(eqs, val)
    {
      assert forall q | q in eqs :: q in eqs + [p];
    }
  }

  /** Across the classes joined by a new equality. */
  lemma EntailedAcross(eqs: seq<Pair>, p: Pair, x: Symbol, y: Symbol)
    requires Entailed(eqs, x, p.0) && Entailed(eqs, p.1, y)
    ensures Entailed(eqs + [p], x, y) && Entailed(eqs + [p], y, x)
  {
    forall val: Symbol -> Symbol | AllEqual(eqs + [p], val)
      ensures val(x) == val(y)
    {
      assert p in eqs + [p] && forall q | q in eqs :: q in eqs + [p];
      assert AllEqual(eqs, val);
    }
  }

  ghost predicate AllEntailed(eqs: seq<Pair>, xs: set<Symbol>) {
    forall x, y | x in xs && y in xs :: Entailed(eqs, x, y)
  }

  /** Joining two classes by an equality between them. */
  lemma MergedEntailed(eqs: seq<Pair>, p: Pair, left: set<Symbol>, right: set<Symbol>)
    requires AllEntailed(eqs, left) && AllEntailed(eqs, right)
    requires (p.0 in left && p.1 in right) || (p.1 in left && p.0 in right)
    ensures AllEntailed(eqs + [p], left + right)
  {
    forall x, y | x in left + right && y in left + right
      ensures Entailed(eqs + [p], x, y)
    {
      if (x in left && y in left) || (x in right && y in right) {
        EntailedMore(eqs, p, x, y);
      } else if Entailed(eqs, x, p.0) && Entailed(eqs, p.1, y) {
        EntailedAcross(eqs, p, x, y);
      } else {
        assert Entailed(eqs, y, p.0) && Entailed(eqs, p.1, x);
        EntailedAcross(eqs, p, y, x);
      }
    }
  }

  lemma StillEntailed(eqs: seq<Pair>, p: Pair, xs: set<Symbol>)
    requires AllEntailed(eqs, xs)
    ensures AllEntailed(eqs + [p], xs)
  {
    forall x, y | x in xs && y in xs
      ensures Entailed(eqs + [p], x, y)
    {
      EntailedMore(eqs, p, x, y);
    }
  }

  lemma SameClass(eqs: seq<Pair>, p: Pair, classes: Classes)
    requires ClosureOf(eqs, classes) && p.0 in classes && p.1 in classes && classes[p.0] == classes[p.1]
    ensures ClosureOf(eqs + [p], classes)
  {
    forall x | x in classes
      ensures AllEntailed(eqs + [p], classes[x].elems)
    {
      StillEntailed(eqs, p, classes[x].elems);
    }
  }

  class Assignment {
    const equalities: seq<Pair>
    var consistent: Option<bool>
    var mapping: map<Symbol, Symbol>
    var eqClasses: Classes

    constructor (eqs: seq<Pair>)
      ensures equalities == eqs && consistent == None && eqClasses == map[] && mapping == map[]
    {
      equalities, consistent, mapping, eqClasses := eqs, None, map[], map[];
    }

    /** eq_classes.setdefault(v, {v}) */
    method SetDefault(ghost eqs: seq<Pair>, v: Symbol) returns (c: SymbolSet)
      requires ClosureOf(eqs, eqClasses)
      modifies this`eqClasses
      ensures ClosureOf(eqs, eqClasses) && v in eqClasses && c == eqClasses[v]
      ensures forall x | x in old(eqClasses) :: x in eqClasses && eqClasses[x] == old(eqClasses)[x]
      ensures eqClasses.Values <= old(eqClasses.Values) + {c} && (c in old(eqClasses.Values) || fresh(c))
    {
      if v in eqClasses {
        return eqClasses[v];
      }
      c := new SymbolSet(v);
      eqClasses := eqClasses[v := c];
    }

    /** Join the classes of the symbols of an equality: `c1` takes the members of `c2`. */
    method Merge(ghost eqs: seq<Pair>, ghost p: Pair, c1: SymbolSet, c2: SymbolSet)
      requires ClosureOf(eqs, eqClasses) && p.0 in eqClasses && p.1 in eqClasses && c1 != c2
      requires {eqClasses[p.0], eqClasses[p.1]} == {c1, c2}
      modifies this`eqClasses, c1
      ensures ClosureOf(eqs + [p], eqClasses)
      ensures eqClasses.Keys == old(eqClasses.Keys) && eqClasses.Values <= old(eqClasses.Values)
    {
      ghost var before, left, right := eqClasses, c1.elems, c2.elems;
      MergedEntailed(eqs, p, left, right);
      forall x | x in before
        ensures AllEntailed(eqs + [p], before[x].elems)
      {
        StillEntailed(eqs, p, before[x].elems);
      }
      c1.elems := c1.elems + c2.elems;
      Redirect(c1, c2.elems);
    }

    /** The symbols share the object `c`. */
    method Redirect(c: SymbolSet, symbols: set<Symbol>)
      requires symbols <= eqClasses.Keys
      modifies this`eqClasses
      ensures eqClasses.Keys == old(eqClasses.Keys)
      ensures forall x | x in eqClasses :: eqClasses[x] == if x in symbols then c else old(eqClasses)[x]
    {
      var rest := symbols;
      while rest != {}
        invariant rest <= symbols && eqClasses.Keys == old(eqClasses.Keys)
        invariant forall x | x in eqClasses :: eqClasses[x] == if x in symbols && x !in rest then c else old(eqClasses)[x]
        decreases rest
      {
        var elem :| elem in rest;
        eqClasses := eqClasses[elem := c];
        rest := rest - {elem};
      }
    }

    /** _compute_equivalence_classes */
    method ComputeEquivalenceClasses()
      requires eqClasses == map[]
      modifies this`eqClasses
      ensures ClosureOf(equalities, eqClasses)
      ensures forall x | x in eqClasses :: fresh(eqClasses[x])
    {
      ghost var cells: set<SymbolSet> := {};
      for i := 0 to |equalities|
        invariant ClosureOf(equalities[..i], eqClasses) && eqClasses.Values <= cells && fresh(cells)
      {
        assert equalities[..i + 1] == equalities[..i] + [equalities[i]];
        cells := AddEquality(equalities[..i], equalities[i], cells);
      }
      assert equalities[..|equalities|] == equalities;
      assert forall x | x in eqClasses :: eqClasses[x] in eqClasses.Values;
    }

    method AddEquality(ghost eqs: seq<Pair>, p: Pair, ghost cells: set<SymbolSet>) returns (ghost more: set<SymbolSet>)
      requires ClosureOf(eqs, eqClasses) && eqClasses.Values <= cells
      modifies this`eqClasses, cells
      ensures ClosureOf(eqs + [p], eqClasses) && eqClasses.Values <= more && fresh(more - cells)
    {
      var c1 := SetDefault(eqs, p.0);
      var c2 := SetDefault(eqs, p.1);
      more := cells + {c1, c2};
      Join(eqs, p, c1, c2);
    }

    method Join(ghost eqs: seq<Pair>, ghost p: Pair, c1: SymbolSet, c2: SymbolSet)
      requires ClosureOf(eqs, eqClasses) && p.0 in eqClasses && p.1 in eqClasses
      requires eqClasses[p.0] == c1 && eqClasses[p.1] == c2
      modifies this`eqClasses, c1, c2
      ensures ClosureOf(eqs + [p], eqClasses) && eqClasses.Values <= old(eqClasses.Values)
    {
      if c1 == c2 {
        SameClass(eqs, p, eqClasses);
      } else if |c2.elems| > |c1.elems| {
        Merge(eqs, p, c2, c1);
      } else {
        Merge(eqs, p, c1, c2);
      }
    }

    /** The cached fields are right. */
    ghost predicate Valid()
      reads this, eqClasses.Values
    {
      && (eqClasses == map[] || ClosureOf(equalities, eqClasses))
      && (consistent == Some(true) ==> IsMapping(equalities, mapping))
      && (consistent == Some(false) ==> Contradictory(equalities))
    }

    /** _compute_mapping */
    method ComputeMapping()
      requires Valid() && consistent == None
      modifies this
      ensures consistent.Some? && (consistent == Some(true) ==> IsMapping(equalities, mapping))
      ensures consistent == Some(false) ==> Contradictory(equalities)
    {
      if eqClasses == map[] {
        ComputeEquivalenceClasses();
      }
      var m := BuildMapping(equalities, eqClasses);
      if m.None? {
        consistent := Some(false);
      } else {
        consistent, mapping := Some(true), m.value;
      }
    }

    /** is_consistent: some valuation satisfies the equalities. */
    method IsConsistent() returns (r: bool)
      requires Valid()
      modifies this
      ensures consistent == Some(r) && (r ==> IsMapping(equalities, mapping))
      ensures r <==> exists val: Symbol -> Symbol :: IsValuation(val) && AllEqual(equalities, val)
    {
      if consistent == None {
        ComputeMapping();
      }
      r := consistent.value;
      if r {
        ghost var val := Valuation(mapping);
        assert IsValuation(val) && AllEqual(equalities, val);
      } else {
        forall val: Symbol -> Symbol | IsValuation(val)
          ensures !AllEqual(equalities, val)
        {
          ContradictoryUnsolvable(equalities, val);
        }
      }
    }
  }

  /** The symbols mapped so far have the representative of their class. */
  ghost predicate Represents(classes: Classes, m: map<Symbol, Symbol>)
    reads classes.Values
  {
    forall x | x in m :: x in classes && IsRepresentative(classes[x].elems, m[x])
  }

  /** Every symbol is mapped to the representative of its class; None when a class holds two constants. */
  method BuildMapping(ghost eqs: seq<Pair>, classes: Classes) returns (r: Option<map<Symbol, Symbol>>)
    requires ClosureOf(eqs, classes)
    ensures r.Some? ==> IsMapping(eqs, r.value)
    ensures r.None? ==> Contradictory(eqs)
  {
    var rest, m := classes.Keys, map[];
    while rest != {}
      invariant rest <= classes.Keys
      invariant Represents(classes, m) && forall x | x in classes.Keys - rest :: x in m
      decreases rest
    {
      var x :| x in rest;
      var elems := classes[x].elems;
      var representative := Represent(elems);
      if representative.None? {
        TwoConstants(eqs, elems);
        return None;
      }
      m := MapAll(m, elems, representative.value);
      rest := rest - {x};
    }
    RepresentsIsMapping(eqs, classes, m);
    return Some(m);
  }

  method MapAll(m0: map<Symbol, Symbol>, elems: set<Symbol>, r: Symbol) returns (m: map<Symbol, Symbol>)
    ensures m.Keys == m0.Keys + elems && forall x | x in m :: m[x] == if x in elems then r else m0[x]
  {
    m := m0;
    var rest := elems;
    while rest != {}
      invariant rest <= elems && m.Keys == m0.Keys + (elems - rest)
      invariant forall x | x in m :: m[x] == if x in elems - rest then r else m0[x]
      decreases rest
    {
      var x :| x in rest;
      m := m[x := r];
      rest := rest - {x};
    }
  }

  lemma SameRepresentative(elems: set<Symbol>, r: Symbol, r': Symbol)
    requires IsRepresentative(elems, r) && IsRepresentative(elems, r')
    ensures r == r'
  {
  }

  lemma MappingAt(eqs: seq<Pair>, classes: Classes, m: map<Symbol, Symbol>, x: Symbol)
    requires ClosureOf(eqs, classes) && Represents(classes, m) && m.Keys == classes.Keys
    ensures Entailed(eqs, x, Get(m, x)) && (x.Constant? ==> Get(m, x) == x)
  {
    if x in m {
      assert IsRepresentative(classes[x].elems, m[x]) && x in classes[x].elems;
      assert AllEntailed(eqs, classes[x].elems);
    }
  }

  lemma RepresentsIsMapping(eqs: seq<Pair>, classes: Classes, m: map<Symbol, Symbol>)
    requires ClosureOf(eqs, classes) && Represents(classes, m) && m.Keys == classes.Keys
    ensures IsMapping(eqs, m)
  {
    forall p | p in eqs
      ensures Get(m, p.0) == Get(m, p.1)
    {
      SameRepresentative(classes[p.0].elems, m[p.0], m[p.1]);
    }
    forall x
      ensures Entailed(eqs, x, Get(m, x)) && (x.Constant? ==> Get(m, x) == x)
    {
      MappingAt(eqs, classes, m, x);
    }
  }

  // ---- representatives ----

  /** The constant of a class, or its least variable when it has no constant. */
  ghost predicate IsRepresentative(elems: set<Symbol>, r: Symbol) {
    && r in elems
    && if r.Constant? then forall c | c in elems && c.Constant? :: c == r
       else forall x | x in elems :: x.Variable? && r.id <= x.id
  }

  function Get(m: map<Symbol, Symbol>, x: Symbol): Symbol {
    if x in m then m[x] else x
  }

  function Valuation(m: map<Symbol, Symbol>): Symbol -> Symbol {
    x => Get(m, x)
  }

  /** The mapping solves the equalities and replaces symbols only by equal ones. */
  ghost predicate IsMapping(eqs: seq<Pair>, m: map<Symbol, Symbol>) {
    && IsValuation(Valuation(m)) && AllEqual(eqs, Valuation(m))
    && forall x :: Entailed(eqs, x, Get(m, x))
  }

  /** The equalities force two constants to be equal. */
  ghost predicate Contradictory(eqs: seq<Pair>) {
    exists c, d | Entailed(eqs, c, d) :: c.Constant? && d.Constant? && c != d
  }

  lemma TwoConstants(eqs: seq<Pair>, elems: set<Symbol>)
    requires AllEntailed(eqs, elems) && exists c, d | c in elems && d in elems :: c.Constant? && d.Constant? && c != d
    ensures Contradictory(eqs)
  {
    var c, d :| c in elems && d in elems && c.Constant? && d.Constant? && c != d;
    assert Entailed(eqs, c, d);
  }

  lemma ContradictoryUnsolvable(eqs: seq<Pair>, val: Symbol -> Symbol)
    requires Contradictory(eqs) && IsValuation(val)
    ensures !AllEqual(eqs, val)
  {
    var c, d :| Entailed(eqs, c, d) && c.Constant? && d.Constant? && c != d;
    assert val(c) == c && val(d) == d;
  }

  /** The representative of a class; None when it holds two constants. */
  method Represent(elems: set<Symbol>) returns (r: Option<Symbol>)
    requires elems != {}
    ensures r.Some? ==> IsRepresentative(elems, r.value)
    ensures r.None? ==> exists c, d | c in elems && d in elems :: c.Constant? && d.Constant? && c != d
  {
    var constants := set c | c in elems && c.Constant?;
    var variables := set x | x in elems && x.Variable?;
    if |constants| >= 2 {
      var c :| c in constants;
      assert |constants - {c}| == |constants| - 1;
      assert constants - {c} != {};
      var d :| d in constants - {c};
      return None;
    }
    if constants != {} {
      var c :| c in constants;
      assert |constants - {c}| == 0;
      forall d | d in elems && d.Constant?
        ensures d == c
      {
        assert d in constants && d !in constants - {c};
      }
      return Some(c);
    }
    forall x | x in elems
      ensures x in variables
    {
      assert x !in constants;
    }
    var least := Least(variables);
    return Some(least);
  }

  method Least(variables: set<Symbol>) returns (r: Symbol)
    requires variables != {} && forall x | x in variables :: x.Variable?
    ensures r in variables && forall x | x in variables :: r.id <= x.id
  {
    r :| r in variables;
    var rest := variables - {r};
    while rest != {}
      invariant r in variables && rest <= variables && forall x | x in variables - rest :: r.id <= x.id
      decreases rest
    {
      var x :| x in rest;
      r := if x.id < r.id then x else r;
      rest := rest - {x};
    }
  }

  // ---- systems ----

  /** A disjunction of inequalities under a mapping. */
  method IsSatisfiable(parts: seq<Pair>, m: map<Symbol, Symbol>) returns (r: bool)
    ensures r <==> SomeDiffers(parts, Valuation(m))
  {
    for i := 0 to |parts|
      invariant forall j | 0 <= j < i :: Get(m, parts[j].0) == Get(m, parts[j].1)
    {
      if Get(m, parts[i].0) != Get(m, parts[i].1) {
        assert parts[i] in parts;
        return true;
      }
    }
    return false;
  }

  ghost predicate AllDiffer(clauses: seq<seq<Pair>>, val: Symbol -> Symbol) {
    forall c | c in clauses :: SomeDiffers(c, val)
  }

  /** Whatever solution there is, the mapping is one: it identifies only what must be equal. */
  lemma MappingDiffers(eqs: seq<Pair>, m: map<Symbol, Symbol>, clauses: seq<seq<Pair>>, val: Symbol -> Symbol)
    requires IsMapping(eqs, m) && AllEqual(eqs, val) && AllDiffer(clauses, val)
    ensures AllDiffer(clauses, Valuation(m))
  {
    forall c | c in clauses
      ensures SomeDiffers(c, Valuation(m))
    {
      var p :| p in c && val(p.0) != val(p.1);
      assert Entailed(eqs, p.0, Get(m, p.0)) && Entailed(eqs, p.1, Get(m, p.1));
      assert Get(m, p.0) != Get(m, p.1);
    }
  }

  ghost predicate EachHolds(lists: seq<seq<seq<Pair>>>, val: Symbol -> Symbol) {
    forall i | 0 <= i < |lists| :: SomeHold(lists[i], val)
  }

  ghost predicate SolvesAll(lists: seq<seq<seq<Pair>>>, clauses: seq<seq<Pair>>, val: Symbol -> Symbol) {
    IsValuation(val) && AllDiffer(clauses, val) && EachHolds(lists, val)
  }

  /** A conjunction of disjunctions of conjunctions of equalities, and of disjunctions of inequalities. */
  class ConstraintSystem {
    var combinatorialAssignments: seq<seq<seq<Pair>>>
    var negClauses: seq<seq<Pair>>

    constructor ()
      ensures combinatorialAssignments == [] && negClauses == []
    {
      combinatorialAssignments, negClauses := [], [];
    }

    ghost predicate Solves(val: Symbol -> Symbol)
      reads this
    {
      SolvesAll(combinatorialAssignments, negClauses, val)
    }

    method AddAssignmentDisjunction(assignments: seq<seq<Pair>>)
      modifies this`combinatorialAssignments
      ensures combinatorialAssignments == old(combinatorialAssignments) + [assignments]
    {
      combinatorialAssignments := combinatorialAssignments + [assignments];
    }

    method AddNegativeClause(parts: seq<Pair>)
      requires parts != []
      modifies this`negClauses
      ensures negClauses == old(negClauses) + [parts]
    {
      negClauses := negClauses + [parts];
    }

    /** combine: solved by exactly the common solutions. */
    method Combine(other: ConstraintSystem) returns (combined: ConstraintSystem)
      ensures fresh(combined)
      ensures forall val: Symbol -> Symbol :: combined.Solves(val) <==> Solves(val) && other.Solves(val)
    {
      combined := new ConstraintSystem();
      combined.combinatorialAssignments := combinatorialAssignments + other.combinatorialAssignments;
      combined.negClauses := negClauses + other.negClauses;
      forall val: Symbol -> Symbol
        ensures combined.Solves(val) <==> Solves(val) && other.Solves(val)
      {
        BothSolve(combinatorialAssignments, other.combinatorialAssignments, val);
        BothDiffer(negClauses, other.negClauses, val);
      }
    }

    method AllClausesSatisfiable(m: map<Symbol, Symbol>) returns (r: bool)
      ensures r <==> AllDiffer(negClauses, Valuation(m))
    {
      for i := 0 to |negClauses|
        invariant forall j | 0 <= j < i :: SomeDiffers(negClauses[j], Valuation(m))
      {
        var ok := IsSatisfiable(negClauses[i], m);
        if !ok {
          assert negClauses[i] in negClauses;
          return false;
        }
      }
      return true;
    }

    /** is_solvable: true exactly when some valuation solves the system. */
    method IsSolvable() returns (r: bool)
      ensures r <==> exists val: Symbol -> Symbol :: Solves(val)
    {
      var choices := Product(combinatorialAssignments);
      for i := 0 to |choices|
        invariant forall val: Symbol -> Symbol, j | 0 <= j < i :: !(Solves(val) && AllEqual(Flatten(choices[j]), val))
      {
        var solved := IsChoiceSolvable(choices[i]);
        if solved {
          return true;
        }
      }
      forall val: Symbol -> Symbol
        ensures !Solves(val)
      {
        if EachHolds(combinatorialAssignments, val) {
          var x := PickHolding(combinatorialAssignments, val);
          InProduct(combinatorialAssignments, x);
        }
      }
      return false;
    }

    method IsChoiceSolvable(choice: seq<seq<Pair>>) returns (r: bool)
      requires choice in Product(combinatorialAssignments)
      ensures r ==> exists val: Symbol -> Symbol :: Solves(val)
      ensures !r ==> forall val: Symbol -> Symbol :: !(Solves(val) && AllEqual(Flatten(choice), val))
    {
      var combined := new Assignment(Flatten(choice));
      r := combined.IsConsistent();
      if r {
        ghost var m := combined.mapping;
        r := AllClausesSatisfiable(combined.mapping);
        if r {
          InProduct(combinatorialAssignments, choice);
          ChoiceSolves(combinatorialAssignments, choice, Valuation(m));
          assert Solves(Valuation(m));
        } else {
          forall val: Symbol -> Symbol | AllEqual(Flatten(choice), val)
            ensures !AllDiffer(negClauses, val)
          {
            if AllDiffer(negClauses, val) {
              MappingDiffers(Flatten(choice), m, negClauses, val);
            }
          }
        }
      }
    }
  }

  ghost predicate SomeHold(assignments: seq<seq<Pair>>, val: Symbol -> Symbol) {
    exists eqs | eqs in assignments :: AllEqual(eqs, val)
  }

  /** All equalities of the chosen assignments (_combine_assignments). */
  function Flatten(choice: seq<seq<Pair>>): seq<Pair> {
    if choice == [] then [] else choice[0] + Flatten(choice[1..])
  }

  lemma {:induction false} FlattenHolds(choice: seq<seq<Pair>>, val: Symbol -> Symbol)
    ensures AllEqual(Flatten(choice), val) <==> forall i | 0 <= i < |choice| :: AllEqual(choice[i], val)
  {
    if choice != [] {
      FlattenHolds(choice[1..], val);
      assert forall i | 0 < i < |choice| :: choice[i] == choice[1..][i - 1];
      assert AllEqual(Flatten(choice), val) <==> AllEqual(choice[0], val) && AllEqual(Flatten(choice[1..]), val);
    }
  }

  lemma ChoiceSolves(lists: seq<seq<seq<Pair>>>, choice: seq<seq<Pair>>, val: Symbol -> Symbol)
    requires Picks(choice, lists) && AllEqual(Flatten(choice), val)
    ensures EachHolds(lists, val)
  {
    FlattenHolds(choice, val);
    forall i | 0 <= i < |lists|
      ensures SomeHold(lists[i], val)
    {
      assert choice[i] in lists[i];
    }
  }

  /** A solution picks one assignment of each disjunction. */
  lemma {:induction false} PickHolding(lists: seq<seq<seq<Pair>>>, val: Symbol -> Symbol) returns (x: seq<seq<Pair>>)
    requires EachHolds(lists, val)
    ensures Picks(x, lists) && AllEqual(Flatten(x), val)
  {
    x := [];
    for i := 0 to |lists|
      invariant |x| == i && forall k | 0 <= k < i :: x[k] in lists[k] && AllEqual(x[k], val)
    {
      var eqs :| eqs in lists[i] && AllEqual(eqs, val);
      x := x + [eqs];
    }
    FlattenHolds(x, val);
  }

  lemma BothSolve(a: seq<seq<seq<Pair>>>, b: seq<seq<seq<Pair>>>, val: Symbol -> Symbol)
    ensures EachHolds(a + b, val) <==> EachHolds(a, val) && EachHolds(b, val)
  {
    if EachHolds(a + b, val) {
      forall i | 0 <= i < |a|
        ensures SomeHold(a[i], val)
      {
        assert SomeHold((a + b)[i], val);
      }
      forall i | 0 <= i < |b|
        ensures SomeHold(b[i], val)
      {
        assert SomeHold((a + b)[|a| + i], val);
      }
    }
  }

  lemma BothDiffer(a: seq<seq<Pair>>, b: seq<seq<Pair>>, val: Symbol -> Symbol)
    ensures AllDiffer(a + b, val) <==> AllDiffer(a, val) && AllDiffer(b, val)
  {
    assert forall c :: c in a + b <==> c in a || c in b;
  }
}
