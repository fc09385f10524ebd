/** Simplification and negation of the rules of derived variables
    (axiom_rules.py:131-163, 257-301). */
module AxiomRules {
  import opened Sas
  import opened Collections
  import opened AxiomLayers

  datatype Axiom = Axiom(condition: seq<Literal>, effect: Literal)

  /** The true atoms. */
  type Valuation = set<nat>

  predicate True(l: Literal, m: Valuation) {
    (l.atom in m) != l.negated
  }

  function Negation(l: Literal): Literal {
    l.(negated := !l.negated)
  }

  ghost predicate BodyTrue(condition: seq<Literal>, m: Valuation) {
    forall l | l in condition :: True(l, m)
  }

  /** The disjunction of the bodies. */
  ghost predicate SomeBody(axioms: seq<Axiom>, m: Valuation) {
    exists a | a in axioms :: BodyTrue(a.condition, m)
  }

  ghost predicate Satisfies(axioms: seq<Axiom>, m: Valuation) {
    forall a | a in axioms && BodyTrue(a.condition, m) :: True(a.effect, m)
  }

  ghost predicate Within(a: seq<Literal>, b: seq<Literal>) {
    forall l | l in a :: l in b
  }

  predicate SelfRecursive(a: Axiom) {
    a.effect in a.condition
  }

  ghost predicate SameHead(axioms: seq<Axiom>, head: Literal) {
    forall a | a in axioms :: a.effect == head
  }

  // ---- simplification ----

  ghost predicate Cleaned(a: Axiom, b: Axiom) {
    && b.effect == a.effect && Within(a.condition, b.condition) && Within(b.condition, a.condition)
    && forall i, j | 0 <= i < j < |b.condition| :: b.condition[i] != b.condition[j]
  }

  ghost predicate AllCleaned(axioms: seq<Axiom>, clean: seq<Axiom>) {
    |clean| == |axioms| && forall i | 0 <= i < |axioms| :: Cleaned(axioms[i], clean[i])
  }

  method Clean(axioms: seq<Axiom>) returns (clean: seq<Axiom>)
    ensures AllCleaned(axioms, clean)
  {
    clean := [];
    for i := 0 to |axioms|
      invariant AllCleaned(axioms[..i], clean)
    {
      var condition := ListOf(set l | l in axioms[i].condition);
      clean := clean + [axioms[i].(condition := condition)];
    }
  }

  type LiteralIndex = map<Literal, set<nat>>

  function Listed(index: LiteralIndex, l: Literal): set<nat> {
    if l in index then index[l] else {}
  }

  ghost predicate Indexes(clean: seq<Axiom>, n: nat, index: LiteralIndex)
    requires n <= |clean|
  {
    forall l, i: nat :: i in Listed(index, l) <==> i < n && !SelfRecursive(clean[i]) && l in clean[i].condition
  }

  method AddToIndex(index: LiteralIndex, condition: seq<Literal>, n: nat) returns (r: LiteralIndex)
    ensures forall l, i: nat :: i in Listed(r, l) <==> i in Listed(index, l) || (i == n && l in condition)
  {
    r := index;
    for j := 0 to |condition|
      invariant forall l, i: nat :: i in Listed(r, l) <==> i in Listed(index, l) || (i == n && l in condition[..j])
    {
      var l := condition[j];
      ghost var before := r;
      assert condition[..j + 1] == condition[..j] + [l];
      r := r[l := Listed(r, l) + {n}];
      assert forall k :: Listed(r, k) == if k == l then Listed(before, l) + {n} else Listed(before, k);
    }
    assert condition[..|condition|] == condition;
  }

  /** The self-recursive axioms, and the others by the literals of their conditions. */
  method IndexAxioms(clean: seq<Axiom>) returns (skip: set<nat>, index: LiteralIndex)
    ensures forall i: nat :: i in skip <==> i < |clean| && SelfRecursive(clean[i])
    ensures Indexes(clean, |clean|, index)
  {
    skip, index := {}, map[];
    assert forall l :: Listed(index, l) == {};
    for n := 0 to |clean|
      invariant forall i: nat :: i in skip <==> i < n && SelfRecursive(clean[i])
      invariant Indexes(clean, n, index)
    {
      if SelfRecursive(clean[n]) {
        skip := skip + {n};
      } else {
        index := AddToIndex(index, clean[n].condition, n);
      }
    }
  }

  /** The axioms whose conditions contain every literal of a non-empty condition. */
  method Dominated(clean: seq<Axiom>, index: LiteralIndex, condition: seq<Literal>) returns (r: set<nat>)
    requires Indexes(clean, |clean|, index) && condition != []
    ensures forall i: nat :: i in r <==> i < |clean| && !SelfRecursive(clean[i]) && Within(condition, clean[i].condition)
  {
    r := Listed(index, condition[0]);
    assert condition[..1] == [condition[0]];
    for j := 1 to |condition|
      invariant forall i: nat :: i in r <==> i < |clean| && !SelfRecursive(clean[i]) && Within(condition[..j], clean[i].condition)
    {
      assert condition[..j + 1] == condition[..j] + [condition[j]];
      r := r * Listed(index, condition[j]);
    }
    assert condition[..|condition|] == condition;
  }

  ghost predicate Kept(clean: seq<Axiom>, skip: set<nat>, i: nat) {
    i < |clean| && i !in skip
  }

  ghost predicate HasDominator(clean: seq<Axiom>, skip: set<nat>, j: nat)
    requires j < |clean|
  {
    exists i: nat :: Kept(clean, skip, i) && Within(clean[i].condition, clean[j].condition)
  }

  /** The first `n` axioms that are kept dominate nothing else that is kept; whatever is skipped is
      self-recursive or dominated by something kept. */
  ghost predicate Progress(clean: seq<Axiom>, skip: set<nat>, n: nat) {
    && (forall i | i in skip :: i < |clean|)
    && (forall i | 0 <= i < |clean| && SelfRecursive(clean[i]) :: i in skip)
    && (forall j | j in skip && !SelfRecursive(clean[j]) :: HasDominator(clean, skip, j))
    && (forall i: nat, j: nat | Kept(clean, skip, i) && i < n && Kept(clean, skip, j) && i != j ::
          !Within(clean[i].condition, clean[j].condition))
  }

  lemma SkipDominated(clean: seq<Axiom>, skip: set<nat>, n: nat, dominated: set<nat>)
    requires Progress(clean, skip, n) && Kept(clean, skip, n)
    requires forall i: nat :: i in dominated <==>
               i < |clean| && !SelfRecursive(clean[i]) && Within(clean[n].condition, clean[i].condition)
    ensures Progress(clean, skip + (dominated - {n}), n + 1)
  {
    var next := skip + (dominated - {n});
    assert Kept(clean, next, n);
    forall j | j in next && !SelfRecursive(clean[j])
      ensures HasDominator(clean, next, j)
    {
      if j in skip {
        var i: nat :| Kept(clean, skip, i) && Within(clean[i].condition, clean[j].condition);
        if i !in next {
          assert Kept(clean, next, i);
        }
      }
    }
  }

  /** What the simplified axioms are: cleaned axioms that are not self-recursive, none containing
      another, with every other axiom dominated. */
  ghost predicate Simplified(axioms: seq<Axiom>, r: seq<Axiom>) {
    && (forall a {:trigger Drawn(axioms, a)} | a in r :: !SelfRecursive(a) && Drawn(axioms, a))
    && (forall p, q | 0 <= p < |r| && 0 <= q < |r| && p != q :: !Within(r[p].condition, r[q].condition))
    && (forall b {:trigger Covered(r, b)} | b in axioms && !SelfRecursive(b) :: Covered(r, b))
  }

  ghost predicate Drawn(axioms: seq<Axiom>, a: Axiom) {
    exists b | b in axioms :: Cleaned(b, a)
  }

  ghost predicate Covered(r: seq<Axiom>, b: Axiom) {
    exists a | a in r :: Within(a.condition, b.condition)
  }

  /** The axioms at the increasing positions that are not skipped. */
  ghost predicate Selects(clean: seq<Axiom>, skip: set<nat>, n: nat, positions: seq<nat>, r: seq<Axiom>) {
    && |positions| == |r| && n <= |clean|
    && (forall p | 0 <= p < |r| :: Kept(clean, skip, positions[p]) && positions[p] < n && r[p] == clean[positions[p]])
    && (forall p, q | 0 <= p < q < |r| :: positions[p] < positions[q])
    && (forall i: nat | Kept(clean, skip, i) && i < n :: i in positions)
  }

  method Select(clean: seq<Axiom>, skip: set<nat>) returns (r: seq<Axiom>, ghost positions: seq<nat>)
    ensures Selects(clean, skip, |clean|, positions, r)
  {
    r, positions := [], [];
    for n := 0 to |clean|
      invariant Selects(clean, skip, n, positions, r)
    {
      if n !in skip {
        r, positions := r + [clean[n]], positions + [n];
      }
    }
  }

  lemma SelectedIsSimplified(axioms: seq<Axiom>, clean: seq<Axiom>, skip: set<nat>, positions: seq<nat>, r: seq<Axiom>)
    requires AllCleaned(axioms, clean) && Progress(clean, skip, |clean|) && Selects(clean, skip, |clean|, positions, r)
    ensures Simplified(axioms, r)
  {
    forall a | a in r
      ensures !SelfRecursive(a) && Drawn(axioms, a)
    {
      var p :| 0 <= p < |r| && r[p] == a;
      assert Cleaned(axioms[positions[p]], a) && axioms[positions[p]] in axioms;
    }
    forall b | b in axioms && !SelfRecursive(b)
      ensures Covered(r, b)
    {
      var j :| 0 <= j < |axioms| && axioms[j] == b;
      assert Cleaned(b, clean[j]);
      var i := Dominator(clean, skip, j);
      var p :| 0 <= p < |positions| && positions[p] == i;
      assert r[p] in r && Within(r[p].condition, b.condition);
    }
  }

  lemma Dominator(clean: seq<Axiom>, skip: set<nat>, j: nat) returns (i: nat)
    requires Progress(clean, skip, |clean|) && j < |clean| && !SelfRecursive(clean[j])
    ensures Kept(clean, skip, i) && Within(clean[i].condition, clean[j].condition)
  {
    if j in skip {
      assert HasDominator(clean, skip, j);
      i :| Kept(clean, skip, i) && Within(clean[i].condition, clean[j].condition);
    } else {
      i := j;
    }
  }

  /** compute_simplified_axioms */
  method ComputeSimplified(axioms: seq<Axiom>) returns (r: seq<Axiom>)
    ensures Simplified(axioms, r)
  {
    var clean := Clean(axioms);
    var skip, index := IndexAxioms(clean);
    for n := 0 to |clean|
      invariant Progress(clean, skip, n)
    {
      if n !in skip {
        if clean[n].condition == [] {
          EmptyDominates(axioms, clean, n);
          return [clean[n]];
        }
        var dominated := Dominated(clean, index, clean[n].condition);
        SkipDominated(clean, skip, n, dominated);
        skip := skip + (dominated - {n});
      }
    }
    ghost var positions;
    r, positions := Select(clean, skip);
    SelectedIsSimplified(axioms, clean, skip, positions, r);
  }

  lemma EmptyDominates(axioms: seq<Axiom>, clean: seq<Axiom>, n: nat)
    requires AllCleaned(axioms, clean) && n < |clean| && clean[n].condition == []
    ensures Simplified(axioms, [clean[n]])
  {
    assert Cleaned(axioms[n], clean[n]) && axioms[n] in axioms;
    assert Drawn(axioms, clean[n]) && clean[n] in [clean[n]];
    forall b | b in axioms
      ensures Covered([clean[n]], b)
    {
      assert Within(clean[n].condition, b.condition);
    }
  }

  lemma CleanedSame(b: Axiom, a: Axiom, m: Valuation)
    requires Cleaned(b, a)
    ensures BodyTrue(b.condition, m) <==> BodyTrue(a.condition, m)
  {
  }

  lemma WithinWeaker(a: seq<Literal>, b: seq<Literal>, m: Valuation)
    requires Within(a, b) && BodyTrue(b, m)
    ensures BodyTrue(a, m)
  {
  }

  lemma SimplifiedOrigin(axioms: seq<Axiom>, r: seq<Axiom>, m: Valuation, a: Axiom) returns (b: Axiom)
    requires Simplified(axioms, r) && a in r
    ensures b in axioms && b.effect == a.effect && (BodyTrue(b.condition, m) <==> BodyTrue(a.condition, m))
  {
    assert Drawn(axioms, a);
    b :| b in axioms && Cleaned(b, a);
    CleanedSame(b, a, m);
  }

  lemma SimplifiedCovers(axioms: seq<Axiom>, r: seq<Axiom>, m: Valuation, b: Axiom) returns (a: Axiom)
    requires Simplified(axioms, r) && b in axioms && !SelfRecursive(b) && BodyTrue(b.condition, m)
    ensures a in r && BodyTrue(a.condition, m)
  {
    assert Covered(r, b);
    a :| a in r && Within(a.condition, b.condition);
    WithinWeaker(a.condition, b.condition, m);
  }

  /** Simplifying changes neither which valuations satisfy the axioms, and with it their least
      model, nor where the head is derived, unless it is by the head itself. */
  lemma SimplifiedSameModels(axioms: seq<Axiom>, r: seq<Axiom>, head: Literal, m: Valuation)
    requires Simplified(axioms, r) && SameHead(axioms, head)
    ensures SameHead(r, head)
    ensures Satisfies(axioms, m) <==> Satisfies(r, m)
    ensures SomeBody(r, m) ==> SomeBody(axioms, m)
    ensures SomeBody(axioms, m) ==> SomeBody(r, m) || True(head, m)
  {
    forall a | a in r
      ensures a.effect == head && (BodyTrue(a.condition, m) ==> SomeBody(axioms, m))
    {
      var b := SimplifiedOrigin(axioms, r, m, a);
    }
    forall b | b in axioms && BodyTrue(b.condition, m)
      ensures SomeBody(r, m) || True(head, m)
    {
      if !SelfRecursive(b) {
        var a := SimplifiedCovers(axioms, r, m, b);
      }
    }
    SatisfiesHead(axioms, head, m);
    SatisfiesHead(r, head, m);
  }

  lemma SatisfiesHead(axioms: seq<Axiom>, head: Literal, m: Valuation)
    requires SameHead(axioms, head)
    ensures Satisfies(axioms, m) <==> (SomeBody(axioms, m) ==> True(head, m))
  {
  }

  /** Nothing is left exactly when every axiom is self-recursive. */
  lemma SimplifiedEmpty(axioms: seq<Axiom>, r: seq<Axiom>)
    requires Simplified(axioms, r)
    ensures r == [] <==> forall a | a in axioms :: SelfRecursive(a)
  {
    if r == [] {
      forall b | b in axioms
        ensures SelfRecursive(b)
      {
        assert !Covered(r, b);
      }
    } else {
      assert r[0] in r;
      assert Drawn(axioms, r[0]);
      var b :| b in axioms && Cleaned(b, r[0]);
      assert !SelfRecursive(b);
    }
  }

  // ---- negation ----

  /** Exact: a result body holds exactly where no body of the given axioms holds. */
  ghost predicate Complements(given: seq<Axiom>, r: seq<Axiom>) {
    forall m: Valuation :: SomeBody(r, m) <==> !SomeBody(given, m)
  }

  function WithLiteral(a: Axiom, l: Literal): Axiom {
    a.(condition := a.condition + [l])
  }

  function WithLiteralAll(axioms: seq<Axiom>, l: Literal): (r: seq<Axiom>)
    ensures |r| == |axioms| && forall k | 0 <= k < |r| :: r[k] == WithLiteral(axioms[k], l)
  {
    seq(|axioms|, k requires 0 <= k < |axioms| => WithLiteral(axioms[k], l))
  }

  /** Conjoins the literal to every condition. */
  method AppendToAll(axioms: seq<Axiom>, l: Literal) returns (r: seq<Axiom>)
    ensures r == WithLiteralAll(axioms, l)
  {
    r := axioms;
    for i := 0 to |axioms|
      invariant |r| == |axioms| && r[i..] == axioms[i..]
      invariant forall k | 0 <= k < i :: r[k] == WithLiteral(axioms[k], l)
    {
      r := r[i := WithLiteral(r[i], l)];
    }
  }

  /** The axioms after the choice of one negated literal. */
  function Multiplied(axioms: seq<Axiom>, condition: seq<Literal>): seq<Axiom> {
    if condition == [] then []
    else
      var last := |condition| - 1;
      Multiplied(axioms, condition[..last]) + WithLiteralAll(axioms, Negation(condition[last]))
  }

  lemma {:induction false} MultipliedFrom(axioms: seq<Axiom>, condition: seq<Literal>)
    ensures forall a | a in Multiplied(axioms, condition) ::
              exists b, l | b in axioms && l in condition :: a == WithLiteral(b, Negation(l))
  {
    if condition != [] {
      var last := |condition| - 1;
      MultipliedFrom(axioms, condition[..last]);
      var more := WithLiteralAll(axioms, Negation(condition[last]));
      assert Multiplied(axioms, condition) == Multiplied(axioms, condition[..last]) + more;
      forall a | a in Multiplied(axioms, condition)
        ensures exists b, l | b in axioms && l in condition :: a == WithLiteral(b, Negation(l))
      {
        if a in more {
          var k :| 0 <= k < |more| && more[k] == a;
          assert axioms[k] in axioms && condition[last] in condition;
        } else {
          var b, l :| b in axioms && l in condition[..last] && a == WithLiteral(b, Negation(l));
          assert l in condition;
        }
      }
    }
  }

  method Multiply(axioms: seq<Axiom>, condition: seq<Literal>) returns (r: seq<Axiom>)
    ensures r == Multiplied(axioms, condition)
  {
    r := [];
    for j := 0 to |condition|
      invariant r == Multiplied(axioms, condition[..j])
    {
      assert condition[..j + 1][..j] == condition[..j];
      var more := AppendToAll(axioms, Negation(condition[j]));
      r := r + more;
    }
    assert condition[..|condition|] == condition;
  }

  lemma {:induction false} MultipliedHead(axioms: seq<Axiom>, condition: seq<Literal>, head: Literal)
    requires SameHead(axioms, head)
    ensures SameHead(Multiplied(axioms, condition), head)
  {
    MultipliedFrom(axioms, condition);
  }

  lemma MultipliedOne(axioms: seq<Axiom>, l: Literal)
    ensures Multiplied(axioms, [l]) == WithLiteralAll(axioms, Negation(l))
  {
    assert [l][..0] == [];
  }

  /** All the negated conditions multiplied out, before simplification; none is given if a condition
      is empty. */
  method NegateBodies(axioms: seq<Axiom>, head: Literal) returns (r: seq<Axiom>)
    ensures ComplementsClean(axioms, head, r) && SameHead(r, Negation(head))
  {
    r := [Axiom([], Negation(head))];
    assert ComplementsClean([], head, r) by {
      assert r[0] in r;
    }
    for n := 0 to |axioms|
      invariant ComplementsClean(axioms[..n], head, r) && SameHead(r, Negation(head))
    {
      var condition := axioms[n].condition;
      MultipliedCleanStep(axioms[..n], head, r, axioms[n]);
      MultipliedHead(r, condition, Negation(head));
      assert axioms[..n + 1] == axioms[..n] + [axioms[n]];
      if |condition| == 0 {
        EmptyBodyHoldsWithout(axioms, n, head);
        return [];
      } else if |condition| == 1 {
        MultipliedOne(r, condition[0]);
        assert condition == [condition[0]];
        r := AppendToAll(r, Negation(condition[0]));
      } else {
        r := Multiply(r, condition);
      }
    }
    assert axioms[..|axioms|] == axioms;
  }

  // ---- where negation is exact ----

  function WithoutLiteral(condition: seq<Literal>, h: Literal): (r: seq<Literal>)
    ensures forall l :: l in r <==> l in condition && l != h
  {
    if condition == [] then []
    else
      var last := |condition| - 1;
      assert condition == condition[..last] + [condition[last]];
      WithoutLiteral(condition[..last], h) + if condition[last] == h then [] else [condition[last]]
  }

  /** Some body holds, the head not counting. */
  ghost predicate SomeBodyWithout(axioms: seq<Axiom>, h: Literal, m: Valuation) {
    exists a | a in axioms :: BodyTrue(WithoutLiteral(a.condition, h), m)
  }

  /** Some body without the literal holds. */
  ghost predicate SomeCleanBody(axioms: seq<Axiom>, l: Literal, m: Valuation) {
    exists a | a in axioms :: l !in a.condition && BodyTrue(a.condition, m)
  }

  lemma SomeCleanConcat(a: seq<Axiom>, b: seq<Axiom>, l: Literal, m: Valuation)
    ensures SomeCleanBody(a + b, l, m) <==> SomeCleanBody(a, l, m) || SomeCleanBody(b, l, m)
  {
    assert forall x :: x in a + b <==> x in a || x in b;
  }

  lemma SomeWithoutConcat(a: seq<Axiom>, b: seq<Axiom>, h: Literal, m: Valuation)
    ensures SomeBodyWithout(a + b, h, m) <==> SomeBodyWithout(a, h, m) || SomeBodyWithout(b, h, m)
  {
    assert forall x :: x in a + b <==> x in a || x in b;
  }

  lemma WithLiteralClean(axioms: seq<Axiom>, k: Literal, l: Literal, m: Valuation)
    ensures SomeCleanBody(WithLiteralAll(axioms, k), l, m) <==> SomeCleanBody(axioms, l, m) && k != l && True(k, m)
  {
    var r := WithLiteralAll(axioms, k);
    forall i | 0 <= i < |r|
      ensures l !in r[i].condition && BodyTrue(r[i].condition, m) <==>
              l !in axioms[i].condition && k != l && BodyTrue(axioms[i].condition, m) && True(k, m)
    {
      assert forall x :: x in r[i].condition <==> x in axioms[i].condition || x == k;
    }
    if SomeCleanBody(axioms, l, m) && k != l && True(k, m) {
      var a :| a in axioms && l !in a.condition && BodyTrue(a.condition, m);
      var i :| 0 <= i < |axioms| && axioms[i] == a;
      assert r[i] in r;
    }
  }

  /** Multiplying out and keeping the bodies without the negated head negates the body without it. */
  lemma {:induction false} MultipliedClean(axioms: seq<Axiom>, condition: seq<Literal>, h: Literal, m: Valuation)
    ensures SomeCleanBody(Multiplied(axioms, condition), Negation(h), m) <==>
            SomeCleanBody(axioms, Negation(h), m) && !BodyTrue(WithoutLiteral(condition, h), m)
  {
    if condition != [] {
      var last := |condition| - 1;
      var first, l := condition[..last], condition[last];
      MultipliedClean(axioms, first, h, m);
      WithLiteralClean(axioms, Negation(l), Negation(h), m);
      SomeCleanConcat(Multiplied(axioms, first), WithLiteralAll(axioms, Negation(l)), Negation(h), m);
      assert Negation(l) == Negation(h) <==> l == h;
      BodySnocWithout(first, l, h, m);
      assert condition == first + [l];
    }
  }

  lemma BodySnocWithout(first: seq<Literal>, l: Literal, h: Literal, m: Valuation)
    ensures BodyTrue(WithoutLiteral(first + [l], h), m) <==> BodyTrue(WithoutLiteral(first, h), m) && (l == h || True(l, m))
  {
    assert forall x :: x in first + [l] <==> x in first || x == l;
  }

  /** The bodies without the negated head hold exactly where no given body holds without the head. */
  ghost predicate ComplementsClean(given: seq<Axiom>, h: Literal, r: seq<Axiom>) {
    forall m: Valuation :: SomeCleanBody(r, Negation(h), m) <==> !SomeBodyWithout(given, h, m)
  }

  lemma MultipliedCleanStep(given: seq<Axiom>, h: Literal, r: seq<Axiom>, a: Axiom)
    requires ComplementsClean(given, h, r)
    ensures ComplementsClean(given + [a], h, Multiplied(r, a.condition))
  {
    forall m: Valuation
      ensures SomeCleanBody(Multiplied(r, a.condition), Negation(h), m) <==> !SomeBodyWithout(given + [a], h, m)
    {
      MultipliedClean(r, a.condition, h, m);
      SomeWithoutConcat(given, [a], h, m);
      assert a in [a];
    }
  }

  lemma EmptyBodyHoldsWithout(axioms: seq<Axiom>, n: nat, h: Literal)
    requires n < |axioms| && axioms[n].condition == []
    ensures ComplementsClean(axioms, h, [])
  {
    forall m: Valuation
      ensures SomeBodyWithout(axioms, h, m)
    {
      assert axioms[n] in axioms && BodyTrue(WithoutLiteral(axioms[n].condition, h), m);
    }
  }

  /** Simplification keeps exactly the disjunction of the bodies without their own head. */
  lemma SimplifiedClean(axioms: seq<Axiom>, r: seq<Axiom>, head: Literal, m: Valuation)
    requires Simplified(axioms, r) && SameHead(axioms, head)
    ensures SomeBody(r, m) <==> SomeCleanBody(axioms, head, m)
  {
    if SomeCleanBody(axioms, head, m) {
      var b :| b in axioms && head !in b.condition && BodyTrue(b.condition, m);
      var a := SimplifiedCovers(axioms, r, m, b);
    }
    if SomeBody(r, m) {
      var a :| a in r && BodyTrue(a.condition, m);
      assert Drawn(axioms, a) && !SelfRecursive(a);
      var b :| b in axioms && Cleaned(b, a);
      CleanedSame(b, a, m);
      assert b.effect == a.effect == head;
    }
  }

  /** With the head false, a body that holds up to the head always comes with a body that holds. */
  ghost predicate HeadNotNeeded(axioms: seq<Axiom>, head: Literal) {
    forall m: Valuation | !True(head, m) && SomeBodyWithout(axioms, head, m) :: SomeBody(axioms, m)
  }

  lemma BodyOrHead(axioms: seq<Axiom>, head: Literal, m: Valuation)
    ensures SomeBody(axioms, m) ==> SomeBodyWithout(axioms, head, m)
    ensures True(head, m) && SomeBodyWithout(axioms, head, m) ==> SomeBody(axioms, m)
  {
    if a :| a in axioms && BodyTrue(a.condition, m) {
      assert BodyTrue(WithoutLiteral(a.condition, head), m);
    }
    if True(head, m) && SomeBodyWithout(axioms, head, m) {
      var a :| a in axioms && BodyTrue(WithoutLiteral(a.condition, head), m);
      assert forall l | l in a.condition :: l == head || l in WithoutLiteral(a.condition, head);
      assert BodyTrue(a.condition, m);
    }
  }

  /** A list that negates the bodies without the head negates the bodies exactly if the head is not
      needed. */
  lemma ExactIffHeadNotNeeded(axioms: seq<Axiom>, head: Literal, r: seq<Axiom>)
    requires forall m: Valuation :: SomeBody(r, m) <==> !SomeBodyWithout(axioms, head, m)
    ensures Complements(axioms, r) <==> HeadNotNeeded(axioms, head)
  {
    forall m: Valuation
      ensures SomeBody(axioms, m) ==> SomeBodyWithout(axioms, head, m)
      ensures True(head, m) && SomeBodyWithout(axioms, head, m) ==> SomeBody(axioms, m)
    {
      BodyOrHead(axioms, head, m);
    }
  }

  /** No condition with the head is enough, but not needed. */
  lemma NoHeadNotNeeded(axioms: seq<Axiom>, head: Literal)
    requires SameHead(axioms, head) && forall a | a in axioms :: !SelfRecursive(a)
    ensures HeadNotNeeded(axioms, head)
  {
    forall m: Valuation | SomeBodyWithout(axioms, head, m)
      ensures SomeBody(axioms, m)
    {
      var a :| a in axioms && BodyTrue(WithoutLiteral(a.condition, head), m);
      assert forall l | l in a.condition :: l in WithoutLiteral(a.condition, head);
      assert BodyTrue(a.condition, m);
    }
  }

  /** h :- h loses exactness; h :- h, q together with h :- q keeps it, although a body contains the head. */
  lemma HeadNeededOrNot(h: nat, q: nat)
    requires h != q
    ensures var head, other := Literal(h, false), Literal(q, false);
            && !HeadNotNeeded([Axiom([head], head)], head)
            && HeadNotNeeded([Axiom([head, other], head), Axiom([other], head)], head)
  {
    var head, other := Literal(h, false), Literal(q, false);
    var loop := [Axiom([head], head)];
    assert loop[0] in loop && BodyTrue(WithoutLiteral(loop[0].condition, head), {});
    assert !True(head, {}) && SomeBodyWithout(loop, head, {});
    assert !SomeBody(loop, {}) by {
      assert head in loop[0].condition;
    }
    var both := [Axiom([head, other], head), Axiom([other], head)];
    forall m: Valuation | SomeBodyWithout(both, head, m)
      ensures SomeBody(both, m)
    {
      var a :| a in both && BodyTrue(WithoutLiteral(a.condition, head), m);
      assert other in a.condition && other in WithoutLiteral(a.condition, head);
      assert both[1] in both && BodyTrue(both[1].condition, m);
    }
  }

  lemma NegateMeans(axioms: seq<Axiom>, head: Literal, bodies: seq<Axiom>, r: seq<Axiom>)
    requires ComplementsClean(axioms, head, bodies) && SameHead(bodies, Negation(head)) && Simplified(bodies, r)
    ensures SameHead(r, Negation(head)) && forall a | a in r :: !SelfRecursive(a)
    ensures forall m: Valuation :: SomeBody(r, m) <==> !SomeBodyWithout(axioms, head, m)
    ensures forall m: Valuation | SomeBody(r, m) :: !SomeBody(axioms, m)
    ensures forall m: Valuation | True(head, m) && !SomeBody(axioms, m) :: SomeBody(r, m)
  {
    forall a | a in r
      ensures !SelfRecursive(a)
    {
      assert Drawn(bodies, a);
    }
    SimplifiedSameModels(bodies, r, Negation(head), {});
    forall m: Valuation
      ensures SomeBody(r, m) <==> !SomeBodyWithout(axioms, head, m)
      ensures SomeBody(axioms, m) ==> SomeBodyWithout(axioms, head, m)
      ensures True(head, m) && SomeBodyWithout(axioms, head, m) ==> SomeBody(axioms, m)
    {
      SimplifiedClean(bodies, r, Negation(head), m);
      BodyOrHead(axioms, head, m);
    }
  }

  /** negate: a body of the result holds exactly where no given body holds when the head does not
      count. So it holds only where no given body holds, and the negation is exact wherever the head
      is true, and everywhere exactly if the head is not needed. */
  method Negate(axioms: seq<Axiom>, head: Literal) returns (r: seq<Axiom>)
    requires axioms != [] && SameHead(axioms, head)
    ensures SameHead(r, Negation(head))
    ensures forall m: Valuation :: SomeBody(r, m) <==> !SomeBodyWithout(axioms, head, m)
    ensures forall m: Valuation | SomeBody(r, m) :: !SomeBody(axioms, m)
    ensures forall m: Valuation | True(head, m) && !SomeBody(axioms, m) :: SomeBody(r, m)
    ensures Complements(axioms, r) <==> HeadNotNeeded(axioms, head)
    ensures (forall a | a in axioms :: !SelfRecursive(a)) ==> Complements(axioms, r)
    ensures forall p, q | 0 <= p < |r| && 0 <= q < |r| && p != q :: !Within(r[p].condition, r[q].condition)
    ensures forall a | a in r :: !SelfRecursive(a)
  {
    var bodies := NegateBodies(axioms, head);
    r := ComputeSimplified(bodies);
    NegateMeans(axioms, head, bodies, r);
    ExactIffHeadNotNeeded(axioms, head, r);
    if forall a | a in axioms :: !SelfRecursive(a) {
      NoHeadNotNeeded(axioms, head);
    }
  }

  // ---- negated rules for a cluster ----

  type Rules = map<nat, seq<Axiom>>

  ghost predicate ValidCluster(variables: seq<nat>, rules: Rules) {
    && (forall v | v in variables :: v in rules && SameHead(rules[v], Literal(v, false)))
    && (forall i, j | 0 <= i < j < |variables| :: variables[i] != variables[j])
  }

  /** The rules for "v is false". For a variable of a cycle they fire unconditionally; for a single variable they
      hold wherever no rule derives it, when it does not count in the bodies, and are exact exactly if it is not
      needed there. */
  ghost predicate NegatedFor(v: nat, rules: seq<Axiom>, negated: seq<Axiom>, single: bool) {
    && SameHead(negated, Literal(v, true)) && (forall a | a in negated :: !SelfRecursive(a))
    && (!single ==> exists a | a in negated :: a.condition == [])
    && (single && (forall a | a in rules :: !SelfRecursive(a)) ==> Complements(rules, negated))
    && (single ==> forall m: Valuation :: SomeBody(negated, m) <==> !SomeBodyWithout(rules, Literal(v, false), m))
    && (single ==> (Complements(rules, negated) <==> HeadNotNeeded(rules, Literal(v, false))))
  }

  // ---- what can be derived with the negated rules ----

  /** A literal while the variables of the cluster in `ys` are derived to be true. */
  predicate TrueWith(cluster: set<nat>, ys: set<nat>, m: Valuation, l: Literal) {
    if !l.negated && l.atom in cluster then l.atom in ys else True(l, m)
  }

  /** A literal while the variables of the cluster in `xs` are derived to be false. */
  predicate FalseWith(cluster: set<nat>, xs: set<nat>, m: Valuation, l: Literal) {
    if l.negated && l.atom in cluster then l.atom in xs else True(l, m)
  }

  ghost predicate Fires(cluster: set<nat>, ys: set<nat>, m: Valuation, a: Axiom) {
    forall l | l in a.condition :: TrueWith(cluster, ys, m, l)
  }

  ghost predicate FiresNegated(cluster: set<nat>, xs: set<nat>, m: Valuation, a: Axiom) {
    forall l | l in a.condition :: FalseWith(cluster, xs, m, l)
  }

  /** `ys` is closed under the rules of the cluster. */
  ghost predicate TruthsClosed(cluster: set<nat>, rules: Rules, m: Valuation, ys: set<nat>) {
    forall v, a | v in cluster && v in rules && a in rules[v] && Fires(cluster, ys, m, a) :: v in ys
  }

  /** `xs` is closed under the negated rules of the cluster. */
  ghost predicate FalsehoodsClosed(cluster: set<nat>, negated: Rules, m: Valuation, xs: set<nat>) {
    forall v, a | v in cluster && v in negated && a in negated[v] && FiresNegated(cluster, xs, m, a) :: v in xs
  }

  /** The variable is true in the least model of the cluster, given the other atoms. */
  ghost predicate LeastTrue(cluster: set<nat>, rules: Rules, m: Valuation, v: nat) {
    forall ys | TruthsClosed(cluster, rules, m, ys) :: v in ys
  }

  /** "v is false" is derived by the negated rules. */
  ghost predicate NegationDerived(cluster: set<nat>, negated: Rules, m: Valuation, v: nat) {
    forall xs | FalsehoodsClosed(cluster, negated, m, xs) :: v in xs
  }

  /** The negated rules derive every variable of the cluster to be false that is false in the least model. */
  lemma FalseIsDerived(cluster: set<nat>, rules: Rules, negated: Rules, m: Valuation, v: nat)
    requires v in cluster && v in rules && v in negated && NegatedFor(v, rules[v], negated[v], cluster == {v})
    requires cluster == {v} ==> forall a | a in rules[v] :: !SelfRecursive(a)
    requires SameHead(rules[v], Literal(v, false)) && !LeastTrue(cluster, rules, m, v)
    ensures NegationDerived(cluster, negated, m, v)
  {
    if cluster == {v} {
      var ys :| TruthsClosed(cluster, rules, m, ys) && v !in ys;
      assert !SomeBody(rules[v], m) by {
        if a :| a in rules[v] && BodyTrue(a.condition, m) {
          assert a.effect == Literal(v, false) && Fires(cluster, ys, m, a);
        }
      }
      var a :| a in negated[v] && BodyTrue(a.condition, m);
      forall xs | FalsehoodsClosed(cluster, negated, m, xs)
        ensures v in xs
      {
        assert a.effect == Literal(v, true) && FiresNegated(cluster, xs, m, a);
      }
    } else {
      var a :| a in negated[v] && a.condition == [];
      forall xs | FalsehoodsClosed(cluster, negated, m, xs)
        ensures v in xs
      {
        assert FiresNegated(cluster, xs, m, a);
      }
    }
  }

  /** Two variables that need each other are false in the least model.  Negating their rules one by one derives
      neither negation, which is why the rules for a cycle fire unconditionally. */
  lemma CycleNegatedOneByOne(p: nat, q: nat, rules: Rules, naive: Rules)
    requires p != q && rules == map[p := [Axiom([Literal(q, false)], Literal(p, false))], q := [Axiom([Literal(p, false)], Literal(q, false))]]
    requires naive == map[p := [Axiom([Literal(q, true)], Literal(p, true))], q := [Axiom([Literal(p, true)], Literal(q, true))]]
    ensures Complements(rules[p], naive[p]) && Complements(rules[q], naive[q])
    ensures forall m: Valuation :: !LeastTrue({p, q}, rules, m, p) && !LeastTrue({p, q}, rules, m, q)
    ensures forall m: Valuation :: !NegationDerived({p, q}, naive, m, p) && !NegationDerived({p, q}, naive, m, q)
  {
    OneBody(rules[p], naive[p], Literal(q, false));
    OneBody(rules[q], naive[q], Literal(p, false));
    forall m: Valuation
      ensures !LeastTrue({p, q}, rules, m, p) && !LeastTrue({p, q}, rules, m, q)
      ensures !NegationDerived({p, q}, naive, m, p) && !NegationDerived({p, q}, naive, m, q)
    {
      var none: set<nat> := {};
      forall v, a | v in rules && a in rules[v]
        ensures !Fires({p, q}, none, m, a)
      {
        assert a == rules[v][0] && a.condition[0] in a.condition;
      }
      forall v, a | v in naive && a in naive[v]
        ensures !FiresNegated({p, q}, none, m, a)
      {
        assert a == naive[v][0] && a.condition[0] in a.condition;
      }
      assert TruthsClosed({p, q}, rules, m, none) && FalsehoodsClosed({p, q}, naive, m, none) && p !in none && q !in none;
    }
  }

  lemma OneBody(given: seq<Axiom>, r: seq<Axiom>, l: Literal)
    requires |given| == |r| == 1 && given[0].condition == [l] && r[0].condition == [Negation(l)]
    ensures Complements(given, r)
  {
    assert given[0] in given && r[0] in r;
    forall m: Valuation
      ensures BodyTrue(given[0].condition, m) <==> True(l, m)
      ensures BodyTrue(r[0].condition, m) <==> !True(l, m)
    {
      assert l in given[0].condition && Negation(l) in r[0].condition;
    }
  }

  method NegateOne(v: nat, rules: seq<Axiom>, single: bool) returns (negated: seq<Axiom>)
    requires rules != [] && SameHead(rules, Literal(v, false))
    ensures NegatedFor(v, rules, negated, single)
  {
    if single {
      negated := Negate(rules, Literal(v, false));
      assert Negation(Literal(v, false)) == Literal(v, true);
    } else {
      negated := [Axiom([], Literal(v, true))];
      assert negated[0] in negated;
    }
  }

  ghost function ClusterOf(variables: seq<nat>): set<nat> {
    set v | v in variables
  }

  /** The added rules derive whatever is false in the least model, whatever holds outside the cluster; for a single
      variable this needs rules without their own head. */
  ghost predicate FalseDerived(variables: seq<nat>, rules: Rules, added: Rules)
    requires ValidCluster(variables, rules)
  {
    (|variables| == 1 ==> forall v, a | v in variables && a in rules[v] :: !SelfRecursive(a)) ==>
      forall m: Valuation, v | v in variables && !LeastTrue(ClusterOf(variables), rules, m, v) ::
        NegationDerived(ClusterOf(variables), added, m, v)
  }

  lemma AllFalseDerived(variables: seq<nat>, rules: Rules, added: Rules)
    requires ValidCluster(variables, rules) && forall v | v in variables :: v in added && NegatedFor(v, rules[v], added[v], |variables| == 1)
    ensures FalseDerived(variables, rules, added)
  {
    forall v | v in variables
      ensures ClusterOf(variables) == {v} <==> |variables| == 1
    {
      SingleCluster(variables, v);
    }
    if |variables| == 1 ==> forall v, a | v in variables && a in rules[v] :: !SelfRecursive(a) {
      forall m: Valuation, v | v in variables && !LeastTrue(ClusterOf(variables), rules, m, v)
        ensures NegationDerived(ClusterOf(variables), added, m, v)
      {
        FalseIsDerived(ClusterOf(variables), rules, added, m, v);
      }
    }
  }

  lemma SingleCluster(variables: seq<nat>, v: nat)
    requires v in variables && forall i, j | 0 <= i < j < |variables| :: variables[i] != variables[j]
    ensures ClusterOf(variables) == {v} <==> |variables| == 1
  {
    if |variables| == 1 {
      assert variables[0] == v;
    } else {
      assert variables[0] in ClusterOf(variables) && variables[1] in ClusterOf(variables);
    }
  }

  /** compute_negative_axioms for a cluster that is needed negatively. It fails exactly when some
      variable is left without rules. */
  method NegativeAxioms(variables: seq<nat>, rules: Rules) returns (r: Option<Rules>)
    requires ValidCluster(variables, rules)
    ensures r.None? <==> exists v | v in variables :: rules[v] == []
    ensures r.Some? ==> r.value.Keys == rules.Keys && forall v | v in variables ::
              rules[v] <= r.value[v] && NegatedFor(v, rules[v], r.value[v][|rules[v]|..], |variables| == 1)
    ensures r.Some? ==> forall v | v in rules && v !in variables :: r.value[v] == rules[v]
    ensures r.Some? ==> FalseDerived(variables, rules, map v | v in variables :: r.value[v][|rules[v]|..])
  {
    var result := rules;
    for i := 0 to |variables|
      invariant result.Keys == rules.Keys && forall v | v in rules && v !in variables[..i] :: result[v] == rules[v]
      invariant forall v | v in variables[..i] ::
                  rules[v] != [] && rules[v] <= result[v] && NegatedFor(v, rules[v], result[v][|rules[v]|..], |variables| == 1)
    {
      var v := variables[i];
      assert variables[..i + 1] == variables[..i] + [v];
      if result[v] == [] {
        return None;
      }
      var negated := NegateOne(v, rules[v], |variables| == 1);
      assert (rules[v] + negated)[|rules[v]|..] == negated;
      result := result[v := result[v] + negated];
    }
    assert variables[..|variables|] == variables;
    AllFalseDerived(variables, rules, map v | v in variables :: result[v][|rules[v]|..]);
    return Some(result);
  }
}
