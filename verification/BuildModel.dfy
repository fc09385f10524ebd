/** Semi-naive evaluation of a program: the queue ends with the least model
    (build_model.py:12-26, 279-327). */
module BuildModel {
  import opened Sas
  import opened Datalog
  import opened Unifier
  import opened Firing
  import opened RuleIndexes
  import opened JoinExactness
  import opened BuildRules
  import Strips

  // ---- closure under what the rules yield ----

  ghost predicate ClosedYields(rules: seq<Rule>, model: iset<Atom>) {
    forall rule, a | rule in rules && Yields(rule, model, a) :: a in model
  }

  ghost predicate Has(model: iset<Atom>, atoms: seq<Atom>) {
    forall a | a in atoms :: a in model
  }

  ghost function ModelOf(queue: seq<Atom>): iset<Atom> {
    iset a | a in queue
  }

  /** The least set with the facts that is closed under what the rules yield. */
  ghost predicate IsLeastYields(rules: seq<Rule>, facts: seq<Atom>, model: iset<Atom>) {
    && Has(model, facts) && ClosedYields(rules, model)
    && forall other: iset<Atom> | Has(other, facts) && ClosedYields(rules, other) :: model <= other
  }

  ghost predicate AllNumber(rules: seq<Rule>, numbered: seq<Rule>) {
    |numbered| == |rules| && forall i | 0 <= i < |rules| :: Normalized(rules[i]) && Numbers(rules[i], numbered[i])
  }

  lemma ClosedEither(rules: seq<Rule>, numbered: seq<Rule>, model: iset<Atom>)
    requires Converted(rules, numbered) && forall rule | rule in numbered :: Comparing(rule)
    ensures ClosedUnder(rules, model) <==> ClosedYields(numbered, model)
  {
    forall i, a | 0 <= i < |rules|
      ensures Derives(rules[i], model, a) <==> Yields(numbered[i], model, a)
    {
      NumberedIsValid(rules[i], numbered[i]);
      NumberedDerivesSame(rules[i], numbered[i], model, a);
      assert numbered[i] in numbered;
      ComparingYields(numbered[i], model, a);
    }
    if ClosedUnder(rules, model) {
      forall rule, a | rule in numbered && Yields(rule, model, a)
        ensures a in model
      {
        var i :| 0 <= i < |numbered| && numbered[i] == rule;
        assert rules[i] in rules && Derives(rules[i], model, a);
      }
    }
    if ClosedYields(numbered, model) {
      forall rule, a | rule in rules && Derives(rule, model, a)
        ensures a in model
      {
        var i :| 0 <= i < |rules| && rules[i] == rule;
        assert numbered[i] in numbered && Yields(numbered[i], model, a);
      }
    }
  }

  /** If joins compare all that their conditions share, the computed set is the least model of the
      program. */
  lemma LeastIsModel(rules: seq<Rule>, numbered: seq<Rule>, facts: seq<Atom>, model: iset<Atom>)
    requires Converted(rules, numbered) && forall rule | rule in numbered :: Comparing(rule)
    requires IsLeastYields(numbered, facts, model)
    ensures IsLeastModel(rules, facts, model)
  {
    ClosedEither(rules, numbered, model);
    forall other: iset<Atom> | Has(other, facts) && ClosedUnder(rules, other)
      ensures model <= other
    {
      ClosedEither(rules, numbered, other);
    }
  }

  // ---- finitely many atoms ----

  ghost function Tuples(objects: set<string>, n: nat): set<seq<string>> {
    if n == 0 then {[]} else set o, t | o in objects && t in Tuples(objects, n - 1) :: [o] + t
  }

  lemma {:induction false} InTuples(objects: set<string>, n: nat, t: seq<string>)
    requires |t| == n && forall o | o in t :: o in objects
    ensures t in Tuples(objects, n)
  {
    if n > 0 {
      InTuples(objects, n - 1, t[1..]);
      assert t == [t[0]] + t[1..];
    }
  }

  ghost function Universe(arities: Arities, objects: set<string>): set<Atom> {
    set s, t | s in arities && t in Tuples(objects, arities[s]) :: Strips.Atom(s, t)
  }

  ghost predicate Typed(arities: Arities, objects: set<string>, a: Atom) {
    AtomArity(arities, a) && forall o | o in a.args :: o in objects
  }

  lemma TypedInUniverse(arities: Arities, objects: set<string>, a: Atom)
    requires Typed(arities, objects, a)
    ensures a in Universe(arities, objects)
  {
    InTuples(objects, arities[a.symbol], a.args);
  }

  ghost predicate RuleTyped(arities: Arities, objects: set<string>, rule: Rule) {
    && ValidRule(rule) && PatternArity(arities, rule.effect)
    && forall p | 0 <= p < |rule.effect.args| && rule.effect.args[p].Const? :: rule.effect.args[p].name in objects
  }

  lemma EffectTyped(arities: Arities, objects: set<string>, rule: Rule, atoms: seq<Atom>)
    requires RuleTyped(arities, objects, rule) && AllMatch(rule.conditions, atoms) && Agree(rule.conditions, atoms)
    requires forall i | 0 <= i < |atoms| :: Typed(arities, objects, atoms[i])
    ensures Typed(arities, objects, EffectOf(rule, atoms))
  {
    var a := EffectOf(rule, atoms);
    forall p | 0 <= p < |a.args|
      ensures a.args[p] in objects
    {
      EffectOfAt(rule, atoms, p);
      if !rule.effect.args[p].Const? {
        var i: nat, q: nat :| OccursAt(rule.conditions, i, q, Var(p));
        LookUpAt(rule.conditions, atoms, Var(p), i, q);
        assert atoms[i].args[q] in atoms[i].args;
      }
    }
  }

  // ---- what the evaluation keeps ----

  /** Handed to a condition: processed atoms, and the current one if its match was handled. */
  ghost predicate Handed(rule: Rule, seen: Seen, i: nat, processed: seq<Atom>, x: Atom, handled: seq<Match>) {
    && |seen| == |rule.conditions|
    && forall k: nat, a | k < |seen| ::
         a in seen[k] <==> Matches(rule.conditions[k], a) && (a in processed || (a == x && Match(i, k) in handled))
  }

  ghost predicate AllHanded(rules: seq<Rule>, given: seq<Seen>, processed: seq<Atom>, x: Atom, handled: seq<Match>) {
    |given| == |rules| && forall i | 0 <= i < |rules| :: Handed(rules[i], given[i], i, processed, x, handled)
  }

  /** Every condition was handed exactly the processed atoms it matches. */
  ghost predicate AllProcessed(rules: seq<Rule>, given: seq<Seen>, processed: seq<Atom>) {
    |given| == |rules| && forall i | 0 <= i < |rules| :: Processed(rules[i], given[i], processed)
  }

  ghost predicate Processed(rule: Rule, seen: Seen, processed: seq<Atom>) {
    |seen| == |rule.conditions| && forall k: nat, a | k < |seen| :: a in seen[k] <==> Matches(rule.conditions[k], a) && a in processed
  }

  lemma NoneHandled(rules: seq<Rule>, given: seq<Seen>, processed: seq<Atom>, x: Atom)
    requires AllProcessed(rules, given, processed)
    ensures AllHanded(rules, given, processed, x, [])
  {
    forall i | 0 <= i < |rules|
      ensures Handed(rules[i], given[i], i, processed, x, [])
    {
      assert Processed(rules[i], given[i], processed);
    }
  }

  /** The queue has the effect of every combination of atoms handed to the conditions. */
  ghost predicate Complete(rule: Rule, seen: Seen, queue: seq<Atom>) {
    forall atoms | Combination(rule, seen, atoms) :: EffectOf(rule, atoms) in queue
  }

  ghost predicate AllComplete(rules: seq<Rule>, given: seq<Seen>, queue: seq<Atom>) {
    |given| == |rules| && forall i | 0 <= i < |rules| :: Complete(rules[i], given[i], queue)
  }

  /** Every atom of the queue is in every closed set with the facts. */
  ghost predicate Sound(rules: seq<Rule>, facts: seq<Atom>, queue: seq<Atom>) {
    forall other: iset<Atom> | Has(other, facts) && ClosedYields(rules, other) :: Has(other, queue)
  }

  ghost predicate AllTyped(arities: Arities, objects: set<string>, atoms: seq<Atom>) {
    forall a | a in atoms :: Typed(arities, objects, a)
  }

  ghost predicate SeenWithin(seen: Seen, queue: seq<Atom>) {
    forall k, a | 0 <= k < |seen| && a in seen[k] :: a in queue
  }

  /** Handing over one atom and firing keeps completeness, also for an atom that matches several
      conditions of the rule. */
  lemma FiredComplete(rule: Rule, seen: Seen, x: Atom, k: nat, before: seq<Atom>, after: seq<Atom>)
    requires Complete(rule, seen, before) && k < |seen| && Fired(rule, Given(seen, k, x), x, k, before, after)
    ensures Complete(rule, Given(seen, k, x), after)
  {
    var grown := Given(seen, k, x);
    forall atoms | Combination(rule, grown, atoms)
      ensures EffectOf(rule, atoms) in after
    {
      if atoms[k] == x {
        assert Uses(rule, grown, x, k, atoms);
      } else {
        forall i | 0 <= i < |atoms|
          ensures atoms[i] in seen[i]
        {
          assert atoms[i] in grown[i];
        }
        assert Combination(rule, seen, atoms);
      }
    }
  }

  lemma FiredSound(rules: seq<Rule>, facts: seq<Atom>, rule: Rule, seen: Seen, x: Atom, k: nat, before: seq<Atom>, after: seq<Atom>)
    requires Sound(rules, facts, before) && rule in rules && SeenWithin(seen, before) && Fired(rule, seen, x, k, before, after)
    ensures Sound(rules, facts, after)
  {
    forall other: iset<Atom>, a | Has(other, facts) && ClosedYields(rules, other) && a in after
      ensures a in other
    {
      assert Has(other, before);
      if a !in before {
        assert Explained(rule, seen, x, k, a);
        var atoms :| Uses(rule, seen, x, k, atoms) && EffectOf(rule, atoms) == a;
        assert YieldsFrom(rule, other, a, atoms);
        assert Yields(rule, other, a);
      }
    }
  }

  lemma FiredTyped(arities: Arities, objects: set<string>, rule: Rule, seen: Seen, x: Atom, k: nat, before: seq<Atom>, after: seq<Atom>)
    requires RuleTyped(arities, objects, rule) && AllTyped(arities, objects, before) && SeenWithin(seen, before)
    requires Fired(rule, seen, x, k, before, after)
    ensures AllTyped(arities, objects, after)
  {
    forall a | a in after && a !in before
      ensures Typed(arities, objects, a)
    {
      assert Explained(rule, seen, x, k, a);
      var atoms :| Uses(rule, seen, x, k, atoms) && EffectOf(rule, atoms) == a;
      EffectTyped(arities, objects, rule, atoms);
    }
  }

  /** What holds of the queue whenever a match was handled. */
  ghost predicate Progress(rules: seq<Rule>, facts: seq<Atom>, arities: Arities, objects: set<string>, given: seq<Seen>, queue: seq<Atom>) {
    AllComplete(rules, given, queue) && Sound(rules, facts, queue) && AllTyped(arities, objects, queue)
  }

  lemma MatchHandled(rules: seq<Rule>, facts: seq<Atom>, arities: Arities, objects: set<string>, given: seq<Seen>,
                     processed: seq<Atom>, x: Atom, handled: seq<Match>, m: Match, before: seq<Atom>, after: seq<Atom>)
    requires (forall rule | rule in rules :: RuleTyped(arities, objects, rule)) && IsMatch(rules, m, x)
    requires Progress(rules, facts, arities, objects, given, before) && AllHanded(rules, given, processed, x, handled)
    requires x in before && forall a | a in processed :: a in before
    requires Fired(rules[m.rule], Given(given[m.rule], m.cond, x), x, m.cond, before, after)
    ensures Progress(rules, facts, arities, objects, given[m.rule := Given(given[m.rule], m.cond, x)], after)
    ensures AllHanded(rules, given[m.rule := Given(given[m.rule], m.cond, x)], processed, x, handled + [m])
  {
    var rule, seen := rules[m.rule], given[m.rule];
    var grown := Given(seen, m.cond, x);
    assert rule in rules && Handed(rule, seen, m.rule, processed, x, handled);
    assert SeenWithin(grown, before);
    FiredComplete(rule, seen, x, m.cond, before, after);
    FiredSound(rules, facts, rule, grown, x, m.cond, before, after);
    FiredTyped(arities, objects, rule, grown, x, m.cond, before, after);
    forall i | 0 <= i < |rules|
      ensures Complete(rules[i], given[m.rule := grown][i], after)
    {
      assert Complete(rules[i], given[i], before);
    }
    forall i | 0 <= i < |rules|
      ensures Handed(rules[i], given[m.rule := grown][i], i, processed, x, handled + [m])
    {
      HandedNext(rules[i], given[i], i, processed, x, handled, m);
    }
  }

  lemma HandedNext(rule: Rule, seen: Seen, i: nat, processed: seq<Atom>, x: Atom, handled: seq<Match>, m: Match)
    requires Handed(rule, seen, i, processed, x, handled)
    requires i == m.rule ==> m.cond < |rule.conditions| && Matches(rule.conditions[m.cond], x)
    ensures Handed(rule, if i == m.rule then Given(seen, m.cond, x) else seen, i, processed, x, handled + [m])
  {
    var next := if i == m.rule then Given(seen, m.cond, x) else seen;
    forall k: nat, a | k < |seen|
      ensures a in next[k] <==> Matches(rule.conditions[k], a) && (a in processed || (a == x && Match(i, k) in handled + [m]))
    {
      assert Match(i, k) in handled + [m] <==> Match(i, k) in handled || (i == m.rule && k == m.cond);
      assert a in next[k] <==> a in seen[k] || (a == x && i == m.rule && k == m.cond);
    }
    assert Handed(rule, next, i, processed, x, handled + [m]);
  }

  /** All matches handled: the atom is processed. */
  lemma AtomHandled(rules: seq<Rule>, given: seq<Seen>, processed: seq<Atom>, x: Atom, handled: seq<Match>)
    requires AllHanded(rules, given, processed, x, handled)
    requires forall m | IsMatch(rules, m, x) :: m in handled
    ensures AllProcessed(rules, given, processed + [x])
  {
    forall i | 0 <= i < |rules|
      ensures Processed(rules[i], given[i], processed + [x])
    {
      assert Handed(rules[i], given[i], i, processed, x, handled);
      forall k: nat, a | k < |given[i]|
        ensures a in given[i][k] <==> Matches(rules[i].conditions[k], a) && a in processed + [x]
      {
        assert Matches(rules[i].conditions[k], x) ==> IsMatch(rules, Match(i, k), x) && Match(i, k) in handled;
        assert a in processed + [x] <==> a in processed || a == x;
      }
    }
  }

  /** With all atoms processed, the queue is closed. */
  lemma ProcessedIsLeast(rules: seq<Rule>, facts: seq<Atom>, given: seq<Seen>, queue: seq<Atom>)
    requires AllProcessed(rules, given, queue) && AllComplete(rules, given, queue) && Sound(rules, facts, queue)
    requires facts <= queue
    ensures IsLeastYields(rules, facts, ModelOf(queue))
  {
    forall rule, a | rule in rules && Yields(rule, ModelOf(queue), a)
      ensures a in queue
    {
      var i :| 0 <= i < |rules| && rules[i] == rule;
      var atoms :| YieldsFrom(rule, ModelOf(queue), a, atoms);
      assert Processed(rule, given[i], queue);
      assert Combination(rule, given[i], atoms);
      assert Complete(rule, given[i], queue);
    }
  }

  // ---- the evaluation ----

  /** The rule objects, with what was handed to them. */
  ghost predicate RulesHave(objects: seq<BuildRule>, rules: seq<Rule>, given: seq<Seen>)
    reads objects
  {
    && |objects| == |rules| == |given|
    && (forall i | 0 <= i < |objects| :: objects[i].Valid() && objects[i].rule == rules[i] && objects[i].seen == given[i])
    && forall i, j | 0 <= i < j < |objects| :: objects[i] != objects[j]
  }

  ghost predicate Converted(rules: seq<Rule>, numbered: seq<Rule>) {
    |numbered| == |rules| && forall i | 0 <= i < |rules| :: ConvertedTo(rules[i], numbered[i])
  }

  ghost predicate ConvertedTo(rule: Rule, numbered: Rule) {
    Normalized(rule) && Numbers(rule, numbered) && Validated(numbered)
  }

  ghost function NothingGiven(rules: seq<Rule>): (r: seq<Seen>)
    ensures |r| == |rules| && forall i | 0 <= i < |r| :: r[i] == seq(|rules[i].conditions|, _ => [])
  {
    seq(|rules|, i requires 0 <= i < |rules| => seq(|rules[i].conditions|, _ => []))
  }

  ghost predicate FailsValidation(rule: Rule) {
    exists r :: Numbers(rule, r) && !Validated(r)
  }

  method ConvertRule(rule: Rule) returns (r: Option<BuildRule>)
    requires Normalized(rule)
    ensures r.None? <==> FailsValidation(rule)
    ensures r.Some? ==> fresh(r.value) && r.value.Valid() && r.value.seen == seq(|r.value.rule.conditions|, _ => [])
    ensures r.Some? ==> ConvertedTo(rule, r.value.rule)
  {
    var numbered := VariablesToNumbers(rule);
    if !Validated(numbered) {
      return None;
    }
    NumbersUnique(rule, numbered);
    NumberedIsValid(rule, numbered);
    var added := new BuildRule(numbered);
    return Some(added);
  }

  /** convert_rules: None when a rule fails its validation. */
  method ConvertRules(rules: seq<Rule>) returns (r: Option<seq<BuildRule>>, ghost numbered: seq<Rule>)
    requires forall rule | rule in rules :: Normalized(rule)
    ensures r.None? <==> exists rule | rule in rules :: FailsValidation(rule)
    ensures r.Some? ==> Converted(rules, numbered) && RulesHave(r.value, numbered, NothingGiven(numbered)) && fresh(r.value)
  {
    var objects: seq<BuildRule> := [];
    numbered := [];
    for i := 0 to |rules|
      invariant ConvertedUpTo(rules, i, numbered)
      invariant RulesHave(objects, numbered, NothingGiven(numbered)) && fresh(objects)
    {
      assert rules[i] in rules;
      var added := ConvertRule(rules[i]);
      if added.None? {
        return None, [];
      }
      ghost var rule := added.value.rule;
      ConvertedMore(rules, i, numbered, rule);
      RulesHaveMore(objects, numbered, added.value, rule);
      objects, numbered := objects + [added.value], numbered + [rule];
    }
    AllConverted(rules, numbered);
    return Some(objects), numbered;
  }

  ghost predicate ConvertedUpTo(rules: seq<Rule>, n: nat, numbered: seq<Rule>) {
    |numbered| == n <= |rules| && forall k | 0 <= k < n :: ConvertedTo(rules[k], numbered[k]) && !FailsValidation(rules[k])
  }

  lemma ConvertedMore(rules: seq<Rule>, n: nat, numbered: seq<Rule>, rule: Rule)
    requires n < |rules| && ConvertedUpTo(rules, n, numbered) && ConvertedTo(rules[n], rule) && !FailsValidation(rules[n])
    ensures ConvertedUpTo(rules, n + 1, numbered + [rule])
  {
  }

  lemma AllConverted(rules: seq<Rule>, numbered: seq<Rule>)
    requires ConvertedUpTo(rules, |rules|, numbered)
    ensures Converted(rules, numbered) && forall rule | rule in rules :: !FailsValidation(rule)
  {
  }

  lemma RulesHaveMore(objects: seq<BuildRule>, rules: seq<Rule>, added: BuildRule, rule: Rule)
    requires RulesHave(objects, rules, NothingGiven(rules)) && added !in objects
    requires added.Valid() && added.rule == rule && added.seen == seq(|rule.conditions|, _ => [])
    ensures RulesHave(objects + [added], rules + [rule], NothingGiven(rules + [rule]))
  {
    assert NothingGiven(rules + [rule])[|rules|] == added.seen;
  }

  lemma NumbersUnique(rule: Rule, r: Rule)
    requires Numbers(rule, r) && Validated(r)
    ensures !FailsValidation(rule)
  {
    forall other | Numbers(rule, other)
      ensures other == r
    {
      assert other.conditions == r.conditions;
    }
  }

  /** Updates the index for one match and fires the rule. */
  method HandleMatch(objects: seq<BuildRule>, m: Match, x: Atom, q: Queue, ghost rules: seq<Rule>, ghost given: seq<Seen>)
    returns (ghost next: seq<Seen>)
    requires RulesHave(objects, rules, given) && q.Valid() && IsMatch(rules, m, x)
    modifies objects[m.rule], q
    ensures next == given[m.rule := Given(given[m.rule], m.cond, x)]
    ensures RulesHave(objects, rules, next) && q.Valid() && q.pos == old(q.pos)
    ensures Fired(rules[m.rule], Given(given[m.rule], m.cond, x), x, m.cond, old(q.queue), q.queue)
  {
    objects[m.rule].UpdateIndex(x, m.cond);
    objects[m.rule].Fire(x, m.cond, q);
    next := given[m.rule := Given(given[m.rule], m.cond, x)];
  }

  /** All matches of one atom. */
  method ProcessAtom(objects: seq<BuildRule>, matches: seq<Match>, x: Atom, q: Queue, ghost rules: seq<Rule>, ghost given: seq<Seen>,
                     ghost facts: seq<Atom>, ghost arities: Arities, ghost names: set<string>, ghost processed: seq<Atom>)
    returns (ghost next: seq<Seen>)
    requires RulesHave(objects, rules, given) && q.Valid() && forall m :: m in matches <==> IsMatch(rules, m, x)
    requires forall rule | rule in rules :: RuleTyped(arities, names, rule)
    requires Progress(rules, facts, arities, names, given, q.queue) && AllProcessed(rules, given, processed)
    requires x in q.queue && forall a | a in processed :: a in q.queue
    modifies objects, q
    ensures RulesHave(objects, rules, next) && q.Valid() && q.pos == old(q.pos) && Grown(old(q.queue), q.queue)
    ensures Progress(rules, facts, arities, names, next, q.queue) && AllProcessed(rules, next, processed + [x])
  {
    next := given;
    NoneHandled(rules, given, processed, x);
    for j := 0 to |matches|
      invariant RulesHave(objects, rules, next) && q.Valid() && q.pos == old(q.pos) && Grown(old(q.queue), q.queue)
      invariant Progress(rules, facts, arities, names, next, q.queue) && AllHanded(rules, next, processed, x, matches[..j])
    {
      assert matches[j] in matches && matches[..j + 1] == matches[..j] + [matches[j]];
      ghost var before, given := q.queue, next;
      next := HandleMatch(objects, matches[j], x, q, rules, given);
      MatchHandled(rules, facts, arities, names, given, processed, x, matches[..j], matches[j], before, q.queue);
      GrownTrans(old(q.queue), before, q.queue);
    }
    assert matches[..|matches|] == matches;
    AtomHandled(rules, next, processed, x, matches);
  }

  lemma GrownTrans(a: seq<Atom>, b: seq<Atom>, c: seq<Atom>)
    requires Grown(a, b) && Grown(b, c)
    ensures Grown(a, c)
  {
    assert forall i | 0 <= i <= |b| :: c[..i] == b[..i];
  }

  ghost function NamesOf(args: seq<Arg>): set<string> {
    set p | 0 <= p < |args| && args[p].Const? :: args[p].name
  }

  /** The objects of the facts and of the effects of rules. */
  ghost function AllNames(rules: seq<Rule>, facts: seq<Atom>): set<string> {
    (set a, o | a in facts && o in a.args :: o) + (set rule, o | rule in rules && o in NamesOf(rule.effect.args) :: o)
  }

  lemma NamesType(rules: seq<Rule>, numbered: seq<Rule>, facts: seq<Atom>, arities: Arities)
    requires AllNumber(rules, numbered) && RulesArity(arities, rules) && forall a | a in facts :: AtomArity(arities, a)
    ensures RulesArity(arities, numbered) && AllTyped(arities, AllNames(numbered, facts), facts)
    ensures forall rule | rule in numbered :: RuleTyped(arities, AllNames(numbered, facts), rule)
  {
    forall rule | rule in numbered
      ensures RuleTyped(arities, AllNames(numbered, facts), rule)
      ensures forall i | 0 <= i < |rule.conditions| :: PatternArity(arities, rule.conditions[i])
    {
      var i :| 0 <= i < |numbered| && numbered[i] == rule;
      NumberedIsValid(rules[i], rule);
      assert rules[i] in rules;
      forall p | 0 <= p < |rule.effect.args| && rule.effect.args[p].Const?
        ensures rule.effect.args[p].name in AllNames(numbered, facts)
      {
        assert rule.effect.args[p].name in NamesOf(rule.effect.args);
      }
    }
  }

  /** compute_model: the facts followed by further atoms without repetition, together the least set
      closed under the rules, which is their least model if joins compare all that their conditions share. */
  method ComputeModel(rules: seq<Rule>, facts: seq<Atom>, ghost arities: Arities) returns (r: Option<seq<Atom>>, ghost numbered: seq<Rule>)
    requires forall rule | rule in rules :: Normalized(rule)
    requires RulesArity(arities, rules) && forall a | a in facts :: AtomArity(arities, a)
    ensures r.None? <==> exists rule | rule in rules :: FailsValidation(rule)
    ensures r.Some? ==> Converted(rules, numbered) && Grown(facts, r.value) && IsLeastYields(numbered, facts, ModelOf(r.value))
    ensures r.Some? && (forall rule | rule in numbered :: Comparing(rule)) ==> IsLeastModel(rules, facts, ModelOf(r.value))
  {
    var converted;
    converted, numbered := ConvertRules(rules);
    if converted.None? {
      return None, numbered;
    }
    var objects := converted.value;
    NamesType(rules, numbered, facts, arities);
    ghost var names := AllNames(numbered, facts);
    var plain := RulesOf(objects, numbered, NothingGiven(numbered));
    var unifier := new Unifier(plain, arities);
    var q := new Queue(facts);
    ghost var given := NothingGiven(numbered);
    NothingHanded(numbered, facts, arities, names);
    while q.pos < |q.queue|
      invariant q.Valid() && fresh(q) && fresh(objects)
      invariant EvaluationState(objects, unifier, q, numbered, given, facts, arities, names)
      decreases Universe(arities, names) - q.enqueued, |q.queue| - q.pos
    {
      given := ProcessNext(objects, unifier, q, numbered, given, facts, arities, names);
    }
    assert q.queue[..q.pos] == q.queue;
    EvaluatedIsModel(rules, numbered, facts, given, q.queue);
    return Some(q.queue), numbered;
  }

  lemma EvaluatedIsModel(rules: seq<Rule>, numbered: seq<Rule>, facts: seq<Atom>, given: seq<Seen>, queue: seq<Atom>)
    requires Converted(rules, numbered) && facts <= queue && AllProcessed(numbered, given, queue)
    requires AllComplete(numbered, given, queue) && Sound(numbered, facts, queue)
    ensures IsLeastYields(numbered, facts, ModelOf(queue))
    ensures (forall rule | rule in numbered :: Comparing(rule)) ==> IsLeastModel(rules, facts, ModelOf(queue))
  {
    ProcessedIsLeast(numbered, facts, given, queue);
    if forall rule | rule in numbered :: Comparing(rule) {
      LeastIsModel(rules, numbered, facts, ModelOf(queue));
    }
  }

  /** Before the first atom. */
  lemma NothingHanded(rules: seq<Rule>, facts: seq<Atom>, arities: Arities, names: set<string>)
    requires AllTyped(arities, names, facts) && forall rule | rule in rules :: ValidRule(rule)
    ensures Progress(rules, facts, arities, names, NothingGiven(rules), facts)
    ensures AllProcessed(rules, NothingGiven(rules), [])
  {
    forall i, atoms | 0 <= i < |rules|
      ensures !Combination(rules[i], NothingGiven(rules)[i], atoms)
    {
      assert rules[i] in rules && rules[i].conditions != [];
      assert atoms != [] ==> atoms[0] !in NothingGiven(rules)[i][0];
    }
  }

  ghost predicate EvaluationState(objects: seq<BuildRule>, unifier: Unifier, q: Queue, rules: seq<Rule>, given: seq<Seen>,
                                  facts: seq<Atom>, arities: Arities, names: set<string>)
    reads objects, unifier, q
  {
    && RulesHave(objects, rules, given) && unifier.Valid(arities) && unifier.rules == rules && Grown(facts, q.queue)
    && q.pos <= |q.queue| && Progress(rules, facts, arities, names, given, q.queue)
    && AllProcessed(rules, given, q.queue[..q.pos])
  }

  /** Takes the next atom from the queue. */
  method ProcessNext(objects: seq<BuildRule>, unifier: Unifier, q: Queue, ghost rules: seq<Rule>, ghost given: seq<Seen>,
                     ghost facts: seq<Atom>, ghost arities: Arities, ghost names: set<string>) returns (ghost next: seq<Seen>)
    requires q.Valid() && q.pos < |q.queue| && EvaluationState(objects, unifier, q, rules, given, facts, arities, names)
    requires forall rule | rule in rules :: RuleTyped(arities, names, rule)
    modifies objects, q
    ensures q.Valid() && EvaluationState(objects, unifier, q, rules, next, facts, arities, names)
    ensures Universe(arities, names) - q.enqueued < Universe(arities, names) - old(q.enqueued)
            || (q.enqueued == old(q.enqueued) && |q.queue| - q.pos < old(|q.queue| - q.pos))
  {
    ghost var queue, pos, enqueued := q.queue, q.pos, q.enqueued;
    var x := q.Pop();
    assert x in queue && Typed(arities, names, x);
    var matches := unifier.Unify(x, arities);
    assert forall m :: m in matches <==> multiset(matches)[m] > 0;
    next := ProcessAtom(objects, matches, x, q, rules, given, facts, arities, names, queue[..pos]);
    QueueAdvanced(facts, arities, names, queue, q.queue, pos, enqueued, q.enqueued);
  }

  lemma QueueAdvanced(facts: seq<Atom>, arities: Arities, names: set<string>, before: seq<Atom>, after: seq<Atom>, pos: nat,
                      enqueued: set<Atom>, enqueued': set<Atom>)
    requires Grown(facts, before) && Grown(before, after) && pos < |before| && AllTyped(arities, names, after)
    requires (forall a :: a in enqueued <==> a in before) && forall a :: a in enqueued' <==> a in after
    ensures Grown(facts, after) && pos < |after| && after[..pos + 1] == before[..pos] + [before[pos]]
    ensures Universe(arities, names) - enqueued' < Universe(arities, names) - enqueued
            || (enqueued' == enqueued && |after| - (pos + 1) < |before| - pos)
  {
    GrownTrans(facts, before, after);
    QueueGrows(arities, names, before, after, enqueued, enqueued');
  }

  method RulesOf(objects: seq<BuildRule>, ghost rules: seq<Rule>, ghost given: seq<Seen>) returns (r: seq<Rule>)
    requires RulesHave(objects, rules, given)
    ensures r == rules
  {
    r := [];
    for i := 0 to |objects|
      invariant r == rules[..i]
    {
      r := r + [objects[i].rule];
    }
  }

  lemma QueueGrows(arities: Arities, names: set<string>, before: seq<Atom>, after: seq<Atom>, enqueued: set<Atom>, enqueued': set<Atom>)
    requires Grown(before, after) && AllTyped(arities, names, after)
    requires forall a :: a in enqueued <==> a in before
    requires forall a :: a in enqueued' <==> a in after
    ensures before == after || Universe(arities, names) - enqueued' < Universe(arities, names) - enqueued
    ensures before == after ==> enqueued' == enqueued
  {
    if before != after {
      var a := after[|before|];
      assert a !in after[..|before|] && after[..|before|] == before;
      TypedInUniverse(arities, names, a);
      assert a in Universe(arities, names) - enqueued && a !in Universe(arities, names) - enqueued';
    }
  }
}
