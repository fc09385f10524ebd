/** The literals of derived variables that matter, and the rules that can be dropped without them
    (axiom_rules.py:24-38, 74-107). */
module NecessaryLiterals {
  import opened Sas
  import opened Collections
  import opened AxiomLayers
  import opened Axioms

  /** The literals an operator reads: its precondition and the conditions of its effects. */
  datatype Reader = Reader(precondition: seq<Literal>, conditions: seq<seq<Literal>>)

  function Flip(l: Literal, negated: bool): Literal {
    Literal(l.atom, l.negated != negated)
  }

  /** Read by the goal or by an operator; conditions of effects are needed with both signs. */
  ghost predicate Seed(n: nat, goals: seq<Literal>, readers: seq<Reader>, l: Literal) {
    && l.atom < n
    && (|| l in goals
        || (exists r | r in readers :: l in r.precondition)
        || (exists r, c | r in readers && c in r.conditions :: l in c || Flip(l, true) in c))
  }

  /** The rules for a literal in the set read only literals in the set. */
  ghost predicate ClosedAt(n: nat, pos: Dependencies, neg: Dependencies, l: Literal, xs: set<Literal>)
    requires |pos| == |neg| == n && l.atom < n
  {
    && (forall u | u in pos[l.atom] :: Literal(u, l.negated) in xs)
    && (forall u | u in neg[l.atom] :: Literal(u, !l.negated) in xs)
  }

  ghost predicate ClosedSet(n: nat, pos: Dependencies, neg: Dependencies, xs: set<Literal>)
    requires |pos| == |neg| == n
  {
    forall l | l in xs && l.atom < n :: ClosedAt(n, pos, neg, l, xs)
  }

  ghost predicate HasSeeds(n: nat, goals: seq<Literal>, readers: seq<Reader>, xs: set<Literal>) {
    forall l | Seed(n, goals, readers, l) :: l in xs
  }

  // ---- seeds ----

  method AddDerived(n: nat, literals: seq<Literal>, both: bool, xs: set<Literal>) returns (r: set<Literal>)
    ensures forall l :: l in r <==> l in xs || (l.atom < n && (l in literals || (both && Flip(l, true) in literals)))
  {
    r := xs;
    for i := 0 to |literals|
      invariant forall l :: l in r <==> l in xs || (l.atom < n && (l in literals[..i] || (both && Flip(l, true) in literals[..i])))
    {
      var c := literals[i];
      assert literals[..i + 1] == literals[..i] + [c];
      assert forall l :: Flip(l, true) == c <==> l == Flip(c, true);
      if c.atom < n {
        r := r + {c} + if both then {Flip(c, true)} else {};
      }
    }
    assert literals[..|literals|] == literals;
  }

  /** The condition literals of one operator. */
  ghost predicate ReadBy(n: nat, r: Reader, l: Literal) {
    l.atom < n && (l in r.precondition || exists c | c in r.conditions :: l in c || Flip(l, true) in c)
  }

  predicate InSome(conditions: seq<seq<Literal>>, n: nat, l: Literal) {
    l.atom < n && exists c | c in conditions :: l in c || Flip(l, true) in c
  }

  method AddReader(n: nat, reader: Reader, xs: set<Literal>) returns (r: set<Literal>)
    ensures forall l :: l in r <==> l in xs || ReadBy(n, reader, l)
  {
    r := AddDerived(n, reader.precondition, false, xs);
    ghost var before := r;
    for i := 0 to |reader.conditions|
      invariant forall l :: l in r <==> l in before || InSome(reader.conditions[..i], n, l)
    {
      assert reader.conditions[..i + 1] == reader.conditions[..i] + [reader.conditions[i]];
      r := AddDerived(n, reader.conditions[i], true, r);
    }
    assert reader.conditions[..|reader.conditions|] == reader.conditions;
  }

  method Seeds(n: nat, goals: seq<Literal>, readers: seq<Reader>) returns (r: set<Literal>)
    ensures forall l :: l in r <==> Seed(n, goals, readers, l)
  {
    r := AddDerived(n, goals, false, {});
    ghost var before := r;
    for i := 0 to |readers|
      invariant forall l :: l in r <==> l in before || exists reader | reader in readers[..i] :: ReadBy(n, reader, l)
    {
      assert readers[..i + 1] == readers[..i] + [readers[i]];
      r := AddReader(n, readers[i], r);
    }
    assert readers[..|readers|] == readers;
    forall l
      ensures l in r <==> Seed(n, goals, readers, l)
    {
      SeedIsRead(n, goals, readers, l);
    }
  }

  lemma SeedIsRead(n: nat, goals: seq<Literal>, readers: seq<Reader>, l: Literal)
    ensures Seed(n, goals, readers, l) <==> (l.atom < n && l in goals) || exists reader | reader in readers :: ReadBy(n, reader, l)
  {
  }

  // ---- closure ----

  ghost function Consequences(l: Literal, us: set<nat>, negated: bool): (r: set<Literal>)
    ensures forall k :: k in r <==> k.atom in us && k.negated == (l.negated != negated)
  {
    set u | u in us :: Literal(u, l.negated != negated)
  }

  /** Adds the body literals of one sign; the new ones are still to be processed. */
  method Push(l: Literal, us: set<nat>, negated: bool, xs: set<Literal>, work: seq<Literal>)
    returns (xs': set<Literal>, work': seq<Literal>)
    ensures xs' == xs + Consequences(l, us, negated)
    ensures work <= work' && (forall k | k in work' :: k in work || k in xs' - xs) && forall k | k in xs' - xs :: k in work'
    ensures xs' == xs ==> work' == work
  {
    xs', work' := xs, work;
    var list := ListOf(us);
    for i := 0 to |list|
      invariant forall k :: k in xs' <==> k in xs || (k.atom in list[..i] && k.negated == (l.negated != negated))
      invariant work <= work' && (forall k | k in work' :: k in work || k in xs' - xs) && forall k | k in xs' - xs :: k in work'
      invariant xs' == xs ==> work' == work
    {
      var k := Literal(list[i], l.negated != negated);
      assert list[..i + 1] == list[..i] + [list[i]];
      if k !in xs' {
        xs', work' := xs' + {k}, work' + [k];
      }
    }
    assert list[..|list|] == list;
  }

  function Universe(n: nat): (r: set<Literal>)
    ensures forall l :: l in r <==> l.atom < n
  {
    var range := Range(n);
    (set u | u in range :: Literal(u, false)) + (set u | u in range :: Literal(u, true))
  }

  /** Everything in the set is needed, and its rules are covered once nothing is left to process. */
  ghost predicate Closing(n: nat, pos: Dependencies, neg: Dependencies, seeds: set<Literal>, xs: set<Literal>, work: seq<Literal>)
    requires |pos| == |neg| == n
  {
    && seeds <= xs <= Universe(n)
    && (forall l | l in work :: l in xs)
    && (forall l | l in xs && l !in work :: ClosedAt(n, pos, neg, l, xs))
    && (forall other | seeds <= other && ClosedSet(n, pos, neg, other) :: xs <= other)
  }

  lemma ClosingStep(n: nat, pos: Dependencies, neg: Dependencies, seeds: set<Literal>, xs: set<Literal>, work: seq<Literal>,
                    l: Literal, rest: seq<Literal>, next: set<Literal>, work': seq<Literal>)
    requires |pos| == |neg| == n && Closing(n, pos, neg, seeds, xs, work) && work == rest + [l]
    requires forall h: nat, u | h < n && (u in pos[h] || u in neg[h]) :: u < n
    requires l.atom < n && next == xs + Consequences(l, pos[l.atom], false) + Consequences(l, neg[l.atom], true)
    requires rest <= work' && (forall k | k in work' :: k in rest || k in next - xs) && forall k | k in next - xs :: k in work'
    ensures Closing(n, pos, neg, seeds, next, work')
  {
    assert l in work && forall k | k in work :: k in rest || k == l;
    forall k | k in next && k !in work'
      ensures ClosedAt(n, pos, neg, k, next)
    {
      assert k in xs && k !in rest;
      if k == l {
        assert forall u | u in pos[l.atom] :: Literal(u, l.negated) in Consequences(l, pos[l.atom], false);
        assert forall u | u in neg[l.atom] :: Literal(u, !l.negated) in Consequences(l, neg[l.atom], true);
      } else {
        assert ClosedAt(n, pos, neg, k, xs);
      }
    }
    forall other | seeds <= other && ClosedSet(n, pos, neg, other)
      ensures next <= other
    {
      assert l in other && ClosedAt(n, pos, neg, l, other);
    }
  }

  /** Handles the last literal of the worklist. */
  method ProcessLast(n: nat, pos: Dependencies, neg: Dependencies, ghost seeds: set<Literal>, xs: set<Literal>, work: seq<Literal>)
    returns (next: set<Literal>, work': seq<Literal>)
    requires |pos| == |neg| == n && forall h: nat, u | h < n && (u in pos[h] || u in neg[h]) :: u < n
    requires work != [] && Closing(n, pos, neg, seeds, xs, work)
    ensures Closing(n, pos, neg, seeds, next, work') && xs <= next
    ensures next == xs ==> |work'| < |work|
  {
    var l, rest := work[|work| - 1], work[..|work| - 1];
    assert l in work && work == rest + [l];
    var middle, work1 := Push(l, pos[l.atom], false, xs, rest);
    next, work' := Push(l, neg[l.atom], true, middle, work1);
    assert next - xs == (middle - xs) + (next - middle);
    ClosingStep(n, pos, neg, seeds, xs, work, l, rest, next, work');
  }

  lemma LexDecreases(n: nat, xs: set<Literal>, next: set<Literal>)
    requires xs <= next <= Universe(n)
    ensures next == xs || Universe(n) - next < Universe(n) - xs
  {
    if next != xs {
      var k :| k in next && k !in xs;
      assert k in Universe(n) - xs && k !in Universe(n) - next;
    }
  }

  /** compute_necessary_literals: the least set with the seeds that is closed under the dependencies. */
  method ComputeNecessary(n: nat, pos: Dependencies, neg: Dependencies, goals: seq<Literal>, readers: seq<Reader>)
    returns (r: set<Literal>)
    requires |pos| == |neg| == n && forall h: nat, u | h < n && (u in pos[h] || u in neg[h]) :: u < n
    ensures HasSeeds(n, goals, readers, r) && ClosedSet(n, pos, neg, r) && r <= Universe(n)
    ensures forall other | HasSeeds(n, goals, readers, other) && ClosedSet(n, pos, neg, other) :: r <= other
  {
    r := Seeds(n, goals, readers);
    ghost var seeds := r;
    var work := ListOf(r);
    while work != []
      invariant Closing(n, pos, neg, seeds, r, work)
      decreases Universe(n) - r, |work|
    {
      ghost var before := r;
      r, work := ProcessLast(n, pos, neg, seeds, r, work);
      LexDecreases(n, before, r);
    }
    forall other | HasSeeds(n, goals, readers, other)
      ensures seeds <= other
    {
    }
  }

  // ---- the set by chains of rules ----

  /** A rule, and a literal of its body. */
  datatype Link = Link(rule: Rule, literal: Literal)

  /** Each rule defines the variable the link before it reads. */
  ghost predicate Chained(n: nat, rules: seq<Rule>, v: nat, links: seq<Link>) {
    links == [] ||
    var before, last := links[..|links| - 1], links[|links| - 1];
    && Chained(n, rules, v, before) && last.rule in rules && last.rule.head == EndsAt(v, before)
    && last.literal in last.rule.body && last.literal.atom < n
  }

  function EndsAt(v: nat, links: seq<Link>): nat {
    if links == [] then v else links[|links| - 1].literal.atom
  }

  /** An odd number of the links read their variable negated. */
  function OddNegations(links: seq<Link>): bool {
    if links == [] then false else OddNegations(links[..|links| - 1]) != links[|links| - 1].literal.negated
  }

  /** The variable is read, over a chain of rules, from one that a goal or an operator reads; its sign is changed by an odd
      number of negations on the way. */
  ghost predicate ReadOverChain(n: nat, rules: seq<Rule>, goals: seq<Literal>, readers: seq<Reader>, l: Literal) {
    exists s, links :: ChainTo(n, rules, goals, readers, s, links, l)
  }

  ghost predicate ChainTo(n: nat, rules: seq<Rule>, goals: seq<Literal>, readers: seq<Reader>, s: Literal, links: seq<Link>, l: Literal) {
    && Seed(n, goals, readers, s) && Chained(n, rules, s.atom, links)
    && EndsAt(s.atom, links) == l.atom && l.negated == (s.negated != OddNegations(links))
  }

  lemma {:induction false} ChainNecessary(n: nat, rules: seq<Rule>, pos: Dependencies, neg: Dependencies, goals: seq<Literal>,
                                          readers: seq<Reader>, xs: set<Literal>, s: Literal, links: seq<Link>, l: Literal)
    requires AreDependencies(n, rules, false, pos) && AreDependencies(n, rules, true, neg)
    requires HasSeeds(n, goals, readers, xs) && ClosedSet(n, pos, neg, xs) && xs <= Universe(n)
    requires ChainTo(n, rules, goals, readers, s, links, l)
    ensures l in xs
    decreases |links|
  {
    if links == [] {
      assert l == s;
    } else {
      var before, last := links[..|links| - 1], links[|links| - 1];
      var k := Literal(EndsAt(s.atom, before), s.negated != OddNegations(before));
      ChainNecessary(n, rules, pos, neg, goals, readers, xs, s, before, k);
      BodyNecessary(n, rules, pos, neg, xs, k, last);
    }
  }

  lemma BodyNecessary(n: nat, rules: seq<Rule>, pos: Dependencies, neg: Dependencies, xs: set<Literal>, k: Literal, link: Link)
    requires AreDependencies(n, rules, false, pos) && AreDependencies(n, rules, true, neg) && ClosedSet(n, pos, neg, xs)
    requires k in xs && k.atom < n && link.rule in rules && link.rule.head == k.atom
    requires link.literal in link.rule.body && link.literal.atom < n
    ensures Literal(link.literal.atom, k.negated != link.literal.negated) in xs
  {
    assert DependsOn(rules, n, k.atom, link.literal.atom, link.literal.negated);
    assert ClosedAt(n, pos, neg, k, xs);
  }

  lemma ChainExtended(n: nat, rules: seq<Rule>, goals: seq<Literal>, readers: seq<Reader>, k: Literal, u: nat, negated: bool)
    requires ReadOverChain(n, rules, goals, readers, k) && DependsOn(rules, n, k.atom, u, negated)
    ensures ReadOverChain(n, rules, goals, readers, Literal(u, k.negated != negated))
  {
    var s, links :| ChainTo(n, rules, goals, readers, s, links, k);
    var rule :| rule in rules && rule.head == k.atom && Literal(u, negated) in rule.body;
    var longer := links + [Link(rule, Literal(u, negated))];
    assert longer[..|links|] == links;
    assert ChainTo(n, rules, goals, readers, s, longer, Literal(u, k.negated != negated));
  }

  lemma ChainsClosed(n: nat, rules: seq<Rule>, pos: Dependencies, neg: Dependencies, goals: seq<Literal>, readers: seq<Reader>, xs: set<Literal>)
    requires AreDependencies(n, rules, false, pos) && AreDependencies(n, rules, true, neg)
    requires forall l :: l in xs <==> l.atom < n && ReadOverChain(n, rules, goals, readers, l)
    ensures HasSeeds(n, goals, readers, xs) && ClosedSet(n, pos, neg, xs)
  {
    forall l | Seed(n, goals, readers, l)
      ensures l in xs
    {
      assert ChainTo(n, rules, goals, readers, l, [], l);
    }
    forall l | l in xs && l.atom < n
      ensures ClosedAt(n, pos, neg, l, xs)
    {
      forall u: nat, negated | u < n && DependsOn(rules, n, l.atom, u, negated)
        ensures Literal(u, l.negated != negated) in xs
      {
        ChainExtended(n, rules, goals, readers, l, u, negated);
      }
    }
  }

  /** The least set consists of exactly the literals read over chains. */
  lemma NecessaryIffChain(n: nat, rules: seq<Rule>, pos: Dependencies, neg: Dependencies, goals: seq<Literal>, readers: seq<Reader>,
                          xs: set<Literal>, l: Literal)
    requires AreDependencies(n, rules, false, pos) && AreDependencies(n, rules, true, neg)
    requires HasSeeds(n, goals, readers, xs) && ClosedSet(n, pos, neg, xs) && xs <= Universe(n)
    requires forall other | HasSeeds(n, goals, readers, other) && ClosedSet(n, pos, neg, other) :: xs <= other
    ensures l in xs <==> l.atom < n && ReadOverChain(n, rules, goals, readers, l)
  {
    if ReadOverChain(n, rules, goals, readers, l) {
      var s, links :| ChainTo(n, rules, goals, readers, s, links, l);
      ChainNecessary(n, rules, pos, neg, goals, readers, xs, s, links, l);
    }
    var chains := set k | k in Universe(n) && ReadOverChain(n, rules, goals, readers, k);
    ChainsClosed(n, rules, pos, neg, goals, readers, chains);
  }

  // ---- pruning ----

  predicate Needed(xs: set<Literal>, v: nat) {
    Literal(v, false) in xs || Literal(v, true) in xs
  }

  /** A variable that is kept depends only on variables that are kept. */
  lemma PruningKeepsBodies(n: nat, rules: seq<Rule>, pos: Dependencies, neg: Dependencies, xs: set<Literal>, h: nat, u: nat, negated: bool)
    requires AreDependencies(n, rules, false, pos) && AreDependencies(n, rules, true, neg) && ClosedSet(n, pos, neg, xs)
    requires h < n && Needed(xs, h) && DependsOn(rules, n, h, u, negated)
    ensures Needed(xs, u)
  {
    var sign :| Literal(h, sign) in xs;
    assert ClosedAt(n, pos, neg, Literal(h, sign), xs);
    assert if negated then u in neg[h] else u in pos[h];
  }

  /** The task with the rules of needed variables only. */
  ghost predicate PrunedTo(t: AxiomTask, pruned: AxiomTask, xs: set<Literal>) {
    && pruned.ranges == t.ranges && pruned.layers == t.layers && pruned.defaults == t.defaults
    && forall a :: a in pruned.axioms <==> a in t.axioms && Needed(xs, a.head.v)
  }

  lemma PrunedValid(t: AxiomTask, pruned: AxiomTask, xs: set<Literal>)
    requires ValidAxioms(t) && PrunedTo(t, pruned, xs)
    ensures ValidAxioms(pruned)
  {
    forall a | a in pruned.axioms && IsRule(pruned, a)
      ensures Stratified(pruned, a)
    {
      assert a in t.axioms && Stratified(t, a);
    }
  }

  /** The rules of needed variables read needed derived variables only. */
  ghost predicate ReadsNeeded(t: AxiomTask, xs: set<Literal>) {
    forall a, f | a in t.axioms && IsRule(t, a) && Needed(xs, a.head.v) && f in a.cond && Derived(t, f.v) :: Needed(xs, f.v)
  }

  lemma ClosedReadsNeeded(t: AxiomTask, pos: Dependencies, neg: Dependencies, xs: set<Literal>)
    requires ValidAxioms(t) && |pos| == |neg| == |t.ranges| && ClosedSet(|t.ranges|, pos, neg, xs)
    requires AreDependencies(|t.ranges|, RulesFor(t), false, pos) && AreDependencies(|t.ranges|, RulesFor(t), true, neg)
    ensures ReadsNeeded(t, xs)
  {
    var n, rules := |t.ranges|, RulesFor(t);
    forall a, f | a in t.axioms && IsRule(t, a) && Needed(xs, a.head.v) && f in a.cond && Derived(t, f.v)
      ensures Needed(xs, f.v)
    {
      var i :| 0 <= i < |t.axioms| && t.axioms[i] == a;
      BodyHas(t, a.cond, f);
      assert rules[i] in rules;
      var negated := f.x == t.defaults[f.v];
      assert DependsOn(rules, n, a.head.v, f.v, negated);
      PruningKeepsBodies(n, rules, pos, neg, xs, a.head.v, f.v, negated);
    }
  }

  ghost predicate SameNeeded(xs: set<Literal>, ys: set<nat>, zs: set<nat>) {
    forall v | Needed(xs, v) :: v in ys <==> v in zs
  }

  lemma SameBody(t: AxiomTask, pruned: AxiomTask, xs: set<Literal>, s: State, a: Axiom, ys: set<nat>, zs: set<nat>)
    requires ValidAxioms(t) && ValidAxioms(pruned) && PrunedTo(t, pruned, xs) && ReadsNeeded(t, xs) && SameNeeded(xs, ys, zs)
    requires a in pruned.axioms && IsRule(t, a)
    ensures BodyIn(t, s, ys, a) <==> BodyIn(pruned, s, zs, a)
  {
    forall f | f in a.cond
      ensures FactIn(t, s, ys, f) <==> FactIn(pruned, s, zs, f)
    {
      assert Derived(t, f.v) ==> Needed(xs, f.v);
    }
  }

  /** `ys` on the needed variables from layer `l` on, `below` under it, and `rest` elsewhere. */
  ghost function Spliced(t: AxiomTask, xs: set<Literal>, l: nat, below: set<nat>, ys: set<nat>, rest: set<nat>): set<nat> {
    (set v | v in ys && Needed(xs, v) && !BelowLayer(t, v, l)) + Under(t, l, below)
    + (set v | v in rest && !Needed(xs, v) && !BelowLayer(t, v, l))
  }

  lemma SplicedAgrees(t: AxiomTask, xs: set<Literal>, l: nat, below: set<nat>, below': set<nat>, ys: set<nat>, rest: set<nat>)
    requires AgreeBelow(t, l, below', ys) && SameNeeded(xs, below, below')
    ensures AgreeBelow(t, l, below, Spliced(t, xs, l, below, ys, rest)) && SameNeeded(xs, Spliced(t, xs, l, below, ys, rest), ys)
  {
    var spliced := Spliced(t, xs, l, below, ys, rest);
    forall v | Needed(xs, v)
      ensures v in spliced <==> v in ys
    {
      if BelowLayer(t, v, l) {
        AgreeAt(t, l, below', ys, v);
      }
    }
    assert Under(t, l, spliced) == Under(t, l, below);
  }

  /** What is forced with the needed rules is forced with all of them, and conversely. */
  lemma ForcedEither(t: AxiomTask, pruned: AxiomTask, xs: set<Literal>, s: State, l: nat, below: set<nat>, below': set<nat>, v: nat)
    requires ValidAxioms(t) && ValidAxioms(pruned) && PrunedTo(t, pruned, xs) && ReadsNeeded(t, xs)
    requires SameNeeded(xs, below, below') && Needed(xs, v)
    ensures Forced(t, s, l, below, v) <==> Forced(pruned, s, l, below', v)
  {
    if Forced(t, s, l, below, v) {
      forall ys | AgreeBelow(pruned, l, below', ys) && Closed(pruned, s, l, ys)
        ensures v in ys
      {
        ExtendClosed(t, pruned, xs, s, l, below, below', ys);
      }
    }
    if Forced(pruned, s, l, below', v) {
      forall ys | AgreeBelow(t, l, below, ys) && Closed(t, s, l, ys)
        ensures v in ys
      {
        RestrictClosed(t, pruned, xs, s, l, below, below', ys);
      }
    }
  }

  /** A set closed under the needed rules, with every other variable of the layer, is closed. */
  lemma ExtendClosed(t: AxiomTask, pruned: AxiomTask, xs: set<Literal>, s: State, l: nat, below: set<nat>, below': set<nat>, ys: set<nat>)
    requires ValidAxioms(t) && ValidAxioms(pruned) && PrunedTo(t, pruned, xs) && ReadsNeeded(t, xs)
    requires SameNeeded(xs, below, below') && AgreeBelow(pruned, l, below', ys) && Closed(pruned, s, l, ys)
    ensures exists zs :: AgreeBelow(t, l, below, zs) && Closed(t, s, l, zs) && SameNeeded(xs, zs, ys)
  {
    var zs := Spliced(t, xs, l, below, ys, Range(|t.ranges|));
    assert Under(t, l, below') == Under(pruned, l, below') && Under(t, l, ys) == Under(pruned, l, ys);
    SplicedAgrees(t, xs, l, below, below', ys, Range(|t.ranges|));
    forall a | a in t.axioms && IsRule(t, a) && InLayer(t, a.head.v, l) && BodyIn(t, s, zs, a)
      ensures a.head.v in zs
    {
      if Needed(xs, a.head.v) {
        SameBody(t, pruned, xs, s, a, zs, ys);
      }
    }
  }

  lemma RestrictClosed(t: AxiomTask, pruned: AxiomTask, xs: set<Literal>, s: State, l: nat, below: set<nat>, below': set<nat>, ys: set<nat>)
    requires ValidAxioms(t) && ValidAxioms(pruned) && PrunedTo(t, pruned, xs) && ReadsNeeded(t, xs)
    requires SameNeeded(xs, below, below') && AgreeBelow(t, l, below, ys) && Closed(t, s, l, ys)
    ensures exists zs :: AgreeBelow(pruned, l, below', zs) && Closed(pruned, s, l, zs) && SameNeeded(xs, zs, ys)
  {
    var zs := Spliced(t, xs, l, below', ys, {});
    SplicedAgrees(t, xs, l, below', below, ys, {});
    assert Under(t, l, below') == Under(pruned, l, below') && Under(t, l, zs) == Under(pruned, l, zs);
    forall a | a in pruned.axioms && IsRule(pruned, a) && InLayer(pruned, a.head.v, l) && BodyIn(pruned, s, zs, a)
      ensures a.head.v in zs
    {
      SameBody(t, pruned, xs, s, a, ys, zs);
    }
  }

  lemma SameNext(t: AxiomTask, pruned: AxiomTask, xs: set<Literal>, s: State, l: nat, below: set<nat>, below': set<nat>)
    requires ValidAxioms(t) && ValidAxioms(pruned) && PrunedTo(t, pruned, xs) && ReadsNeeded(t, xs) && SameNeeded(xs, below, below')
    ensures SameNeeded(xs, below + ForcedIn(t, s, l, below), below' + ForcedIn(pruned, s, l, below'))
  {
    forall v | Needed(xs, v)
      ensures v in ForcedIn(t, s, l, below) <==> v in ForcedIn(pruned, s, l, below')
    {
      ForcedEither(t, pruned, xs, s, l, below, below', v);
    }
  }

  lemma {:induction false} SameTrueVars(t: AxiomTask, pruned: AxiomTask, xs: set<Literal>, s: State, n: nat)
    requires ValidAxioms(t) && ValidAxioms(pruned) && PrunedTo(t, pruned, xs) && ReadsNeeded(t, xs)
    ensures SameNeeded(xs, TrueVars(t, s, n), TrueVars(pruned, s, n))
  {
    if n > 0 {
      var l := n - 1;
      SameTrueVars(t, pruned, xs, s, l);
      TrueStep(t, s, l);
      TrueStep(pruned, s, l);
      SameNext(t, pruned, xs, s, l, TrueVars(t, s, l), TrueVars(pruned, s, l));
    }
  }

  /** Dropping the rules of the other variables changes no value that is needed. */
  lemma PruningKeepsNeeded(t: AxiomTask, pruned: AxiomTask, xs: set<Literal>, s: State, v: nat)
    requires ValidAxioms(t) && PrunedTo(t, pruned, xs) && ReadsNeeded(t, xs)
    requires |s| == |t.ranges| && v < |s| && (Derived(t, v) ==> Needed(xs, v))
    ensures ValidAxioms(pruned) && Model(t, s)[v] == Model(pruned, s)[v]
  {
    PrunedValid(t, pruned, xs);
    SameTrueVars(t, pruned, xs, s, LayerCount(t.layers));
  }

  /** Whatever the goal or an operator reads is evaluated as before. */
  lemma SeedsEvaluateAsBefore(t: AxiomTask, pruned: AxiomTask, goals: seq<Literal>, readers: seq<Reader>,
                              pos: Dependencies, neg: Dependencies, xs: set<Literal>, s: State, l: Literal)
    requires ValidAxioms(t) && PrunedTo(t, pruned, xs) && |s| == |t.ranges|
    requires |pos| == |neg| == |t.ranges| && ClosedSet(|t.ranges|, pos, neg, xs) && HasSeeds(|t.ranges|, goals, readers, xs)
    requires AreDependencies(|t.ranges|, RulesFor(t), false, pos) && AreDependencies(|t.ranges|, RulesFor(t), true, neg)
    requires Seed(|t.ranges|, goals, readers, l)
    ensures ValidAxioms(pruned) && Model(t, s)[l.atom] == Model(pruned, s)[l.atom]
  {
    ClosedReadsNeeded(t, pos, neg, xs);
    assert Needed(xs, l.atom) by {
      assert l == Literal(l.atom, l.negated);
    }
    PruningKeepsNeeded(t, pruned, xs, s, l.atom);
  }
}
