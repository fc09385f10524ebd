/** Dropping unreachable values and constant variables from a task (simplify.py:156-477). */
module Simplify {
  import opened Sas
  import opened Conditions
  import opened BuildOperator
  import opened Dtg
  import opened Renaming

  /** Effects that reach a value do so from values that are reached. */
  ghost predicate PostsReached(op: SasOperator, domains: seq<set<nat>>) {
    forall e | e in op.prePost && e.v < |domains| ::
      match EffPre(op, e)
      case Free => e.post in domains[e.v]
      case Only(q) => q in domains[e.v] ==> e.post in domains[e.v]
      case Contradictory => true
  }

  /** The domains are reachable values of a well-built task and the table renames them. */
  ghost predicate Renames(t: Task, domains: seq<set<nat>>, tab: Table) {
    && WellBuiltTask(t) && |domains| == |t.ranges| && ValidTable(t.ranges, domains, tab)
    && (forall v | 0 <= v < |domains| :: ValidDomain(t.ranges[v], t.init[v], domains[v]))
    && forall op | op in t.ops :: PostsReached(op, domains)
  }

  /** Effects that fire in `s` on one variable agree. */
  ghost predicate Unambiguous(op: SasOperator, s: State) {
    forall e, e' | e in op.prePost && e' in op.prePost && e.v == e'.v && HoldsAll(s, e.cond) && HoldsAll(s, e'.cond) ::
      e.post == e'.post
  }

  // ---- runs stay in the domains ----

  lemma EffPreMet(op: SasOperator, e: Effect, s: State)
    requires WellBuilt(op) && e in op.prePost && Applicable(op, s) && HoldsAll(s, e.cond)
    ensures Meets(s, e.v, EffPre(op, e))
  {
    GatheredIs(op);
    ApplicabilityHolds(op, Gathered(op), s);
    var c := Gathered(op);
    assert e.v in c ==> Holds(s, Fact(e.v, c[e.v]));
    ScanMeets(e.v, if e.v in c then Only(c[e.v]) else Free, e.cond, s);
  }

  lemma {:induction false} EffectsStay(domains: seq<set<nat>>, effects: seq<Effect>, s: State, current: State)
    requires InDomains(domains, current)
    requires forall e | e in effects && HoldsAll(s, e.cond) && e.v < |domains| :: e.post in domains[e.v]
    ensures InDomains(domains, ApplyEffects(effects, s, current))
    decreases |effects|
  {
    if effects != [] {
      var e := effects[0];
      assert e in effects;
      var next := if HoldsAll(s, e.cond) && e.v < |current| then current[e.v := e.post] else current;
      EffectsStay(domains, effects[1..], s, next);
    }
  }

  lemma StepStays(op: SasOperator, domains: seq<set<nat>>, s: State)
    requires WellBuilt(op) && PostsReached(op, domains) && InDomains(domains, s) && Applicable(op, s)
    ensures InDomains(domains, Successor(op, s))
  {
    forall e | e in op.prePost && HoldsAll(s, e.cond) && e.v < |domains|
      ensures e.post in domains[e.v]
    {
      EffPreMet(op, e, s);
    }
    EffectsStay(domains, op.prePost, s, s);
  }

  lemma {:induction false} RunStays(t: Task, domains: seq<set<nat>>, tab: Table, states: seq<State>, acts: seq<nat>, k: nat)
    requires Renames(t, domains, tab) && IsRun(t, states, acts) && k < |states|
    ensures InDomains(domains, states[k])
  {
    if k > 0 {
      RunStays(t, domains, tab, states, acts, k - 1);
      assert StepBy(t, states[k - 1], acts[k - 1], states[k]);
      var op := t.ops[acts[k - 1]];
      assert op in t.ops;
      StepStays(op, domains, states[k - 1]);
    }
  }

  // ---- conditions ----

  /** No fact of the list was dropped as unreachable. */
  ghost predicate Kept(domains: seq<set<nat>>, fs: seq<Fact>) {
    forall f | f in fs :: f.v < |domains| && f.x in domains[f.v]
  }

  ghost predicate ValidFacts(ranges: seq<nat>, fs: seq<Fact>) {
    forall f | f in fs :: ValidFact(ranges, f)
  }

  /** The converted list says the same about renamed states; None when some fact is unreachable. */
  ghost predicate Converted(t: Task, domains: seq<set<nat>>, tab: Table, fs: seq<Fact>, r: Option<seq<Fact>>)
    requires Renames(t, domains, tab)
  {
    && (r.None? <==> !Kept(domains, fs))
    && (r.Some? ==> ValidFacts(tab.sizes, r.value) && (DistinctFacts(fs) ==> DistinctFacts(r.value)))
    && (r.Some? && ValidFacts(t.ranges, fs) ==> Images(t, domains, tab, fs, r.value))
    && (forall s | InDomains(domains, s) ::
          if r.None? then !HoldsAll(s, fs) else HoldsAll(s, fs) <==> HoldsAll(Rename(t.ranges, domains, tab, s), r.value))
  }

  ghost predicate IsImage(t: Task, domains: seq<set<nat>>, tab: Table, fs: seq<Fact>, g: Fact)
    requires Renames(t, domains, tab) && ValidFacts(t.ranges, fs)
  {
    exists f | f in fs :: TranslatePair(tab, f) == (Some(g.v), Value(g.x))
  }

  /** The list holds exactly the translations of the facts on variables that are kept. */
  ghost predicate Images(t: Task, domains: seq<set<nat>>, tab: Table, fs: seq<Fact>, r: seq<Fact>)
    requires Renames(t, domains, tab) && ValidFacts(t.ranges, fs)
  {
    && (forall g | g in r :: IsImage(t, domains, tab, fs, g))
    && (forall f | f in fs :: TranslatePair(tab, f).1.Value? ==>
          TranslatePair(tab, f).0.Some? && Fact(TranslatePair(tab, f).0.value, TranslatePair(tab, f).1.x) in r)
  }

  lemma ValueInSizes(t: Task, domains: seq<set<nat>>, tab: Table, f: Fact)
    requires Renames(t, domains, tab) && ValidFact(t.ranges, f) && TranslatePair(tab, f).1.Value?
    ensures TranslatePair(tab, f).0.Some?
    ensures ValidFact(tab.sizes, Fact(TranslatePair(tab, f).0.value, TranslatePair(tab, f).1.x))
  {
    assert ValuesFor(t.ranges[f.v], domains[f.v], tab.values[f.v]);
    RankGrows(domains[f.v], f.x, f.x + 1);
  }

  ghost predicate ConvertedTo(t: Task, domains: seq<set<nat>>, tab: Table, fs: seq<Fact>, r: seq<Fact>)
    requires Renames(t, domains, tab) && ValidFacts(t.ranges, fs)
  {
    && Kept(domains, fs) && ValidFacts(tab.sizes, r)
    && Images(t, domains, tab, fs, r)
    && (DistinctFacts(fs) ==> DistinctFacts(r))
    && (forall s | InDomains(domains, s) :: HoldsAll(s, fs) <==> HoldsAll(Rename(t.ranges, domains, tab, s), r))
  }

  lemma ConvertNext(t: Task, domains: seq<set<nat>>, tab: Table, fs: seq<Fact>, r: seq<Fact>, f: Fact, next: seq<Fact>)
    requires Renames(t, domains, tab) && ValidFacts(t.ranges, fs) && ConvertedTo(t, domains, tab, fs, r)
    requires ValidFact(t.ranges, f) && !TranslatePair(tab, f).1.AlwaysFalse? && next == fs + [f]
    ensures TranslatePair(tab, f).1.Value? ==> TranslatePair(tab, f).0.Some?
    ensures var (no, value) := TranslatePair(tab, f);
            ValidFacts(t.ranges, next) && ConvertedTo(t, domains, tab, next, if value.Value? then r + [Fact(no.value, value.x)] else r)
  {
    var (no, value) := TranslatePair(tab, f);
    assert ValuesFor(t.ranges[f.v], domains[f.v], tab.values[f.v]);
    if value.Value? {
      ValueInSizes(t, domains, tab, f);
    }
    var r' := if value.Value? then r + [Fact(no.value, value.x)] else r;
    ImagesNext(t, domains, tab, fs, r, f);
    forall s | InDomains(domains, s)
      ensures HoldsAll(s, fs + [f]) <==> HoldsAll(Rename(t.ranges, domains, tab, s), r')
    {
      HoldsNext(t, domains, tab, s, fs, r, f);
    }
    if DistinctFacts(fs + [f]) {
      StillDistinct(t, domains, tab, fs, r, f);
    }
  }

  lemma ImagesNext(t: Task, domains: seq<set<nat>>, tab: Table, fs: seq<Fact>, r: seq<Fact>, f: Fact)
    requires Renames(t, domains, tab) && ValidFacts(t.ranges, fs) && Images(t, domains, tab, fs, r)
    requires ValidFact(t.ranges, f) && (TranslatePair(tab, f).1.Value? ==> TranslatePair(tab, f).0.Some?)
    ensures var (no, value) := TranslatePair(tab, f);
            Images(t, domains, tab, fs + [f], if value.Value? then r + [Fact(no.value, value.x)] else r)
  {
    var (no, value) := TranslatePair(tab, f);
    var r' := if value.Value? then r + [Fact(no.value, value.x)] else r;
    forall g | g in r'
      ensures IsImage(t, domains, tab, fs + [f], g)
    {
      assert f in fs + [f] && (g in r ==> IsImage(t, domains, tab, fs, g));
      assert forall h | h in fs :: h in fs + [f];
    }
  }

  lemma HoldsNext(t: Task, domains: seq<set<nat>>, tab: Table, s: State, fs: seq<Fact>, r: seq<Fact>, f: Fact)
    requires Renames(t, domains, tab) && InDomains(domains, s) && ValidFact(t.ranges, f) && !TranslatePair(tab, f).1.AlwaysFalse?
    requires HoldsAll(s, fs) <==> HoldsAll(Rename(t.ranges, domains, tab, s), r)
    ensures TranslatePair(tab, f).1.Value? ==> TranslatePair(tab, f).0.Some?
    ensures var (no, value) := TranslatePair(tab, f);
            HoldsAll(s, fs + [f]) <==>
            HoldsAll(Rename(t.ranges, domains, tab, s), if value.Value? then r + [Fact(no.value, value.x)] else r)
  {
    if TranslatePair(tab, f).1.Value? {
      ValueInSizes(t, domains, tab, f);
    }
    FactRenamed(t.ranges, domains, tab, s, f);
    assert HoldsAll(s, fs + [f]) <==> HoldsAll(s, fs) && Holds(s, f);
  }

  lemma StillDistinct(t: Task, domains: seq<set<nat>>, tab: Table, fs: seq<Fact>, r: seq<Fact>, f: Fact)
    requires Renames(t, domains, tab) && ValidFacts(t.ranges, fs) && ConvertedTo(t, domains, tab, fs, r)
    requires ValidFact(t.ranges, f) && DistinctFacts(fs + [f])
    ensures DistinctFacts(r)
    ensures TranslatePair(tab, f).1.Value? && TranslatePair(tab, f).0.Some? ==>
              DistinctFacts(r + [Fact(TranslatePair(tab, f).0.value, TranslatePair(tab, f).1.x)])
  {
    forall i, j | 0 <= i < j < |fs|
      ensures fs[i].v != fs[j].v
    {
      assert (fs + [f])[i].v != (fs + [f])[j].v;
    }
    var (no, value) := TranslatePair(tab, f);
    if value.Value? && no.Some? {
      forall g | g in r
        ensures g.v != no.value
      {
        var h :| h in fs && TranslatePair(tab, h) == (Some(g.v), Value(g.x));
        var i :| 0 <= i < |fs| && fs[i] == h;
        assert (fs + [f])[i].v != (fs + [f])[|fs|].v;
        assert ValuesFor(t.ranges[h.v], domains[h.v], tab.values[h.v]);
        assert ValuesFor(t.ranges[f.v], domains[f.v], tab.values[f.v]);
      }
    }
  }

  /** A list with an unreachable fact never holds. */
  lemma DroppedFact(t: Task, domains: seq<set<nat>>, tab: Table, fs: seq<Fact>, f: Fact)
    requires Renames(t, domains, tab) && f in fs && ValidFact(t.ranges, f) && TranslatePair(tab, f).1.AlwaysFalse?
    ensures Converted(t, domains, tab, fs, None)
  {
    assert ValuesFor(t.ranges[f.v], domains[f.v], tab.values[f.v]);
    forall s | InDomains(domains, s)
      ensures !HoldsAll(s, fs)
    {
      FactRenamed(t.ranges, domains, tab, s, f);
    }
  }

  /** convert_pairs */
  method ConvertPairs(ghost t: Task, ghost domains: seq<set<nat>>, tab: Table, fs: seq<Fact>) returns (r: Option<seq<Fact>>)
    requires Renames(t, domains, tab) && ValidFacts(t.ranges, fs)
    ensures Converted(t, domains, tab, fs, r)
  {
    var made: seq<Fact> := [];
    for i := 0 to |fs|
      invariant ConvertedTo(t, domains, tab, fs[..i], made)
    {
      var f := fs[i];
      assert f in fs && fs[..i + 1] == fs[..i] + [f];
      var (no, value) := TranslatePair(tab, f);
      if value == AlwaysFalse {
        DroppedFact(t, domains, tab, fs, f);
        return None;
      }
      ConvertNext(t, domains, tab, fs[..i], made, f, fs[..i + 1]);
      if value != AlwaysTrue {
        made := made + [Fact(no.value, value.x)];
      }
    }
    assert fs[..|fs|] == fs;
    return Some(made);
  }

  // ---- effects ----

  /** The operator's converted applicability conditions. */
  ghost predicate IsConverted(t: Task, domains: seq<set<nat>>, tab: Table, op: SasOperator, dict: Cond)
    requires Renames(t, domains, tab)
  {
    && ValidCond(tab.sizes, dict)
    && (forall f | Demands(op, f) :: f.v < |domains| && f.x in domains[f.v])
    && (forall v: nat, x: nat | Demands(op, Fact(v, x)) && v < |domains| && |domains[v]| != 1 ::
          tab.varNos[v].Some? && tab.varNos[v].value in dict && dict[tab.varNos[v].value] == Rank(domains[v], x))
    && (forall n: nat | n in dict :: exists f | Demands(op, f) && f.v < |domains| :: tab.varNos[f.v] == Some(n))
    && (forall s | InDomains(domains, s) :: Applicable(op, s) <==> Satisfies(Rename(t.ranges, domains, tab, s), dict))
  }

  /** `d` is the converted effect `e`, and no mere repetition of its precondition. */
  ghost predicate EffectRenamed(t: Task, domains: seq<set<nat>>, tab: Table, e: Effect, d: Effect)
    requires Renames(t, domains, tab) && e.v < |domains|
  {
    && |domains[e.v]| != 1 && tab.varNos[e.v] == Some(d.v) && e.post in domains[e.v] && d.post == Rank(domains[e.v], e.post)
    && d.pre == (if e.pre.Some? then Some(Rank(domains[e.v], e.pre.value)) else None) && d.pre != Some(d.post)
    && ValidEffect(tab.sizes, d)
    && forall s | InDomains(domains, s) :: HoldsAll(s, e.cond) <==> HoldsAll(Rename(t.ranges, domains, tab, s), d.cond)
  }

  /** Where the operator applies the effect does not change its variable. */
  ghost predicate NeverChanges(domains: seq<set<nat>>, op: SasOperator, e: Effect) {
    forall s | InDomains(domains, s) && Applicable(op, s) && HoldsAll(s, e.cond) :: Holds(s, Fact(e.v, e.post))
  }

  /** In some state with values of the domains the operator applies and the effect fires. */
  ghost predicate CanFire(domains: seq<set<nat>>, op: SasOperator, e: Effect) {
    exists s | InDomains(domains, s) :: Applicable(op, s) && HoldsAll(s, e.cond)
  }

  ghost predicate CanApply(domains: seq<set<nat>>, op: SasOperator) {
    exists s | InDomains(domains, s) :: Applicable(op, s)
  }

  /** The effect is dropped: its variable has one value left, it repeats its precondition, or it never fires. */
  ghost predicate Vanishes(domains: seq<set<nat>>, op: SasOperator, e: Effect) {
    (e.v < |domains| && |domains[e.v]| == 1) || e.pre == Some(e.post) || !CanFire(domains, op, e)
  }

  /** A dropped effect changes no state with values of the domains, and any other one does unless it demands the very value it sets. */
  lemma VanishesIff(t: Task, domains: seq<set<nat>>, tab: Table, op: SasOperator, e: Effect)
    requires Renames(t, domains, tab) && op in t.ops && e in op.prePost
    ensures Vanishes(domains, op, e) ==> NeverChanges(domains, op, e)
    ensures !Vanishes(domains, op, e) && Fact(e.v, e.post) !in e.cond ==> !NeverChanges(domains, op, e)
  {
    assert ValidFact(t.ranges, Fact(e.v, e.post));
    if Vanishes(domains, op, e) {
      forall s | InDomains(domains, s) && Applicable(op, s) && HoldsAll(s, e.cond)
        ensures Holds(s, Fact(e.v, e.post))
      {
        VanishedKeeps(t, domains, tab, op, e, s);
      }
    } else if Fact(e.v, e.post) !in e.cond {
      var s :| InDomains(domains, s) && Applicable(op, s) && HoldsAll(s, e.cond);
      ChangesSomewhere(t, domains, tab, op, e, s);
    }
  }

  lemma VanishedKeeps(t: Task, domains: seq<set<nat>>, tab: Table, op: SasOperator, e: Effect, s: State)
    requires Renames(t, domains, tab) && op in t.ops && e in op.prePost && Vanishes(domains, op, e)
    requires InDomains(domains, s) && Applicable(op, s) && HoldsAll(s, e.cond)
    ensures Holds(s, Fact(e.v, e.post))
  {
    assert ValidFact(t.ranges, Fact(e.v, e.post)) && PreHolds(s, e);
    assert CanFire(domains, op, e);
    if e.pre != Some(e.post) {
      StepStays(op, domains, s);
      EffPreMet(op, e, s);
      assert PostsReached(op, domains);
      OnlyOne(domains[e.v], s[e.v], e.post);
    }
  }

  lemma ChangesSomewhere(t: Task, domains: seq<set<nat>>, tab: Table, op: SasOperator, e: Effect, s: State)
    requires Renames(t, domains, tab) && op in t.ops && e in op.prePost && !Vanishes(domains, op, e) && Fact(e.v, e.post) !in e.cond
    requires InDomains(domains, s) && Applicable(op, s) && HoldsAll(s, e.cond)
    ensures !NeverChanges(domains, op, e)
  {
    assert ValidFact(t.ranges, Fact(e.v, e.post)) && PreHolds(s, e);
    if Holds(s, Fact(e.v, e.post)) {
      var x := AnotherValue(domains[e.v], e.post);
      var s' := s[e.v := x];
      assert WellBuilt(op);
      forall f | f in op.prevail || f in e.cond
        ensures Holds(s', f)
      {
        assert Holds(s, f) && f == Fact(f.v, f.x);
      }
      forall d | d in op.prePost
        ensures PreHolds(s', d)
      {
        assert PreHolds(s, d);
      }
      assert InDomains(domains, s') && !Holds(s', Fact(e.v, e.post));
    }
  }

  lemma AnotherValue(domain: set<nat>, x: nat) returns (y: nat)
    requires x in domain && |domain| != 1
    ensures y in domain && y != x
  {
    var rest := domain - {x};
    assert domain == rest + {x} && |domain| == |rest| + 1;
    y :| y in rest;
  }

  /** Conditions on values of the domains are met by some state. */
  lemma StateWith(domains: seq<set<nat>>, base: State, c: Cond) returns (s: State)
    requires InDomains(domains, base) && forall v | v in c :: v < |domains| && c[v] in domains[v]
    ensures InDomains(domains, s) && Satisfies(s, c)
  {
    s := seq(|base|, v requires 0 <= v < |base| => if v in c then c[v] else base[v]);
  }

  lemma DemandsMet(t: Task, domains: seq<set<nat>>, tab: Table, op: SasOperator)
    requires Renames(t, domains, tab) && op in t.ops && forall f | Demands(op, f) :: f.v < |domains| && f.x in domains[f.v]
    ensures CanApply(domains, op)
  {
    GatheredIs(op);
    forall v | v in Gathered(op)
      ensures v < |domains| && Gathered(op)[v] in domains[v]
    {
      assert Demands(op, Fact(v, Gathered(op)[v]));
    }
    var s := StateWith(domains, t.init, Gathered(op));
    ApplicabilityHolds(op, Gathered(op), s);
  }

  lemma Fires(t: Task, domains: seq<set<nat>>, tab: Table, op: SasOperator, e: Effect)
    requires Renames(t, domains, tab) && op in t.ops && e in op.prePost
    requires (forall f | Demands(op, f) :: f.v < |domains| && f.x in domains[f.v]) && Kept(domains, e.cond)
    ensures CanFire(domains, op, e)
  {
    var c, d := Gathered(op), PrevailMap(e.cond);
    GatheredIs(op);
    PrevailMapIs(e.cond);
    forall v | v in d
      ensures v !in c && v < |domains| && d[v] in domains[v]
    {
      OwnCondition(op, e, Fact(v, d[v]));
    }
    forall v | v in c
      ensures v < |domains| && c[v] in domains[v]
    {
      assert Demands(op, Fact(v, c[v]));
    }
    var s := StateWith(domains, t.init, c + d);
    assert forall v | v in c :: Holds(s, Fact(v, (c + d)[v]));
    ApplicabilityHolds(op, c, s);
    forall f | f in e.cond
      ensures Holds(s, f)
    {
      assert f == Fact(f.v, f.x) && f.v in d && Holds(s, Fact(f.v, (c + d)[f.v]));
    }
  }

  /** Effect conditions speak of other variables than the applicability conditions. */
  lemma OwnCondition(op: SasOperator, e: Effect, f: Fact)
    requires WellBuilt(op) && e in op.prePost && f in e.cond
    ensures f.v !in Gathered(op)
  {
    GatheredIs(op);
    assert forall v: nat | v in Gathered(op) :: Demands(op, Fact(v, Gathered(op)[v]));
    assert forall x: nat :: !Demands(op, Fact(f.v, x));
  }

  /** An effect that can fire as far as the conditions tell has a reachable value. */
  lemma PostKept(t: Task, domains: seq<set<nat>>, tab: Table, op: SasOperator, e: Effect)
    requires Renames(t, domains, tab) && op in t.ops && e in op.prePost
    requires (forall f | Demands(op, f) :: f.v < |domains| && f.x in domains[f.v]) && Kept(domains, e.cond)
    ensures e.post in domains[e.v]
  {
    GatheredIs(op);
    var c := Gathered(op);
    var known := if e.v in c then Only(c[e.v]) else Free;
    ScanOrigin(e.v, known, e.cond);
    if e.v in c {
      var demanded := Fact(e.v, c[e.v]);
      assert Demands(op, demanded);
      assert WellBuilt(op);
      forall f | f in e.cond
        ensures f.v != e.v
      {
        if demanded !in op.prevail {
          var e' :| e' in op.prePost && e'.v == e.v && e'.pre == Some(c[e.v]);
          assert f.v == e'.v ==> e'.pre.None?;
        }
      }
    }
    assert !EffPre(op, e).Contradictory?;
    assert PostsReached(op, domains) && ValidFact(t.ranges, Fact(e.v, e.post));
  }

  /** translate_pre_post */
  method TranslatePrePost(ghost t: Task, ghost domains: seq<set<nat>>, tab: Table, ghost op: SasOperator, e: Effect, dict: Cond)
    returns (r: Option<Effect>)
    requires Renames(t, domains, tab) && op in t.ops && e in op.prePost && IsConverted(t, domains, tab, op, dict)
    ensures r.Some? ==> EffectRenamed(t, domains, tab, e, r.value)
    ensures r.None? <==> Vanishes(domains, op, e)
  {
    var post := Fact(e.v, e.post);
    assert ValidFact(t.ranges, post) && ValuesFor(t.ranges[e.v], domains[e.v], tab.values[e.v]);
    var (newVar, newPost) := TranslatePair(tab, post);
    if newPost == AlwaysTrue {
      return None;
    }
    var newPre: Option<NewValue> := None;
    if e.pre.Some? {
      assert Demands(op, Fact(e.v, e.pre.value));
      newPre := Some(TranslatePair(tab, Fact(e.v, e.pre.value)).1);
      assert newPre != Some(AlwaysFalse);
    }
    if newPre == Some(newPost) {
      SameValue(t, domains, tab, op, e);
      return None;
    }
    var cond := ConvertPairs(t, domains, tab, e.cond);
    if cond.None? {
      return None;
    }
    var conflict := Conflicts(cond.value, dict);
    if conflict {
      Conflicting(t, domains, tab, op, e, dict, cond.value);
      return None;
    }
    EffectMade(t, domains, tab, op, e, newPre, cond.value);
    Fires(t, domains, tab, op, e);
    r := Some(Effect(newVar.value, if newPre.None? then None else Some(newPre.value.x), newPost.x, cond.value));
  }

  /** An effect that is neither dropped nor constant is the renamed one. */
  lemma EffectMade(t: Task, domains: seq<set<nat>>, tab: Table, op: SasOperator, e: Effect, newPre: Option<NewValue>, cond: seq<Fact>)
    requires Renames(t, domains, tab) && op in t.ops && e in op.prePost
    requires forall f | Demands(op, f) :: f.v < |domains| && f.x in domains[f.v]
    requires ValidEffect(t.ranges, e) && Converted(t, domains, tab, e.cond, Some(cond))
    requires newPre == if e.pre.None? then None else Some(TranslatePair(tab, Fact(e.v, e.pre.value)).1)
    requires newPre != Some(TranslatePair(tab, Fact(e.v, e.post)).1) && TranslatePair(tab, Fact(e.v, e.post)).1 != AlwaysTrue
    requires newPre != Some(AlwaysFalse)
    ensures var (newVar, newPost) := TranslatePair(tab, Fact(e.v, e.post));
            && newVar.Some? && newPost.Value? && (newPre.Some? ==> newPre.value.Value?)
            && EffectRenamed(t, domains, tab, e,
                             Effect(newVar.value, if newPre.None? then None else Some(newPre.value.x), newPost.x, cond))
  {
    var post := Fact(e.v, e.post);
    assert ValuesFor(t.ranges[e.v], domains[e.v], tab.values[e.v]);
    PostKept(t, domains, tab, op, e);
    ValueInSizes(t, domains, tab, post);
  }

  lemma SameValue(t: Task, domains: seq<set<nat>>, tab: Table, op: SasOperator, e: Effect)
    requires Renames(t, domains, tab) && op in t.ops && e in op.prePost && e.pre.Some?
    requires e.pre.value in domains[e.v] && tab.values[e.v][e.pre.value] == tab.values[e.v][e.post]
    ensures e.pre.value == e.post
  {
    assert ValidFact(t.ranges, Fact(e.v, e.post)) && ValuesFor(t.ranges[e.v], domains[e.v], tab.values[e.v]);
    if |domains[e.v]| == 1 {
      OnlyOne(domains[e.v], e.pre.value, e.post);
    } else {
      RankInjective(domains[e.v], e.pre.value, e.post);
    }
  }

  lemma Conflicting(t: Task, domains: seq<set<nat>>, tab: Table, op: SasOperator, e: Effect, dict: Cond, cond: seq<Fact>)
    requires Renames(t, domains, tab) && IsConverted(t, domains, tab, op, dict) && Converted(t, domains, tab, e.cond, Some(cond))
    requires forall s :: !(Satisfies(s, dict) && HoldsAll(s, cond))
    ensures !CanFire(domains, op, e)
  {
    forall s | InDomains(domains, s)
      ensures !(Applicable(op, s) && HoldsAll(s, e.cond))
    {
      assert !(Satisfies(Rename(t.ranges, domains, tab, s), dict) && HoldsAll(Rename(t.ranges, domains, tab, s), cond));
    }
  }

  /** Some effect condition contradicts the applicability conditions. */
  method Conflicts(cond: seq<Fact>, dict: Cond) returns (conflict: bool)
    ensures conflict ==> forall s :: !(Satisfies(s, dict) && HoldsAll(s, cond))
    ensures conflict <==> exists f | f in cond :: f.v in dict && dict[f.v] != f.x
  {
    conflict := false;
    for i := 0 to |cond|
      invariant !conflict && forall j | 0 <= j < i :: !(cond[j].v in dict && dict[cond[j].v] != cond[j].x)
    {
      var f := cond[i];
      if f.v in dict && dict[f.v] != f.x {
        forall s
          ensures !(Satisfies(s, dict) && HoldsAll(s, cond))
        {
          assert Satisfies(s, dict) ==> Holds(s, Fact(f.v, dict[f.v]));
          assert f in cond;
        }
        return true;
      }
    }
  }

  // ---- operators ----

  ghost predicate SomeRenamed(t: Task, domains: seq<set<nat>>, tab: Table, e: Effect, made: seq<Effect>)
    requires Renames(t, domains, tab) && e.v < |domains|
  {
    exists d | d in made :: EffectRenamed(t, domains, tab, e, d)
  }

  ghost predicate RenamesSome(t: Task, domains: seq<set<nat>>, tab: Table, op: SasOperator, effects: seq<Effect>, d: Effect)
    requires Renames(t, domains, tab)
  {
    exists e | e in effects && e.v < |domains| :: EffectKept(t, domains, tab, op, e, d)
  }

  ghost predicate EffectKept(t: Task, domains: seq<set<nat>>, tab: Table, op: SasOperator, e: Effect, d: Effect)
    requires Renames(t, domains, tab) && e.v < |domains|
  {
    EffectRenamed(t, domains, tab, e, d) && !Vanishes(domains, op, e)
  }

  /** The effects made are exactly the operator's effects that do not vanish, renamed. */
  ghost predicate EffectsMade(t: Task, domains: seq<set<nat>>, tab: Table, op: SasOperator, effects: seq<Effect>, made: seq<Effect>)
    requires Renames(t, domains, tab)
  {
    && (forall d | d in made :: RenamesSome(t, domains, tab, op, effects, d))
    && (forall e | e in effects && e.v < |domains| :: SomeRenamed(t, domains, tab, e, made) || Vanishes(domains, op, e))
  }

  lemma EffectsNext(t: Task, domains: seq<set<nat>>, tab: Table, op: SasOperator, effects: seq<Effect>, made: seq<Effect>,
                    e: Effect, r: Option<Effect>, next: seq<Effect>)
    requires Renames(t, domains, tab) && EffectsMade(t, domains, tab, op, effects, made) && e.v < |domains| && next == effects + [e]
    requires if r.Some? then EffectKept(t, domains, tab, op, e, r.value) else Vanishes(domains, op, e)
    ensures EffectsMade(t, domains, tab, op, next, if r.Some? then made + [r.value] else made)
  {
    var made' := if r.Some? then made + [r.value] else made;
    NewMade(t, domains, tab, op, effects, made, e, r, next);
    forall b | b in next && b.v < |domains|
      ensures SomeRenamed(t, domains, tab, b, made') || Vanishes(domains, op, b)
    {
      if b in effects && SomeRenamed(t, domains, tab, b, made) {
        StillRenamed(t, domains, tab, b, made, made');
      } else if b == e && r.Some? {
        assert r.value in made';
      }
    }
  }

  lemma NewMade(t: Task, domains: seq<set<nat>>, tab: Table, op: SasOperator, effects: seq<Effect>, made: seq<Effect>,
                e: Effect, r: Option<Effect>, next: seq<Effect>)
    requires Renames(t, domains, tab) && (forall d | d in made :: RenamesSome(t, domains, tab, op, effects, d))
    requires e.v < |domains| && next == effects + [e] && (r.Some? ==> EffectKept(t, domains, tab, op, e, r.value))
    ensures forall d | d in (if r.Some? then made + [r.value] else made) :: RenamesSome(t, domains, tab, op, next, d)
  {
    assert e in next;
    forall d | d in made
      ensures RenamesSome(t, domains, tab, op, next, d)
    {
      StillRenames(t, domains, tab, op, effects, next, d);
    }
  }

  lemma StillRenames(t: Task, domains: seq<set<nat>>, tab: Table, op: SasOperator, effects: seq<Effect>, next: seq<Effect>, d: Effect)
    requires Renames(t, domains, tab) && RenamesSome(t, domains, tab, op, effects, d) && forall e | e in effects :: e in next
    ensures RenamesSome(t, domains, tab, op, next, d)
  {
    var b :| b in effects && b.v < |domains| && EffectKept(t, domains, tab, op, b, d);
    assert b in next;
  }

  lemma StillRenamed(t: Task, domains: seq<set<nat>>, tab: Table, e: Effect, made: seq<Effect>, next: seq<Effect>)
    requires Renames(t, domains, tab) && e.v < |domains| && SomeRenamed(t, domains, tab, e, made) && forall d | d in made :: d in next
    ensures SomeRenamed(t, domains, tab, e, next)
  {
    var d :| d in made && EffectRenamed(t, domains, tab, e, d);
    assert d in next;
  }

  /** Firing the renamed effects in the renamed state gives the renamed successor. */
  lemma EffectsCommute(t: Task, domains: seq<set<nat>>, tab: Table, op: SasOperator, made: seq<Effect>, s: State)
    requires Renames(t, domains, tab) && op in t.ops && EffectsMade(t, domains, tab, op, op.prePost, made)
    requires InDomains(domains, s) && Applicable(op, s) && Unambiguous(op, s)
    ensures InDomains(domains, Successor(op, s))
    ensures var s' := Rename(t.ranges, domains, tab, s);
            ApplyEffects(made, s', s') == Rename(t.ranges, domains, tab, Successor(op, s))
  {
    StepStays(op, domains, s);
    var s' := Rename(t.ranges, domains, tab, s);
    var next, next' := Successor(op, s), ApplyEffects(made, s', s');
    forall n: nat | n < |s'|
      ensures next'[n] == Rename(t.ranges, domains, tab, next)[n]
    {
      EffectsCommuteAt(t, domains, tab, op, made, s, n);
    }
  }

  lemma EffectsCommuteAt(t: Task, domains: seq<set<nat>>, tab: Table, op: SasOperator, made: seq<Effect>, s: State, n: nat)
    requires Renames(t, domains, tab) && op in t.ops && EffectsMade(t, domains, tab, op, op.prePost, made)
    requires InDomains(domains, s) && Applicable(op, s) && Unambiguous(op, s) && n < |tab.back|
    requires InDomains(domains, Successor(op, s))
    ensures var s' := Rename(t.ranges, domains, tab, s);
            ApplyEffects(made, s', s')[n] == Rank(domains[tab.back[n]], Successor(op, s)[tab.back[n]])
  {
    var s', v := Rename(t.ranges, domains, tab, s), tab.back[n];
    ApplyEffectsAt(made, s', s', n);
    ApplyEffectsAt(op.prePost, s, s, v);
    FiringCorresponds(t, domains, tab, op, made, s, n);
    if e :| e in op.prePost && e.v == v && HoldsAll(s, e.cond) {
      assert Successor(op, s)[v] == e.post;
      assert forall d | d in made && d.v == n && HoldsAll(s', d.cond) :: d.post == Rank(domains[v], e.post);
      if SomeRenamed(t, domains, tab, e, made) {
        var d :| d in made && EffectRenamed(t, domains, tab, e, d);
        assert d.v == n && HoldsAll(s', d.cond);
      } else {
        VanishedKeeps(t, domains, tab, op, e, s);
        assert s[v] == e.post;
      }
    }
  }

  /** Every renamed effect that fires comes from one that fires. */
  lemma FiringCorresponds(t: Task, domains: seq<set<nat>>, tab: Table, op: SasOperator, made: seq<Effect>, s: State, n: nat)
    requires Renames(t, domains, tab) && EffectsMade(t, domains, tab, op, op.prePost, made) && InDomains(domains, s) && n < |tab.back|
    ensures forall d | d in made && d.v == n && HoldsAll(Rename(t.ranges, domains, tab, s), d.cond) ::
              exists e | e in op.prePost && e.v == tab.back[n] && HoldsAll(s, e.cond) :: d.post == Rank(domains[tab.back[n]], e.post)
  {
    var s', v := Rename(t.ranges, domains, tab, s), tab.back[n];
    forall d | d in made && d.v == n && HoldsAll(s', d.cond)
      ensures exists e | e in op.prePost && e.v == v && HoldsAll(s, e.cond) :: d.post == Rank(domains[v], e.post)
    {
      var e := FiresFrom(t, domains, tab, op, d, s);
    }
  }

  lemma FiresFrom(t: Task, domains: seq<set<nat>>, tab: Table, op: SasOperator, d: Effect, s: State) returns (e: Effect)
    requires Renames(t, domains, tab) && RenamesSome(t, domains, tab, op, op.prePost, d) && InDomains(domains, s) && d.v < |tab.back|
    requires HoldsAll(Rename(t.ranges, domains, tab, s), d.cond)
    ensures e in op.prePost && e.v == tab.back[d.v] && HoldsAll(s, e.cond) && d.post == Rank(domains[tab.back[d.v]], e.post)
  {
    e :| e in op.prePost && e.v < |domains| && EffectKept(t, domains, tab, op, e, d);
    assert tab.varNos[e.v] == Some(d.v);
  }

  /** The renamed operator behaves like the original; None when the original never changes anything. */
  ghost predicate OperatorRenamed(t: Task, domains: seq<set<nat>>, tab: Table, op: SasOperator, r: Option<SasOperator>)
    requires Renames(t, domains, tab)
  {
    && (r.Some? ==> ValidOperator(tab.sizes, r.value) && r.value.cost == op.cost)
    && forall s | InDomains(domains, s) ::
         && (r.Some? ==> (Applicable(op, s) <==> Applicable(r.value, Rename(t.ranges, domains, tab, s))))
         && (Applicable(op, s) && Unambiguous(op, s) ==>
               InDomains(domains, Successor(op, s)) && Rename(t.ranges, domains, tab, Successor(op, s)) ==
               if r.None? then Rename(t.ranges, domains, tab, s) else Successor(r.value, Rename(t.ranges, domains, tab, s)))
  }

  method ToDict(fs: seq<Fact>) returns (dict: Cond)
    requires DistinctFacts(fs)
    ensures IsItems(fs, dict)
  {
    dict := map[];
    for i := 0 to |fs|
      invariant IsItems(fs[..i], dict)
    {
      assert fs[..i + 1] == fs[..i] + [fs[i]];
      assert forall f | f in fs[..i] :: f.v != fs[i].v;
      dict := dict[fs[i].v := fs[i].x];
    }
    assert fs[..|fs|] == fs;
  }

  lemma ItemsHold(fs: seq<Fact>, dict: Cond, s: State)
    requires IsItems(fs, dict)
    ensures HoldsAll(s, fs) <==> Satisfies(s, dict)
  {
    if Satisfies(s, dict) {
      forall f | f in fs
        ensures Holds(s, f)
      {
        assert f == Fact(f.v, dict[f.v]);
      }
    }
  }

  /** Facts of the applicability conditions are valid. */
  lemma DemandsValid(t: Task, op: SasOperator, items: seq<Fact>)
    requires ValidOperator(t.ranges, op) && WellBuilt(op) && IsItems(items, Gathered(op))
    ensures ValidFacts(t.ranges, items)
    ensures forall f :: f in items <==> Demands(op, f)
  {
    GatheredIs(op);
    forall f
      ensures f in items <==> Demands(op, f)
    {
      assert f == Fact(f.v, f.x);
    }
  }

  lemma DictHas(t: Task, domains: seq<set<nat>>, tab: Table, items: seq<Fact>, converted: seq<Fact>, dict: Cond, f: Fact)
    requires Renames(t, domains, tab) && ValidFacts(t.ranges, items) && f in items && Kept(domains, items)
    requires Images(t, domains, tab, items, converted) && IsItems(converted, dict) && |domains[f.v]| != 1
    ensures tab.varNos[f.v].Some? && tab.varNos[f.v].value in dict && dict[tab.varNos[f.v].value] == Rank(domains[f.v], f.x)
  {
    assert ValuesFor(t.ranges[f.v], domains[f.v], tab.values[f.v]);
    assert TranslatePair(tab, f).1.Value?;
  }

  lemma DictFrom(t: Task, domains: seq<set<nat>>, tab: Table, items: seq<Fact>, converted: seq<Fact>, dict: Cond, n: nat) returns (f: Fact)
    requires Renames(t, domains, tab) && ValidFacts(t.ranges, items) && n in dict
    requires Images(t, domains, tab, items, converted) && IsItems(converted, dict)
    ensures f in items && f.v < |domains| && tab.varNos[f.v] == Some(n)
  {
    var g := Fact(n, dict[n]);
    assert g in converted;
    f :| f in items && TranslatePair(tab, f) == (Some(g.v), Value(g.x));
  }

  lemma ConditionsConverted(t: Task, domains: seq<set<nat>>, tab: Table, op: SasOperator, items: seq<Fact>, converted: seq<Fact>, dict: Cond)
    requires Renames(t, domains, tab) && op in t.ops && IsItems(items, Gathered(op)) && ValidFacts(t.ranges, items)
    requires forall f :: f in items <==> Demands(op, f)
    requires Converted(t, domains, tab, items, Some(converted)) && IsItems(converted, dict)
    ensures IsConverted(t, domains, tab, op, dict)
  {
    forall v: nat, x: nat | Demands(op, Fact(v, x)) && v < |domains| && |domains[v]| != 1
      ensures tab.varNos[v].Some? && tab.varNos[v].value in dict && dict[tab.varNos[v].value] == Rank(domains[v], x)
    {
      DictHas(t, domains, tab, items, converted, dict, Fact(v, x));
    }
    forall n: nat | n in dict
      ensures exists f | Demands(op, f) && f.v < |domains| :: tab.varNos[f.v] == Some(n)
    {
      var f := DictFrom(t, domains, tab, items, converted, dict, n);
    }
    ConditionsAgree(t, domains, tab, op, items, converted, dict);
  }

  lemma ConditionsAgree(t: Task, domains: seq<set<nat>>, tab: Table, op: SasOperator, items: seq<Fact>, converted: seq<Fact>, dict: Cond)
    requires Renames(t, domains, tab) && op in t.ops && IsItems(items, Gathered(op))
    requires Converted(t, domains, tab, items, Some(converted)) && IsItems(converted, dict)
    ensures forall s | InDomains(domains, s) :: Applicable(op, s) <==> Satisfies(Rename(t.ranges, domains, tab, s), dict)
  {
    GatheredIs(op);
    forall s | InDomains(domains, s)
      ensures Applicable(op, s) <==> Satisfies(Rename(t.ranges, domains, tab, s), dict)
    {
      ApplicabilityHolds(op, Gathered(op), s);
      ItemsHold(items, Gathered(op), s);
      ItemsHold(converted, dict, Rename(t.ranges, domains, tab, s));
    }
  }

  lemma DemandedPre(op: SasOperator, e: Effect, f: Fact)
    requires WellBuilt(op) && e in op.prePost && Demands(op, f) && f.v == e.v
    ensures e.pre == Some(f.x)
  {
  }

  lemma SameOldVariable(t: Task, domains: seq<set<nat>>, tab: Table, u: nat, v: nat, n: nat)
    requires ValidTable(t.ranges, domains, tab) && u < |domains| && v < |domains|
    requires tab.varNos[u] == Some(n) && tab.varNos[v] == Some(n)
    ensures u == v
  {
  }

  /** The preconditions of the effects made are the converted conditions on their variables. */
  lemma PresFromDict(t: Task, domains: seq<set<nat>>, tab: Table, op: SasOperator, dict: Cond, d: Effect)
    requires Renames(t, domains, tab) && op in t.ops && IsConverted(t, domains, tab, op, dict)
    requires RenamesSome(t, domains, tab, op, op.prePost, d)
    ensures d.pre == PreOf(dict, d.v)
  {
    var e :| e in op.prePost && e.v < |domains| && EffectKept(t, domains, tab, op, e, d);
    if e.pre.Some? {
      assert Demands(op, Fact(e.v, e.pre.value));
    }
    if d.v in dict {
      var f :| Demands(op, f) && f.v < |domains| && tab.varNos[f.v] == Some(d.v);
      SameOldVariable(t, domains, tab, e.v, f.v, d.v);
      DemandedPre(op, e, f);
    }
  }

  lemma MadeValid(t: Task, domains: seq<set<nat>>, tab: Table, op: SasOperator, effects: seq<Effect>, d: Effect)
    requires Renames(t, domains, tab) && RenamesSome(t, domains, tab, op, effects, d)
    ensures ValidEffect(tab.sizes, d)
  {
  }

  lemma RenamedOperatorValid(sizes: seq<nat>, dict: Cond, made: seq<Effect>, prevail: Cond, o: SasOperator)
    requires ValidCond(sizes, dict) && forall d | d in made :: ValidEffect(sizes, d) && d.pre == PreOf(dict, d.v)
    requires PrevailLeft(dict, made, prevail) && IsItems(o.prevail, prevail) && o.prePost == made
    ensures ValidOperator(sizes, o)
  {
    forall f | f in o.prevail
      ensures ValidFact(sizes, f)
    {
      assert f == Fact(f.v, dict[f.v]);
    }
  }

  /** The converted applicability conditions, or None when the operator never applies. */
  method ConvertConditions(ghost t: Task, ghost domains: seq<set<nat>>, tab: Table, op: SasOperator) returns (r: Option<Cond>)
    requires Renames(t, domains, tab) && op in t.ops
    ensures r.None? <==> !CanApply(domains, op)
    ensures r.Some? ==> IsConverted(t, domains, tab, op, r.value)
  {
    var conditions := ApplicabilityConditions(op);
    var items := Items(conditions);
    DemandsValid(t, op, items);
    var converted := ConvertPairs(t, domains, tab, items);
    if converted.None? {
      GatheredIs(op);
      forall s | InDomains(domains, s)
        ensures !Applicable(op, s)
      {
        ApplicabilityHolds(op, Gathered(op), s);
      }
      return None;
    }
    var dict := ToDict(converted.value);
    ConditionsConverted(t, domains, tab, op, items, converted.value, dict);
    DemandsMet(t, domains, tab, op);
    return Some(dict);
  }

  /** The effects are those that do not vanish; exactly the operators without any and those never applicable are dropped. */
  ghost predicate OperatorMade(t: Task, domains: seq<set<nat>>, tab: Table, op: SasOperator, r: Option<SasOperator>)
    requires Renames(t, domains, tab)
  {
    match r
    case Some(o) => CanApply(domains, op) && o.prePost != [] && EffectsMade(t, domains, tab, op, op.prePost, o.prePost)
    case None => !CanApply(domains, op) || EffectsMade(t, domains, tab, op, op.prePost, [])
  }

  /** translate_operator */
  method TranslateOperator(ghost t: Task, ghost domains: seq<set<nat>>, tab: Table, op: SasOperator) returns (r: Option<SasOperator>)
    requires Renames(t, domains, tab) && op in t.ops
    ensures OperatorRenamed(t, domains, tab, op, r)
    ensures OperatorMade(t, domains, tab, op, r)
  {
    var conditions := ConvertConditions(t, domains, tab, op);
    if conditions.None? {
      return None;
    }
    var made, prevail := TranslateEffects(t, domains, tab, op, conditions.value);
    AllEffectsCommute(t, domains, tab, op, made);
    if made == [] {
      NothingMade(t, domains, tab, op);
      return None;
    }
    var newPrevail := Items(prevail);
    r := Some(SasOperator(newPrevail, made, op.cost));
    AssembledApplies(t, domains, tab, op, conditions.value, made, prevail, r.value);
    Assembled(t, domains, tab, op, conditions.value, r.value);
  }

  lemma NothingMade(t: Task, domains: seq<set<nat>>, tab: Table, op: SasOperator)
    requires Renames(t, domains, tab) && Commutes(t, domains, tab, op, [])
    ensures OperatorRenamed(t, domains, tab, op, None)
  {
    forall s | InDomains(domains, s) && Applicable(op, s) && Unambiguous(op, s)
      ensures Rename(t.ranges, domains, tab, Successor(op, s)) == Rename(t.ranges, domains, tab, s)
    {
      var s' := Rename(t.ranges, domains, tab, s);
      assert ApplyEffects([], s', s') == s';
    }
  }

  /** The renamed effects lead from renamed states to renamed successors. */
  ghost predicate Commutes(t: Task, domains: seq<set<nat>>, tab: Table, op: SasOperator, made: seq<Effect>)
    requires Renames(t, domains, tab)
  {
    forall s | InDomains(domains, s) && Applicable(op, s) && Unambiguous(op, s) ::
      InDomains(domains, Successor(op, s)) && var s' := Rename(t.ranges, domains, tab, s);
      ApplyEffects(made, s', s') == Rename(t.ranges, domains, tab, Successor(op, s))
  }

  lemma AllEffectsCommute(t: Task, domains: seq<set<nat>>, tab: Table, op: SasOperator, made: seq<Effect>)
    requires Renames(t, domains, tab) && op in t.ops && EffectsMade(t, domains, tab, op, op.prePost, made)
    ensures Commutes(t, domains, tab, op, made)
  {
    forall s | InDomains(domains, s) && Applicable(op, s) && Unambiguous(op, s)
      ensures InDomains(domains, Successor(op, s))
      ensures var s' := Rename(t.ranges, domains, tab, s); ApplyEffects(made, s', s') == Rename(t.ranges, domains, tab, Successor(op, s))
    {
      EffectsCommute(t, domains, tab, op, made, s);
    }
  }

  lemma AssembledApplies(t: Task, domains: seq<set<nat>>, tab: Table, op: SasOperator, dict: Cond, made: seq<Effect>, prevail: Cond, o: SasOperator)
    requires Renames(t, domains, tab) && op in t.ops && EffectsMade(t, domains, tab, op, op.prePost, made)
    requires IsConverted(t, domains, tab, op, dict) && PrevailLeft(dict, made, prevail)
    requires IsItems(o.prevail, prevail) && o.prePost == made
    ensures ValidOperator(tab.sizes, o)
    ensures forall s :: Applicable(o, s) <==> Satisfies(s, dict)
  {
    forall d | d in made
      ensures d.pre == PreOf(dict, d.v) && ValidEffect(tab.sizes, d)
    {
      PresFromDict(t, domains, tab, op, dict, d);
      MadeValid(t, domains, tab, op, op.prePost, d);
    }
    forall s
      ensures Applicable(o, s) <==> Satisfies(s, dict)
    {
      ItemsHold(o.prevail, prevail, s);
      SameConditions(dict, made, prevail, o.prevail, o, s);
    }
    RenamedOperatorValid(tab.sizes, dict, made, prevail, o);
  }

  lemma Assembled(t: Task, domains: seq<set<nat>>, tab: Table, op: SasOperator, dict: Cond, o: SasOperator)
    requires Renames(t, domains, tab) && Commutes(t, domains, tab, op, o.prePost)
    requires forall s | InDomains(domains, s) :: Applicable(op, s) <==> Satisfies(Rename(t.ranges, domains, tab, s), dict)
    requires forall s :: Applicable(o, s) <==> Satisfies(s, dict)
    requires ValidOperator(tab.sizes, o) && o.cost == op.cost
    ensures OperatorRenamed(t, domains, tab, op, Some(o))
  {
  }

  method TranslateEffects(ghost t: Task, ghost domains: seq<set<nat>>, tab: Table, op: SasOperator, dict: Cond)
    returns (made: seq<Effect>, prevail: Cond)
    requires Renames(t, domains, tab) && op in t.ops && IsConverted(t, domains, tab, op, dict)
    ensures EffectsMade(t, domains, tab, op, op.prePost, made) && PrevailLeft(dict, made, prevail)
  {
    made, prevail := [], dict;
    for i := 0 to |op.prePost|
      invariant EffectsMade(t, domains, tab, op, op.prePost[..i], made) && PrevailLeft(dict, made, prevail)
    {
      assert op.prePost[i] in op.prePost;
      var d := TranslatePrePost(t, domains, tab, op, op.prePost[i], dict);
      EffectStep(t, domains, tab, op, i, i + 1, made, d);
      if d.Some? {
        PrevailStep(dict, made, prevail, d.value);
        made := made + [d.value];
        prevail := prevail - {d.value.v};
      }
    }
    assert op.prePost[..|op.prePost|] == op.prePost;
  }

  lemma EffectStep(t: Task, domains: seq<set<nat>>, tab: Table, op: SasOperator, i: nat, c: nat, made: seq<Effect>, r: Option<Effect>)
    requires Renames(t, domains, tab) && op in t.ops && i < |op.prePost| && c == i + 1
    requires EffectsMade(t, domains, tab, op, op.prePost[..i], made)
    requires op.prePost[i].v < |domains|
    requires var e := op.prePost[i];
             if r.Some? then EffectKept(t, domains, tab, op, e, r.value) else Vanishes(domains, op, e)
    ensures EffectsMade(t, domains, tab, op, op.prePost[..c], if r.Some? then made + [r.value] else made)
  {
    assert op.prePost[..c] == op.prePost[..i] + [op.prePost[i]];
    EffectsNext(t, domains, tab, op, op.prePost[..i], made, op.prePost[i], r, op.prePost[..c]);
  }

  lemma PrevailStep(dict: Cond, made: seq<Effect>, prevail: Cond, d: Effect)
    requires PrevailLeft(dict, made, prevail)
    ensures PrevailLeft(dict, made + [d], prevail - {d.v})
  {
    AffectsNext(made, d);
  }

  lemma AffectsNext(made: seq<Effect>, d: Effect)
    ensures forall v: nat :: Affects(made + [d], v) <==> Affects(made, v) || d.v == v
  {
    assert d in made + [d];
    forall v: nat | Affects(made, v)
      ensures Affects(made + [d], v)
    {
      var e :| e in made && e.v == v;
      assert e in made + [d];
    }
  }
}
