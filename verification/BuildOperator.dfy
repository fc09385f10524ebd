/** From conditions and effects by variable to an operator (translate.py:277-368). */
module BuildOperator {
  import opened Sas
  import opened Conditions
  import opened Translation

  ghost predicate SomeAll(lists: seq<seq<Fact>>, e: State) {
    exists l | l in lists :: HoldsAll(e, l)
  }

  predicate IsItems(l: seq<Fact>, c: Cond) {
    && (forall f | f in l :: f.v in c && c[f.v] == f.x)
    && (forall v | v in c :: Fact(v, c[v]) in l)
  }

  /** The entries of a condition as a list. */
  method Items(c: Cond) returns (l: seq<Fact>)
    ensures IsItems(l, c) && forall i, j | 0 <= i < j < |l| :: l[i].v != l[j].v
    ensures forall e :: HoldsAll(e, l) <==> Satisfies(e, c)
  {
    l := [];
    var rest := c.Keys;
    while rest != {}
      invariant rest <= c.Keys
      invariant forall f | f in l :: f.v in c && f.v !in rest && c[f.v] == f.x
      invariant forall i, j | 0 <= i < j < |l| :: l[i].v != l[j].v
      invariant forall v | v in c.Keys - rest :: Fact(v, c[v]) in l
      decreases rest
    {
      var v :| v in rest;
      l := l + [Fact(v, c[v])];
      rest := rest - {v};
    }
  }

  method ItemLists(conds: seq<Cond>, ranges: seq<nat>) returns (lists: seq<seq<Fact>>)
    requires forall c | c in conds :: ValidCond(ranges, c)
    ensures forall l, f | l in lists && f in l :: ValidFact(ranges, f)
    ensures forall e :: SomeAll(lists, e) <==> SomeHolds(conds, e)
  {
    lists := [];
    for i := 0 to |conds|
      invariant forall l, f | l in lists && f in l :: ValidFact(ranges, f)
      invariant forall e :: SomeAll(lists, e) <==> SomeHolds(conds[..i], e)
    {
      var c := conds[i];
      assert conds[..i + 1] == conds[..i] + [c] && c in conds;
      var l := Items(c);
      assert forall f | f in l :: f == Fact(f.v, c[f.v]);
      ghost var before := lists;
      lists := lists + [l];
      forall e
        ensures SomeAll(lists, e) <==> SomeAll(before, e) || HoldsAll(e, l)
        ensures SomeHolds(conds[..i + 1], e) <==> SomeHolds(conds[..i], e) || Satisfies(e, c)
      {
        SomeAllAppend(before, l, e);
        SomeHoldsEither(conds[..i], [c], e);
        SomeHoldsOne(c, e);
      }
    }
    assert conds[..|conds|] == conds;
  }

  lemma SomeAllAppend(lists: seq<seq<Fact>>, l: seq<Fact>, e: State)
    ensures SomeAll(lists + [l], e) <==> SomeAll(lists, e) || HoldsAll(e, l)
  {
    assert l in lists + [l];
    if SomeAll(lists, e) {
      var x :| x in lists && HoldsAll(e, x);
      assert x in lists + [l];
    }
  }

  function Remove(l: seq<Fact>, f: Fact): (r: seq<Fact>)
    ensures forall g :: g in r <==> g in l && g != f
  {
    if l == [] then [] else (if l[0] == f then [] else [l[0]]) + Remove(l[1..], f)
  }

  /** The effect happens only where it changes nothing. */
  ghost predicate OnlyIdle(before: seq<seq<Fact>>, after: seq<seq<Fact>>, f: Fact) {
    && (forall e | SomeAll(before, e) :: SomeAll(after, e))
    && (forall e | SomeAll(after, e) && f.v < |e| && e[f.v] < 2 :: SomeAll(before, e) || Holds(e, f))
  }

  /** prune_stupid_effect_conditions: for a binary variable, the condition that it has its other
      value is dropped when no effect produces that value. */
  method Prune(f: Fact, lists: seq<seq<Fact>>, posts: set<nat>) returns (r: seq<seq<Fact>>, simplified: bool)
    requires f.x < 2
    ensures OnlyIdle(lists, r, f)
    ensures (1 - f.x) in posts || lists == [[]] ==> r == lists && !simplified
    ensures (1 - f.x) !in posts && lists != [[]] ==> IsPruned(lists, r, Fact(f.v, 1 - f.x), simplified)
    ensures forall g {:trigger InSome(r, g)} | InSome(r, g) :: InSome(lists, g)
  {
    r, simplified := lists, false;
    if lists == [[]] || (1 - f.x) in posts {
      return;
    }
    var dual := Fact(f.v, 1 - f.x);
    for i := 0 to |lists|
      invariant |r| == |lists|
      invariant forall j | 0 <= j < i :: r[j] == Remove(lists[j], dual)
      invariant forall j | i <= j < |lists| :: r[j] == lists[j]
      invariant forall j | 0 <= j < i :: !OnlyDual(lists[j], dual)
      invariant simplified <==> exists j | 0 <= j < i :: dual in lists[j]
    {
      if dual in r[i] {
        simplified := true;
        r := r[i := Remove(r[i], dual)];
      } else {
        RemoveAbsent(r[i], dual);
      }
      if r[i] == [] {
        AlwaysTrue(lists, i, dual, f);
        assert OnlyDual(lists[i], dual);
        return [[]], true;
      }
      assert r[i][0] in r[i];
    }
    PrunedIdle(lists, r, dual, f);
  }

  predicate OnlyDual(l: seq<Fact>, dual: Fact) {
    forall g | g in l :: g == dual
  }

  /** A list with nothing but the dual fact makes the disjunction true; otherwise exactly that fact is gone. */
  ghost predicate IsPruned(lists: seq<seq<Fact>>, r: seq<seq<Fact>>, dual: Fact, simplified: bool) {
    if exists j | 0 <= j < |lists| :: OnlyDual(lists[j], dual) then r == [[]] && simplified
    else
      && |r| == |lists| && (forall j, g | 0 <= j < |r| :: g in r[j] <==> g in lists[j] && g != dual)
      && (simplified <==> exists j | 0 <= j < |lists| :: dual in lists[j])
  }

  lemma {:induction false} RemoveAbsent(l: seq<Fact>, f: Fact)
    requires f !in l
    ensures Remove(l, f) == l
  {
    if l != [] {
      RemoveAbsent(l[1..], f);
      assert l == [l[0]] + l[1..];
    }
  }

  lemma AlwaysTrue(lists: seq<seq<Fact>>, i: nat, dual: Fact, f: Fact)
    requires i < |lists| && (Remove(lists[i], dual) == [] || lists[i] == []) && f.x < 2 && dual == Fact(f.v, 1 - f.x)
    ensures OnlyIdle(lists, [[]], f)
  {
    var l := lists[i];
    assert l in lists;
    var empty: seq<Fact> := [];
    assert empty in [empty];
    forall e | f.v < |e| && e[f.v] < 2
      ensures SomeAll(lists, e) || Holds(e, f)
    {
      assert forall g | g in l :: g == dual;
      assert Holds(e, dual) ==> HoldsAll(e, l);
    }
    forall e
      ensures SomeAll([empty], e)
    {
      assert HoldsAll(e, empty);
    }
  }

  lemma PrunedIdle(lists: seq<seq<Fact>>, r: seq<seq<Fact>>, dual: Fact, f: Fact)
    requires |r| == |lists| && forall j | 0 <= j < |r| :: r[j] == Remove(lists[j], dual)
    requires f.x < 2 && dual == Fact(f.v, 1 - f.x)
    ensures OnlyIdle(lists, r, f)
    ensures forall g {:trigger InSome(r, g)} | InSome(r, g) :: InSome(lists, g)
  {
    forall e | SomeAll(lists, e)
      ensures SomeAll(r, e)
    {
      var l :| l in lists && HoldsAll(e, l);
      var j :| 0 <= j < |lists| && lists[j] == l;
      assert r[j] in r && HoldsAll(e, r[j]);
    }
    forall e | SomeAll(r, e) && f.v < |e| && e[f.v] < 2
      ensures SomeAll(lists, e) || Holds(e, f)
    {
      var l :| l in r && HoldsAll(e, l);
      var j :| 0 <= j < |r| && r[j] == l;
      assert lists[j] in lists;
      assert Holds(e, dual) ==> HoldsAll(e, lists[j]);
    }
    forall g | InSome(r, g)
      ensures InSome(lists, g)
    {
      var l :| l in r && g in l;
      var j :| 0 <= j < |r| && r[j] == l;
      assert lists[j] in lists && g in lists[j];
    }
  }

  /** Drop what the operator's own condition ensures; None when it contradicts (translate.py:318-328). */
  method Filter(l: seq<Fact>, c: Cond) returns (r: Option<seq<Fact>>)
    ensures r.None? <==> exists f | f in l :: f.v in c && c[f.v] != f.x
    ensures r.None? ==> forall e :: !(Satisfies(e, c) && HoldsAll(e, l))
    ensures r.Some? ==> forall e | Satisfies(e, c) :: HoldsAll(e, r.value) <==> HoldsAll(e, l)
    ensures r.Some? ==> forall f :: f in r.value <==> f in l && f.v !in c
  {
    var kept: seq<Fact> := [];
    for i := 0 to |l|
      invariant forall f | f in l[..i] :: f.v in c ==> c[f.v] == f.x
      invariant forall e | Satisfies(e, c) :: HoldsAll(e, kept) <==> HoldsAll(e, l[..i])
      invariant forall f :: f in kept <==> f in l[..i] && f.v !in c
    {
      var f := l[i];
      assert l[..i + 1] == l[..i] + [f] && f in l;
      if f.v in c {
        if c[f.v] != f.x {
          return None;
        }
        assert f == Fact(f.v, c[f.v]);
      } else {
        kept := kept + [f];
      }
    }
    assert l[..|l|] == l;
    return Some(kept);
  }

  ghost predicate FiresIn(prePost: seq<Effect>, e: State, v: nat, x: nat) {
    exists ef | ef in prePost :: ef.v == v && ef.post == x && HoldsAll(e, ef.cond)
  }

  function PreOf(c: Cond, v: nat): Option<nat> {
    if v in c then Some(c[v]) else None
  }

  ghost predicate ValidEffect(ranges: seq<nat>, ef: Effect) {
    ValidFact(ranges, Fact(ef.v, ef.post)) && forall f | f in ef.cond :: ValidFact(ranges, f)
  }

  /** The effect changes the value the operator demands, its condition repeats nothing the operator demands, and for a
      variable with two values it does not demand the other value if no effect sets that. */
  ghost predicate Tidy(ranges: seq<nat>, c: Cond, eff: Effects, ef: Effect) {
    && ef.pre == PreOf(c, ef.v) && ef.pre != Some(ef.post) && (forall f | f in ef.cond :: f.v !in c)
    && (ef.v < |ranges| && ranges[ef.v] == 2 && ef.post < 2 && ef.v in eff && (1 - ef.post) !in eff[ef.v] ==>
          Fact(ef.v, 1 - ef.post) !in ef.cond)
  }

  /** Nothing else is said about the variable, and it has the value already. */
  ghost predicate Idle(eff: Effects, e: State, v: nat, x: nat) {
    Holds(e, Fact(v, x)) && forall y | Says(eff, e, v, y) :: y == x
  }

  /** The effects produced for "v gets x" happen where the table says so, except where v has the
      value already. */
  ghost predicate PostCovered(ranges: seq<nat>, c: Cond, eff: Effects, v: nat, x: nat, made: seq<Effect>) {
    && (forall ef | ef in made :: ef.v == v && ef.post == x && Tidy(ranges, c, eff, ef) && ValidEffect(ranges, ef))
    && (forall e | ValidState(ranges, e) && Satisfies(e, c) ::
          && (Says(eff, e, v, x) ==> FiresIn(made, e, v, x) || Holds(e, Fact(v, x)))
          && (FiresIn(made, e, v, x) ==> Says(eff, e, v, x) || Idle(eff, e, v, x)))
  }

  /** The body of the loop over the values of one variable (translate.py:298-330). */
  method PostEffects(c: Cond, eff: Effects, ranges: seq<nat>, v: nat, post: nat) returns (made: seq<Effect>)
    requires ValidEffects(ranges, eff) && v in eff && post in eff[v]
    ensures PostCovered(ranges, c, eff, v, post, made)
  {
    made := [];
    var pre := PreOf(c, v);
    if pre == Some(post) {
      assert forall e | Satisfies(e, c) :: Holds(e, Fact(v, post));
      return;
    }
    ghost var all;
    var lists;
    all, lists := ListsFor(eff, ranges, v, post);
    made := Guards(c, lists, v, pre, post);
    AllTidy(ranges, c, eff, v, post, lists, made);
    MadeSays(ranges, c, eff, v, post, all, lists, made);
  }

  /** The conditions of the entry as lists, pruned for a variable with two values. */
  method ListsFor(eff: Effects, ranges: seq<nat>, v: nat, post: nat) returns (ghost all: seq<seq<Fact>>, lists: seq<seq<Fact>>)
    requires ValidEffects(ranges, eff) && v in eff && post in eff[v]
    ensures forall e :: SomeAll(all, e) <==> SomeHolds(eff[v][post], e)
    ensures if ranges[v] == 2 then OnlyIdle(all, lists, Fact(v, post)) && ((1 - post) in eff[v] ==> lists == all) else lists == all
    ensures forall f {:trigger InSome(lists, f)} | InSome(lists, f) :: ValidFact(ranges, f)
    ensures ranges[v] == 2 && (1 - post) !in eff[v] ==> forall f {:trigger InSome(lists, f)} | InSome(lists, f) && f.v == v :: f.x == post
  {
    lists := ItemLists(eff[v][post], ranges);
    all := lists;
    if ranges[v] == 2 {
      var simplified;
      lists, simplified := Prune(Fact(v, post), lists, eff[v].Keys);
      PrunedFacts(all, lists, Fact(v, post), simplified, ranges, (1 - post) in eff[v]);
    }
    FactsLeft(ranges, all, lists);
  }

  lemma FactsLeft(ranges: seq<nat>, all: seq<seq<Fact>>, lists: seq<seq<Fact>>)
    requires forall l, f | l in all && f in l :: ValidFact(ranges, f)
    requires lists != all ==> forall g {:trigger InSome(lists, g)} | InSome(lists, g) :: InSome(all, g)
    ensures forall f {:trigger InSome(lists, f)} | InSome(lists, f) :: ValidFact(ranges, f)
  {
    forall f | InSome(lists, f)
      ensures ValidFact(ranges, f)
    {
      assert InSome(all, f);
    }
  }

  lemma AllTidy(ranges: seq<nat>, c: Cond, eff: Effects, v: nat, post: nat, lists: seq<seq<Fact>>, made: seq<Effect>)
    requires v in eff && PreOf(c, v) != Some(post) && ValidFact(ranges, Fact(v, post))
    requires forall f {:trigger InSome(lists, f)} | InSome(lists, f) :: ValidFact(ranges, f)
    requires ranges[v] == 2 && (1 - post) !in eff[v] ==> forall f {:trigger InSome(lists, f)} | InSome(lists, f) && f.v == v :: f.x == post
    requires forall ef | ef in made :: ef.v == v && ef.post == post && ef.pre == PreOf(c, v) && GuardFrom(lists, c, ef.cond)
    ensures forall ef | ef in made :: Tidy(ranges, c, eff, ef) && ValidEffect(ranges, ef)
  {
    forall ef | ef in made
      ensures Tidy(ranges, c, eff, ef) && ValidEffect(ranges, ef)
    {
      MadeTidy(ranges, c, eff, ef, lists);
    }
  }

  lemma MadeSays(ranges: seq<nat>, c: Cond, eff: Effects, v: nat, post: nat, all: seq<seq<Fact>>, lists: seq<seq<Fact>>, made: seq<Effect>)
    requires ValidEffects(ranges, eff) && v in eff && post in eff[v]
    requires forall e :: SomeAll(all, e) <==> SomeHolds(eff[v][post], e)
    requires ranges[v] != 2 ==> lists == all
    requires ranges[v] == 2 ==> OnlyIdle(all, lists, Fact(v, post)) && ((1 - post) in eff[v] ==> lists == all)
    requires forall e | Satisfies(e, c) :: FiresIn(made, e, v, post) <==> SomeAll(lists, e)
    ensures forall e | ValidState(ranges, e) && Satisfies(e, c) ::
              && (Says(eff, e, v, post) ==> FiresIn(made, e, v, post) || Holds(e, Fact(v, post)))
              && (FiresIn(made, e, v, post) ==> Says(eff, e, v, post) || Idle(eff, e, v, post))
  {
    forall e | ValidState(ranges, e) && Satisfies(e, c)
      ensures Says(eff, e, v, post) ==> FiresIn(made, e, v, post) || Holds(e, Fact(v, post))
      ensures FiresIn(made, e, v, post) ==> Says(eff, e, v, post) || Idle(eff, e, v, post)
    {
      assert SomeAll(all, e) <==> Says(eff, e, v, post);
      if ranges[v] == 2 && lists != all {
        assert forall y | Says(eff, e, v, y) :: y < 2 && y != 1 - post;
      }
    }
  }

  /** On a variable with two values only the value that is set is left. */
  lemma PrunedFacts(all: seq<seq<Fact>>, lists: seq<seq<Fact>>, f: Fact, simplified: bool, ranges: seq<nat>, dualSet: bool)
    requires f.x < 2 && (forall l, g | l in all && g in l :: ValidFact(ranges, g)) && f.v < |ranges| && ranges[f.v] == 2
    requires !dualSet && all != [[]] ==> IsPruned(all, lists, Fact(f.v, 1 - f.x), simplified)
    requires dualSet || all == [[]] ==> lists == all
    ensures !dualSet ==> forall g {:trigger InSome(lists, g)} | InSome(lists, g) && g.v == f.v :: g.x == f.x
  {
    if !dualSet && all != [[]] {
      forall g | InSome(lists, g) && g.v == f.v
        ensures g.x == f.x
      {
        var l :| l in lists && g in l;
        var j :| 0 <= j < |lists| && lists[j] == l;
        assert all[j] in all && g in all[j] && g != Fact(f.v, 1 - f.x);
      }
    }
  }

  lemma MadeTidy(ranges: seq<nat>, c: Cond, eff: Effects, ef: Effect, lists: seq<seq<Fact>>)
    requires ef.pre == PreOf(c, ef.v) && ef.pre != Some(ef.post) && GuardFrom(lists, c, ef.cond) && ValidFact(ranges, Fact(ef.v, ef.post))
    requires forall f {:trigger InSome(lists, f)} | InSome(lists, f) :: ValidFact(ranges, f)
    requires ef.v in eff && ranges[ef.v] == 2 && (1 - ef.post) !in eff[ef.v] ==>
               forall f {:trigger InSome(lists, f)} | InSome(lists, f) && f.v == ef.v :: f.x == ef.post
    ensures Tidy(ranges, c, eff, ef) && ValidEffect(ranges, ef)
  {
    forall f | f in ef.cond
      ensures ValidFact(ranges, f)
      ensures ef.v in eff && ranges[ef.v] == 2 && (1 - ef.post) !in eff[ef.v] && f.v == ef.v ==> f.x == ef.post
    {
      assert InSome(lists, f);
    }
  }

  ghost predicate InSome(lists: seq<seq<Fact>>, f: Fact) {
    exists l | l in lists :: f in l
  }

  /** The condition is made of listed facts that the operator does not demand. */
  ghost predicate GuardFrom(lists: seq<seq<Fact>>, c: Cond, cond: seq<Fact>) {
    forall f | f in cond :: f.v !in c && InSome(lists, f)
  }

  /** One effect for each condition that does not contradict the operator's own. */
  method Guards(c: Cond, lists: seq<seq<Fact>>, v: nat, pre: Option<nat>, post: nat) returns (made: seq<Effect>)
    ensures forall ef | ef in made :: ef.v == v && ef.post == post && ef.pre == pre
    ensures forall ef | ef in made :: GuardFrom(lists, c, ef.cond)
    ensures forall e | Satisfies(e, c) :: FiresIn(made, e, v, post) <==> SomeAll(lists, e)
  {
    made := [];
    for i := 0 to |lists|
      invariant forall ef | ef in made :: ef.v == v && ef.post == post && ef.pre == pre
      invariant forall ef | ef in made :: GuardFrom(lists, c, ef.cond)
      invariant forall e | Satisfies(e, c) :: FiresIn(made, e, v, post) <==> SomeAll(lists[..i], e)
    {
      var l := lists[i];
      assert lists[..i + 1] == lists[..i] + [l] && l in lists;
      var filtered := Filter(l, c);
      ghost var before := made;
      if filtered.Some? {
        made := made + [Effect(v, pre, post, filtered.value)];
      }
      forall e | Satisfies(e, c)
        ensures FiresIn(made, e, v, post) <==> FiresIn(before, e, v, post) || HoldsAll(e, l)
        ensures SomeAll(lists[..i + 1], e) <==> SomeAll(lists[..i], e) || HoldsAll(e, l)
      {
        SomeAllAppend(lists[..i], l, e);
        if filtered.Some? {
          FiresAppend(before, [Effect(v, pre, post, filtered.value)], e, v, post);
          assert Effect(v, pre, post, filtered.value) in [Effect(v, pre, post, filtered.value)];
        }
      }
    }
    assert lists[..|lists|] == lists;
  }

  lemma FiresAppend(a: seq<Effect>, b: seq<Effect>, e: State, v: nat, x: nat)
    ensures FiresIn(a + b, e, v, x) <==> FiresIn(a, e, v, x) || FiresIn(b, e, v, x)
  {
    if FiresIn(a, e, v, x) {
      var ef :| ef in a && ef.v == v && ef.post == x && HoldsAll(e, ef.cond);
      assert ef in a + b;
    }
    if FiresIn(b, e, v, x) {
      var ef :| ef in b && ef.v == v && ef.post == x && HoldsAll(e, ef.cond);
      assert ef in a + b;
    }
  }

  /** What the effects made so far have to do with the table, for the entries `done`. */
  ghost predicate Covered(ranges: seq<nat>, c: Cond, eff: Effects, done: set<Fact>, prePost: seq<Effect>) {
    && (forall ef | ef in prePost :: Fact(ef.v, ef.post) in done && Tidy(ranges, c, eff, ef) && ValidEffect(ranges, ef))
    && (forall e, f | f in done && ValidState(ranges, e) && Satisfies(e, c) ::
          && (Says(eff, e, f.v, f.x) ==> FiresIn(prePost, e, f.v, f.x) || Holds(e, f))
          && (FiresIn(prePost, e, f.v, f.x) ==> Says(eff, e, f.v, f.x) || Idle(eff, e, f.v, f.x)))
  }

  lemma CoveredNext(ranges: seq<nat>, c: Cond, eff: Effects, done: set<Fact>, prePost: seq<Effect>, v: nat, x: nat, made: seq<Effect>)
    requires Covered(ranges, c, eff, done, prePost) && PostCovered(ranges, c, eff, v, x, made) && Fact(v, x) !in done
    ensures Covered(ranges, c, eff, done + {Fact(v, x)}, prePost + made)
  {
    forall e, f | f in done + {Fact(v, x)} && ValidState(ranges, e) && Satisfies(e, c)
      ensures Says(eff, e, f.v, f.x) ==> FiresIn(prePost + made, e, f.v, f.x) || Holds(e, f)
      ensures FiresIn(prePost + made, e, f.v, f.x) ==> Says(eff, e, f.v, f.x) || Idle(eff, e, f.v, f.x)
    {
      FiresAppend(prePost, made, e, f.v, f.x);
    }
  }

  /** At most one value is said about each variable. */
  ghost predicate Functional(eff: Effects, e: State) {
    forall v, x, y | Says(eff, e, v, x) && Says(eff, e, v, y) :: x == y
  }

  /** Each variable gets the value said about it and keeps its value when nothing is said. */
  ghost predicate IsUpdate(eff: Effects, e: State, e': State) {
    && |e'| == |e|
    && (forall v: nat, x: nat | v < |e| && Says(eff, e, v, x) :: e'[v] == x)
    && (forall v: nat | v < |e| && (forall x: nat :: !Says(eff, e, v, x)) :: e'[v] == e[v])
  }

  lemma CoveredUpdates(ranges: seq<nat>, c: Cond, eff: Effects, done: set<Fact>, prePost: seq<Effect>, e: State)
    requires Covered(ranges, c, eff, done, prePost) && forall v, x | v in eff && x in eff[v] :: Fact(v, x) in done
    requires ValidState(ranges, e) && Satisfies(e, c) && Functional(eff, e)
    ensures IsUpdate(eff, e, ApplyEffects(prePost, e, e))
  {
    var e' := ApplyEffects(prePost, e, e);
    forall v: nat | v < |e|
      ensures forall x | Says(eff, e, v, x) :: e'[v] == x
      ensures (forall x: nat :: !Says(eff, e, v, x)) ==> e'[v] == e[v]
    {
      CoveredAt(ranges, c, eff, done, prePost, e, v);
    }
  }

  lemma CoveredAt(ranges: seq<nat>, c: Cond, eff: Effects, done: set<Fact>, prePost: seq<Effect>, e: State, v: nat)
    requires Covered(ranges, c, eff, done, prePost) && forall v, x | v in eff && x in eff[v] :: Fact(v, x) in done
    requires ValidState(ranges, e) && Satisfies(e, c) && Functional(eff, e) && v < |e|
    ensures forall x | Says(eff, e, v, x) :: ApplyEffects(prePost, e, e)[v] == x
    ensures (forall x: nat :: !Says(eff, e, v, x)) ==> ApplyEffects(prePost, e, e)[v] == e[v]
  {
    var e' := ApplyEffects(prePost, e, e);
    ApplyEffectsAt(prePost, e, e, v);
    forall ef | ef in prePost && ef.v == v && HoldsAll(e, ef.cond)
      ensures Says(eff, e, v, ef.post) || Idle(eff, e, v, ef.post)
    {
      assert FiresIn(prePost, e, v, ef.post) && Fact(v, ef.post) in done;
      assert Fact(v, ef.post).v == v;
    }
    if ef :| ef in prePost && ef.v == v && HoldsAll(e, ef.cond) {
      forall ef' | ef' in prePost && ef'.v == v && HoldsAll(e, ef'.cond)
        ensures ef'.post == ef.post
      {
      }
      assert e'[v] == ef.post;
    } else {
      assert e'[v] == e[v];
      forall x | Says(eff, e, v, x)
        ensures e'[v] == x
      {
        assert Fact(v, x) in done;
        assert !FiresIn(prePost, e, v, x);
      }
    }
  }

  ghost predicate PrevailLeft(c: Cond, prePost: seq<Effect>, prevail: Cond) {
    && (forall v: nat :: v in prevail <==> v in c && !Affects(prePost, v))
    && (forall v | v in prevail :: prevail[v] == c[v])
  }

  lemma SameConditions(c: Cond, prePost: seq<Effect>, prevail: Cond, items: seq<Fact>, op: SasOperator, e: State)
    requires PrevailLeft(c, prePost, prevail) && (HoldsAll(e, items) <==> Satisfies(e, prevail))
    requires forall ef | ef in prePost :: ef.pre == PreOf(c, ef.v)
    requires op.prevail == items && op.prePost == prePost
    ensures Applicable(op, e) <==> Satisfies(e, c)
  {
    if Applicable(op, e) {
      forall v | v in c
        ensures Holds(e, Fact(v, c[v]))
      {
        if v !in prevail {
          var ef :| ef in prePost && ef.v == v;
          assert PreHolds(e, ef);
        }
      }
    }
  }

  /** build_sas_operator: None stands for an operator that changes nothing. */
  method Build(c: Cond, eff: Effects, ranges: seq<nat>, cost: nat) returns (r: Option<SasOperator>)
    requires ValidEffects(ranges, eff) && ValidCond(ranges, c)
    ensures r.Some? ==> ValidOperator(ranges, r.value) && r.value.cost == cost
    ensures r.Some? ==> forall e :: Applicable(r.value, e) <==> Satisfies(e, c)
    ensures r.Some? ==> r.value.prePost != [] && forall ef | ef in r.value.prePost :: Tidy(ranges, c, eff, ef)
    ensures r.Some? ==> forall f :: f in r.value.prevail <==> f.v in c && c[f.v] == f.x && !Affects(r.value.prePost, f.v)
    ensures forall e | ValidState(ranges, e) && Satisfies(e, c) && Functional(eff, e) ::
              IsUpdate(eff, e, if r.None? then e else Successor(r.value, e))
  {
    var prevail, prePost := c, [];
    var rest := eff.Keys;
    ghost var done := {};
    while rest != {}
      invariant rest <= eff.Keys && Covered(ranges, c, eff, done, prePost) && PrevailLeft(c, prePost, prevail)
      invariant forall f | f in done :: f.v !in rest
      invariant forall v, x | v in eff.Keys - rest && x in eff[v] :: Fact(v, x) in done
      decreases rest
    {
      var v :| v in rest;
      var added;
      added, prePost, done := VariableEffects(c, eff, ranges, v, prePost, done);
      if added {
        prevail := prevail - {v};
      }
      rest := rest - {v};
    }
    forall e | ValidState(ranges, e) && Satisfies(e, c) && Functional(eff, e)
      ensures IsUpdate(eff, e, ApplyEffects(prePost, e, e))
    {
      CoveredUpdates(ranges, c, eff, done, prePost, e);
    }
    if prePost == [] {
      return None;
    }
    var items := Items(prevail);
    var op := SasOperator(items, prePost, cost);
    forall e
      ensures Applicable(op, e) <==> Satisfies(e, c)
    {
      SameConditions(c, prePost, prevail, items, op, e);
    }
    assert ValidOperator(ranges, op) by {
      forall f | f in items
        ensures ValidFact(ranges, f)
      {
        assert f == Fact(f.v, c[f.v]);
      }
      forall ef | ef in prePost
        ensures ef.pre.Some? ==> ValidFact(ranges, Fact(ef.v, ef.pre.value))
      {
      }
    }
    return Some(op);
  }

  /** The effects on one variable (translate.py:294-334). */
  method VariableEffects(c: Cond, eff: Effects, ranges: seq<nat>, v: nat, prePost0: seq<Effect>, ghost done0: set<Fact>)
    returns (added: bool, prePost: seq<Effect>, ghost done: set<Fact>)
    requires ValidEffects(ranges, eff) && v in eff && Covered(ranges, c, eff, done0, prePost0)
    requires forall f | f in done0 :: f.v != v
    ensures Covered(ranges, c, eff, done, prePost)
    ensures forall f :: f in done <==> f in done0 || (f.v == v && f.x in eff[v])
    ensures forall u: nat :: Affects(prePost, u) <==> Affects(prePost0, u) || (added && u == v)
  {
    added, prePost, done := false, prePost0, done0;
    var rest := eff[v].Keys;
    while rest != {}
      invariant rest <= eff[v].Keys && Covered(ranges, c, eff, done, prePost)
      invariant forall f :: f in done <==> f in done0 || (f.v == v && f.x in eff[v].Keys - rest)
      invariant forall u: nat :: Affects(prePost, u) <==> Affects(prePost0, u) || (added && u == v)
      decreases rest
    {
      var post :| post in rest;
      var made := PostEffects(c, eff, ranges, v, post);
      CoveredNext(ranges, c, eff, done, prePost, v, post, made);
      AffectedNext(prePost, made, v);
      prePost := prePost + made;
      done := done + {Fact(v, post)};
      added := added || made != [];
      rest := rest - {post};
    }
  }

  lemma AffectedNext(prePost: seq<Effect>, made: seq<Effect>, v: nat)
    requires forall ef | ef in made :: ef.v == v
    ensures forall u: nat :: Affects(prePost + made, u) <==> Affects(prePost, u) || (made != [] && u == v)
  {
    if made != [] {
      assert made[0] in prePost + made && made[0] in made;
    }
    forall u: nat | Affects(prePost, u)
      ensures Affects(prePost + made, u)
    {
      var ef :| ef in prePost && ef.v == u;
      assert ef in prePost + made;
    }
  }
}
