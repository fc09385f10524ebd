/** Translation of conjunctions of literals into disjunctions of variable assignments
    (translate.py:66-170, 189-204). */
module Conditions {
  import opened Sas
  import opened Strips
  import opened Collections

  /** A conjunction of conditions "variable = value". */
  type Cond = map<nat, nat>

  /** The values still allowed for some variables. */
  type Choice = map<nat, set<nat>>

  predicate Satisfies(e: State, c: Cond) {
    forall v | v in c :: Holds(e, Fact(v, c[v]))
  }

  ghost predicate SomeHolds(cs: seq<Cond>, e: State) {
    exists c | c in cs :: Satisfies(e, c)
  }

  /** Any two conditions disagree on a variable. */
  ghost predicate Exclusive(cs: seq<Cond>) {
    forall i, j | 0 <= i < j < |cs| :: Disagree(cs[i], cs[j])
  }

  ghost predicate Disagree(c: Cond, d: Cond) {
    exists v | v in c && v in d :: c[v] != d[v]
  }

  ghost predicate ValidCond(ranges: seq<nat>, c: Cond) {
    forall v | v in c :: ValidFact(ranges, Fact(v, c[v]))
  }

  ghost predicate Allowed(c: Choice, e: State) {
    forall v | v in c :: v < |e| && e[v] in c[v]
  }

  ghost predicate ValidChoice(ranges: seq<nat>, c: Choice) {
    forall v | v in c :: v < |ranges| && c[v] != {} && forall x | x in c[v] :: x < ranges[v]
  }

  ghost predicate Single(c: Choice) {
    forall v, x, y | v in c && x in c[v] && y in c[v] :: x == y
  }

  ghost predicate AllAt(pairs: seq<Fact>, e: State) {
    forall f | f in pairs :: Holds(e, f)
  }

  /** The values of `c0` stay. */
  ghost predicate Keeps(c0: Choice, c: Choice) {
    forall v | v in c0 :: v in c && c[v] == c0[v]
  }

  lemma KeepsMore(base: Choice, c: Choice, v: nat, values: set<nat>)
    requires Keeps(base, c) && v !in c
    ensures Keeps(base, c[v := values])
  {
  }

  /** The choice allows none of the values. */
  ghost predicate NoneChosen(pairs: seq<Fact>, c: Choice) {
    forall f | f in pairs && f.v in c :: f.x !in c[f.v]
  }

  function Variables(pairs: seq<Fact>): set<nat> {
    set f | f in pairs :: f.v
  }

  /** Demand the value of every listed fact (translate.py:74-88). */
  method Demand(pairs: seq<Fact>, ranges: seq<nat>, c0: Choice) returns (ok: bool, c: Choice)
    requires ValidChoice(ranges, c0) && Single(c0)
    requires forall f | f in pairs :: ValidFact(ranges, f)
    ensures ok ==> ValidChoice(ranges, c) && Single(c)
    ensures ok ==> forall e :: Allowed(c, e) <==> Allowed(c0, e) && AllAt(pairs, e)
    ensures ok ==> c.Keys == c0.Keys + Variables(pairs)
    ensures ok ==> Keeps(c0, c) && AllDemanded(pairs, c)
    ensures !ok ==> forall e :: !(Allowed(c0, e) && AllAt(pairs, e))
  {
    c := c0;
    for i := 0 to |pairs|
      invariant ValidChoice(ranges, c) && Single(c)
      invariant c.Keys == c0.Keys + Variables(pairs[..i])
      invariant Keeps(c0, c) && AllDemanded(pairs[..i], c)
      invariant forall e :: Allowed(c, e) <==> Allowed(c0, e) && AllAt(pairs[..i], e)
    {
      var f := pairs[i];
      assert f in pairs;
      if f.v in c && f.x !in c[f.v] {
        forall e
          ensures !(Allowed(c0, e) && AllAt(pairs, e))
        {
          assert AllAt(pairs, e) ==> AllAt(pairs[..i], e) && Holds(e, f);
        }
        return false, c;
      }
      ghost var before := c;
      c := c[f.v := {f.x}];
      Demanded(before, f, c);
      DemandedNext(pairs[..i], c0, before, f, c);
      assert pairs[..i + 1] == pairs[..i] + [f];
    }
    assert pairs[..|pairs|] == pairs;
    ok := true;
  }

  ghost predicate AllDemanded(pairs: seq<Fact>, c: Choice) {
    forall f | f in pairs :: f.v in c && c[f.v] == {f.x}
  }

  lemma DemandedNext(pairs: seq<Fact>, c0: Choice, before: Choice, f: Fact, c: Choice)
    requires AllDemanded(pairs, before) && Keeps(c0, before) && Single(before) && (f.v in before ==> f.x in before[f.v])
    requires c == before[f.v := {f.x}]
    ensures AllDemanded(pairs + [f], c) && Keeps(c0, c)
  {
    if f.v in before {
      assert before[f.v] == {f.x};
      assert c == before;
    }
  }

  lemma Demanded(before: Choice, f: Fact, c: Choice)
    requires Single(before) && (f.v in before ==> f.x in before[f.v]) && c == before[f.v := {f.x}]
    ensures Single(c)
    ensures forall e :: Allowed(c, e) <==> Allowed(before, e) && Holds(e, f)
  {
    forall e
      ensures Allowed(c, e) <==> Allowed(before, e) && Holds(e, f)
    {
      if Allowed(c, e) {
        assert f.v in c && e[f.v] in c[f.v];
        forall v | v in before
          ensures v < |e| && e[v] in before[v]
        {
          assert v in c;
        }
      }
    }
  }

  /** The listed facts stand for one atom in the state. */
  ghost predicate Agree(pairs: seq<Fact>, e: State) {
    forall f, g | f in pairs && g in pairs :: Holds(e, f) <==> Holds(e, g)
  }

  ghost predicate NoneAt(pairs: seq<Fact>, e: State) {
    forall f | f in pairs :: !Holds(e, f)
  }

  function Without(range: nat, x: nat): set<nat> {
    Range(range) - {x}
  }

  /** What the loop over the places of a negated atom keeps: `c` has been narrowed at some places
      iff `done`, and every other place seen is a candidate. */
  ghost predicate Narrowing(ranges: seq<nat>, c0: Choice, c: Choice, extra: Choice, seen: seq<Fact>, done: bool) {
    && c.Keys == c0.Keys && (done <==> exists f | f in seen :: f.v in c0)
    && (forall v | v in c && (forall f | f in seen :: f.v != v) :: c[v] == c0[v])
    && (forall f | f in seen && f.v in c0 :: c[f.v] == c0[f.v] - {f.x})
    && (forall v :: v in extra <==> v !in c0 && exists f | f in seen :: f.v == v)
    && (forall f | f in seen && f.v in extra && f.v < |ranges| :: extra[f.v] == Without(ranges[f.v], f.x))
  }

  lemma NarrowingNext(ranges: seq<nat>, c0: Choice, c: Choice, extra: Choice, seen: seq<Fact>, done: bool, f: Fact, c': Choice, extra': Choice)
    requires Narrowing(ranges, c0, c, extra, seen, done) && DistinctFacts(seen + [f]) && ValidFact(ranges, f)
    requires ValidChoice(ranges, c)
    requires if f.v in c then c' == c[f.v := c[f.v] * Without(ranges[f.v], f.x)] && extra' == extra
             else c' == c && extra' == extra[f.v := Without(ranges[f.v], f.x)]
    ensures f.v !in extra
    ensures Narrowing(ranges, c0, c', extra', seen + [f], done || f.v in c)
  {
    forall g | g in seen
      ensures g.v != f.v
    {
      var i :| 0 <= i < |seen| && seen[i] == g;
      assert (seen + [f])[i].v != (seen + [f])[|seen|].v;
    }
    if f.v in c {
      assert c[f.v] * Without(ranges[f.v], f.x) == c[f.v] - {f.x};
    }
  }

  ghost predicate IsFewest(c: Choice, keys: set<nat>, v: nat)
    requires keys <= c.Keys
  {
    v in keys && forall u | u in keys :: |c[v]| <= |c[u]|
  }

  /** Some key has the fewest values. */
  lemma {:induction false} FewestExists(c: Choice, keys: set<nat>) returns (v: nat)
    requires keys != {} && keys <= c.Keys
    ensures IsFewest(c, keys, v)
  {
    v :| v in keys;
    if keys != {v} {
      var u := FewestExists(c, keys - {v});
      if |c[u]| < |c[v]| {
        v := u;
      }
    }
  }

  /** What sorting by the number of values puts first. */
  method Fewest(c: Choice, keys: set<nat>) returns (v: nat)
    requires keys != {} && keys <= c.Keys
    ensures IsFewest(c, keys, v)
  {
    ghost var w := FewestExists(c, keys);
    v :| v in keys && forall u | u in keys :: |c[v]| <= |c[u]|;
  }

  ghost predicate ValidPlaces(ranges: seq<nat>, pairs: seq<Fact>) {
    DistinctFacts(pairs) && forall f | f in pairs :: f.v < |ranges| && f.x + 1 < ranges[f.v]
  }

  /** Forbid the atom at the listed places: where a place already is constrained, narrow it there,
      otherwise constrain the place with the fewest other values (translate.py:94-139). */
  method Forbid(pairs: seq<Fact>, ranges: seq<nat>, ghost base: Choice, c0: Choice) returns (ok: bool, c: Choice)
    requires ValidChoice(ranges, c0) && ValidPlaces(ranges, pairs) && Single(base) && Keeps(base, c0)
    ensures ok ==> Keeps(base, c) && NoneChosen(pairs, base)
    ensures ok ==> ValidChoice(ranges, c)
    ensures ok ==> forall e | ValidState(ranges, e) && Agree(pairs, e) ::
              Allowed(c, e) <==> Allowed(c0, e) && NoneAt(pairs, e)
    ensures !ok ==> forall e | ValidState(ranges, e) :: !(Allowed(c0, e) && NoneAt(pairs, e))
    ensures pairs == [] ==> ok && c == c0
    ensures |pairs| == 1 && ok ==> c == ForbidOne(ranges, c0, pairs[0])
    ensures ok && c == map[] ==> pairs == []
  {
    c := c0;
    var done := false;
    var extra: Choice := map[];
    for i := 0 to |pairs|
      invariant ValidChoice(ranges, c) && Narrowing(ranges, c0, c, extra, pairs[..i], done)
      invariant i == 0 ==> c == c0 && extra == map[]
    {
      assert pairs[..i + 1] == pairs[..i] + [pairs[i]] && pairs[i] in pairs;
      ok, c, extra, done := ForbidPlace(pairs, ranges, c0, c, extra, done, pairs[i], pairs[..i], pairs[..i + 1]);
      if !ok {
        return;
      }
    }
    assert pairs[..|pairs|] == pairs;
    ok := true;
    SingleKept(ranges, base, c0, c, extra, pairs, done);
    c := Constrained(pairs, ranges, base, c0, c, extra, done);
  }

  /** A variable with a single value keeps it, and it is not forbidden. */
  lemma SingleKept(ranges: seq<nat>, base: Choice, c0: Choice, c: Choice, extra: Choice, pairs: seq<Fact>, done: bool)
    requires ValidChoice(ranges, c) && Narrowing(ranges, c0, c, extra, pairs, done) && Single(base) && Keeps(base, c0)
    ensures Keeps(base, c) && NoneChosen(pairs, base)
  {
    forall v | v in base
      ensures c[v] == base[v] && forall f | f in pairs && f.v == v :: f.x !in base[v]
    {
      if f :| f in pairs && f.v == v {
        var x :| x in c[v];
        assert c[v] == base[v] - {f.x} && base[v] == {x};
        forall g | g in pairs && g.v == v
          ensures g.x !in base[v]
        {
          assert c[g.v] == c0[g.v] - {g.x};
        }
      }
    }
  }

  /** One place: a condition on its variable is narrowed, otherwise the place is a candidate. */
  method ForbidPlace(ghost pairs: seq<Fact>, ranges: seq<nat>, ghost c0: Choice, c: Choice, extra: Choice, done: bool, f: Fact,
                     ghost seen: seq<Fact>, ghost next: seq<Fact>)
    returns (ok: bool, c': Choice, extra': Choice, done': bool)
    requires ValidChoice(ranges, c0) && ValidChoice(ranges, c) && Narrowing(ranges, c0, c, extra, seen, done)
    requires next == seen + [f] && DistinctFacts(next) && ValidFact(ranges, f) && forall g | g in next :: g in pairs
    ensures ok ==> ValidChoice(ranges, c') && Narrowing(ranges, c0, c', extra', next, done')
    ensures !ok ==> forall e | ValidState(ranges, e) :: !(Allowed(c0, e) && NoneAt(pairs, e))
  {
    ok, c', extra', done' := true, c, extra, done;
    var others := Without(ranges[f.v], f.x);
    if f.v !in c {
      extra' := extra[f.v := others];
    } else {
      c' := c[f.v := c[f.v] * others];
    }
    NarrowingNext(ranges, c0, c, extra, seen, done, f, c', extra');
    if f.v in c {
      done' := true;
      if c'[f.v] == {} {
        NarrowedAway(ranges, c0, c', extra', next, done', f.v, pairs);
        ok := false;
      }
    }
  }

  /** One place of an atom excluded. */
  function ForbidOne(ranges: seq<nat>, c: Choice, f: Fact): Choice
    requires f.v < |ranges|
  {
    c[f.v := (if f.v in c then c[f.v] else Range(ranges[f.v])) - {f.x}]
  }

  lemma OneForbidden(ranges: seq<nat>, c0: Choice, c: Choice, extra: Choice, pairs: seq<Fact>, done: bool, r: Choice)
    requires |pairs| == 1 && pairs[0].v < |ranges| && Narrowing(ranges, c0, c, extra, pairs, done)
    requires if !done && extra != map[] then exists v | v in extra :: r == c[v := extra[v]] else r == c
    ensures r == ForbidOne(ranges, c0, pairs[0])
  {
    var f := pairs[0];
    assert f in pairs;
    if f.v !in c0 {
      assert f.v in extra && extra.Keys == {f.v};
    }
  }

  /** If no condition was constrained, one with the fewest values is added. */
  method Constrained(pairs: seq<Fact>, ranges: seq<nat>, ghost base: Choice, ghost c0: Choice, c: Choice, extra: Choice, done: bool) returns (r: Choice)
    requires ValidChoice(ranges, c0) && ValidPlaces(ranges, pairs)
    requires ValidChoice(ranges, c) && Narrowing(ranges, c0, c, extra, pairs, done) && Keeps(base, c)
    ensures ValidChoice(ranges, r) && Keeps(base, r)
    ensures forall e | ValidState(ranges, e) && Agree(pairs, e) :: Allowed(r, e) <==> Allowed(c0, e) && NoneAt(pairs, e)
    ensures extra == map[] ==> r == c
    ensures r == map[] ==> pairs == []
    ensures |pairs| == 1 ==> r == ForbidOne(ranges, c0, pairs[0])
  {
    r := c;
    assert pairs != [] ==> pairs[0] in pairs;
    if !done && extra != map[] {
      var v := Fewest(extra, extra.Keys);
      CandidateForbids(ranges, c0, c, extra, pairs, v);
      KeepsMore(base, c, v, extra[v]);
      r := c[v := extra[v]];
    } else {
      NarrowedForbids(ranges, c0, c, extra, pairs, done);
    }
    if |pairs| == 1 {
      OneForbidden(ranges, c0, c, extra, pairs, done, r);
    }
  }

  lemma NarrowedAway(ranges: seq<nat>, c0: Choice, c: Choice, extra: Choice, seen: seq<Fact>, done: bool, v: nat, pairs: seq<Fact>)
    requires Narrowing(ranges, c0, c, extra, seen, done) && v in c && c[v] == {} && forall f | f in seen :: f in pairs
    requires ValidChoice(ranges, c0)
    ensures forall e :: !(Allowed(c0, e) && NoneAt(pairs, e))
  {
    forall e | Allowed(c0, e)
      ensures !NoneAt(pairs, e)
    {
      assert exists f | f in seen :: f.v == v;
      var f :| f in seen && f.v == v;
      assert c[v] == c0[v] - {f.x} && e[v] in c0[v] && e[v] !in c[v];
      assert Holds(e, f) && f in pairs;
    }
  }

  lemma NarrowedForbids(ranges: seq<nat>, c0: Choice, c: Choice, extra: Choice, pairs: seq<Fact>, done: bool)
    requires Narrowing(ranges, c0, c, extra, pairs, done) && (done || extra == map[])
    ensures forall e | Agree(pairs, e) :: Allowed(c, e) <==> Allowed(c0, e) && NoneAt(pairs, e)
  {
    forall e | Agree(pairs, e)
      ensures Allowed(c, e) <==> Allowed(c0, e) && NoneAt(pairs, e)
    {
      if Allowed(c, e) {
        if done {
          var f :| f in pairs && f.v in c0;
          assert !Holds(e, f);
        } else {
          assert forall f | f in pairs :: f.v in extra;
        }
      }
    }
  }

  lemma CandidateForbids(ranges: seq<nat>, c0: Choice, c: Choice, extra: Choice, pairs: seq<Fact>, v: nat)
    requires Narrowing(ranges, c0, c, extra, pairs, false) && v in extra && ValidPlaces(ranges, pairs) && ValidChoice(ranges, c)
    ensures ValidChoice(ranges, c[v := extra[v]])
    ensures forall e | ValidState(ranges, e) && Agree(pairs, e) ::
              Allowed(c[v := extra[v]], e) <==> Allowed(c0, e) && NoneAt(pairs, e)
  {
    var f :| f in pairs && f.v == v;
    assert extra[v] == Without(ranges[v], f.x) && (if f.x == 0 then 1 else 0) in extra[v];
    assert c == c0;
    forall e | ValidState(ranges, e) && Agree(pairs, e)
      ensures Allowed(c[v := extra[v]], e) <==> Allowed(c0, e) && NoneAt(pairs, e)
    {
      ForbiddenAt(ranges, c0, pairs, f, e);
    }
  }

  /** An atom that is true at all its places or at none is forbidden by excluding one of them. */
  lemma ForbiddenAt(ranges: seq<nat>, c: Choice, pairs: seq<Fact>, f: Fact, e: State)
    requires f in pairs && f.v < |ranges| && f.v !in c && ValidState(ranges, e) && Agree(pairs, e)
    ensures Allowed(c[f.v := Without(ranges[f.v], f.x)], e) <==> Allowed(c, e) && NoneAt(pairs, e)
  {
    var vals := Without(ranges[f.v], f.x);
    assert Allowed(c[f.v := vals], e) <==> Allowed(c, e) && e[f.v] in vals;
  }

  // ---- multiplying out ----

  ghost predicate Restricted(c: Choice, keys: set<nat>, e: State) {
    forall v | v in keys && v in c :: v < |e| && e[v] in c[v]
  }

  /** The conditions pick one allowed value for each of the variables `keys`, in every way, once. */
  ghost predicate Expansion(c: Choice, keys: set<nat>, flat: seq<Cond>) {
    && keys <= c.Keys && Exclusive(flat)
    && (forall d | d in flat :: d.Keys == keys && forall v | v in d :: d[v] in c[v])
    && (forall e :: SomeHolds(flat, e) <==> Restricted(c, keys, e))
  }

  /** All extensions of one condition by a value of `v`. */
  method ExtendOne(d: Cond, v: nat, vals: set<nat>) returns (r: seq<Cond>)
    requires v !in d
    ensures forall x :: x in r <==> v in x && x[v] in vals && x == d[v := x[v]]
    ensures Exclusive(r)
  {
    r := [];
    var rest := vals;
    while rest != {}
      invariant rest <= vals && Exclusive(r)
      invariant forall x :: x in r <==> v in x && x[v] in vals - rest && x == d[v := x[v]]
      decreases rest
    {
      var val :| val in rest;
      var x := d[v := val];
      forall i | 0 <= i < |r|
        ensures Disagree(r[i], x)
      {
        assert r[i] in r;
      }
      r := r + [x];
      rest := rest - {val};
    }
  }

  lemma ExtendedDisagree(d: Cond, d': Cond, x: Cond, v: nat)
    requires Disagree(d, d') && v !in d && v !in d' && v in x && x == d[v := x[v]]
    ensures Disagree(x, d')
    ensures forall x' | v in x' && x' == d'[v := x'[v]] :: Disagree(x, x')
  {
    var u: nat :| u in d && u in d' && d[u] != d'[u];
    assert u in x && x[u] == d[u];
    forall x' | v in x' && x' == d'[v := x'[v]]
      ensures Disagree(x, x')
    {
      assert u in x' && x'[u] == d'[u];
    }
  }

  lemma ExclusiveAppend(a: seq<Cond>, b: seq<Cond>)
    requires Exclusive(a) && Exclusive(b) && forall x, y | x in a && y in b :: Disagree(x, y)
    ensures Exclusive(a + b)
  {
  }

  ghost predicate Extends(x: Cond, v: nat, vals: set<nat>, flat: seq<Cond>) {
    v in x && x[v] in vals && x - {v} in flat
  }

  method ExtendAll(flat: seq<Cond>, v: nat, vals: set<nat>) returns (r: seq<Cond>)
    requires Exclusive(flat) && forall d | d in flat :: v !in d
    ensures Exclusive(r)
    ensures forall x :: x in r <==> Extends(x, v, vals, flat)
  {
    r := [];
    for i := 0 to |flat|
      invariant Exclusive(r)
      invariant forall x :: x in r <==> Extends(x, v, vals, flat[..i])
      invariant forall x, j | x in r && i <= j < |flat| :: Disagree(x, flat[j])
    {
      var d := flat[i];
      var more := ExtendOne(d, v, vals);
      forall x, y | x in r && y in more
        ensures Disagree(x, y)
      {
        assert Disagree(x, d);
        var u: nat :| u in x && u in d && x[u] != d[u];
        assert y[u] == d[u];
      }
      ExclusiveAppend(r, more);
      forall x, j | x in more && i + 1 <= j < |flat|
        ensures Disagree(x, flat[j])
      {
        ExtendedDisagree(d, flat[j], x, v);
      }
      forall x
        ensures x in more <==> v in x && x[v] in vals && x - {v} == d
      {
        if v in x && x - {v} == d {
          assert x == d[v := x[v]];
        }
        if x in more {
          assert x - {v} == d;
        }
      }
      assert flat[..i + 1] == flat[..i] + [d];
      r := r + more;
    }
    assert flat[..|flat|] == flat;
  }

  lemma ExtendedHolds(c: Choice, keys: set<nat>, flat: seq<Cond>, v: nat, r: seq<Cond>, e: State)
    requires v in c && (SomeHolds(flat, e) <==> Restricted(c, keys, e))
    requires forall d | d in flat :: v !in d
    requires forall x :: x in r <==> Extends(x, v, c[v], flat)
    ensures SomeHolds(r, e) <==> Restricted(c, keys + {v}, e)
  {
    if SomeHolds(r, e) {
      var x :| x in r && Satisfies(e, x);
      assert Satisfies(e, x - {v});
      assert SomeHolds(flat, e);
    }
    if Restricted(c, keys + {v}, e) {
      assert SomeHolds(flat, e);
      var d :| d in flat && Satisfies(e, d);
      var x := d[v := e[v]];
      assert x - {v} == d;
      assert x in r && Satisfies(e, x);
    }
  }

  lemma ExtendedExpansion(c: Choice, keys: set<nat>, flat: seq<Cond>, v: nat, r: seq<Cond>)
    requires Expansion(c, keys, flat) && v in c && v !in keys && Exclusive(r)
    requires forall x :: x in r <==> Extends(x, v, c[v], flat)
    ensures Expansion(c, keys + {v}, r)
  {
    forall e
      ensures SomeHolds(r, e) <==> Restricted(c, keys + {v}, e)
    {
      ExtendedHolds(c, keys, flat, v, r, e);
    }
    forall d | d in r
      ensures d.Keys == keys + {v} && forall u | u in d :: d[u] in c[u]
    {
      assert (d - {v}).Keys == keys;
    }
  }

  lemma EmptyExpansion(c: Choice)
    ensures Expansion(c, {}, [map[]])
  {
    forall e
      ensures SomeHolds([map[]], e)
    {
      var d: Cond := map[];
      assert d in [map[]] && Satisfies(e, d);
    }
  }

  lemma OnlyValue(vals: set<nat>, x: nat)
    requires |vals| == 1 && x in vals
    ensures vals == {x}
  {
    assert |vals - {x}| == 0;
  }

  lemma ExtendedOnly(d: Cond, v: nat, val: nat, vals: set<nat>)
    requires vals == {val} && v !in d
    ensures forall x :: x in [d[v := val]] <==> Extends(x, v, vals, [d])
  {
    forall x: Cond
      ensures x == d[v := val] <==> Extends(x, v, vals, [d])
    {
      if Extends(x, v, vals, [d]) {
        assert x == (x - {v})[v := val];
      }
      assert d[v := val] - {v} == d;
    }
  }

  /** One round: a single value is set in place, which fits only one condition. */
  method ExtendBy(flat: seq<Cond>, v: nat, vals: set<nat>) returns (more: seq<Cond>)
    requires Exclusive(flat) && forall d | d in flat :: v !in d
    requires |vals| == 1 ==> |flat| == 1
    ensures Exclusive(more) && (|vals| == 1 ==> |more| == 1)
    ensures forall x :: x in more <==> Extends(x, v, vals, flat)
  {
    if |vals| == 1 {
      var val :| val in vals;
      more := [flat[0][v := val]];
      OnlyValue(vals, val);
      ExtendedOnly(flat[0], v, val, vals);
      assert flat == [flat[0]];
    } else {
      more := ExtendAll(flat, v, vals);
    }
  }

  /** multiply_out.  Variables with a single value come first, while there is one condition only. */
  method MultiplyOut(ranges: seq<nat>, c: Choice) returns (flat: seq<Cond>)
    requires ValidChoice(ranges, c)
    ensures Expansion(c, c.Keys, flat)
    ensures |flat| == 1 <==> forall u | u in c :: |c[u]| == 1
  {
    flat := [map[]];
    EmptyExpansion(c);
    var rest := c.Keys;
    while rest != {}
      invariant rest <= c.Keys && Expansion(c, c.Keys - rest, flat)
      invariant forall u, w | u in c.Keys - rest && w in rest :: |c[u]| <= |c[w]|
      invariant (forall u | u in c.Keys - rest :: |c[u]| == 1) ==> |flat| == 1
      decreases rest
    {
      var v := Fewest(c, rest);
      ghost var keys := c.Keys - rest;
      var more := ExtendBy(flat, v, c[v]);
      ExtendedExpansion(c, keys, flat, v, more);
      rest := rest - {v};
      flat := more;
    }
    if |flat| == 1 {
      OneCondition(ranges, c, flat);
    }
  }

  /** A single condition leaves every variable a single value. */
  lemma OneCondition(ranges: seq<nat>, c: Choice, flat: seq<Cond>)
    requires ValidChoice(ranges, c) && Expansion(c, c.Keys, flat) && |flat| == 1
    ensures forall u | u in c :: |c[u]| == 1
  {
    var d := flat[0];
    assert d in flat;
    forall u, y | u in c && y in c[u]
      ensures y == d[u]
    {
      var e: State := seq(|ranges|, v requires 0 <= v < |ranges| => if v == u then y else if v in d then d[v] else 0);
      assert Restricted(c, c.Keys, e);
      var d' :| d' in flat && Satisfies(e, d');
      assert d' == d && Holds(e, Fact(u, d[u]));
    }
    forall u | u in c
      ensures |c[u]| == 1
    {
      assert d[u] in c[u];
      assert c[u] == {d[u]};
    }
  }

  // ---- conjunctions of literals ----

  /** The literals of one sign on encoded atoms hold; other atoms are static and are not translated. */
  ghost predicate HoldSigned(dict: Dictionary, ls: seq<Literal>, s: Atoms, negated: bool) {
    forall l | l in ls && l.negated == negated && l.atom in dict :: LiteralHolds(l, s)
  }

  ghost predicate HoldEncoded(dict: Dictionary, ls: seq<Literal>, s: Atoms) {
    HoldSigned(dict, ls, s, false) && HoldSigned(dict, ls, s, true)
  }

  /** The places of an atom; none for a static atom. */
  function Places(dict: Dictionary, a: Atom): seq<Fact> {
    if a in dict then dict[a] else []
  }

  lemma PlacesValid(groups: seq<seq<Atom>>, dict: Dictionary, ranges: seq<nat>, a: Atom)
    requires ValidDictionary(groups, dict, ranges)
    ensures ValidPlaces(ranges, Places(dict, a))
  {
  }

  lemma PlacesTell(groups: seq<seq<Atom>>, dict: Dictionary, ranges: seq<nat>, a: Atom, s: Atoms)
    requires ValidDictionary(groups, dict, ranges) && Respects(groups, s)
    ensures Agree(Places(dict, a), Encode(groups, s))
    ensures AllAt(Places(dict, a), Encode(groups, s)) <==> (a in dict ==> a in s)
    ensures NoneAt(Places(dict, a), Encode(groups, s)) <==> (a in dict ==> a !in s)
  {
    forall f | f in Places(dict, a)
      ensures Holds(Encode(groups, s), f) <==> a in s
    {
      AtomValue(groups, dict, ranges, s, a, f);
    }
    if a in dict {
      assert dict[a][0] in Places(dict, a);
    }
  }

  /** What the positive literals so far demand. */
  ghost predicate Demanding(groups: seq<seq<Atom>>, dict: Dictionary, ranges: seq<nat>, ls: seq<Literal>, c: Choice)
    requires ValidDictionary(groups, dict, ranges)
  {
    && ValidChoice(ranges, c) && Single(c) && c.Keys == VariablesIn(PlacesOf(dict, ls, false))
    && (forall f | f in PlacesOf(dict, ls, false) :: f.v in c && c[f.v] == {f.x})
    && forall s | Respects(groups, s) :: Allowed(c, Encode(groups, s)) <==> HoldSigned(dict, ls, s, false)
  }

  /** The positive literals (translate.py:66-89). */
  method Positives(conditions: seq<Literal>, ghost groups: seq<seq<Atom>>, dict: Dictionary, ranges: seq<nat>)
    returns (ok: bool, c: Choice)
    requires ValidDictionary(groups, dict, ranges)
    ensures ok ==> Demanding(groups, dict, ranges, conditions, c)
    ensures !ok ==> forall s | Respects(groups, s) :: !HoldSigned(dict, conditions, s, false)
  {
    c := map[];
    for i := 0 to |conditions|
      invariant Demanding(groups, dict, ranges, conditions[..i], c)
    {
      assert conditions[..i + 1] == conditions[..i] + [conditions[i]];
      ok, c := DemandLiteral(conditions[i], groups, dict, ranges, c, conditions[..i], conditions[..i + 1]);
      if !ok {
        assert forall l | l in conditions[..i + 1] :: l in conditions;
        return;
      }
    }
    assert conditions[..|conditions|] == conditions;
    ok := true;
  }

  method DemandLiteral(l: Literal, ghost groups: seq<seq<Atom>>, dict: Dictionary, ranges: seq<nat>, c0: Choice,
                       ghost ls: seq<Literal>, ghost next: seq<Literal>)
    returns (ok: bool, c: Choice)
    requires ValidDictionary(groups, dict, ranges) && Demanding(groups, dict, ranges, ls, c0) && next == ls + [l]
    ensures ok ==> Demanding(groups, dict, ranges, next, c)
    ensures !ok ==> forall s | Respects(groups, s) :: !HoldSigned(dict, next, s, false)
  {
    ok, c := true, c0;
    PlacesNext(dict, ls, l, false, next);
    VariablesJoined(PlacesOf(dict, ls, false), Places(dict, l.atom));
    if !l.negated {
      PlacesValid(groups, dict, ranges, l.atom);
      PositiveAdded(ls, groups, dict, ranges, l);
      ok, c := Demand(Places(dict, l.atom), ranges, c);
    }
  }

  lemma PositiveAdded(ls: seq<Literal>, groups: seq<seq<Atom>>, dict: Dictionary, ranges: seq<nat>, l: Literal)
    requires ValidDictionary(groups, dict, ranges) && !l.negated
    ensures forall s | Respects(groups, s) ::
              HoldSigned(dict, ls + [l], s, false) <==>
              HoldSigned(dict, ls, s, false) && AllAt(Places(dict, l.atom), Encode(groups, s))
  {
    forall s | Respects(groups, s)
      ensures HoldSigned(dict, ls + [l], s, false) <==>
              HoldSigned(dict, ls, s, false) && AllAt(Places(dict, l.atom), Encode(groups, s))
    {
      PlacesTell(groups, dict, ranges, l.atom, s);
    }
  }

  lemma NegativeAdded(ls: seq<Literal>, groups: seq<seq<Atom>>, dict: Dictionary, ranges: seq<nat>, l: Literal)
    requires ValidDictionary(groups, dict, ranges) && l.negated
    ensures forall s | Respects(groups, s) ::
              && ValidState(ranges, Encode(groups, s)) && Agree(Places(dict, l.atom), Encode(groups, s))
              && (HoldSigned(dict, ls + [l], s, true) <==>
                  HoldSigned(dict, ls, s, true) && NoneAt(Places(dict, l.atom), Encode(groups, s)))
  {
    forall s | Respects(groups, s)
      ensures ValidState(ranges, Encode(groups, s)) && Agree(Places(dict, l.atom), Encode(groups, s))
      ensures HoldSigned(dict, ls + [l], s, true) <==>
              HoldSigned(dict, ls, s, true) && NoneAt(Places(dict, l.atom), Encode(groups, s))
    {
      PlacesTell(groups, dict, ranges, l.atom, s);
      EncodedValid(groups, dict, ranges, s);
    }
  }

  /** No negated literal has a place. */
  ghost predicate NothingNegated(dict: Dictionary, conditions: seq<Literal>) {
    forall l | l in conditions && l.negated :: Places(dict, l.atom) == []
  }

  // ---- contradictions ----

  /** Two atoms of the group are demanded, or one atom of it is demanded and forbidden. */
  ghost predicate GroupContradicts(group: seq<Atom>, ls: seq<Literal>) {
    exists a, b | a in group && b in group ::
      Literal(a, false) in ls && if a == b then Literal(a, true) in ls else Literal(b, false) in ls
  }

  ghost predicate Contradicts(groups: seq<seq<Atom>>, ls: seq<Literal>) {
    exists group | group in groups :: GroupContradicts(group, ls)
  }

  ghost function DemandedAtoms(dict: Dictionary, ls: seq<Literal>): Atoms {
    set l | l in ls && !l.negated && l.atom in dict :: l.atom
  }

  /** Without contradiction the demanded atoms respect the groups and meet the literals. */
  lemma ConsistentHolds(groups: seq<seq<Atom>>, dict: Dictionary, ranges: seq<nat>, ls: seq<Literal>)
    requires ValidDictionary(groups, dict, ranges)
    ensures !Contradicts(groups, ls) ==> Respects(groups, DemandedAtoms(dict, ls)) && HoldEncoded(dict, ls, DemandedAtoms(dict, ls))
  {
    var s := DemandedAtoms(dict, ls);
    forall l | l in ls && l.atom in dict
      ensures l == Literal(l.atom, l.negated) && exists group | group in groups :: l.atom in group
    {
      var f := dict[l.atom][0];
      assert f in dict[l.atom] && groups[f.v] in groups && groups[f.v][f.x] == l.atom;
    }
    if !Contradicts(groups, ls) {
      forall l | l in ls && l.negated && l.atom in dict
        ensures l.atom !in s
      {
        var group :| group in groups && l.atom in group;
        assert !GroupContradicts(group, ls);
      }
      forall group, i, j | group in groups && 0 <= i < j < |group|
        ensures !(group[i] in s && group[j] in s)
      {
        assert !GroupContradicts(group, ls);
        NoRepeatedAtom(groups, dict, ranges, group, i, j);
      }
    }
  }

  lemma NoRepeatedAtom(groups: seq<seq<Atom>>, dict: Dictionary, ranges: seq<nat>, group: seq<Atom>, i: nat, j: nat)
    requires ValidDictionary(groups, dict, ranges) && group in groups && i < j < |group|
    ensures group[i] != group[j]
  {
    var v :| 0 <= v < |groups| && groups[v] == group;
    var a, b := group[i], group[j];
    assert Fact(v, i) in dict[a] && Fact(v, j) in dict[b];
    if a == b {
      OneFactEach(dict[a], Fact(v, i), Fact(v, j));
    }
  }

  lemma OneFactEach(fs: seq<Fact>, f: Fact, g: Fact)
    requires DistinctFacts(fs) && f in fs && g in fs && f.v == g.v
    ensures f == g
  {
  }

  /** A choice of values for the demanded atoms that none of the forbidden atoms has excludes a contradiction. */
  lemma ChosenConsistent(groups: seq<seq<Atom>>, dict: Dictionary, ranges: seq<nat>, ls: seq<Literal>, c: Choice)
    requires ValidDictionary(groups, dict, ranges)
    requires forall f | f in PlacesOf(dict, ls, false) :: f.v in c && c[f.v] == {f.x}
    requires forall l | l in ls && l.negated :: NoneChosen(Places(dict, l.atom), c)
    ensures !Contradicts(groups, ls)
  {
    forall group | group in groups
      ensures !GroupContradicts(group, ls)
    {
      forall a, b | a in group && b in group && Literal(a, false) in ls
        ensures !if a == b then Literal(a, true) in ls else Literal(b, false) in ls
      {
        GroupConsistent(groups, dict, ranges, ls, c, group, a, b);
      }
    }
  }

  lemma GroupConsistent(groups: seq<seq<Atom>>, dict: Dictionary, ranges: seq<nat>, ls: seq<Literal>, c: Choice, group: seq<Atom>, a: Atom, b: Atom)
    requires ValidDictionary(groups, dict, ranges) && group in groups && a in group && b in group && Literal(a, false) in ls
    requires forall f | f in PlacesOf(dict, ls, false) :: f.v in c && c[f.v] == {f.x}
    requires forall l | l in ls && l.negated :: NoneChosen(Places(dict, l.atom), c)
    ensures !if a == b then Literal(a, true) in ls else Literal(b, false) in ls
  {
    var v :| 0 <= v < |groups| && groups[v] == group;
    var x :| 0 <= x < |group| && group[x] == a;
    var y :| 0 <= y < |group| && group[y] == b;
    PlaceDemanded(groups, dict, ranges, ls, v, x);
    if a == b {
      assert Literal(a, true) in ls ==> NoneChosen(Places(dict, a), c);
    } else if Literal(b, false) in ls {
      PlaceDemanded(groups, dict, ranges, ls, v, y);
    }
  }

  lemma PlaceDemanded(groups: seq<seq<Atom>>, dict: Dictionary, ranges: seq<nat>, ls: seq<Literal>, v: nat, x: nat)
    requires ValidDictionary(groups, dict, ranges) && v < |groups| && x < |groups[v]| && Literal(groups[v][x], false) in ls
    ensures Fact(v, x) in Places(dict, groups[v][x]) && Fact(v, x) in PlacesOf(dict, ls, false)
  {
    var l := Literal(groups[v][x], false);
    assert Fact(v, x) in Places(dict, l.atom);
  }

  /** The values have the demanded places and none of the forbidden ones. */
  ghost predicate MeetsAll(dict: Dictionary, ls: seq<Literal>, e: State) {
    forall l | l in ls :: if l.negated then NoneAt(Places(dict, l.atom), e) else AllAt(Places(dict, l.atom), e)
  }

  lemma NotMet(groups: seq<seq<Atom>>, dict: Dictionary, ranges: seq<nat>, ls: seq<Literal>, group: seq<Atom>, e: State)
    requires ValidDictionary(groups, dict, ranges) && group in groups && GroupContradicts(group, ls)
    ensures !MeetsAll(dict, ls, e)
  {
    var v :| 0 <= v < |groups| && groups[v] == group;
    var a, b :| a in group && b in group && Literal(a, false) in ls && if a == b then Literal(a, true) in ls else Literal(b, false) in ls;
    var x :| 0 <= x < |group| && group[x] == a;
    var y :| 0 <= y < |group| && group[y] == b;
    assert Fact(v, x) in Places(dict, a) && Fact(v, y) in Places(dict, b);
    assert a != b ==> x != y;
  }

  /** There is a contradiction exactly if no choice of one value per variable meets the literals. */
  lemma ContradictsIff(groups: seq<seq<Atom>>, dict: Dictionary, ranges: seq<nat>, ls: seq<Literal>)
    requires ValidDictionary(groups, dict, ranges)
    ensures Contradicts(groups, ls) <==> forall e | ValidState(ranges, e) :: !MeetsAll(dict, ls, e)
  {
    if Contradicts(groups, ls) {
      var group :| group in groups && GroupContradicts(group, ls);
      forall e | ValidState(ranges, e)
        ensures !MeetsAll(dict, ls, e)
      {
        NotMet(groups, dict, ranges, ls, group, e);
      }
    } else {
      ConsistentHolds(groups, dict, ranges, ls);
      var s := DemandedAtoms(dict, ls);
      EncodedValid(groups, dict, ranges, s);
      forall l | l in ls
        ensures if l.negated then NoneAt(Places(dict, l.atom), Encode(groups, s)) else AllAt(Places(dict, l.atom), Encode(groups, s))
      {
        PlacesTell(groups, dict, ranges, l.atom, s);
      }
      assert MeetsAll(dict, ls, Encode(groups, s));
    }
  }

  // ---- when one condition is left ----

  /** Every negated atom has at most one place, as strips_to_sas_dictionary asserts of all atoms for a partial
      encoding. */
  ghost predicate FewPlaces(dict: Dictionary, ls: seq<Literal>) {
    forall l | l in ls && l.negated :: |Places(dict, l.atom)| <= 1
  }

  lemma NothingKeeps(dict: Dictionary, ranges: seq<nat>, ls: seq<Literal>)
    ensures NothingNegated(dict, ls) ==> FewPlaces(dict, ls) && !KeepsTwo(dict, ranges, ls)
  {
  }

  /** The places of the literals of that sign. */
  ghost function PlacesOf(dict: Dictionary, ls: seq<Literal>, negated: bool): set<Fact> {
    set l, f | l in ls && f in Places(dict, l.atom) && l.negated == negated :: f
  }

  ghost function VariablesIn(fs: set<Fact>): set<nat> {
    set f | f in fs :: f.v
  }

  /** The values of the variable that are not among the facts. */
  ghost function Unforbidden(fs: set<Fact>, v: nat, values: set<nat>): set<nat> {
    set x | x in values && Fact(v, x) !in fs
  }

  /** A variable that only negated literals mention keeps two or more values. */
  ghost predicate KeepsTwo(dict: Dictionary, ranges: seq<nat>, ls: seq<Literal>) {
    var forbidden := PlacesOf(dict, ls, true);
    exists v | v in VariablesIn(forbidden) - VariablesIn(PlacesOf(dict, ls, false)) ::
      v < |ranges| && |Unforbidden(forbidden, v, Range(ranges[v]))| > 1
  }

  /** The choice `c` after the facts are forbidden. */
  ghost function Remaining(ranges: seq<nat>, fs: set<Fact>, c: Choice): Choice {
    map v | v in c.Keys + VariablesIn(fs) && v < |ranges| :: Unforbidden(fs, v, if v in c then c[v] else Range(ranges[v]))
  }

  lemma NothingForbidden(ranges: seq<nat>, c: Choice)
    requires ValidChoice(ranges, c)
    ensures Remaining(ranges, {}, c) == c
  {
    assert forall v | v in c :: Unforbidden({}, v, c[v]) == c[v];
  }

  lemma PlacesNext(dict: Dictionary, ls: seq<Literal>, l: Literal, negated: bool, next: seq<Literal>)
    requires next == ls + [l]
    ensures PlacesOf(dict, next, negated) ==
            if l.negated == negated then PlacesOf(dict, ls, negated) + set f | f in Places(dict, l.atom) else PlacesOf(dict, ls, negated)
  {
    assert forall m :: m in next <==> m in ls || m == l;
  }

  lemma VariablesJoined(fs: set<Fact>, more: seq<Fact>)
    ensures VariablesIn(fs + (set f | f in more)) == VariablesIn(fs) + Variables(more)
  {
  }

  lemma ForbidNext(ranges: seq<nat>, fs: set<Fact>, f: Fact, c: Choice)
    requires f.v < |ranges|
    ensures Remaining(ranges, fs + {f}, c) == ForbidOne(ranges, Remaining(ranges, fs, c), f)
  {
    var before, after := Remaining(ranges, fs, c), Remaining(ranges, fs + {f}, c);
    assert VariablesIn(fs + {f}) == VariablesIn(fs) + {f.v};
    forall v | v in after
      ensures after[v] == ForbidOne(ranges, before, f)[v]
    {
      assert v !in before ==> forall g | g in fs :: g.v != v;
    }
  }

  lemma ForbidPairs(ranges: seq<nat>, before: set<Fact>, pairs: seq<Fact>, after: set<Fact>, c0: Choice, c: Choice, c': Choice)
    requires c == Remaining(ranges, before, c0) && after == before + set f | f in pairs
    requires if pairs == [] then c' == c else |pairs| == 1 && pairs[0].v < |ranges| && c' == ForbidOne(ranges, c, pairs[0])
    ensures c' == Remaining(ranges, after, c0)
  {
    if pairs == [] {
      assert after == before;
    } else {
      ForbidNext(ranges, before, pairs[0], c0);
      assert after == before + {pairs[0]};
    }
  }

  lemma OneLeft(dict: Dictionary, ranges: seq<nat>, ls: seq<Literal>, c0: Choice, c: Choice)
    requires ValidChoice(ranges, c) && ValidChoice(ranges, c0) && c == Remaining(ranges, PlacesOf(dict, ls, true), c0)
    requires forall f | f in PlacesOf(dict, ls, true) :: f.v < |ranges|
    requires c0.Keys == VariablesIn(PlacesOf(dict, ls, false))
    requires forall v | v in c0 :: |c0[v]| == 1
    ensures (forall v | v in c :: |c[v]| == 1) <==> !KeepsTwo(dict, ranges, ls)
  {
    forall v | v in c && v in c0
      ensures |c[v]| == 1
    {
      var x :| x in c[v];
      OnlyValue(c0[v], x);
      assert c[v] == {x};
    }
    forall v | v in c && |c[v]| != 1
      ensures KeepsTwo(dict, ranges, ls)
    {
      assert |c[v]| > 1;
    }
  }

  lemma SingleSizes(ranges: seq<nat>, c: Choice)
    requires ValidChoice(ranges, c) && Single(c)
    ensures forall u | u in c :: |c[u]| == 1
  {
    forall u | u in c
      ensures |c[u]| == 1
    {
      var x :| x in c[u];
      assert c[u] == {x};
    }
  }

  /** What is left of the choice `c0` after the negative literals so far, in detail if every atom has
      one place. */
  ghost predicate Forbidding(groups: seq<seq<Atom>>, dict: Dictionary, ranges: seq<nat>, onePlace: bool, ls: seq<Literal>, c0: Choice, c: Choice)
    requires ValidDictionary(groups, dict, ranges)
  {
    && ValidChoice(ranges, c)
    && (forall s | Respects(groups, s) ::
          Allowed(c, Encode(groups, s)) <==> Allowed(c0, Encode(groups, s)) && HoldSigned(dict, ls, s, true))
    && Keeps(c0, c) && (c == map[] ==> forall l | l in ls && l.negated :: Places(dict, l.atom) == [])
    && (forall l | l in ls && l.negated :: NoneChosen(Places(dict, l.atom), c0))
    && (onePlace ==> c == Remaining(ranges, PlacesOf(dict, ls, true), c0))
  }

  /** The negative literals (translate.py:94-138). */
  method Negatives(conditions: seq<Literal>, ghost groups: seq<seq<Atom>>, dict: Dictionary, ranges: seq<nat>, ghost onePlace: bool, c0: Choice)
    returns (ok: bool, c: Choice)
    requires ValidDictionary(groups, dict, ranges) && ValidChoice(ranges, c0) && Single(c0) && (onePlace ==> FewPlaces(dict, conditions))
    ensures ok ==> Forbidding(groups, dict, ranges, onePlace, conditions, c0, c)
    ensures !ok ==> forall s | Respects(groups, s) :: !(Allowed(c0, Encode(groups, s)) && HoldSigned(dict, conditions, s, true))
  {
    c := c0;
    NothingForbidden(ranges, c0);
    assert PlacesOf(dict, conditions[..0], true) == {};
    for i := 0 to |conditions|
      invariant Forbidding(groups, dict, ranges, onePlace, conditions[..i], c0, c)
    {
      assert conditions[..i + 1] == conditions[..i] + [conditions[i]];
      ok, c := ForbidLiteral(conditions[i], groups, dict, ranges, onePlace, c0, c, conditions[..i], conditions[..i + 1]);
      if !ok {
        LongerFails(groups, dict, c0, conditions[..i + 1], conditions);
        return;
      }
    }
    assert conditions[..|conditions|] == conditions;
    ok := true;
  }

  lemma LongerFails(groups: seq<seq<Atom>>, dict: Dictionary, c0: Choice, ls: seq<Literal>, all: seq<Literal>)
    requires forall l | l in ls :: l in all
    requires forall s | Respects(groups, s) :: !(Allowed(c0, Encode(groups, s)) && HoldSigned(dict, ls, s, true))
    ensures forall s | Respects(groups, s) :: !(Allowed(c0, Encode(groups, s)) && HoldSigned(dict, all, s, true))
  {
  }

  method ForbidLiteral(l: Literal, ghost groups: seq<seq<Atom>>, dict: Dictionary, ranges: seq<nat>, ghost onePlace: bool, ghost c0: Choice,
                       c: Choice, ghost ls: seq<Literal>, ghost next: seq<Literal>)
    returns (ok: bool, c': Choice)
    requires ValidDictionary(groups, dict, ranges) && Forbidding(groups, dict, ranges, onePlace, ls, c0, c) && next == ls + [l]
    requires Single(c0) && (onePlace && l.negated ==> |Places(dict, l.atom)| <= 1)
    ensures ok ==> Forbidding(groups, dict, ranges, onePlace, next, c0, c')
    ensures !ok ==> forall s | Respects(groups, s) :: !(Allowed(c0, Encode(groups, s)) && HoldSigned(dict, next, s, true))
  {
    ok, c' := true, c;
    PlacesNext(dict, ls, l, true, next);
    if l.negated {
      var pairs := Places(dict, l.atom);
      PlacesValid(groups, dict, ranges, l.atom);
      ok, c' := Forbid(pairs, ranges, c0, c);
      LiteralForbidden(groups, dict, ranges, ls, l, next, c0, c, c', ok);
      if ok && onePlace {
        ForbidPairs(ranges, PlacesOf(dict, ls, true), pairs, PlacesOf(dict, next, true), c0, c, c');
      }
    } else {
      NothingMore(dict, ls, l, next);
    }
  }

  lemma NothingMore(dict: Dictionary, ls: seq<Literal>, l: Literal, next: seq<Literal>)
    requires next == ls + [l]
    requires !l.negated
    ensures forall s :: HoldSigned(dict, next, s, true) <==> HoldSigned(dict, ls, s, true)
  {
    assert forall m :: m in next <==> m in ls || m == l;
  }

  /** What forbidding the places of one more literal does to encoded states. */
  lemma LiteralForbidden(groups: seq<seq<Atom>>, dict: Dictionary, ranges: seq<nat>, ls: seq<Literal>, l: Literal, next: seq<Literal>,
                         c0: Choice, c: Choice, c': Choice, ok: bool)
    requires ValidDictionary(groups, dict, ranges) && l.negated && next == ls + [l]
    requires forall s | Respects(groups, s) ::
               Allowed(c, Encode(groups, s)) <==> Allowed(c0, Encode(groups, s)) && HoldSigned(dict, ls, s, true)
    requires ok ==> forall e | ValidState(ranges, e) && Agree(Places(dict, l.atom), e) ::
               Allowed(c', e) <==> Allowed(c, e) && NoneAt(Places(dict, l.atom), e)
    requires !ok ==> forall e | ValidState(ranges, e) :: !(Allowed(c, e) && NoneAt(Places(dict, l.atom), e))
    ensures ok ==> forall s | Respects(groups, s) ::
              Allowed(c', Encode(groups, s)) <==> Allowed(c0, Encode(groups, s)) && HoldSigned(dict, next, s, true)
    ensures !ok ==> forall s | Respects(groups, s) :: !(Allowed(c0, Encode(groups, s)) && HoldSigned(dict, next, s, true))
  {
    NegativeAdded(ls, groups, dict, ranges, l);
  }

  /** No literal has a place. */
  ghost predicate NoPlaces(dict: Dictionary, ls: seq<Literal>) {
    forall l | l in ls :: Places(dict, l.atom) == []
  }

  /** The choice is empty exactly if no literal has a place. */
  lemma EmptyChoice(dict: Dictionary, ranges: seq<nat>, ls: seq<Literal>, c0: Choice, c: Choice)
    requires c0.Keys == VariablesIn(PlacesOf(dict, ls, false)) && Keeps(c0, c) && ValidChoice(ranges, c0)
    requires c == map[] ==> forall l | l in ls && l.negated :: Places(dict, l.atom) == []
    requires FewPlaces(dict, ls) ==> c == Remaining(ranges, PlacesOf(dict, ls, true), c0)
    ensures c == map[] <==> NoPlaces(dict, ls)
  {
    if c == map[] {
      forall l | l in ls
        ensures Places(dict, l.atom) == []
      {
        if !l.negated && Places(dict, l.atom) != [] {
          InPlacesOf(dict, ls, l, Places(dict, l.atom)[0]);
        }
      }
    }
    if NoPlaces(dict, ls) {
      NoneOf(dict, ls, false);
      NoneOf(dict, ls, true);
      NothingForbidden(ranges, c0);
      assert c0.Keys == {};
    }
  }

  lemma InPlacesOf(dict: Dictionary, ls: seq<Literal>, l: Literal, f: Fact)
    requires l in ls && f in Places(dict, l.atom)
    ensures f in PlacesOf(dict, ls, l.negated) && f.v in VariablesIn(PlacesOf(dict, ls, l.negated))
  {
  }

  lemma NoneOf(dict: Dictionary, ls: seq<Literal>, negated: bool)
    requires NoPlaces(dict, ls)
    ensures PlacesOf(dict, ls, negated) == {}
  {
  }

  /** There is a condition on nothing exactly if nothing was chosen. */
  lemma EmptyCondition(ranges: seq<nat>, c: Choice, flat: seq<Cond>)
    requires Expansion(c, c.Keys, flat) && ValidChoice(ranges, c)
    ensures map[] in flat <==> c == map[]
  {
    if map[] in flat {
      var d: Cond := map[];
      assert d in flat && d.Keys == c.Keys;
    }
    if c == map[] {
      assert Restricted(c, c.Keys, []);
      assert SomeHolds(flat, []);
      var d :| d in flat && Satisfies([], d);
      assert d.Keys == {} && d == map[];
    }
  }

  /** The values that the literals leave for the variables they mention. */
  method ChooseValues(conditions: seq<Literal>, ghost groups: seq<seq<Atom>>, dict: Dictionary, ranges: seq<nat>)
    returns (ok: bool, c: Choice)
    requires ValidDictionary(groups, dict, ranges)
    ensures ok <==> !Contradicts(groups, conditions)
    ensures !ok ==> forall s | Respects(groups, s) :: !HoldEncoded(dict, conditions, s)
    ensures ok ==> ValidChoice(ranges, c) && (c == map[] <==> NoPlaces(dict, conditions))
    ensures ok ==> forall s | Respects(groups, s) :: HoldEncoded(dict, conditions, s) <==> Allowed(c, Encode(groups, s))
    ensures ok && FewPlaces(dict, conditions) ==> ((forall v | v in c :: |c[v]| == 1) <==> !KeepsTwo(dict, ranges, conditions))
  {
    ConsistentHolds(groups, dict, ranges, conditions);
    ok, c := Positives(conditions, groups, dict, ranges);
    if !ok {
      return;
    }
    SingleSizes(ranges, c);
    ghost var c0 := c;
    ghost var onePlace := FewPlaces(dict, conditions);
    ok, c := Negatives(conditions, groups, dict, ranges, onePlace, c);
    if !ok {
      return;
    }
    ChosenConsistent(groups, dict, ranges, conditions, c0);
    EmptyChoice(dict, ranges, conditions, c0, c);
    if onePlace {
      OneLeft(dict, ranges, conditions, c0, c);
    }
  }

  /** translate_strips_conditions_aux */
  method TranslateAux(conditions: seq<Literal>, ghost groups: seq<seq<Atom>>, dict: Dictionary, ranges: seq<nat>)
    returns (r: Option<seq<Cond>>)
    requires ValidDictionary(groups, dict, ranges)
    ensures r.None? <==> Contradicts(groups, conditions)
    ensures r.None? ==> forall s | Respects(groups, s) :: !HoldEncoded(dict, conditions, s)
    ensures r.Some? ==> Exclusive(r.value) && forall c | c in r.value :: ValidCond(ranges, c)
    ensures r.Some? ==> forall s | Respects(groups, s) :: HoldEncoded(dict, conditions, s) <==> SomeHolds(r.value, Encode(groups, s))
    ensures r.Some? ==> (map[] in r.value <==> NoPlaces(dict, conditions))
    ensures r.Some? && NothingNegated(dict, conditions) ==> |r.value| == 1
    ensures r.Some? && FewPlaces(dict, conditions) ==> (|r.value| == 1 <==> !KeepsTwo(dict, ranges, conditions))
  {
    var ok, c := ChooseValues(conditions, groups, dict, ranges);
    if !ok {
      return None;
    }
    var flat := MultiplyOut(ranges, c);
    forall e
      ensures SomeHolds(flat, e) <==> Allowed(c, e)
    {
      assert Restricted(c, c.Keys, e) <==> Allowed(c, e);
    }
    EmptyCondition(ranges, c, flat);
    NothingKeeps(dict, ranges, conditions);
    return Some(flat);
  }
}
