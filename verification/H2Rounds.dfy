/** The rounds of disambiguation as a function of what is recorded, what they leave undetermined and
    when they find everything (operator.cc:181-239). */
module H2Rounds {
  import opened Sas
  import opened H2Theory
  import opened H2Instantiate
  import opened H2Knowledge

  ghost predicate CanRound(k: Knowledge, op: SasOperator, known: seq<Known>, pre: seq<Option<nat>>) {
    WellFormed(k) && InDomain(k.ix, pre) && KnownInDomain(k.ix, known) && InIndex(k.ix, Posts(op.prePost))
  }

  /** The values of `v` that survive one round. */
  ghost function Left(k: Knowledge, op: SasOperator, known: seq<Known>, v: nat): (xs: set<nat>)
    requires WellFormed(k) && KnownInDomain(k.ix, known) && InIndex(k.ix, Posts(op.prePost)) && v < |k.ix.ranges|
  {
    set x: nat | x < k.ix.ranges[v] && Survives(k, op, known, v, x)
  }

  ghost predicate Stuck(k: Knowledge, op: SasOperator, known: seq<Known>, pre: seq<Option<nat>>)
    requires CanRound(k, op, known, pre)
  {
    exists v | 0 <= v < |pre| && pre[v].None? :: Left(k, op, known, v) == {}
  }

  ghost function Only(xs: set<nat>): (x: Option<nat>)
    ensures x.Some? ==> xs == {x.value}
    ensures x.None? ==> forall y :: xs != {y}
  {
    if exists y :: xs == {y} then var y :| xs == {y}; Some(y) else None
  }

  ghost function NextAt(k: Knowledge, op: SasOperator, known: seq<Known>, pre: seq<Option<nat>>, v: nat): Option<nat>
    requires CanRound(k, op, known, pre) && v < |pre|
  {
    if pre[v].Some? then pre[v] else Only(Left(k, op, known, v))
  }

  /** The values after one round. */
  ghost function Next(k: Knowledge, op: SasOperator, known: seq<Known>, pre: seq<Option<nat>>): (next: seq<Option<nat>>)
    requires CanRound(k, op, known, pre)
    ensures |next| == |pre| && forall v | 0 <= v < |pre| :: next[v] == NextAt(k, op, known, pre, v)
  {
    seq(|pre|, v requires 0 <= v < |pre| => NextAt(k, op, known, pre, v))
  }

  /** The values found by a round on the first `n` variables, in order. */
  function News(pre: seq<Option<nat>>, next: seq<Option<nat>>, n: nat): (r: seq<Known>)
    requires n <= |pre| == |next|
    ensures forall m :: m in r <==> m.v < n && pre[m.v].None? && next[m.v].Some? && m.x == next[m.v]
  {
    if n == 0 then []
    else News(pre, next, n - 1) + if pre[n - 1].None? && next[n - 1].Some? then [Known(n - 1, next[n - 1])] else []
  }

  lemma NextFits(k: Knowledge, op: SasOperator, known: seq<Known>, pre: seq<Option<nat>>)
    requires CanRound(k, op, known, pre)
    ensures var next := Next(k, op, known, pre); var news := News(pre, next, |pre|);
            && CanRound(k, op, news, next) && KnownIn(news, next) && Extends(pre, next) && Unknown(next) <= Unknown(pre)
            && (news != [] ==> Unknown(next) < Unknown(pre)) && (news == [] ==> next == pre)
  {
    var next := Next(k, op, known, pre);
    var news := News(pre, next, |pre|);
    forall v | 0 <= v < |next| && next[v].Some?
      ensures next[v].value < k.ix.ranges[v]
    {
      if pre[v].None? {
        assert next[v].value in Left(k, op, known, v);
      }
    }
    if news != [] {
      assert news[0] in news;
      assert news[0].v in Unknown(pre) && news[0].v !in Unknown(next);
    } else {
      forall v | 0 <= v < |pre|
        ensures next[v] == pre[v]
      {
        assert Known(v, next[v]) !in news;
      }
    }
  }

  /** In the middle of a round, before variable `v`. */
  ghost predicate RoundAt(k: Knowledge, op: SasOperator, known: seq<Known>, pre0: seq<Option<nat>>, pre: seq<Option<nat>>, aux: seq<Known>, v: nat) {
    && CanRound(k, op, known, pre0) && v <= |pre0| == |pre|
    && (forall u: nat | u < v :: DecidedAt(k, op, known, pre0, pre, u))
    && (forall u | v <= u < |pre| :: pre[u] == pre0[u])
    && aux == News(pre0, pre, v)
  }

  ghost predicate DecidedAt(k: Knowledge, op: SasOperator, known: seq<Known>, pre0: seq<Option<nat>>, pre: seq<Option<nat>>, u: nat)
    requires CanRound(k, op, known, pre0) && u < |pre0| == |pre|
  {
    pre[u] == NextAt(k, op, known, pre0, u) && (pre0[u].None? ==> Left(k, op, known, u) != {})
  }

  lemma {:induction false} NewsPrefix(pre: seq<Option<nat>>, next: seq<Option<nat>>, next': seq<Option<nat>>, n: nat)
    requires n <= |pre| == |next| == |next'| && forall v | 0 <= v < n :: next[v] == next'[v]
    ensures News(pre, next, n) == News(pre, next', n)
  {
    if n > 0 {
      NewsPrefix(pre, next, next', n - 1);
    }
  }

  lemma RoundSkips(k: Knowledge, op: SasOperator, known: seq<Known>, pre0: seq<Option<nat>>, pre: seq<Option<nat>>, aux: seq<Known>, v: nat, c: nat)
    requires RoundAt(k, op, known, pre0, pre, aux, v) && v < |pre| && pre[v].Some? && c == v + 1
    ensures RoundAt(k, op, known, pre0, pre, aux, c)
  {
    assert DecidedAt(k, op, known, pre0, pre, v);
  }

  lemma RoundDecides(k: Knowledge, op: SasOperator, known: seq<Known>, pre0: seq<Option<nat>>, pre: seq<Option<nat>>, aux: seq<Known>, v: nat, c: nat,
                     x: Option<nat>)
    requires RoundAt(k, op, known, pre0, pre, aux, v) && v < |pre| && pre[v].None? && c == v + 1
    requires Left(k, op, known, v) != {} && Only(Left(k, op, known, v)) == x
    ensures RoundAt(k, op, known, pre0, pre[v := x], if x.Some? then aux + [Known(v, x)] else aux, c)
  {
    var next := pre[v := x];
    forall u: nat | u < c
      ensures DecidedAt(k, op, known, pre0, next, u)
    {
      assert u < v ==> DecidedAt(k, op, known, pre0, pre, u);
    }
    NewsNext(pre0, pre, v, c, x);
  }

  lemma NewsNext(pre0: seq<Option<nat>>, pre: seq<Option<nat>>, v: nat, c: nat, x: Option<nat>)
    requires |pre0| == |pre| && v < |pre| && c == v + 1 && pre0[v].None?
    ensures News(pre0, pre[v := x], c) == News(pre0, pre, v) + if x.Some? then [Known(v, x)] else []
  {
    NewsPrefix(pre0, pre, pre[v := x], v);
  }

  lemma RoundEnds(k: Knowledge, op: SasOperator, known: seq<Known>, pre0: seq<Option<nat>>, pre: seq<Option<nat>>, aux: seq<Known>)
    requires RoundAt(k, op, known, pre0, pre, aux, |pre|)
    ensures !Stuck(k, op, known, pre0) && pre == Next(k, op, known, pre0) && aux == News(pre0, pre, |pre|)
  {
    forall v: nat | v < |pre|
      ensures pre[v] == NextAt(k, op, known, pre0, v) && (pre0[v].None? ==> Left(k, op, known, v) != {})
    {
      assert DecidedAt(k, op, known, pre0, pre, v);
    }
  }

  /** What all rounds find; None if the operator turns out spurious. Each round eliminates by the values
      of the round before it only. */
  ghost function Rounds(k: Knowledge, op: SasOperator, known: seq<Known>, pre: seq<Option<nat>>): (r: Option<seq<Option<nat>>>)
    requires CanRound(k, op, known, pre)
    ensures r.Some? ==> InDomain(k.ix, r.value) && Extends(pre, r.value)
    decreases Unknown(pre), |known|
  {
    if known == [] then Some(pre)
    else if Stuck(k, op, known, pre) then None
    else
      NextFits(k, op, known, pre);
      var next := Next(k, op, known, pre);
      Rounds(k, op, News(pre, next, |pre|), next)
  }

  lemma RoundsUnfold(k: Knowledge, op: SasOperator, known: seq<Known>, pre: seq<Option<nat>>)
    requires CanRound(k, op, known, pre) && known != []
    ensures Stuck(k, op, known, pre) ==> Rounds(k, op, known, pre).None?
    ensures !Stuck(k, op, known, pre) ==>
              var next := Next(k, op, known, pre); var news := News(pre, next, |pre|);
              CanRound(k, op, news, next) && Rounds(k, op, known, pre) == Rounds(k, op, news, next)
  {
    NextFits(k, op, known, pre);
  }

  lemma KnownOfFits(k: Knowledge, pre: seq<Option<nat>>)
    requires WellFormed(k) && InDomain(k.ix, pre)
    ensures KnownInDomain(k.ix, KnownOf(pre))
  {
  }

  /** Every variable left without value has two candidates against all values found. */
  ghost predicate FoundAll(k: Knowledge, op: SasOperator, final: seq<Option<nat>>)
    requires WellFormed(k) && InDomain(k.ix, final) && InIndex(k.ix, Posts(op.prePost))
  {
    forall v | 0 <= v < |final| && final[v].None? :: FoundAllAt(k, op, final, v)
  }

  ghost predicate FoundAllAt(k: Knowledge, op: SasOperator, final: seq<Option<nat>>, v: nat)
    requires WellFormed(k) && InDomain(k.ix, final) && InIndex(k.ix, Posts(op.prePost)) && v < |final|
  {
    KnownInDomain(k.ix, KnownOf(final)) && TwoSurvive(k, op, KnownOf(final), v)
  }

  // ---- when nothing is forgotten ----

  /** Two different values are left if some value is and no value is the only one. */
  lemma TwoLeft(k: Knowledge, op: SasOperator, known: seq<Known>, v: nat)
    requires WellFormed(k) && KnownInDomain(k.ix, known) && InIndex(k.ix, Posts(op.prePost)) && v < |k.ix.ranges|
    requires Left(k, op, known, v) != {} && Only(Left(k, op, known, v)).None?
    ensures TwoSurvive(k, op, known, v)
  {
    var xs := Left(k, op, known, v);
    var x: nat :| x in xs;
    assert xs != {x};
    var y: nat :| y in xs && y != x;
  }

  /** The source starts with all conditions as known values. */
  ghost predicate KnowsAll(known: seq<Known>, pre: seq<Option<nat>>) {
    forall v | 0 <= v < |pre| && pre[v].Some? :: Known(v, pre[v]) in known
  }

  /** If the rounds add no value, nothing is left to find. So repeated calls find everything: a call that
      adds values is followed by one that starts with them. */
  lemma NothingAddedFoundAll(k: Knowledge, op: SasOperator, known: seq<Known>, pre: seq<Option<nat>>)
    requires CanRound(k, op, known, pre) && known != [] && KnowsAll(known, pre)
    requires Rounds(k, op, known, pre) == Some(pre)
    ensures FoundAll(k, op, pre)
  {
    NextFits(k, op, known, pre);
    var next := Next(k, op, known, pre);
    assert Extends(next, pre);
    forall v | 0 <= v < |pre| && pre[v].None?
      ensures FoundAllAt(k, op, pre, v)
    {
      assert next[v].None?;
      TwoLeft(k, op, known, v);
      KnownOfFits(k, pre);
      TwoSurviveFewer(k, op, pre, known, v);
    }
  }

  /** The value is not mutex with a value found for another variable. */
  ghost predicate Compatible(k: Knowledge, final: seq<Option<nat>>, u: nat, v: nat, x: nat)
    requires WellFormed(k) && InDomain(k.ix, final) && u < |final| && v < |final| && x < k.ix.ranges[v]
  {
    final[u].Some? ==> !Mutex(k, Fact(u, final[u].value), Fact(v, x))
  }

  /** Both values of an undetermined two-valued variable survive every round, and so are compatible with
      all values found. */
  lemma {:induction false} BothCompatible(k: Knowledge, op: SasOperator, known: seq<Known>, pre: seq<Option<nat>>, final: seq<Option<nat>>,
                                          v: nat, u: nat, x: nat)
    requires CanRound(k, op, known, pre) && Rounds(k, op, known, pre) == Some(final) && |final| == |pre|
    requires v < |final| && final[v].None? && k.ix.ranges[v] <= 2
    requires u < |final| && x < k.ix.ranges[v] && (pre[u].None? || Known(u, pre[u]) in known)
    ensures Compatible(k, final, u, v, x)
    decreases Unknown(pre), |known|
  {
    if known != [] {
      NextFits(k, op, known, pre);
      var next := Next(k, op, known, pre);
      if pre[u].Some? {
        AllSurvive(k, op, known, pre, next, final, v, x);
        SurvivesKnown(k, op, known, pre, final, v, u, x);
      } else {
        BothCompatible(k, op, News(pre, next, |pre|), next, final, v, u, x);
      }
    }
  }

  lemma SurvivesKnown(k: Knowledge, op: SasOperator, known: seq<Known>, pre: seq<Option<nat>>, final: seq<Option<nat>>, v: nat, u: nat, x: nat)
    requires CanRound(k, op, known, pre) && InDomain(k.ix, final) && Extends(pre, final) && v < |final| && u < |final| && x < k.ix.ranges[v]
    requires pre[u].Some? && Known(u, pre[u]) in known && Survives(k, op, known, v, x)
    ensures Compatible(k, final, u, v, x)
  {
    assert !MutexKnown(k, Known(u, pre[u]), Fact(v, x));
  }

  lemma AllSurvive(k: Knowledge, op: SasOperator, known: seq<Known>, pre: seq<Option<nat>>, next: seq<Option<nat>>, final: seq<Option<nat>>,
                   v: nat, x: nat)
    requires CanRound(k, op, known, pre) && !Stuck(k, op, known, pre) && next == Next(k, op, known, pre) && Extends(next, final)
    requires v < |final| && final[v].None? && x < k.ix.ranges[v] <= 2
    ensures Survives(k, op, known, v, x)
  {
    assert next[v].None? && pre[v].None?;
    TwoLeft(k, op, known, v);
    var y: nat, z: nat :| y < k.ix.ranges[v] && z < k.ix.ranges[v] && y != z && Survives(k, op, known, v, y) && Survives(k, op, known, v, z);
    assert x == y || x == z;
  }

  /** A variable with at most two values is determined completely, whatever is recorded. */
  lemma TwoValuedFoundAll(k: Knowledge, op: SasOperator, known: seq<Known>, pre: seq<Option<nat>>, final: seq<Option<nat>>, v: nat)
    requires CanRound(k, op, known, pre) && known != [] && KnowsAll(known, pre) && Rounds(k, op, known, pre) == Some(final)
    requires v < |final| && final[v].None? && k.ix.ranges[v] <= 2
    ensures FoundAllAt(k, op, final, v)
  {
    KnownOfFits(k, final);
    forall x: nat | x < k.ix.ranges[v]
      ensures Survives(k, op, KnownOf(final), v, x)
    {
      FinalSurvives(k, op, known, pre, final, v, x);
    }
    TwoAtFirst(k, op, known, pre, final, v);
    EverySurvives(k, op, known, KnownOf(final), v);
  }

  lemma TwoAtFirst(k: Knowledge, op: SasOperator, known: seq<Known>, pre: seq<Option<nat>>, final: seq<Option<nat>>, v: nat)
    requires CanRound(k, op, known, pre) && known != [] && Rounds(k, op, known, pre) == Some(final) && v < |final| && final[v].None?
    ensures |final| == |pre| && TwoSurvive(k, op, known, v)
  {
    NextFits(k, op, known, pre);
    assert Next(k, op, known, pre)[v].None? && pre[v].None?;
    TwoLeft(k, op, known, v);
  }

  lemma FinalSurvives(k: Knowledge, op: SasOperator, known: seq<Known>, pre: seq<Option<nat>>, final: seq<Option<nat>>, v: nat, x: nat)
    requires CanRound(k, op, known, pre) && known != [] && KnowsAll(known, pre) && Rounds(k, op, known, pre) == Some(final)
    requires KnownInDomain(k.ix, KnownOf(final)) && v < |final| && final[v].None? && x < k.ix.ranges[v] <= 2
    ensures Survives(k, op, KnownOf(final), v, x)
  {
    NextFits(k, op, known, pre);
    forall u: nat | u < |final|
      ensures Compatible(k, final, u, v, x)
    {
      BothCompatible(k, op, known, pre, final, v, u, x);
    }
    AllSurvive(k, op, known, pre, Next(k, op, known, pre), final, v, x);
    CompatibleSurvives(k, op, known, final, v, x);
  }

  lemma EverySurvives(k: Knowledge, op: SasOperator, known: seq<Known>, more: seq<Known>, v: nat)
    requires WellFormed(k) && KnownInDomain(k.ix, known) && KnownInDomain(k.ix, more) && InIndex(k.ix, Posts(op.prePost)) && v < |k.ix.ranges|
    requires TwoSurvive(k, op, known, v) && forall x: nat | x < k.ix.ranges[v] :: Survives(k, op, more, v, x)
    ensures TwoSurvive(k, op, more, v)
  {
    var y: nat, z: nat :| y < k.ix.ranges[v] && z < k.ix.ranges[v] && y != z && Survives(k, op, known, v, y) && Survives(k, op, known, v, z);
    assert Survives(k, op, more, v, y) && Survives(k, op, more, v, z);
  }

  lemma CompatibleSurvives(k: Knowledge, op: SasOperator, known: seq<Known>, final: seq<Option<nat>>, v: nat, x: nat)
    requires WellFormed(k) && InDomain(k.ix, final) && KnownInDomain(k.ix, known) && InIndex(k.ix, Posts(op.prePost))
    requires KnownInDomain(k.ix, KnownOf(final)) && v < |final| && x < k.ix.ranges[v]
    requires Survives(k, op, known, v, x) && forall u: nat | u < |final| :: Compatible(k, final, u, v, x)
    ensures Survives(k, op, KnownOf(final), v, x)
  {
    forall n | n in KnownOf(final)
      ensures !MutexKnown(k, n, Fact(v, x))
    {
      assert Compatible(k, final, n.v, v, x);
    }
  }
}
