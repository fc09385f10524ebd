/** When disambiguation finds everything: exactly when there are at most two variables or no variable has
    more than two values (operator.cc:181-239). */
module H2Elimination {
  import opened Sas
  import opened Collections
  import opened H2Theory
  import opened H2Instantiate
  import opened H2Knowledge
  import opened H2Rounds

  /** What the rounds start from: the conditions of an operator, which do not conflict. */
  ghost predicate Starts(k: Knowledge, op: SasOperator, augmented: seq<Fact>, known: seq<Known>, pre: seq<Option<nat>>) {
    && CanRound(k, op, known, pre) && ValidOperator(k.ix.ranges, op) && Plain(op) && op.prePost != []
    && ValidAugmented(k.ix, op, augmented) && IsConditions(op, augmented, pre) && !Conflict(k, pre, |pre|)
    && known != [] && KnowsAll(known, pre) && KnownIn(known, pre)
  }

  ghost predicate FindsAll(k: Knowledge, op: SasOperator, known: seq<Known>, pre: seq<Option<nat>>)
    requires CanRound(k, op, known, pre)
  {
    Rounds(k, op, known, pre).Some? ==> FoundAll(k, op, Rounds(k, op, known, pre).value)
  }

  /** Whatever is recorded for variables with these numbers of values, no operator has a value missed. */
  ghost predicate AlwaysFindsAll(ranges: seq<nat>) {
    forall k, op, augmented, known, pre | Starts(k, op, augmented, known, pre) && k.ix.ranges == ranges :: FindsAll(k, op, known, pre)
  }

  /** The rounds find everything, whatever is recorded, exactly if there are at most two variables or none has
      more than two values.  Every variable has a value. */
  lemma FindsAllIff(ranges: seq<nat>)
    requires forall v | 0 <= v < |ranges| :: ranges[v] > 0
    ensures AlwaysFindsAll(ranges) <==> |ranges| <= 2 || forall v | 0 <= v < |ranges| :: ranges[v] <= 2
  {
    if |ranges| <= 2 || forall v | 0 <= v < |ranges| :: ranges[v] <= 2 {
      forall k, op, augmented, known, pre | Starts(k, op, augmented, known, pre) && k.ix.ranges == ranges
        ensures FindsAll(k, op, known, pre)
      {
        SmallFindsAll(k, op, known, pre);
      }
    } else {
      var c: nat :| c < |ranges| && ranges[c] > 2;
      var t := Three(if c == 0 then 1 else 0, if c <= 1 then 2 else 1, c);
      var k := SkewedExists(ranges, t);
      SomethingMissed(k, t);
    }
  }

  // ---- few variables or few values ----

  lemma SmallFindsAll(k: Knowledge, op: SasOperator, known: seq<Known>, pre: seq<Option<nat>>)
    requires CanRound(k, op, known, pre) && known != [] && KnowsAll(known, pre)
    requires |pre| <= 2 || forall v | 0 <= v < |k.ix.ranges| :: k.ix.ranges[v] <= 2
    ensures FindsAll(k, op, known, pre)
  {
    var final := Rounds(k, op, known, pre);
    if final.Some? {
      forall v | 0 <= v < |final.value| && final.value[v].None?
        ensures FoundAllAt(k, op, final.value, v)
      {
        if |pre| <= 2 {
          FewFoundAll(k, op, known, pre, final.value, v);
        } else {
          TwoValuedFoundAll(k, op, known, pre, final.value, v);
        }
      }
    }
  }

  /** With one other variable, the last round that eliminates values of `v` knows all values found. */
  lemma {:induction false} FewFoundAll(k: Knowledge, op: SasOperator, known: seq<Known>, pre: seq<Option<nat>>, final: seq<Option<nat>>, v: nat)
    requires CanRound(k, op, known, pre) && known != [] && KnowsAll(known, pre) && Rounds(k, op, known, pre) == Some(final)
    requires |final| == |pre| <= 2 && v < |final| && final[v].None?
    ensures FoundAllAt(k, op, final, v)
    decreases Unknown(pre)
  {
    NextFits(k, op, known, pre);
    KnownOfFits(k, final);
    var next := Next(k, op, known, pre);
    var news := News(pre, next, |pre|);
    if KnowsAll(known, final) {
      TwoAtFirst(k, op, known, pre, final, v);
      TwoSurviveFewer(k, op, final, known, v);
    } else {
      RoundsUnfold(k, op, known, pre);
      OtherFound(known, pre, next, final, news, v);
      FewFoundAll(k, op, news, next, final, v);
    }
  }

  /** A value that was not known at first belongs to the other variable and is found in the first round. */
  lemma OtherFound(known: seq<Known>, pre: seq<Option<nat>>, next: seq<Option<nat>>, final: seq<Option<nat>>, news: seq<Known>, v: nat)
    requires |final| == |pre| == |next| <= 2 && v < |final| && final[v].None?
    requires KnowsAll(known, pre) && !KnowsAll(known, final) && Extends(pre, next) && Extends(next, final)
    requires news == News(pre, next, |pre|) && (news == [] ==> final == pre)
    ensures news != [] && KnowsAll(news, next)
  {
    var u :| 0 <= u < |final| && final[u].Some? && Known(u, final[u]) !in known;
    assert pre[u].None?;
    assert news != [];
    assert news[0] in news;
    assert forall w | 0 <= w < |next| && next[w].Some? :: w == u;
  }

  // ---- three variables, one of them with three values ----

  /** Value 0 of `a` leaves `b` only value 0 and excludes value 0 of `c`; value 0 of `b` leaves `c` its values 0 and 2. */
  datatype Three = Three(a: nat, b: nat, c: nat)

  predicate Crosses(t: Three, f: Fact, g: Fact) {
    || (f == Fact(t.a, 0) && ((g.v == t.b && g.x != 0) || g == Fact(t.c, 0)))
    || (f == Fact(t.b, 0) && g.v == t.c && g.x != 0 && g.x != 2)
  }

  predicate Clash(t: Three, f: Fact, g: Fact) {
    if f.v == g.v then f.x != g.x else Crosses(t, f, g) || Crosses(t, g, f)
  }

  predicate ThreeOf(ranges: seq<nat>, t: Three) {
    && t.a < |ranges| && t.b < |ranges| && t.c < |ranges| && t.a != t.b && t.a != t.c && t.b != t.c
    && ranges[t.c] > 2 && forall v | 0 <= v < |ranges| :: ranges[v] > 0
  }

  /** Nothing is recorded but these mutexes. */
  ghost predicate Skewed(k: Knowledge, t: Three) {
    && WellFormed(k) && ThreeOf(k.ix.ranges, t) && k.unreachable == {}
    && forall f, g {:trigger Mutex(k, f, g)} | f in k.ix.prop && g in k.ix.prop :: Mutex(k, f, g) <==> Clash(t, f, g)
  }

  /** The value 0 of the variables below `n` other than `b` and `c`. */
  function Others(n: nat, t: Three): (fs: seq<Fact>)
    ensures forall f :: f in fs <==> f.x == 0 && f.v < n && f.v != t.b && f.v != t.c
    ensures DistinctFacts(fs)
  {
    if n == 0 then []
    else
      var fs := Others(n - 1, t);
      assert forall i | 0 <= i < |fs| :: fs[i] in fs;
      fs + if n - 1 == t.b || n - 1 == t.c then [] else [Fact(n - 1, 0)]
  }

  /** Needs all of them and sets `c`. */
  function SetsLast(n: nat, t: Three): SasOperator {
    SasOperator(Others(n, t), [Effect(t.c, None, 2, [])], 1)
  }

  /** The operator has one effect, which sets `c` to its value 2. */
  ghost predicate OnlySetsLast(op: SasOperator, t: Three) {
    Posts(op.prePost) == [Fact(t.c, 2)] && forall v :: Affects(op.prePost, v) <==> v == t.c
  }

  lemma SetsLastOnly(n: nat, t: Three)
    ensures OnlySetsLast(SetsLast(n, t), t)
  {
    var effects := SetsLast(n, t).prePost;
    assert effects[1..] == [] && effects[0] in effects;
  }

  /** A value of `b` or `c` survives unless it is mutex with a known value. */
  lemma SurvivesIff(k: Knowledge, t: Three, op: SasOperator, known: seq<Known>, v: nat, x: nat)
    requires Skewed(k, t) && OnlySetsLast(op, t) && KnownInDomain(k.ix, known) && (v == t.b || v == t.c) && x < k.ix.ranges[v]
    ensures InIndex(k.ix, Posts(op.prePost)) && Fact(v, x) in k.ix.prop
    ensures Survives(k, op, known, v, x) <==> forall n | n in known && n.x.Some? :: !Clash(t, Fact(n.v, n.x.value), Fact(v, x))
  {
    assert Fact(t.c, 2) in k.ix.prop && Fact(v, x) in k.ix.prop;
    forall n | n in known && n.x.Some?
      ensures Mutex(k, Fact(n.v, n.x.value), Fact(v, x)) <==> Clash(t, Fact(n.v, n.x.value), Fact(v, x))
    {
      assert Fact(n.v, n.x.value) in k.ix.prop;
    }
    if v == t.b {
      assert Mutex(k, Fact(t.c, 2), Fact(v, x)) <==> Clash(t, Fact(t.c, 2), Fact(v, x));
    }
  }

  /** All variables but `b` and `c` have value 0, and `b` too once it is found. */
  function Values(n: nat, t: Three, found: bool): (pre: seq<Option<nat>>)
    ensures |pre| == n && forall v | 0 <= v < n :: pre[v] == if v == t.c || (v == t.b && !found) then None else Some(0)
  {
    seq(n, v requires 0 <= v < n => if v == t.c || (v == t.b && !found) then None else Some(0))
  }

  /** The known values the source starts from; the effect without condition is listed without value. */
  ghost predicate KnownAtFirst(known: seq<Known>, n: nat, t: Three) {
    forall m :: m in known <==> (m.v < n && m.v != t.b && m.v != t.c && m.x == Some(0)) || m == Known(t.c, None)
  }

  ghost predicate KnownThen(known: seq<Known>, t: Three) {
    forall m :: m in known <==> m == Known(t.b, Some(0))
  }

  lemma FirstRound(k: Knowledge, t: Three, op: SasOperator, known: seq<Known>)
    requires Skewed(k, t) && OnlySetsLast(op, t) && KnownAtFirst(known, |k.ix.ranges|, t)
    ensures KnownInDomain(k.ix, known) && InIndex(k.ix, Posts(op.prePost))
    ensures Left(k, op, known, t.b) == {0} && Left(k, op, known, t.c) == Range(k.ix.ranges[t.c]) - {0}
  {
    assert Known(t.a, Some(0)) in known;
    SurvivesIff(k, t, op, known, t.b, 0);
    forall x: nat | x < k.ix.ranges[t.b]
      ensures Survives(k, op, known, t.b, x) <==> x == 0
    {
      SurvivesIff(k, t, op, known, t.b, x);
      assert Clash(t, Fact(t.a, 0), Fact(t.b, x)) <==> x != 0;
    }
    forall x: nat | x < k.ix.ranges[t.c]
      ensures Survives(k, op, known, t.c, x) <==> x > 0
    {
      SurvivesIff(k, t, op, known, t.c, x);
      assert Clash(t, Fact(t.a, 0), Fact(t.c, x)) <==> x == 0;
    }
  }

  lemma SecondRound(k: Knowledge, t: Three, op: SasOperator, known: seq<Known>)
    requires Skewed(k, t) && OnlySetsLast(op, t) && KnownThen(known, t)
    ensures KnownInDomain(k.ix, known) && InIndex(k.ix, Posts(op.prePost)) && Left(k, op, known, t.c) == {0, 2}
  {
    assert Known(t.b, Some(0)) in known;
    SurvivesIff(k, t, op, known, t.c, 0);
    forall x: nat | x < k.ix.ranges[t.c]
      ensures Survives(k, op, known, t.c, x) <==> x == 0 || x == 2
    {
      SurvivesIff(k, t, op, known, t.c, x);
      assert Clash(t, Fact(t.b, 0), Fact(t.c, x)) <==> x != 0 && x != 2;
    }
  }

  lemma OnlyIs(xs: set<nat>, x: nat)
    requires xs == {x}
    ensures Only(xs) == Some(x)
  {
    assert x in xs;
  }

  lemma TwoAreNotOne(xs: set<nat>, x: nat, y: nat)
    requires x in xs && y in xs && x != y
    ensures Only(xs) == None
  {
  }

  /** The first round finds `b`, the second nothing. */
  lemma TwoRounds(k: Knowledge, t: Three, op: SasOperator, known: seq<Known>, pre: seq<Option<nat>>, final: seq<Option<nat>>)
    requires Skewed(k, t) && OnlySetsLast(op, t) && KnownAtFirst(known, |k.ix.ranges|, t)
    requires pre == Values(|k.ix.ranges|, t, false) && final == Values(|k.ix.ranges|, t, true)
    ensures CanRound(k, op, known, pre) && Rounds(k, op, known, pre) == Some(final)
  {
    FirstRound(k, t, op, known);
    FirstDecides(k, t, op, known, pre, final);
    var news := NewsAre(t, pre, final);
    SecondRound(k, t, op, news);
    SecondDecides(k, t, op, news, final);
    assert Known(t.c, None) in known && Known(t.b, Some(0)) in news;
    RoundsUnfold(k, op, known, pre);
    LastRound(k, op, news, final);
  }

  lemma NewsAre(t: Three, pre: seq<Option<nat>>, final: seq<Option<nat>>) returns (news: seq<Known>)
    requires t.b < |pre| && t.b != t.c && pre == Values(|pre|, t, false) && final == Values(|pre|, t, true)
    ensures news == News(pre, final, |pre|) && KnownThen(news, t)
  {
    news := News(pre, final, |pre|);
  }

  /** A round that finds nothing is the last. */
  lemma LastRound(k: Knowledge, op: SasOperator, known: seq<Known>, pre: seq<Option<nat>>)
    requires CanRound(k, op, known, pre) && known != [] && !Stuck(k, op, known, pre) && Next(k, op, known, pre) == pre
    ensures Rounds(k, op, known, pre) == Some(pre)
  {
    NextFits(k, op, known, pre);
  }

  lemma FirstDecides(k: Knowledge, t: Three, op: SasOperator, known: seq<Known>, pre: seq<Option<nat>>, final: seq<Option<nat>>)
    requires CanRound(k, op, known, pre) && ThreeOf(k.ix.ranges, t) && pre == Values(|pre|, t, false) && final == Values(|pre|, t, true)
    requires Left(k, op, known, t.b) == {0} && Left(k, op, known, t.c) == Range(k.ix.ranges[t.c]) - {0}
    ensures !Stuck(k, op, known, pre) && Next(k, op, known, pre) == final
  {
    OnlyIs(Left(k, op, known, t.b), 0);
    TwoAreNotOne(Left(k, op, known, t.c), 1, 2);
  }

  lemma SecondDecides(k: Knowledge, t: Three, op: SasOperator, known: seq<Known>, pre: seq<Option<nat>>)
    requires CanRound(k, op, known, pre) && ThreeOf(k.ix.ranges, t) && pre == Values(|pre|, t, true) && Left(k, op, known, t.c) == {0, 2}
    ensures !Stuck(k, op, known, pre) && Next(k, op, known, pre) == pre
  {
    TwoAreNotOne(Left(k, op, known, t.c), 0, 2);
  }

  /** Only value 2 of `c` is compatible with what the rounds found, but they leave `c` without value. */
  lemma EliminationForgotten(k: Knowledge, t: Three, op: SasOperator, known: seq<Known>)
    requires Skewed(k, t) && OnlySetsLast(op, t) && KnownAtFirst(known, |k.ix.ranges|, t)
    ensures var pre, final := Values(|k.ix.ranges|, t, false), Values(|k.ix.ranges|, t, true);
            && CanRound(k, op, known, pre) && Rounds(k, op, known, pre) == Some(final)
            && final[t.c].None? && !FoundAllAt(k, op, final, t.c)
  {
    var final := Values(|k.ix.ranges|, t, true);
    TwoRounds(k, t, op, known, Values(|k.ix.ranges|, t, false), final);
    var all := KnownOf(final);
    assert all[t.a] == Known(t.a, Some(0)) && all[t.b] == Known(t.b, Some(0)) && all[t.a] in all && all[t.b] in all;
    forall x: nat | x < k.ix.ranges[t.c] && x != 2
      ensures Fact(t.c, x) in k.ix.prop && !Survives(k, op, all, t.c, x)
    {
      SurvivesIff(k, t, op, all, t.c, x);
      assert if x == 0 then Clash(t, Fact(t.a, 0), Fact(t.c, x)) else Clash(t, Fact(t.b, 0), Fact(t.c, x));
    }
  }

  function FirstKnown(fs: seq<Fact>, c: nat): (known: seq<Known>)
    ensures forall m :: m in known <==> (m.x.Some? && Fact(m.v, m.x.value) in fs) || m == Known(c, None)
  {
    if fs == [] then [Known(c, None)] else [Known(fs[0].v, Some(fs[0].x))] + FirstKnown(fs[1..], c)
  }

  lemma SomethingMissed(k: Knowledge, t: Three)
    requires Skewed(k, t)
    ensures !AlwaysFindsAll(k.ix.ranges)
  {
    var n := |k.ix.ranges|;
    var op, known, pre := SetsLast(n, t), FirstKnown(Others(n, t), t.c), Values(n, t, false);
    SetsLastOnly(n, t);
    EliminationForgotten(k, t, op, known);
    SetsLastFits(k, t, op, pre);
    NoneConflict(k, t, pre);
    KnownFits(known, pre, t);
    Missed(k, op, known, pre, t.c);
  }

  lemma Missed(k: Knowledge, op: SasOperator, known: seq<Known>, pre: seq<Option<nat>>, v: nat)
    requires Starts(k, op, [], known, pre) && Rounds(k, op, known, pre).Some?
    requires v < |pre| && var final := Rounds(k, op, known, pre).value; final[v].None? && !FoundAllAt(k, op, final, v)
    ensures !AlwaysFindsAll(k.ix.ranges)
  {
    assert !FindsAll(k, op, known, pre);
  }

  lemma KnownFits(known: seq<Known>, pre: seq<Option<nat>>, t: Three)
    requires KnownAtFirst(known, |pre|, t) && pre == Values(|pre|, t, false) && t.c < |pre|
    ensures known != [] && KnowsAll(known, pre) && KnownIn(known, pre)
  {
    assert Known(t.c, None) in known;
  }

  lemma SetsLastFits(k: Knowledge, t: Three, op: SasOperator, pre: seq<Option<nat>>)
    requires WellFormed(k) && ThreeOf(k.ix.ranges, t) && op == SetsLast(|k.ix.ranges|, t) && pre == Values(|k.ix.ranges|, t, false)
    ensures ValidOperator(k.ix.ranges, op) && Plain(op) && op.prePost != [] && ValidAugmented(k.ix, op, []) && IsConditions(op, [], pre)
  {
    var prevail, e := Others(|k.ix.ranges|, t), Effect(t.c, None, 2, []);
    OneEffect(k.ix.ranges, prevail, e);
    forall v, x: nat | 0 <= v < |pre|
      ensures pre[v] == Some(x) <==> ForwardPre(op, [], Fact(v, x))
    {
      assert Fact(v, x) in prevail <==> pre[v] == Some(x);
    }
  }

  /** An operator with one effect that has no condition. */
  lemma OneEffect(ranges: seq<nat>, prevail: seq<Fact>, e: Effect)
    requires DistinctFacts(prevail) && e.pre.None? && e.cond == [] && ValidFact(ranges, Fact(e.v, e.post))
    requires forall f | f in prevail :: ValidFact(ranges, f) && f.v != e.v
    ensures var op := SasOperator(prevail, [e], 1);
            ValidOperator(ranges, op) && Plain(op) && forall f :: ForwardPre(op, [], f) <==> f in prevail
  {
    assert [e][1..] == [] && Pres([e]) == [];
  }

  lemma NoneConflict(k: Knowledge, t: Three, pre: seq<Option<nat>>)
    requires Skewed(k, t) && pre == Values(|k.ix.ranges|, t, false)
    ensures InDomain(k.ix, pre) && !Conflict(k, pre, |pre|)
  {
    forall u, v | 0 <= u < |pre| && 0 <= v < |pre| && pre[u].Some? && pre[v].Some? && u != v
      ensures !Mutex(k, Fact(u, pre[u].value), Fact(v, pre[v].value))
    {
      assert Fact(u, 0) in k.ix.prop && Fact(v, 0) in k.ix.prop;
      assert !Clash(t, Fact(u, 0), Fact(v, 0));
    }
  }

  // ---- such knowledge exists for any numbers of values ----

  lemma {:induction false} IndexExists(ranges: seq<nat>) returns (ix: Index)
    ensures ValidIndex(ix) && ix.ranges == ranges
  {
    if ranges == [] {
      ix := Index([], [], map[]);
    } else {
      var v := |ranges| - 1;
      var below := IndexExists(ranges[..v]);
      ix := IndexMore(below, ranges, v);
    }
  }

  lemma IndexMore(below: Index, ranges: seq<nat>, v: nat) returns (ix: Index)
    requires |ranges| == v + 1 && ValidIndex(below) && below.ranges == ranges[..v]
    ensures ValidIndex(ix) && ix.ranges == ranges
  {
    var values := seq(ranges[v], x requires 0 <= x < ranges[v] => Fact(v, x));
    var more := map f | f in values :: |below.facts| + f.x;
    forall f: Fact
      ensures f in more <==> f.v == v && f.x < ranges[v]
    {
      if f.v == v && f.x < ranges[v] {
        assert values[f.x] == f;
      }
    }
    ix := Index(ranges, below.facts + values, below.prop + more);
    MoreFacts(below, ranges, v, values, more, ix);
  }

  lemma MoreFacts(below: Index, ranges: seq<nat>, v: nat, values: seq<Fact>, more: map<Fact, nat>, ix: Index)
    requires |ranges| == v + 1 && ValidIndex(below) && below.ranges == ranges[..v]
    requires |values| == ranges[v] && forall x | 0 <= x < ranges[v] :: values[x] == Fact(v, x)
    requires forall f: Fact :: f in more <==> f.v == v && f.x < ranges[v]
    requires forall f: Fact | f in more :: more[f] == |below.facts| + f.x
    requires ix == Index(ranges, below.facts + values, below.prop + more)
    ensures ValidIndex(ix)
  {
    forall p | 0 <= p < |ix.facts|
      ensures ix.facts[p] in ix.prop && ix.prop[ix.facts[p]] == p
    {
      if p >= |below.facts| {
        assert ix.facts[p] == Fact(v, p - |below.facts|);
      } else {
        assert ix.facts[p] == below.facts[p];
      }
    }
  }

  ghost function ClashMatrix(ix: Index, t: Three): (mat: Matrix)
    ensures Square(mat, |ix.facts|)
    ensures forall p, q | 0 <= p < |ix.facts| && 0 <= q < |ix.facts| :: mat[p][q] == if Clash(t, ix.facts[p], ix.facts[q]) then SPURIOUS else REACHED
  {
    var n := |ix.facts|;
    seq(n, p requires 0 <= p < n =>
      seq(n, q requires 0 <= q < n => if Clash(t, ix.facts[p], ix.facts[q]) then SPURIOUS else REACHED))
  }

  ghost function ClashLists(ix: Index, t: Three): (inc: map<Fact, set<Fact>>)
    ensures ValidInconsistent(ix, inc)
  {
    map f | f in ix.prop.Keys :: set g | g in ix.prop.Keys && g.v != f.v && Clash(t, f, g)
  }

  lemma ClashMatrixFits(ix: Index, t: Three, mat: Matrix)
    requires ValidIndex(ix) && mat == ClashMatrix(ix, t)
    ensures Symmetric(mat, |ix.facts|) && SameVariableMutex(ix, mat)
  {
    forall p, q | 0 <= p < |ix.facts| && 0 <= q < |ix.facts|
      ensures mat[p][q] == mat[q][p]
    {
      assert Clash(t, ix.facts[p], ix.facts[q]) <==> Clash(t, ix.facts[q], ix.facts[p]);
    }
    forall p, q | 0 <= p < |ix.facts| && 0 <= q < |ix.facts| && p != q && ix.facts[p].v == ix.facts[q].v
      ensures mat[p][q] == SPURIOUS
    {
      assert ix.prop[ix.facts[p]] == p && ix.prop[ix.facts[q]] == q;
    }
  }

  lemma SkewedExists(ranges: seq<nat>, t: Three) returns (k: Knowledge)
    requires ThreeOf(ranges, t)
    ensures Skewed(k, t) && k.ix.ranges == ranges
  {
    var ix := IndexExists(ranges);
    var mat := ClashMatrix(ix, t);
    ClashMatrixFits(ix, t, mat);
    k := Knowledge(ix, mat, ClashLists(ix, t), {});
    forall f, g | f in ix.prop && g in ix.prop
      ensures Mutex(k, f, g) <==> Clash(t, f, g)
    {
      assert ix.facts[ix.prop[f]] == f && ix.facts[ix.prop[g]] == g;
    }
  }
}
