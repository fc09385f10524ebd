/** Greedy choice of groups that cover all facts once (fact_groups.py:33-79, partial encoding). */
module FactGroups {
  import opened Strips
  import Sas
  import opened Collections

  /** A mutable set, shared between the buckets and the index by fact. */
  class AtomSet {
    var elems: set<Atom>

    constructor (xs: set<Atom>)
      ensures elems == xs
    {
      elems := xs;
    }
  }

  function ToSet(xs: seq<Atom>): set<Atom> {
    set x | x in xs
  }

  ghost predicate NoRepeats<T>(xs: seq<T>) {
    forall i, j | 0 <= i < j < |xs| :: xs[i] != xs[j]
  }

  function SetsOf(groups: seq<seq<Atom>>): set<set<Atom>> {
    set g | g in groups :: ToSet(g)
  }

  /** `g` is what is left of some group, nothing left of any group is larger, and it has two facts
      or more. */
  ghost predicate Greedy(groups: set<set<Atom>>, covered: set<Atom>, g: seq<Atom>) {
    && NoRepeats(g) && |g| > 1
    && (exists h | h in groups :: h - covered == ToSet(g))
    && (forall h | h in groups :: |h - covered| <= |g|)
  }

  // ---- buckets ----

  /** The facts of the group every shared set was made from. */
  type Origins = map<AtomSet, set<Atom>>

  type Buckets = seq<seq<AtomSet>>

  function Left(origins: Origins, covered: set<Atom>, o: AtomSet): nat
    requires o in origins
  {
    |origins[o] - covered|
  }

  ghost predicate InSomeBucket(buckets: Buckets, max: nat, o: AtomSet) {
    exists s | 0 <= s <= max && s < |buckets| :: o in buckets[s]
  }

  /** Buckets up to the maximum hold sets that are not larger than the bucket. */
  ghost predicate Bounded(origins: Origins, covered: set<Atom>, buckets: Buckets, max: nat) {
    max < |buckets| && forall s, o {:trigger o in buckets[s]} | 0 <= s <= max && o in buckets[s] :: o in origins && Left(origins, covered, o) <= s
  }

  /** Every set with two facts or more is in a bucket up to the maximum. */
  ghost predicate InBuckets(origins: Origins, covered: set<Atom>, buckets: Buckets, max: nat) {
    && Bounded(origins, covered, buckets, max)
    && forall o | o in origins && Left(origins, covered, o) > 1 :: InSomeBucket(buckets, max, o)
  }

  /** `top` is a largest set and has been taken out of its bucket. */
  ghost predicate Topped(origins: Origins, covered: set<Atom>, buckets: Buckets, max: nat, top: AtomSet) {
    && Bounded(origins, covered, buckets, max) && top in origins && Left(origins, covered, top) == max
    && (forall o | o in origins && Left(origins, covered, o) > 1 && o != top :: InSomeBucket(buckets, max, o))
    && (forall o | o in origins :: Left(origins, covered, o) <= max)
  }

  lemma BoundedByMax(origins: Origins, covered: set<Atom>, buckets: Buckets, max: nat, o: AtomSet)
    requires InBuckets(origins, covered, buckets, max) && o in origins && max > 0
    ensures Left(origins, covered, o) <= max
  {
    if Left(origins, covered, o) > 1 {
      var s :| 0 <= s <= max && s < |buckets| && o in buckets[s];
    }
  }

  /** The last set of the maximal bucket becomes the top or moves to the bucket of its size. */
  lemma Taken(origins: Origins, covered: set<Atom>, buckets: Buckets, max: nat)
    requires InBuckets(origins, covered, buckets, max) && max > 1 && buckets[max] != []
    ensures var list := buckets[max]; var o := list[|list| - 1];
            && o in origins && Left(origins, covered, o) <= max
            && var rest, size := buckets[max := list[..|list| - 1]], Left(origins, covered, o);
               if size == max then Topped(origins, covered, rest, max, o)
               else InBuckets(origins, covered, rest[size := rest[size] + [o]], max)
  {
    var list := buckets[max];
    var o := list[|list| - 1];
    assert o in list && list == list[..|list| - 1] + [o];
    var rest, size := buckets[max := list[..|list| - 1]], Left(origins, covered, o);
    var moved := if size == max then rest else rest[size := rest[size] + [o]];
    forall s, p | 0 <= s <= max && p in moved[s]
      ensures p in origins && Left(origins, covered, p) <= s
    {
      assert p in buckets[s] || (p == o && s == size);
    }
    forall p | p in origins && Left(origins, covered, p) > 1 && (p != o || size < max)
      ensures InSomeBucket(moved, max, p)
    {
      var s :| 0 <= s <= max && s < |buckets| && p in buckets[s];
      assert p != o ==> p in moved[s];
      assert size < max ==> o in moved[size];
    }
    forall p | p in origins
      ensures Left(origins, covered, p) <= max
    {
      BoundedByMax(origins, covered, buckets, max, p);
    }
  }

  lemma BucketEmpty(origins: Origins, covered: set<Atom>, buckets: Buckets, max: nat)
    requires InBuckets(origins, covered, buckets, max) && max > 1 && buckets[max] == []
    ensures InBuckets(origins, covered, buckets, max - 1)
  {
    forall o | o in origins && Left(origins, covered, o) > 1
      ensures InSomeBucket(buckets, max - 1, o)
    {
      var s :| 0 <= s <= max && s < |buckets| && o in buckets[s];
      assert s <= max - 1;
    }
  }

  lemma LeftShrinks(origins: Origins, covered: set<Atom>, more: set<Atom>, o: AtomSet)
    requires o in origins && covered <= more
    ensures Left(origins, more, o) <= Left(origins, covered, o)
  {
    assert origins[o] - covered == (origins[o] - more) + ((origins[o] - covered) * more);
  }

  /** Covering the facts of the top leaves every other set in a bucket that is large enough. */
  lemma TopCovered(origins: Origins, covered: set<Atom>, more: set<Atom>, buckets: Buckets, max: nat, top: AtomSet)
    requires Topped(origins, covered, buckets, max, top) && more == covered + (origins[top] - covered)
    ensures InBuckets(origins, more, buckets, max)
  {
    forall o | o in origins
      ensures Left(origins, more, o) <= Left(origins, covered, o)
    {
      LeftShrinks(origins, covered, more, o);
    }
    assert origins[top] - more == {};
  }

  // ---- the index by fact ----

  type ByFact = map<Atom, seq<AtomSet>>

  /** Each fact lists once exactly the sets made from groups with the fact. */
  ghost predicate Indexes(origins: Origins, byFact: ByFact) {
    && (forall o, f {:trigger f in origins[o]} {:trigger o in byFact[f]} | o in origins && f in origins[o] :: f in byFact && o in byFact[f])
    && (forall f, o {:trigger o in byFact[f]} | f in byFact && o in byFact[f] :: o in origins && f in origins[o])
    && (forall f | f in byFact :: NoRepeats(byFact[f]))
  }

  ghost function AllFacts(groups: set<set<Atom>>): set<Atom> {
    set g, f | g in groups && f in g :: f
  }

  function Entries(byFact: ByFact, f: Atom): seq<AtomSet> {
    if f in byFact then byFact[f] else []
  }

  lemma PoppedGreedy(origins: Origins, covered: set<Atom>, buckets: Buckets, max: nat, top: AtomSet, result: seq<Atom>)
    requires Topped(origins, covered, buckets, max, top) && max > 1
    requires NoRepeats(result) && ToSet(result) == origins[top] - covered && |result| == max
    ensures Greedy(origins.Values, covered, result)
  {
    assert origins[top] in origins.Values;
    forall h | h in origins.Values
      ensures |h - covered| <= |result|
    {
      var o :| o in origins && h == origins[o];
      assert Left(origins, covered, o) <= max;
    }
  }

  class GroupCoverQueue {
    ghost var origins: Origins
    ghost var covered: set<Atom>
    var groupsBySize: Buckets
    var groupsByFact: ByFact
    var maxSize: nat
    var top: AtomSet?

    /** Every shared set holds what is left of its group. */
    ghost predicate Shared()
      reads this`origins, this`covered, origins.Keys
    {
      forall o | o in origins :: o.elems == origins[o] - covered
    }

    /** A largest set is on top, unless no set has two facts. */
    ghost predicate Ready()
      reads this`origins, this`covered, this`groupsBySize, this`maxSize, this`top
    {
      if maxSize > 1 then top != null && Topped(origins, covered, groupsBySize, maxSize, top)
      else InBuckets(origins, covered, groupsBySize, maxSize)
    }

    ghost predicate Valid()
      reads this, origins.Keys
    {
      Shared() && Indexes(origins, groupsByFact) && Ready()
    }

    /** The queue of no groups. */
    constructor ()
      ensures Valid() && origins == map[] && covered == {} && maxSize == 0
    {
      origins, covered, groupsBySize, groupsByFact, maxSize, top := map[], {}, [[]], map[], 0, null;
    }

    method Fill(ghost made: Origins, buckets: Buckets, byFact: ByFact, max: nat)
      requires InBuckets(made, {}, buckets, max) && Indexes(made, byFact) && forall o | o in made :: o.elems == made[o]
      modifies this
      ensures Shared() && Indexes(origins, groupsByFact) && origins == made && covered == {}
      ensures InBuckets(origins, covered, groupsBySize, maxSize)
    {
      origins, covered, groupsBySize, groupsByFact, maxSize := made, {}, buckets, byFact, max;
      forall o | o in origins
        ensures o.elems == origins[o] - covered
      {
        assert origins[o] - covered == origins[o];
      }
    }

    /** _update_top: sets that shrank move to the bucket of their size. */
    method UpdateTop()
      requires Shared() && Indexes(origins, groupsByFact) && InBuckets(origins, covered, groupsBySize, maxSize)
      modifies this`groupsBySize, this`maxSize, this`top
      ensures Valid()
    {
      while maxSize > 1
        invariant Shared() && InBuckets(origins, covered, groupsBySize, maxSize)
        decreases maxSize
      {
        var found := EmptyBucket();
        if found {
          return;
        }
        maxSize := maxSize - 1;
      }
    }

    /** Take a set of maximal size, or empty the bucket of that size. */
    method EmptyBucket() returns (found: bool)
      requires maxSize > 1 && Shared() && InBuckets(origins, covered, groupsBySize, maxSize)
      modifies this`groupsBySize, this`top
      ensures found ==> top != null && Topped(origins, covered, groupsBySize, maxSize, top)
      ensures !found ==> InBuckets(origins, covered, groupsBySize, maxSize - 1)
    {
      while groupsBySize[maxSize] != []
        invariant InBuckets(origins, covered, groupsBySize, maxSize)
        decreases |groupsBySize[maxSize]|
      {
        var list := groupsBySize[maxSize];
        var candidate := list[|list| - 1];
        Taken(origins, covered, groupsBySize, maxSize);
        groupsBySize := groupsBySize[maxSize := list[..|list| - 1]];
        if |candidate.elems| == maxSize {
          top := candidate;
          return true;
        }
        var size := |candidate.elems|;
        groupsBySize := groupsBySize[size := groupsBySize[size] + [candidate]];
      }
      BucketEmpty(origins, covered, groupsBySize, maxSize);
      found := false;
    }

    /** Remove a fact from every set that holds it. */
    method RemoveFact(f: Atom)
      requires Shared() && Indexes(origins, groupsByFact) && f in groupsByFact && f !in covered
      modifies this`covered, origins.Keys
      ensures Shared() && covered == old(covered) + {f}
    {
      var list := groupsByFact[f];
      for j := 0 to |list|
        invariant covered == old(covered)
        invariant forall o | o in origins :: o.elems == origins[o] - covered - if o in list[..j] then {f} else {}
      {
        var group := list[j];
        assert list[..j + 1] == list[..j] + [group] && group in list && group !in list[..j];
        assert f in group.elems;
        group.elems := group.elems - {f};
      }
      assert list[..|list|] == list;
      covered := covered + {f};
    }

    /** Remove listed facts that are not covered yet. */
    method RemoveFacts(facts: seq<Atom>)
      requires Shared() && Indexes(origins, groupsByFact) && NoRepeats(facts)
      requires forall f | f in facts :: f !in covered && f in groupsByFact
      modifies this`covered, origins.Keys
      ensures Shared() && covered == old(covered) + ToSet(facts)
    {
      for i := 0 to |facts|
        invariant Shared() && covered == old(covered) + ToSet(facts[..i])
      {
        assert facts[i] in facts && facts[i] !in ToSet(facts[..i]);
        assert ToSet(facts[..i + 1]) == ToSet(facts[..i]) + {facts[i]};
        RemoveFact(facts[i]);
      }
      assert facts[..|facts|] == facts;
    }

    /** pop: the facts of a largest set, which are removed from all sets. */
    method Pop() returns (result: seq<Atom>)
      requires Valid() && maxSize > 1
      modifies this`covered, this`groupsBySize, this`maxSize, this`top, origins.Keys
      ensures Valid() && Greedy(origins.Values, old(covered), result) && covered == old(covered) + ToSet(result)
    {
      result := ListOf(top.elems);
      PoppedGreedy(origins, covered, groupsBySize, maxSize, top, result);
      Advance(result);
    }

    /** The facts of the top are covered and another set is put on top. */
    method Advance(facts: seq<Atom>)
      requires Valid() && maxSize > 1 && NoRepeats(facts) && ToSet(facts) == top.elems
      modifies this`covered, this`groupsBySize, this`maxSize, this`top, origins.Keys
      ensures Valid() && covered == old(covered) + ToSet(facts)
    {
      RemoveTop(facts);
      UpdateTop();
    }

    method RemoveTop(facts: seq<Atom>)
      requires Shared() && Indexes(origins, groupsByFact)
      requires top != null && Topped(origins, covered, groupsBySize, maxSize, top) && NoRepeats(facts) && ToSet(facts) == top.elems
      modifies this`covered, origins.Keys
      ensures Shared() && covered == old(covered) + ToSet(facts) && InBuckets(origins, covered, groupsBySize, maxSize)
    {
      ghost var before := covered;
      assert forall f | f in facts :: f in ToSet(facts);
      TopCovered(origins, before, before + (origins[top] - before), groupsBySize, maxSize, top);
      RemoveFacts(facts);
    }
  }

  // ---- initialisation ----

  method CreateSets(gs: seq<seq<Atom>>) returns (sets: seq<AtomSet>, ghost origins: Origins)
    ensures fresh(sets) && |sets| == |gs| && (forall i, j | 0 <= i < j < |sets| :: sets[i] != sets[j])
    ensures origins.Keys == set o | o in sets
    ensures forall i | 0 <= i < |sets| :: sets[i] in origins && sets[i].elems == origins[sets[i]] == ToSet(gs[i])
    ensures origins.Values == SetsOf(gs)
  {
    sets, origins := [], map[];
    for i := 0 to |gs|
      invariant fresh(sets) && |sets| == i && forall j, l | 0 <= j < l < |sets| :: sets[j] != sets[l]
      invariant origins.Keys == set o | o in sets
      invariant forall j | 0 <= j < i :: sets[j] in origins && sets[j].elems == origins[sets[j]] == ToSet(gs[j])
      invariant origins.Values == SetsOf(gs[..i])
    {
      var group := new AtomSet(ToSet(gs[i]));
      assert gs[..i + 1] == gs[..i] + [gs[i]];
      ghost var before := origins;
      sets := sets + [group];
      origins := origins[group := ToSet(gs[i])];
      ValuesNext(before, group, gs[..i], gs[i]);
    }
    assert gs[..|gs|] == gs;
  }

  lemma ValuesNext(origins: Origins, o: AtomSet, gs: seq<seq<Atom>>, g: seq<Atom>)
    requires o !in origins && origins.Values == SetsOf(gs)
    ensures origins[o := ToSet(g)].Values == SetsOf(gs + [g])
  {
    var next := origins[o := ToSet(g)];
    forall h
      ensures h in next.Values <==> h in SetsOf(gs + [g])
    {
      if h in origins.Values {
        var p: AtomSet :| p in origins && origins[p] == h;
        assert next[p] == h;
      }
      assert next[o] == ToSet(g);
    }
  }

  method MaxLength(gs: seq<seq<Atom>>) returns (n: nat)
    ensures forall i | 0 <= i < |gs| :: |gs[i]| <= n
  {
    n := 0;
    for i := 0 to |gs|
      invariant forall j | 0 <= j < i :: |gs[j]| <= n
    {
      n := if |gs[i]| > n then |gs[i]| else n;
    }
  }

  lemma {:induction false} SetFits(xs: seq<Atom>)
    ensures |ToSet(xs)| <= |xs|
  {
    if xs != [] {
      SetFits(xs[1..]);
      assert ToSet(xs) == ToSet(xs[1..]) + {xs[0]};
    }
  }

  /** Every set goes to the bucket of its size. */
  method FileSets(gs: seq<seq<Atom>>, sets: seq<AtomSet>, ghost origins: Origins, max: nat) returns (buckets: Buckets)
    requires |sets| == |gs| && forall i | 0 <= i < |gs| :: |gs[i]| <= max
    requires origins.Keys == set o | o in sets
    requires forall i | 0 <= i < |sets| :: sets[i] in origins && sets[i].elems == origins[sets[i]] == ToSet(gs[i])
    ensures InBuckets(origins, {}, buckets, max)
  {
    buckets := seq(max + 1, _ => []);
    for i := 0 to |sets|
      invariant |buckets| == max + 1 && Bounded(origins, {}, buckets, max)
      invariant forall j | 0 <= j < i :: InSomeBucket(buckets, max, sets[j])
    {
      SetFits(gs[i]);
      var size := |sets[i].elems|;
      assert origins[sets[i]] - {} == sets[i].elems;
      ghost var before := buckets;
      buckets := buckets[size := buckets[size] + [sets[i]]];
      forall j | 0 <= j <= i
        ensures InSomeBucket(buckets, max, sets[j])
      {
        if j < i {
          var s :| 0 <= s <= max && s < |before| && sets[j] in before[s];
          assert sets[j] in buckets[s];
        } else {
          assert sets[i] in buckets[size];
        }
      }
    }
  }

  /** groups_by_fact */
  method IndexSets(gs: seq<seq<Atom>>, sets: seq<AtomSet>, ghost origins: Origins) returns (byFact: ByFact)
    requires |gs| == |sets| && forall i, j | 0 <= i < j < |sets| :: sets[i] != sets[j]
    requires origins.Keys == set o | o in sets
    requires forall i | 0 <= i < |sets| :: sets[i] in origins && origins[sets[i]] == ToSet(gs[i])
    ensures Indexes(origins, byFact)
  {
    byFact := map[];
    ghost var done: Origins := map[];
    for i := 0 to |gs|
      invariant done.Keys == set j | 0 <= j < i :: sets[j]
      invariant forall o | o in done :: o in origins && done[o] == origins[o]
      invariant Indexes(done, byFact)
    {
      ghost var before := byFact;
      byFact := IndexSet(byFact, sets[i], ToSet(gs[i]));
      IndexedNext(done, before, sets[i], ToSet(gs[i]), byFact);
      done := done[sets[i] := ToSet(gs[i])];
    }
    assert done == origins;
  }

  method IndexSet(before: ByFact, o: AtomSet, facts: set<Atom>) returns (byFact: ByFact)
    ensures forall f :: f in byFact <==> f in before || f in facts
    ensures forall f | f in byFact :: byFact[f] == Entries(before, f) + if f in facts then [o] else []
  {
    byFact := before;
    var list := ListOf(facts);
    for j := 0 to |list|
      invariant forall f :: f in byFact <==> f in before || f in list[..j]
      invariant forall f | f in byFact :: byFact[f] == Entries(before, f) + if f in list[..j] then [o] else []
    {
      assert list[..j + 1] == list[..j] + [list[j]];
      byFact := byFact[list[j] := Entries(byFact, list[j]) + [o]];
    }
    assert list[..|list|] == list;
  }

  lemma NoRepeatsSnoc<T>(xs: seq<T>, x: T)
    requires NoRepeats(xs) && x !in xs
    ensures NoRepeats(xs + [x])
  {
    assert forall i | 0 <= i < |xs| :: xs[i] in xs;
  }

  lemma IndexedNext(done: Origins, before: ByFact, o: AtomSet, facts: set<Atom>, byFact: ByFact)
    requires Indexes(done, before) && o !in done
    requires forall f :: f in byFact <==> f in before || f in facts
    requires forall f | f in byFact :: byFact[f] == Entries(before, f) + if f in facts then [o] else []
    ensures Indexes(done[o := facts], byFact)
  {
    forall f | f in byFact
      ensures NoRepeats(byFact[f])
    {
      assert NoRepeats(Entries(before, f));
      if f in before && f in facts {
        NoRepeatsSnoc(before[f], o);
      }
    }
  }

  method BuildQueue(gs: seq<seq<Atom>>) returns (queue: GroupCoverQueue)
    ensures fresh(queue) && fresh(queue.origins.Keys)
    ensures queue.Shared() && Indexes(queue.origins, queue.groupsByFact) && queue.covered == {}
    ensures InBuckets(queue.origins, {}, queue.groupsBySize, queue.maxSize) && queue.origins.Values == SetsOf(gs)
  {
    queue := new GroupCoverQueue();
    var sets;
    ghost var origins;
    sets, origins := CreateSets(gs);
    var max := MaxLength(gs);
    var buckets := FileSets(gs, sets, origins, max);
    var byFact := IndexSets(gs, sets, origins);
    queue.Fill(origins, buckets, byFact, max);
  }

  /** GroupCoverQueue.__init__; the queue of no groups is empty. */
  method CreateQueue(gs: seq<seq<Atom>>) returns (queue: GroupCoverQueue)
    ensures fresh(queue) && fresh(queue.origins.Keys)
    ensures queue.Valid() && queue.covered == {} && queue.origins.Values == SetsOf(gs)
  {
    queue := BuildQueue(gs);
    queue.UpdateTop();
  }

  // ---- the cover ----

  /** The facts of the groups chosen so far. */
  function Union(groups: seq<seq<Atom>>): set<Atom> {
    if groups == [] then {} else Union(groups[..|groups| - 1]) + ToSet(groups[|groups| - 1])
  }

  /** Each group was chosen greedily after those before it. */
  ghost predicate GreedyCover(groups: set<set<Atom>>, chosen: seq<seq<Atom>>) {
    forall k | 0 <= k < |chosen| :: Greedy(groups, Union(chosen[..k]), chosen[k])
  }

  ghost predicate Disjoint(groups: seq<seq<Atom>>) {
    forall i, j | 0 <= i < j < |groups| :: ToSet(groups[i]) !! ToSet(groups[j])
  }

  lemma {:induction false} InUnion(groups: seq<seq<Atom>>, f: Atom)
    ensures f in Union(groups) <==> exists g | g in groups :: f in g
  {
    if groups != [] {
      var n := |groups| - 1;
      InUnion(groups[..n], f);
      assert groups == groups[..n] + [groups[n]];
    }
  }

  /** Groups chosen greedily share no fact. */
  lemma GreedyDisjoint(groups: set<set<Atom>>, chosen: seq<seq<Atom>>)
    requires GreedyCover(groups, chosen)
    ensures Disjoint(chosen)
  {
    forall i, j | 0 <= i < j < |chosen|
      ensures ToSet(chosen[i]) !! ToSet(chosen[j])
    {
      var covered := Union(chosen[..j]);
      assert Greedy(groups, covered, chosen[j]);
      var h :| h in groups && h - covered == ToSet(chosen[j]);
      forall f | f in ToSet(chosen[i])
        ensures f in covered
      {
        InUnion(chosen[..j], f);
        assert chosen[i] in chosen[..j];
      }
    }
  }

  lemma UnionNext(chosen: seq<seq<Atom>>, g: seq<Atom>)
    ensures Union(chosen + [g]) == Union(chosen) + ToSet(g)
  {
    assert (chosen + [g])[..|chosen|] == chosen;
  }

  /** choose_groups: the greedy choice, then one group for every fact that is left. */
  method ChooseGroups(groups: seq<seq<Atom>>, reachable: set<Atom>) returns (result: seq<seq<Atom>>, chosen: seq<seq<Atom>>)
    ensures GreedyCover(SetsOf(groups), chosen)
    ensures forall g | g in groups :: |ToSet(g) - Union(chosen)| <= 1
    ensures Disjoint(result) && Union(result) == Union(chosen) + reachable && forall g | g in result :: NoRepeats(g) && g != []
    ensures chosen <= result && forall g | g in result[|chosen|..] :: |g| == 1
  {
    var queue := CreateQueue(groups);
    chosen := [];
    ghost var origins := queue.origins;
    while queue.maxSize > 1
      invariant fresh(queue) && fresh(queue.origins.Keys) && queue.origins == origins && origins.Values == SetsOf(groups)
      invariant queue.Valid() && queue.covered == Union(chosen) && GreedyCover(SetsOf(groups), chosen)
      decreases AllFacts(origins.Values) - queue.covered
    {
      ghost var covered := queue.covered;
      var group := queue.Pop();
      PopProgress(origins.Values, covered, group);
      UnionNext(chosen, group);
      CoverNext(SetsOf(groups), chosen, group);
      chosen := chosen + [group];
    }
    NothingLarge(origins, queue.covered, queue.groupsBySize, queue.maxSize, groups);
    GreedyDisjoint(SetsOf(groups), chosen);
    result := AddSingles(chosen, reachable);
  }

  lemma PopProgress(groups: set<set<Atom>>, covered: set<Atom>, g: seq<Atom>)
    requires Greedy(groups, covered, g)
    ensures AllFacts(groups) - (covered + ToSet(g)) < AllFacts(groups) - covered
  {
    var h :| h in groups && h - covered == ToSet(g);
    assert g[0] in ToSet(g);
    assert g[0] in AllFacts(groups) - covered;
  }

  lemma CoverNext(groups: set<set<Atom>>, chosen: seq<seq<Atom>>, g: seq<Atom>)
    requires GreedyCover(groups, chosen) && Greedy(groups, Union(chosen), g)
    ensures GreedyCover(groups, chosen + [g])
  {
    forall k | 0 <= k <= |chosen|
      ensures Greedy(groups, Union((chosen + [g])[..k]), (chosen + [g])[k])
    {
      assert (chosen + [g])[..k] == chosen[..k];
      if k < |chosen| {
        assert Greedy(groups, Union(chosen[..k]), chosen[k]);
      } else {
        assert chosen[..|chosen|] == chosen;
      }
    }
  }

  lemma NothingLarge(origins: Origins, covered: set<Atom>, buckets: Buckets, max: nat, groups: seq<seq<Atom>>)
    requires InBuckets(origins, covered, buckets, max) && max <= 1 && origins.Values == SetsOf(groups)
    ensures forall g | g in groups :: |ToSet(g) - covered| <= 1
  {
    forall g | g in groups
      ensures |ToSet(g) - covered| <= 1
    {
      assert ToSet(g) in SetsOf(groups);
      var o: AtomSet :| o in origins && origins[o] == ToSet(g);
      assert InSomeBucket(buckets, max, o) ==> Left(origins, covered, o) <= max;
    }
  }

  method AddSingles(chosen: seq<seq<Atom>>, reachable: set<Atom>) returns (result: seq<seq<Atom>>)
    requires Disjoint(chosen) && forall g | g in chosen :: NoRepeats(g) && g != []
    ensures Disjoint(result) && Union(result) == Union(chosen) + reachable && forall g | g in result :: NoRepeats(g) && g != []
    ensures chosen <= result && forall g | g in result[|chosen|..] :: |g| == 1
  {
    result := chosen;
    var uncovered := reachable - Union(chosen);
    var rest := uncovered;
    while rest != {}
      invariant rest <= uncovered && Extended(chosen, uncovered - rest, result)
      decreases rest
    {
      var fact :| fact in rest;
      SingleAdded(chosen, uncovered - rest, result, fact);
      assert uncovered - (rest - {fact}) == uncovered - rest + {fact};
      result := result + [[fact]];
      rest := rest - {fact};
    }
  }

  /** The chosen groups, followed by one group for each of the facts. */
  ghost predicate Extended(chosen: seq<seq<Atom>>, facts: set<Atom>, result: seq<seq<Atom>>) {
    && chosen <= result && Union(result) == Union(chosen) + facts
    && Disjoint(result) && (forall g | g in result :: NoRepeats(g) && g != [])
    && forall j | |chosen| <= j < |result| :: |result[j]| == 1
  }

  lemma SingleAdded(chosen: seq<seq<Atom>>, facts: set<Atom>, result: seq<seq<Atom>>, fact: Atom)
    requires Extended(chosen, facts, result) && fact !in facts && fact !in Union(chosen)
    ensures Extended(chosen, facts + {fact}, result + [[fact]])
  {
    UnionNext(result, [fact]);
    SingleDisjoint(result, fact);
    assert ToSet([fact]) == {fact};
  }

  lemma SingleDisjoint(result: seq<seq<Atom>>, fact: Atom)
    requires Disjoint(result) && fact !in Union(result)
    ensures Disjoint(result + [[fact]])
  {
    forall i | 0 <= i < |result|
      ensures fact !in ToSet(result[i])
    {
      InUnion(result, fact);
    }
  }

  /** Disjoint groups without repetitions give every atom one place, as a partial encoding demands
      (translate.py:60-62). */
  lemma OnePlace(groups: seq<seq<Atom>>, dict: Dictionary, ranges: seq<nat>, a: Atom)
    requires ValidDictionary(groups, dict, ranges) && Disjoint(groups) && (forall g | g in groups :: NoRepeats(g)) && a in dict
    ensures |dict[a]| == 1
  {
    forall f, h | f in dict[a] && h in dict[a]
      ensures f.v == h.v
    {
      assert a in ToSet(groups[f.v]) && a in ToSet(groups[h.v]);
    }
    SameVariable(dict[a]);
  }

  lemma SameVariable(fs: seq<Sas.Fact>)
    ensures |fs| > 1 && (forall f, h | f in fs && h in fs :: f.v == h.v) ==> fs[0].v == fs[1].v
  {
    assert |fs| > 1 ==> fs[0] in fs && fs[1] in fs;
  }
}
