/** Renaming of variables and values after unreachable values are dropped (simplify.py:166-224, 457-477). */
module Renaming {
  import opened Sas

  datatype NewValue = AlwaysFalse | AlwaysTrue | Value(x: nat)

  /** `varNos` and `values` are indexed by old variables, `sizes` and `back` by new ones; `back` is
      the inverse of `varNos`. */
  datatype Table = Table(varNos: seq<Option<nat>>, values: seq<seq<NewValue>>, sizes: seq<nat>, back: seq<nat>)

  ghost function Smaller(domain: set<nat>, n: nat): set<nat> {
    set x | x in domain && x < n
  }

  ghost function Rank(domain: set<nat>, x: nat): nat {
    |Smaller(domain, x)|
  }

  lemma RankGrows(domain: set<nat>, x: nat, y: nat)
    requires x in domain && x < y
    ensures Rank(domain, x) < Rank(domain, y) <= |domain|
  {
    assert Smaller(domain, x) + {x} <= Smaller(domain, y) <= domain;
    Larger(Smaller(domain, x) + {x}, Smaller(domain, y));
    Larger(Smaller(domain, y), domain);
  }

  lemma RankNext(domain: set<nat>, x: nat, c: nat)
    requires c == x + 1
    ensures Rank(domain, c) == if x in domain then Rank(domain, x) + 1 else Rank(domain, x)
  {
    assert Smaller(domain, c) == if x in domain then Smaller(domain, x) + {x} else Smaller(domain, x);
  }

  lemma Larger(a: set<nat>, b: set<nat>)
    requires a <= b
    ensures |a| <= |b|
  {
    assert b == a + (b - a);
  }

  ghost predicate ValidDomain(range: nat, init: nat, domain: set<nat>) {
    init in domain && forall x | x in domain :: x < range
  }

  /** The new values of one variable: a variable with one value left is dropped, otherwise the
      values left keep their order. */
  ghost predicate ValuesFor(range: nat, domain: set<nat>, values: seq<NewValue>) {
    |values| == range && forall x | 0 <= x < range ::
      values[x] == if x !in domain then AlwaysFalse else if |domain| == 1 then AlwaysTrue else Value(Rank(domain, x))
  }

  ghost predicate ValidTable(ranges: seq<nat>, domains: seq<set<nat>>, tab: Table) {
    && |tab.varNos| == |tab.values| == |domains| <= |ranges| && |tab.back| == |tab.sizes|
    && (forall v | 0 <= v < |domains| :: ValuesFor(ranges[v], domains[v], tab.values[v]))
    && (forall v | 0 <= v < |domains| && |domains[v]| == 1 :: tab.varNos[v].None?)
    && (forall v | 0 <= v < |domains| && |domains[v]| != 1 ::
          tab.varNos[v].Some? && tab.varNos[v].value < |tab.back| && tab.back[tab.varNos[v].value] == v)
    && (forall n | 0 <= n < |tab.back| ::
          tab.back[n] < |domains| && tab.varNos[tab.back[n]] == Some(n) && |domains[tab.back[n]]| != 1 && tab.sizes[n] == |domains[tab.back[n]]|)
  }

  /** Every variable has a value of its domain. */
  ghost predicate InDomains(domains: seq<set<nat>>, s: State) {
    |s| == |domains| && forall v | 0 <= v < |s| :: s[v] in domains[v]
  }

  ghost function Rename(ranges: seq<nat>, domains: seq<set<nat>>, tab: Table, s: State): (r: State)
    requires ValidTable(ranges, domains, tab) && InDomains(domains, s)
    ensures |r| == |tab.back|
    ensures forall n | 0 <= n < |r| :: r[n] == Rank(domains[tab.back[n]], s[tab.back[n]])
  {
    seq(|tab.back|, n requires 0 <= n < |tab.back| => Rank(domains[tab.back[n]], s[tab.back[n]]))
  }

  lemma RankInjective(domain: set<nat>, x: nat, y: nat)
    requires x in domain && y in domain && Rank(domain, x) == Rank(domain, y)
    ensures x == y
  {
    if x < y {
      RankGrows(domain, x, y);
    } else if y < x {
      RankGrows(domain, y, x);
    }
  }

  lemma OnlyOne(domain: set<nat>, x: nat, y: nat)
    requires |domain| == 1 && x in domain && y in domain
    ensures x == y
  {
    assert |domain - {x}| == 0;
    assert domain - {x} == {};
  }

  /** States with the same new name are the same. */
  lemma RenameInjective(ranges: seq<nat>, domains: seq<set<nat>>, tab: Table, s: State, s': State)
    requires ValidTable(ranges, domains, tab) && InDomains(domains, s) && InDomains(domains, s')
    requires Rename(ranges, domains, tab, s) == Rename(ranges, domains, tab, s')
    ensures s == s'
  {
    forall v: nat | v < |s|
      ensures s[v] == s'[v]
    {
      if |domains[v]| == 1 {
        OnlyOne(domains[v], s[v], s'[v]);
      } else {
        var n := tab.varNos[v].value;
        assert Rename(ranges, domains, tab, s)[n] == Rename(ranges, domains, tab, s')[n];
        RankInjective(domains[v], s[v], s'[v]);
      }
    }
  }

  /** A renamed state is a valid state of the new variables. */
  lemma RenamedValid(ranges: seq<nat>, domains: seq<set<nat>>, tab: Table, s: State)
    requires ValidTable(ranges, domains, tab) && InDomains(domains, s)
    ensures ValidState(tab.sizes, Rename(ranges, domains, tab, s))
  {
    forall n | 0 <= n < |tab.back|
      ensures Rank(domains[tab.back[n]], s[tab.back[n]]) < tab.sizes[n]
    {
      RankGrows(domains[tab.back[n]], s[tab.back[n]], s[tab.back[n]] + 1);
    }
  }

  /** translate_pair */
  function TranslatePair(tab: Table, f: Fact): (Option<nat>, NewValue)
    requires f.v < |tab.varNos| == |tab.values| && f.x < |tab.values[f.v]|
  {
    (tab.varNos[f.v], tab.values[f.v][f.x])
  }

  /** What a translated fact says about renamed states. */
  lemma FactRenamed(ranges: seq<nat>, domains: seq<set<nat>>, tab: Table, s: State, f: Fact)
    requires ValidTable(ranges, domains, tab) && InDomains(domains, s) && |domains| == |ranges| && ValidFact(ranges, f)
    ensures var (no, value) := TranslatePair(tab, f);
            match value
            case AlwaysFalse => !Holds(s, f)
            case AlwaysTrue => Holds(s, f)
            case Value(x) => no.Some? && (Holds(s, f) <==> Holds(Rename(ranges, domains, tab, s), Fact(no.value, x)))
  {
    assert ValuesFor(ranges[f.v], domains[f.v], tab.values[f.v]);
    if f.x in domains[f.v] {
      if |domains[f.v]| == 1 {
        OnlyOne(domains[f.v], s[f.v], f.x);
      } else if Rank(domains[f.v], s[f.v]) == Rank(domains[f.v], f.x) {
        RankInjective(domains[f.v], s[f.v], f.x);
      }
    }
  }

  class VarValueRenaming {
    var newVarNos: seq<Option<nat>>
    var newValues: seq<seq<NewValue>>
    var newSizes: seq<nat>
    var newVarCount: nat
    var numRemovedValues: nat
    /** The old number of every new variable; the source does not store it. */
    var back: seq<nat>

    function Now(): Table
      reads this
    {
      Table(newVarNos, newValues, newSizes, back)
    }

    constructor ()
      ensures Now() == Table([], [], [], []) && newVarCount == 0 && numRemovedValues == 0
    {
      newVarNos, newValues, newSizes, newVarCount, numRemovedValues, back := [], [], [], 0, 0, [];
    }

    /** register_variable */
    method RegisterVariable(ghost ranges: seq<nat>, ghost domains: seq<set<nat>>, oldSize: nat, init: nat, domain: set<nat>)
      requires ValidTable(ranges, domains, Now()) && newVarCount == |newSizes|
      requires |domains| < |ranges| && ranges[|domains|] == oldSize && ValidDomain(oldSize, init, domain)
      modifies this
      ensures ValidTable(ranges, domains + [domain], Now()) && newVarCount == |newSizes|
      ensures numRemovedValues == old(numRemovedValues) + if |domain| == 1 then oldSize else oldSize - |domain|
    {
      DomainFits(oldSize, domain);
      assert 1 <= |domain| <= oldSize && init in domain;
      ghost var before := Now();
      if |domain| == 1 {
        var values := seq(oldSize, _ => AlwaysFalse);
        values := values[init := AlwaysTrue];
        assert ValuesFor(oldSize, domain, values) by {
          forall x | 0 <= x < oldSize && x in domain
            ensures x == init
          {
            OnlyOne(domain, x, init);
          }
        }
        newVarNos := newVarNos + [None];
        newValues := newValues + [values];
        numRemovedValues := numRemovedValues + oldSize;
      } else {
        var values, newSize := NumberValues(oldSize, domain);
        assert newSize == |domain|;
        newVarNos := newVarNos + [Some(newVarCount)];
        newValues := newValues + [values];
        newSizes := newSizes + [newSize];
        newVarCount := newVarCount + 1;
        numRemovedValues := numRemovedValues + (oldSize - newSize);
        back := back + [|newVarNos| - 1];
      }
      TableExtended(ranges, domains, before, domain, Now());
    }

    method NumberValues(oldSize: nat, domain: set<nat>) returns (values: seq<NewValue>, newSize: nat)
      requires |domain| != 1 && forall x | x in domain :: x < oldSize
      ensures ValuesFor(oldSize, domain, values) && newSize == |domain|
    {
      values, newSize := [], 0;
      assert Smaller(domain, 0) == {};
      for value := 0 to oldSize
        invariant |values| == value && newSize == Rank(domain, value)
        invariant forall x | 0 <= x < value :: values[x] == if x in domain then Value(Rank(domain, x)) else AlwaysFalse
      {
        RankNext(domain, value, value + 1);
        if value in domain {
          values := values + [Value(newSize)];
          newSize := newSize + 1;
        } else {
          values := values + [AlwaysFalse];
        }
      }
      assert Smaller(domain, oldSize) == domain;
    }
  }

  lemma {:induction false} DomainFits(size: nat, domain: set<nat>)
    requires forall x | x in domain :: x < size
    ensures |domain| <= size
  {
    if size > 0 {
      DomainFits(size - 1, domain - {size - 1});
      assert |domain| <= |domain - {size - 1}| + 1;
    } else {
      assert domain == {};
    }
  }

  lemma TableExtended(ranges: seq<nat>, domains: seq<set<nat>>, tab: Table, domain: set<nat>, tab': Table)
    requires ValidTable(ranges, domains, tab) && |domains| < |ranges|
    requires |tab'.values| == |tab.values| + 1 && tab'.values[..|tab.values|] == tab.values
    requires ValuesFor(ranges[|domains|], domain, tab'.values[|domains|])
    requires if |domain| == 1 then tab'.varNos == tab.varNos + [None] && tab'.sizes == tab.sizes && tab'.back == tab.back
             else tab'.varNos == tab.varNos + [Some(|tab.sizes|)] && tab'.sizes == tab.sizes + [|domain|] && tab'.back == tab.back + [|domains|]
    ensures ValidTable(ranges, domains + [domain], tab')
  {
    var n := |domains|;
    forall v | 0 <= v < n
      ensures tab'.values[v] == tab.values[v]
    {
      assert tab'.values[v] == tab'.values[..n][v];
    }
  }
}
