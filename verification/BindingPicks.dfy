/** The choices a product rule multiplies out, as lists of bindings (build_model.py:135-162). */
module BindingPicks {
  import opened Datalog
  import opened Collections
  import opened Firing

  datatype Binding = Binding(no: nat, value: string)

  /** The first `k` arguments of the condition that are numbers, with the objects of the atom. */
  function Bindings(c: Pattern, a: Atom, k: nat): seq<Binding>
    requires k <= |c.args| == |a.args|
  {
    if k == 0 then []
    else Bindings(c, a, k - 1) + if c.args[k - 1].Var? then [Binding(c.args[k - 1].no, a.args[k - 1])] else []
  }

  function Assigned(args: seq<Arg>, bindings: seq<Binding>): (r: seq<Arg>)
    ensures |r| == |args|
  {
    if bindings == [] then args
    else
      var b := bindings[|bindings| - 1];
      var r := Assigned(args, bindings[..|bindings| - 1]);
      if b.no < |r| then r[b.no := Const(b.value)] else r
  }

  lemma {:induction false} AssignedConcat(args: seq<Arg>, a: seq<Binding>, b: seq<Binding>)
    ensures Assigned(args, a + b) == Assigned(Assigned(args, a), b)
  {
    if b == [] {
      assert a + b == a;
    } else {
      AssignedConcat(args, a, b[..|b| - 1]);
      assert (a + b)[..|a + b| - 1] == a + b[..|b| - 1];
    }
  }

  lemma {:induction false} AssignedBindings(args: seq<Arg>, c: Pattern, a: Atom, k: nat)
    requires k <= |c.args| == |a.args|
    ensures Assigned(args, Bindings(c, a, k)) == Overwritten(args, c, a, k)
  {
    if k > 0 {
      AssignedBindings(args, c, a, k - 1);
      if c.args[k - 1].Var? {
        var b := Binding(c.args[k - 1].no, a.args[k - 1]);
        var bs := Bindings(c, a, k - 1) + [b];
        assert bs[..|bs| - 1] == Bindings(c, a, k - 1);
      } else {
        assert Bindings(c, a, k) == Bindings(c, a, k - 1);
      }
    }
  }

  /** itertools.chain */
  function Chained(pick: seq<seq<Binding>>): seq<Binding> {
    if pick == [] then [] else Chained(pick[..|pick| - 1]) + pick[|pick| - 1]
  }

  function BindingLists(c: Pattern, list: seq<Atom>): (r: seq<seq<Binding>>)
    requires forall a | a in list :: |a.args| == |c.args|
    ensures |r| == |list|
    ensures forall j | 0 <= j < |r| :: list[j] in list && r[j] == Bindings(c, list[j], |c.args|)
  {
    seq(|list|, j requires 0 <= j < |list| => assert list[j] in list; Bindings(c, list[j], |c.args|))
  }

  /** The binding lists of the first `n` conditions except the `k`-th. */
  function Factors(conditions: seq<Pattern>, seen: Seen, k: nat, n: nat): (r: seq<seq<seq<Binding>>>)
    requires n <= |conditions| == |seen| && forall i, a | 0 <= i < |seen| && a in seen[i] :: |a.args| == |conditions[i].args|
  {
    if n == 0 then []
    else Factors(conditions, seen, k, n - 1) + if n - 1 == k then [] else [BindingLists(conditions[n - 1], seen[n - 1])]
  }

  /** The bindings of the atoms, except the `k`-th. */
  function PickOf(conditions: seq<Pattern>, k: nat, atoms: seq<Atom>): (r: seq<seq<Binding>>)
    requires |atoms| <= |conditions| && forall i | 0 <= i < |atoms| :: |atoms[i].args| == |conditions[i].args|
  {
    if atoms == [] then []
    else
      var n := |atoms| - 1;
      PickOf(conditions, k, atoms[..n]) + if n == k then [] else [Bindings(conditions[n], atoms[n], |atoms[n].args|)]
  }

  lemma PicksSnoc<T>(x: seq<T>, lists: seq<seq<T>>, y: T, list: seq<T>)
    ensures Picks(x + [y], lists + [list]) <==> Picks(x, lists) && y in list
  {
    if Picks(x + [y], lists + [list]) {
      assert (x + [y])[|x|] == y;
      forall i | 0 <= i < |x|
        ensures x[i] in lists[i]
      {
        assert (x + [y])[i] in (lists + [list])[i];
      }
    }
  }

  ghost predicate GivenBut(seen: Seen, k: nat, atoms: seq<Atom>) {
    |atoms| <= |seen| && forall i | 0 <= i < |atoms| && i != k :: atoms[i] in seen[i]
  }

  /** The bindings of given atoms are a choice from the factors. */
  lemma {:induction false} PickIsChoice(conditions: seq<Pattern>, seen: Seen, k: nat, atoms: seq<Atom>)
    requires ValidSeen(conditions, seen) && GivenBut(seen, k, atoms) && |atoms| <= |conditions|
    requires forall i | 0 <= i < |atoms| :: |atoms[i].args| == |conditions[i].args|
    ensures Picks(PickOf(conditions, k, atoms), Factors(conditions, seen, k, |atoms|))
  {
    if atoms != [] {
      var n := |atoms| - 1;
      PickIsChoice(conditions, seen, k, atoms[..n]);
      if n != k {
        var j :| 0 <= j < |seen[n]| && seen[n][j] == atoms[n];
        assert BindingLists(conditions[n], seen[n])[j] == Bindings(conditions[n], atoms[n], |atoms[n].args|);
        PicksSnoc(PickOf(conditions, k, atoms[..n]), Factors(conditions, seen, k, n),
                  Bindings(conditions[n], atoms[n], |atoms[n].args|), BindingLists(conditions[n], seen[n]));
      }
    }
  }

  /** The choice consists of the bindings of `n` given atoms, with `x` for condition `k`. */
  ghost predicate Chosen(conditions: seq<Pattern>, seen: Seen, k: nat, x: Atom, pick: seq<seq<Binding>>, n: nat, atoms: seq<Atom>) {
    && |atoms| == n <= |conditions| && GivenBut(seen, k, atoms) && (k < n ==> atoms[k] == x)
    && (forall i | 0 <= i < n :: Matches(conditions[i], atoms[i]))
    && PickOf(conditions, k, atoms) == pick
  }

  /** Every choice from the factors comes from given atoms. */
  lemma {:induction false} ChoiceIsPick(conditions: seq<Pattern>, seen: Seen, k: nat, x: Atom, pick: seq<seq<Binding>>, n: nat)
    returns (atoms: seq<Atom>)
    requires ValidSeen(conditions, seen) && n <= |conditions| && k < |conditions| && Matches(conditions[k], x)
    requires Picks(pick, Factors(conditions, seen, k, n))
    ensures Chosen(conditions, seen, k, x, pick, n, atoms)
  {
    if n == 0 {
      atoms := [];
    } else if n - 1 == k {
      var before := ChoiceIsPick(conditions, seen, k, x, pick, n - 1);
      ChosenSelf(conditions, seen, k, x, pick, before);
      atoms := before + [x];
    } else {
      var first, bs := pick[..|pick| - 1], pick[|pick| - 1];
      var lists, list := Factors(conditions, seen, k, n - 1), BindingLists(conditions[n - 1], seen[n - 1]);
      assert pick == first + [bs] && Factors(conditions, seen, k, n) == lists + [list];
      PicksSnoc(first, lists, bs, list);
      var before := ChoiceIsPick(conditions, seen, k, x, first, n - 1);
      var j :| 0 <= j < |list| && list[j] == bs;
      ChosenNext(conditions, seen, k, x, first, n - 1, before, seen[n - 1][j]);
      atoms := before + [seen[n - 1][j]];
    }
  }

  lemma ChosenSelf(conditions: seq<Pattern>, seen: Seen, k: nat, x: Atom, pick: seq<seq<Binding>>, before: seq<Atom>)
    requires ValidSeen(conditions, seen) && k < |conditions| && Matches(conditions[k], x)
    requires Chosen(conditions, seen, k, x, pick, k, before)
    ensures Chosen(conditions, seen, k, x, pick, k + 1, before + [x])
  {
    var atoms := before + [x];
    assert atoms[..k] == before;
  }

  lemma ChosenNext(conditions: seq<Pattern>, seen: Seen, k: nat, x: Atom, pick: seq<seq<Binding>>, n: nat, before: seq<Atom>, a: Atom)
    requires ValidSeen(conditions, seen) && n < |conditions| && n != k && Chosen(conditions, seen, k, x, pick, n, before)
    requires a in seen[n]
    ensures Matches(conditions[n], a)
    ensures Chosen(conditions, seen, k, x, pick + [Bindings(conditions[n], a, |conditions[n].args|)], n + 1, before + [a])
  {
    var atoms := before + [a];
    assert atoms[..n] == before;
  }

  /** The first `n` atoms and the `k`-th are entered. */
  ghost predicate Entered(rule: Rule, atoms: seq<Atom>, k: nat, n: nat, args: seq<Arg>)
    requires k < |atoms| && n <= |atoms|
  {
    && KeepsConstants(rule, args) && HoldsAt(rule.conditions, k, atoms[k], args)
    && forall i | 0 <= i < n :: HoldsAt(rule.conditions, i, atoms[i], args)
  }

  lemma EnterNext(rule: Rule, atoms: seq<Atom>, k: nat, n: nat, args: seq<Arg>)
    requires ValidRule(rule) && AllMatch(rule.conditions, atoms) && Agree(rule.conditions, atoms)
    requires k < |atoms| && n < |atoms| && Entered(rule, atoms, k, n, args)
    ensures Entered(rule, atoms, k, n + 1, Overwritten(args, rule.conditions[n], atoms[n], |atoms[n].args|))
  {
    OverwriteEnters(rule, atoms[n], n, args);
    OverwriteKeeps(rule, atoms, k, n, args);
    forall i | 0 <= i < n
      ensures HoldsAt(rule.conditions, i, atoms[i], Overwritten(args, rule.conditions[n], atoms[n], |atoms[n].args|))
    {
      OverwriteKeeps(rule, atoms, i, n, args);
    }
  }

  /** Assigning the bindings enters all atoms into the effect, besides the one entered before. */
  lemma {:induction false} PickEnters(rule: Rule, atoms: seq<Atom>, k: nat, args: seq<Arg>, n: nat)
    requires ValidRule(rule) && AllMatch(rule.conditions, atoms) && Agree(rule.conditions, atoms)
    requires k < |atoms| && n <= |atoms| && Entered(rule, atoms, k, 0, args)
    ensures Entered(rule, atoms, k, n, Assigned(args, Chained(PickOf(rule.conditions, k, atoms[..n]))))
  {
    if n > 0 {
      PickEnters(rule, atoms, k, args, n - 1);
      var pick := PickOf(rule.conditions, k, atoms[..n - 1]);
      PickOfSnoc(rule.conditions, k, atoms, n - 1, n);
      if n - 1 == k {
        EnteredSelf(rule, atoms, k, n, Assigned(args, Chained(pick)));
      } else {
        PickNext(rule, atoms, k, args, n - 1, pick);
      }
    }
  }

  lemma PickOfSnoc(conditions: seq<Pattern>, k: nat, atoms: seq<Atom>, n: nat, c: nat)
    requires AllMatch(conditions, atoms) && n < |atoms| && c == n + 1
    ensures var before := PickOf(conditions, k, atoms[..n]);
            PickOf(conditions, k, atoms[..c]) ==
            if n == k then before else before + [Bindings(conditions[n], atoms[n], |atoms[n].args|)]
  {
    var first := atoms[..c];
    assert first[..n] == atoms[..n] && first[n] == atoms[n];
  }

  lemma EnteredSelf(rule: Rule, atoms: seq<Atom>, k: nat, n: nat, args: seq<Arg>)
    requires k < |atoms| && n == k + 1 && Entered(rule, atoms, k, k, args)
    ensures Entered(rule, atoms, k, n, args)
  {
  }

  lemma PickNext(rule: Rule, atoms: seq<Atom>, k: nat, args: seq<Arg>, n: nat, pick: seq<seq<Binding>>)
    requires ValidRule(rule) && AllMatch(rule.conditions, atoms) && Agree(rule.conditions, atoms)
    requires k < |atoms| && n < |atoms| && n != k && Entered(rule, atoms, k, n, Assigned(args, Chained(pick)))
    ensures Entered(rule, atoms, k, n + 1,
                    Assigned(args, Chained(pick + [Bindings(rule.conditions[n], atoms[n], |atoms[n].args|)])))
  {
    var c, a := rule.conditions[n], atoms[n];
    var bs, r := Bindings(c, a, |a.args|), Assigned(args, Chained(pick));
    ChainedSnoc(pick, bs);
    AssignedConcat(args, Chained(pick), bs);
    AssignedBindings(r, c, a, |a.args|);
    EnterNext(rule, atoms, k, n, r);
  }

  lemma ChainedSnoc(pick: seq<seq<Binding>>, bs: seq<Binding>)
    ensures Chained(pick + [bs]) == Chained(pick) + bs
  {
    assert (pick + [bs])[..|pick + [bs]| - 1] == pick;
  }
}
