/** Filling in the effect of a rule, the queue of atoms, and what firing a rule has to add to it
    (build_model.py:54-61, 99-111, 279-298). */
module Firing {
  import opened Datalog
  import opened Collections
  import Strips

  // ---- filling in the effect ----

  /** The effect arguments after the objects of the atom replaced the numbers of the first `k`
      arguments of the condition. */
  function Overwritten(effect: seq<Arg>, c: Pattern, a: Atom, k: nat): (r: seq<Arg>)
    requires k <= |c.args| == |a.args|
    ensures |r| == |effect|
  {
    if k == 0 then effect
    else
      var r := Overwritten(effect, c, a, k - 1);
      if c.args[k - 1].Var? && c.args[k - 1].no < |r| then r[c.args[k - 1].no := Const(a.args[k - 1])] else r
  }

  lemma {:induction false} OverwrittenMisses(effect: seq<Arg>, c: Pattern, a: Atom, k: nat, n: nat)
    requires k <= |c.args| == |a.args| && n < |effect| && forall p | 0 <= p < k :: c.args[p] != Var(n)
    ensures Overwritten(effect, c, a, k)[n] == effect[n]
  {
    if k > 0 {
      OverwrittenMisses(effect, c, a, k - 1, n);
    }
  }

  lemma {:induction false} OverwrittenHits(effect: seq<Arg>, c: Pattern, a: Atom, k: nat, n: nat, p: nat)
    requires k <= |c.args| == |a.args| && n < |effect|
    requires p < k && c.args[p] == Var(n) && forall q | p < q < k :: c.args[q] != Var(n)
    ensures Overwritten(effect, c, a, k)[n] == Const(a.args[p])
  {
    if p < k - 1 {
      OverwrittenHits(effect, c, a, k - 1, n, p);
    }
  }

  /** The effect arguments carry the objects of the atom for condition `i`. */
  ghost predicate HoldsAt(conditions: seq<Pattern>, i: nat, a: Atom, args: seq<Arg>) {
    forall p: nat, n: nat | OccursAt(conditions, i, p, Var(n)) :: n < |args| && p < |a.args| && args[n] == Const(a.args[p])
  }

  ghost predicate KeepsConstants(rule: Rule, args: seq<Arg>) {
    |args| == |rule.effect.args| && forall n | 0 <= n < |args| && rule.effect.args[n].Const? :: args[n] == rule.effect.args[n]
  }

  /** Entering an atom keeps the constants of the effect. */
  lemma OverwriteEnters(rule: Rule, a: Atom, j: nat, args: seq<Arg>)
    requires ValidRule(rule) && j < |rule.conditions| && |a.args| == |rule.conditions[j].args| && KeepsConstants(rule, args)
    ensures var r := Overwritten(args, rule.conditions[j], a, |a.args|);
            KeepsConstants(rule, r) && HoldsAt(rule.conditions, j, a, r)
  {
    var c := rule.conditions[j];
    var r := Overwritten(args, c, a, |a.args|);
    forall n | 0 <= n < |args| && rule.effect.args[n].Const?
      ensures r[n] == args[n]
    {
      forall p | 0 <= p < |c.args|
        ensures c.args[p] != Var(n)
      {
        assert OccursAt(rule.conditions, j, p, c.args[p]);
      }
      OverwrittenMisses(args, c, a, |c.args|, n);
    }
    forall p: nat, n: nat | OccursAt(rule.conditions, j, p, Var(n))
      ensures n < |r| && r[n] == Const(a.args[p])
    {
      OverwriteHits(rule, a, j, p, n, args);
    }
  }

  /** Entering an atom that agrees with one entered before keeps the latter. */
  lemma OverwriteKeeps(rule: Rule, atoms: seq<Atom>, i: nat, j: nat, args: seq<Arg>)
    requires ValidRule(rule) && AllMatch(rule.conditions, atoms) && Agree(rule.conditions, atoms)
    requires i < |atoms| && j < |atoms| && KeepsConstants(rule, args) && HoldsAt(rule.conditions, i, atoms[i], args)
    ensures HoldsAt(rule.conditions, i, atoms[i], Overwritten(args, rule.conditions[j], atoms[j], |atoms[j].args|))
  {
    forall p: nat, n: nat | OccursAt(rule.conditions, i, p, Var(n))
      ensures Overwritten(args, rule.conditions[j], atoms[j], |atoms[j].args|)[n] == Const(atoms[i].args[p])
    {
      OverwriteAgrees(rule, atoms, i, j, p, n, args);
    }
  }

  lemma OverwriteHits(rule: Rule, a: Atom, j: nat, p: nat, n: nat, args: seq<Arg>)
    requires ValidRule(rule) && OccursAt(rule.conditions, j, p, Var(n)) && |a.args| == |rule.conditions[j].args|
    requires |args| == |rule.effect.args|
    ensures n < |args| && Overwritten(args, rule.conditions[j], a, |a.args|)[n] == Const(a.args[p])
  {
    var c := rule.conditions[j];
    forall q | p < q < |c.args|
      ensures c.args[q] != Var(n)
    {
      assert c.args[q] == Var(n) ==> OccursAt(rule.conditions, j, q, Var(n));
    }
    OverwrittenHits(args, c, a, |a.args|, n, p);
  }

  lemma OverwriteAgrees(rule: Rule, atoms: seq<Atom>, i: nat, j: nat, p: nat, n: nat, args: seq<Arg>)
    requires ValidRule(rule) && AllMatch(rule.conditions, atoms) && Agree(rule.conditions, atoms)
    requires i < |atoms| && j < |atoms| && |args| == |rule.effect.args| && n < |args|
    requires OccursAt(rule.conditions, i, p, Var(n)) && args[n] == Const(atoms[i].args[p])
    ensures Overwritten(args, rule.conditions[j], atoms[j], |rule.conditions[j].args|)[n] == Const(atoms[i].args[p])
  {
    var c := rule.conditions[j];
    if q: nat :| q < |c.args| && c.args[q] == Var(n) {
      assert OccursAt(rule.conditions, j, q, Var(n));
      OverwriteHits(rule, atoms[j], j, q, n, args);
      assert AgreeOn(rule.conditions, atoms, Var(n));
    } else {
      OverwrittenMisses(args, c, atoms[j], |c.args|, n);
    }
  }

  predicate Filled(args: seq<Arg>) {
    forall n | 0 <= n < |args| :: args[n].Const?
  }

  function Objects(args: seq<Arg>): (r: seq<string>)
    requires Filled(args)
    ensures |r| == |args| && forall n | 0 <= n < |r| :: r[n] == args[n].name
  {
    seq(|args|, n requires 0 <= n < |args| => args[n].name)
  }

  /** Once every condition is entered, the arguments are those of the effect. */
  lemma FilledIn(rule: Rule, atoms: seq<Atom>, args: seq<Arg>)
    requires ValidRule(rule) && AllMatch(rule.conditions, atoms) && Agree(rule.conditions, atoms) && KeepsConstants(rule, args)
    requires forall i | 0 <= i < |atoms| :: HoldsAt(rule.conditions, i, atoms[i], args)
    ensures Filled(args) && Strips.Atom(rule.effect.symbol, Objects(args)) == EffectOf(rule, atoms)
  {
    forall n | 0 <= n < |args|
      ensures args[n] == Const(EffectOf(rule, atoms).args[n])
    {
      EffectOfAt(rule, atoms, n);
      if !rule.effect.args[n].Const? {
        var i: nat, p: nat :| OccursAt(rule.conditions, i, p, Var(n));
        LookUpAt(rule.conditions, atoms, Var(n), i, p);
        assert HoldsAt(rule.conditions, i, atoms[i], args);
      }
    }
    assert Objects(args) == EffectOf(rule, atoms).args;
  }

  // ---- the queue ----

  function Enqueued(queue: seq<Atom>, a: Atom): seq<Atom> {
    if a in queue then queue else queue + [a]
  }

  class Queue {
    var queue: seq<Atom>
    var pos: nat
    var enqueued: set<Atom>
    var pushes: nat

    ghost predicate Valid()
      reads this
    {
      pos <= |queue| && forall a :: a in enqueued <==> a in queue
    }

    constructor (atoms: seq<Atom>)
      ensures Valid() && queue == atoms && pos == 0
    {
      queue, pos, pushes := atoms, 0, |atoms|;
      enqueued := set a | a in atoms;
    }

    method Push(symbol: string, args: seq<string>)
      requires Valid()
      modifies this
      ensures Valid() && queue == Enqueued(old(queue), Strips.Atom(symbol, args)) && pos == old(pos)
    {
      pushes := pushes + 1;
      var a := Strips.Atom(symbol, args);
      if a !in enqueued {
        enqueued := enqueued + {a};
        queue := queue + [a];
      }
    }

    method Pop() returns (a: Atom)
      requires Valid() && pos < |queue|
      modifies this
      ensures Valid() && queue == old(queue) && a == old(queue[pos]) && pos == old(pos) + 1 && enqueued == old(enqueued)
    {
      a := queue[pos];
      pos := pos + 1;
    }
  }

  // ---- firing ----

  /** The atoms each condition has been given. */
  type Seen = seq<seq<Atom>>

  ghost predicate ValidSeen(conditions: seq<Pattern>, seen: Seen) {
    |seen| == |conditions| && forall i, a | 0 <= i < |seen| && a in seen[i] :: Matches(conditions[i], a)
  }

  /** One given atom for every condition, equal on shared numbered variables. */
  ghost predicate Combination(rule: Rule, seen: Seen, atoms: seq<Atom>) {
    && |atoms| == |rule.conditions| == |seen| && (forall i | 0 <= i < |atoms| :: atoms[i] in seen[i])
    && AllMatch(rule.conditions, atoms) && Agree(rule.conditions, atoms)
  }

  /** The combination has the new atom for condition `k`. */
  ghost predicate Uses(rule: Rule, seen: Seen, x: Atom, k: nat, atoms: seq<Atom>) {
    Combination(rule, seen, atoms) && k < |atoms| && atoms[k] == x
  }

  ghost predicate Grown(before: seq<Atom>, after: seq<Atom>) {
    before <= after && forall i | |before| <= i < |after| :: after[i] !in after[..i]
  }

  ghost predicate Explained(rule: Rule, seen: Seen, x: Atom, k: nat, a: Atom) {
    exists atoms :: Uses(rule, seen, x, k, atoms) && EffectOf(rule, atoms) == a
  }

  /** The queue got the effects of the combinations in `done` that use the new atom, and nothing but
      effects of such combinations. */
  ghost predicate FiredFor(rule: Rule, seen: Seen, x: Atom, k: nat, before: seq<Atom>, after: seq<Atom>, done: iset<seq<Atom>>) {
    && Grown(before, after)
    && (forall atoms | atoms in done && Uses(rule, seen, x, k, atoms) :: EffectOf(rule, atoms) in after)
    && (forall a | a in after && a !in before :: Explained(rule, seen, x, k, a))
  }

  ghost predicate Fired(rule: Rule, seen: Seen, x: Atom, k: nat, before: seq<Atom>, after: seq<Atom>) {
    && Grown(before, after)
    && (forall atoms | Uses(rule, seen, x, k, atoms) :: EffectOf(rule, atoms) in after)
    && (forall a | a in after && a !in before :: Explained(rule, seen, x, k, a))
  }

  lemma FireStep(rule: Rule, seen: Seen, x: Atom, k: nat, before: seq<Atom>, after: seq<Atom>, done: iset<seq<Atom>>,
                 a: Atom, next: iset<seq<Atom>>)
    requires FiredFor(rule, seen, x, k, before, after, done) && Explained(rule, seen, x, k, a)
    requires forall atoms | atoms in next && atoms !in done && Uses(rule, seen, x, k, atoms) :: EffectOf(rule, atoms) == a
    ensures FiredFor(rule, seen, x, k, before, Enqueued(after, a), next)
  {
    var queue := Enqueued(after, a);
    assert forall i | |before| <= i < |after| :: queue[..i] == after[..i];
    assert a !in after ==> queue[..|after|] == after;
  }
}
