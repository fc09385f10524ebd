/** Grounded actions over atoms, and the encoding of a set of atoms by one value per group. */
module Strips {
  import opened Sas

  datatype Atom = Atom(symbol: string, args: seq<string>)

  datatype Literal = Literal(atom: Atom, negated: bool)

  /** An effect on one atom and the condition under which it happens. */
  datatype AtomEffect = AtomEffect(conditions: seq<Literal>, fact: Atom)

  datatype Action = Action(precondition: seq<Literal>, adds: seq<AtomEffect>, dels: seq<AtomEffect>, cost: nat)

  type Atoms = set<Atom>

  predicate LiteralHolds(l: Literal, s: Atoms) {
    (l.atom in s) != l.negated
  }

  ghost predicate LiteralsHold(ls: seq<Literal>, s: Atoms) {
    forall l | l in ls :: LiteralHolds(l, s)
  }

  function Negate(l: Literal): Literal {
    l.(negated := !l.negated)
  }

  /** The facts of the effects whose condition holds. */
  ghost function Triggered(effects: seq<AtomEffect>, s: Atoms): Atoms {
    set e | e in effects && LiteralsHold(e.conditions, s) :: e.fact
  }

  /** Deletes first, then adds. */
  ghost function Result(a: Action, s: Atoms): Atoms {
    s - Triggered(a.dels, s) + Triggered(a.adds, s)
  }

  // ---- groups ----

  /** No two entries of the group are true. */
  ghost predicate RespectsGroup(group: seq<Atom>, s: Atoms) {
    forall i, j | 0 <= i < j < |group| :: !(group[i] in s && group[j] in s)
  }

  ghost predicate Respects(groups: seq<seq<Atom>>, s: Atoms) {
    forall g | g in groups :: RespectsGroup(g, s)
  }

  /** The position of the true atom, or the length of the group when none is true. */
  function Value(group: seq<Atom>, s: Atoms): (x: nat)
    ensures x <= |group|
  {
    if group == [] || group[0] in s then 0 else 1 + Value(group[1..], s)
  }

  function Encode(groups: seq<seq<Atom>>, s: Atoms): (e: State)
    ensures |e| == |groups|
    ensures forall v | 0 <= v < |groups| :: e[v] == Value(groups[v], s)
  {
    seq(|groups|, v requires 0 <= v < |groups| => Value(groups[v], s))
  }

  lemma {:induction false} ValueNames(group: seq<Atom>, s: Atoms)
    requires RespectsGroup(group, s)
    ensures forall x: nat | x < |group| :: Value(group, s) == x <==> group[x] in s
  {
    if group != [] {
      assert forall i, j | 0 <= i < j < |group[1..]| :: group[1..][i] == group[i + 1] && group[1..][j] == group[j + 1];
      ValueNames(group[1..], s);
      assert forall x: nat | 0 < x < |group| :: group[1..][x - 1] == group[x];
    }
  }

  type Dictionary = map<Atom, seq<Fact>>

  /** The dictionary lists exactly the places of every atom; a group mentions no atom twice. */
  ghost predicate ValidDictionary(groups: seq<seq<Atom>>, dict: Dictionary, ranges: seq<nat>) {
    && |ranges| == |groups| && (forall v | 0 <= v < |groups| :: ranges[v] == |groups[v]| + 1)
    && (forall a, f {:trigger f in dict[a]} | a in dict && f in dict[a] :: f.v < |groups| && f.x < |groups[f.v]| && groups[f.v][f.x] == a)
    && (forall v, x | 0 <= v < |groups| && 0 <= x < |groups[v]| :: groups[v][x] in dict && Fact(v, x) in dict[groups[v][x]])
    && (forall a | a in dict :: dict[a] != [] && DistinctFacts(dict[a]))
  }

  /** An atom is true exactly when the encoded state has the value at any of its places. */
  lemma AtomValue(groups: seq<seq<Atom>>, dict: Dictionary, ranges: seq<nat>, s: Atoms, a: Atom, f: Fact)
    requires ValidDictionary(groups, dict, ranges) && Respects(groups, s) && a in dict && f in dict[a]
    ensures a in s <==> Holds(Encode(groups, s), f)
  {
    assert groups[f.v] in groups;
    ValueNames(groups[f.v], s);
  }

  lemma EncodedValid(groups: seq<seq<Atom>>, dict: Dictionary, ranges: seq<nat>, s: Atoms)
    requires ValidDictionary(groups, dict, ranges)
    ensures ValidState(ranges, Encode(groups, s))
  {
  }
}
