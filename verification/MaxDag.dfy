/** Greedy order of the nodes of a component by incoming weight, with a queue whose outdated entries
    are dropped lazily (variable_order.py:117-179). */
module MaxDag {
  import opened Collections

  /** An edge to a node with its weight; the weight of an edge to a goal variable is listed a second
      time with 100000 added. */
  datatype Arc = Arc(target: nat, weight: nat)

  type Graph = map<nat, seq<Arc>>

  function ArcsOf(g: Graph, v: nat): seq<Arc> {
    if v in g then g[v] else []
  }

  ghost predicate ValidGraph(g: Graph, nodes: seq<nat>) {
    && (forall i, j | 0 <= i < j < |nodes| :: nodes[i] != nodes[j])
    && forall v, a | v in g && a in g[v] :: a.target in nodes
  }

  type Weights = map<nat, int>

  function Weight(w: Weights, v: nat): int {
    if v in w then w[v] else 0
  }

  function Taken(order: seq<nat>): set<nat> {
    set v | v in order
  }

  /** The weight of the arcs into `v`. */
  function ArcSum(arcs: seq<Arc>, v: nat): nat {
    if arcs == [] then 0 else ArcSum(arcs[..|arcs| - 1], v) + if arcs[|arcs| - 1].target == v then arcs[|arcs| - 1].weight else 0
  }

  function Incoming(g: Graph, nodes: seq<nat>, v: nat): nat {
    if nodes == [] then 0 else Incoming(g, nodes[..|nodes| - 1], v) + ArcSum(ArcsOf(g, nodes[|nodes| - 1]), v)
  }

  /** What the arcs into `v` count when their source is taken: the mark of a goal variable stays. */
  function Unmarked(arcs: seq<Arc>, v: nat): nat {
    if arcs == [] then 0
    else Unmarked(arcs[..|arcs| - 1], v) + if arcs[|arcs| - 1].target == v then arcs[|arcs| - 1].weight % 100000 else 0
  }

  function UnmarkedFrom(g: Graph, order: seq<nat>, v: nat): nat {
    if order == [] then 0 else UnmarkedFrom(g, order[..|order| - 1], v) + Unmarked(ArcsOf(g, order[|order| - 1]), v)
  }

  /** The weight of `v` once the nodes of `order` are taken. */
  function WeightLeft(g: Graph, nodes: seq<nat>, order: seq<nat>, v: nat): int {
    Incoming(g, nodes, v) - UnmarkedFrom(g, order, v)
  }

  /** Every node was, when taken, of least weight left among the nodes not taken yet. */
  ghost predicate GreedyOrder(g: Graph, nodes: seq<nat>, order: seq<nat>) {
    forall k | 0 <= k < |order| ::
      && order[k] in nodes && order[k] !in order[..k]
      && forall v | v in nodes && v !in order[..k] :: WeightLeft(g, nodes, order[..k], order[k]) <= WeightLeft(g, nodes, order[..k], v)
  }

  /** A key of the heap. */
  datatype Key = Key(weight: int)

  type Buckets = map<Key, seq<nat>>

  /** Every node not done waits under its current weight; older entries have larger weights. */
  ghost predicate Queued(nodes: seq<nat>, w: Weights, done: set<nat>, q: Buckets) {
    && (forall key | key in q :: q[key] != [])
    && (forall v | v in nodes && v !in done :: Key(Weight(w, v)) in q && v in q[Key(Weight(w, v))])
    && (forall key, v | key in q && v in q[key] :: v in nodes && (v in done || Weight(w, v) <= key.weight))
  }

  function Entries(q: Buckets, key: Key): seq<nat> {
    if key in q then q[key] else []
  }

  /** A node whose weight was lowered gets a new entry. */
  lemma EntryAdded(nodes: seq<nat>, w: Weights, done: set<nat>, q: Buckets, v: nat, weight: int)
    requires Queued(nodes, w, done, q) && v in nodes && v !in done && weight <= Weight(w, v)
    ensures Queued(nodes, w[v := weight], done, q[Key(weight) := Entries(q, Key(weight)) + [v]])
  {
  }

  method IncomingWeights(g: Graph, nodes: seq<nat>) returns (w: Weights)
    ensures forall v: nat :: Weight(w, v) == Incoming(g, nodes, v)
  {
    w := map[];
    for i := 0 to |nodes|
      invariant forall v: nat :: Weight(w, v) == Incoming(g, nodes[..i], v)
    {
      ghost var before := w;
      var arcs := ArcsOf(g, nodes[i]);
      for j := 0 to |arcs|
        invariant forall v: nat :: Weight(w, v) == Weight(before, v) + ArcSum(arcs[..j], v)
      {
        assert arcs[..j + 1][..j] == arcs[..j];
        w := w[arcs[j].target := Weight(w, arcs[j].target) + arcs[j].weight];
      }
      assert arcs[..|arcs|] == arcs && nodes[..i + 1][..i] == nodes[..i];
    }
    assert nodes[..|nodes|] == nodes;
  }

  method InitialQueue(nodes: seq<nat>, w: Weights) returns (q: Buckets)
    ensures Queued(nodes, w, {}, q)
  {
    q := map[];
    for i := 0 to |nodes|
      invariant forall key | key in q :: q[key] != []
      invariant forall j | 0 <= j < i :: Key(Weight(w, nodes[j])) in q && nodes[j] in q[Key(Weight(w, nodes[j]))]
      invariant forall key, v | key in q && v in q[key] :: v in nodes && Weight(w, v) == key.weight
    {
      var key := Key(Weight(w, nodes[i]));
      q := q[key := Entries(q, key) + [nodes[i]]];
    }
  }

  lemma {:induction false} LeastExists(keys: set<Key>) returns (key: Key)
    requires keys != {}
    ensures key in keys && forall k | k in keys :: key.weight <= k.weight
  {
    key :| key in keys;
    if keys != {key} {
      var other := LeastExists(keys - {key});
      key := if other.weight < key.weight then other else key;
    }
  }

  /** weights[0] of the heap */
  method LeastKey(q: Buckets) returns (key: Key)
    requires q != map[]
    ensures key in q && forall k | k in q :: key.weight <= k.weight
  {
    ghost var least := LeastExists(q.Keys);
    key :| key in q && forall k | k in q.Keys :: key.weight <= k.weight;
  }

  /** Drop outdated entries of the least bucket until a node that is not done is found. */
  method TakeNode(nodes: seq<nat>, w: Weights, done: set<nat>, q0: Buckets) returns (found: bool, v: nat, q: Buckets)
    requires Queued(nodes, w, done, q0) && q0 != map[]
    ensures found ==> v in nodes && v !in done && forall u | u in nodes && u !in done :: Weight(w, v) <= Weight(w, u)
    ensures found ==> Queued(nodes, w, done + {v}, q)
    ensures !found ==> Queued(nodes, w, done, q) && q.Keys < q0.Keys
  {
    var key := LeastKey(q0);
    var entries := q0[key];
    v := entries[0];
    entries := entries[1..];
    while entries != [] && (v in done || key.weight > Weight(w, v))
      invariant v in q0[key] && forall x | x in q0[key] && x !in done :: x == v || x in entries
      invariant forall x | x in entries :: x in q0[key]
      decreases |entries|
    {
      v := entries[0];
      entries := entries[1..];
    }
    q := if entries == [] then q0 - {key} else q0[key := entries];
    found := v !in done;
    TakenLeast(nodes, w, done, q0, key, v);
  }

  /** A waiting node in the least bucket waits under its current weight, which is the least. */
  lemma TakenLeast(nodes: seq<nat>, w: Weights, done: set<nat>, q: Buckets, key: Key, v: nat)
    requires Queued(nodes, w, done, q) && key in q && v in q[key] && forall k | k in q :: key.weight <= k.weight
    ensures v !in done ==> v in nodes && Weight(w, v) == key.weight && forall u | u in nodes && u !in done :: key.weight <= Weight(w, u)
  {
  }

  /** Lower the weights of the successors of a node and enter them again. */
  method Release(nodes: seq<nat>, w0: Weights, done: set<nat>, q0: Buckets, arcs: seq<Arc>) returns (w: Weights, q: Buckets)
    requires Queued(nodes, w0, done, q0) && forall a | a in arcs :: a.target in nodes
    ensures forall v | v !in done :: Weight(w, v) == Weight(w0, v) - Unmarked(arcs, v)
    ensures Queued(nodes, w, done, q)
  {
    w, q := w0, q0;
    for i := 0 to |arcs|
      invariant forall v | v !in done :: Weight(w, v) == Weight(w0, v) - Unmarked(arcs[..i], v)
      invariant Queued(nodes, w, done, q)
    {
      assert arcs[..i + 1][..i] == arcs[..i] && arcs[i] in arcs;
      var target, weight := arcs[i].target, arcs[i].weight % 100000;
      if target !in done && weight != 0 {
        var lower := Weight(w, target) - weight;
        EntryAdded(nodes, w, done, q, target, lower);
        w := w[target := lower];
        q := q[Key(lower) := Entries(q, Key(lower)) + [target]];
      }
    }
    assert arcs[..|arcs|] == arcs;
  }

  lemma GreedyNext(g: Graph, nodes: seq<nat>, order: seq<nat>, v: nat)
    requires GreedyOrder(g, nodes, order) && v in nodes && v !in order
    requires forall u | u in nodes && u !in order :: WeightLeft(g, nodes, order, v) <= WeightLeft(g, nodes, order, u)
    ensures GreedyOrder(g, nodes, order + [v])
  {
    forall k | 0 <= k <= |order|
      ensures (order + [v])[..k] == order[..k]
    {
    }
    assert order[..|order|] == order;
  }

  /** get_result: all nodes, each of least weight left when it is taken. */
  method GetResult(g: Graph, nodes: seq<nat>) returns (order: seq<nat>)
    requires ValidGraph(g, nodes)
    ensures GreedyOrder(g, nodes, order) && forall v :: v in order <==> v in nodes
  {
    var w := IncomingWeights(g, nodes);
    var q := InitialQueue(nodes, w);
    var done: set<nat> := {};
    order := [];
    while q != map[]
      invariant Progressing(g, nodes, order, done, w, q)
      decreases Taken(nodes) - done, q.Keys
    {
      order, done, w, q := Step(g, nodes, order, done, w, q);
    }
    assert forall v | v in nodes :: v in done;
  }

  /** The nodes taken so far, the weights left and the waiting nodes. */
  ghost predicate Progressing(g: Graph, nodes: seq<nat>, order: seq<nat>, done: set<nat>, w: Weights, q: Buckets) {
    && GreedyOrder(g, nodes, order) && done == Taken(order) && (forall v | v in order :: v in nodes)
    && (forall v | v !in done :: Weight(w, v) == WeightLeft(g, nodes, order, v)) && Queued(nodes, w, done, q)
  }

  method Step(g: Graph, nodes: seq<nat>, order0: seq<nat>, done0: set<nat>, weights: Weights, q0: Buckets)
    returns (order: seq<nat>, done: set<nat>, w: Weights, q: Buckets)
    requires ValidGraph(g, nodes) && Progressing(g, nodes, order0, done0, weights, q0) && q0 != map[]
    ensures Progressing(g, nodes, order, done, w, q)
    ensures Taken(nodes) - done < Taken(nodes) - done0 || (done == done0 && q.Keys < q0.Keys)
  {
    order, done, w := order0, done0, weights;
    var found, v;
    found, v, q := TakeNode(nodes, w, done, q0);
    if found {
      done := done + {v};
      order := order + [v];
      NodeTaken(g, nodes, order0, done0, v);
      GreedyNext(g, nodes, order0, v);
      w, q := Release(nodes, w, done, q, ArcsOf(g, v));
      WeightsLowered(g, nodes, order0, v, done, weights, w);
    }
  }

  lemma WeightsLowered(g: Graph, nodes: seq<nat>, order: seq<nat>, v: nat, done: set<nat>, w0: Weights, w: Weights)
    requires forall u | u !in done :: Weight(w0, u) == WeightLeft(g, nodes, order, u)
    requires forall u | u !in done :: Weight(w, u) == Weight(w0, u) - Unmarked(ArcsOf(g, v), u)
    ensures forall u | u !in done :: Weight(w, u) == WeightLeft(g, nodes, order + [v], u)
  {
    assert (order + [v])[..|order|] == order;
  }

  lemma NodeTaken(g: Graph, nodes: seq<nat>, order: seq<nat>, done: set<nat>, v: nat)
    requires ValidGraph(g, nodes) && done == Taken(order) && (forall u | u in order :: u in nodes) && v in nodes && v !in done
    ensures done + {v} == Taken(order + [v])
    ensures Taken(nodes) - (done + {v}) < Taken(nodes) - done
    ensures (forall u | u in order + [v] :: u in nodes) && forall a | a in ArcsOf(g, v) :: a.target in nodes
  {
    assert v in Taken(nodes) - done;
  }

  // ---- the graph of a component, and what the weights mean in it ----

  /** The causal graph with the number of times each edge was counted. */
  type Counts = map<nat, map<nat, nat>>

  predicate HasEdge(counts: Counts, u: nat, v: nat) {
    u in counts && v in counts[u]
  }

  /** What the edge counts, one into a goal variable twice and with a mark. */
  function EdgeSum(counts: Counts, u: nat, targets: set<nat>, goals: set<nat>, v: nat): nat {
    if v !in targets || !HasEdge(counts, u, v) then 0 else if v in goals then 100000 + 2 * counts[u][v] else counts[u][v]
  }

  function EdgeUnmarked(counts: Counts, u: nat, targets: set<nat>, goals: set<nat>, v: nat): nat {
    if v !in targets || !HasEdge(counts, u, v) then 0 else if v in goals then 2 * (counts[u][v] % 100000) else counts[u][v] % 100000
  }

  /** The arcs of `u` count every edge into the targets handled. */
  ghost predicate ArcsFor(counts: Counts, u: nat, targets: set<nat>, goals: set<nat>, arcs: seq<Arc>) {
    && (forall a | a in arcs :: a.target in targets)
    && forall v :: ArcSum(arcs, v) == EdgeSum(counts, u, targets, goals, v) && Unmarked(arcs, v) == EdgeUnmarked(counts, u, targets, goals, v)
  }

  ghost predicate IsSubgraph(counts: Counts, nodes: seq<nat>, goals: set<nat>, g: Graph) {
    g.Keys == Taken(nodes) && forall u | u in nodes :: ArcsFor(counts, u, Taken(nodes), goals, g[u])
  }

  ghost function Handled(counts: Counts, u: nat, nodes: seq<nat>, rest: set<nat>): set<nat> {
    set v | v in nodes && (!HasEdge(counts, u, v) || v !in rest)
  }

  lemma ArcAppended(arcs: seq<Arc>, a: Arc, v: nat)
    ensures ArcSum(arcs + [a], v) == ArcSum(arcs, v) + if a.target == v then a.weight else 0
    ensures Unmarked(arcs + [a], v) == Unmarked(arcs, v) + if a.target == v then a.weight % 100000 else 0
  {
    assert (arcs + [a])[..|arcs|] == arcs;
  }

  lemma EdgeHandled(counts: Counts, u: nat, targets: set<nat>, goals: set<nat>, arcs: seq<Arc>, target: nat)
    requires ArcsFor(counts, u, targets, goals, arcs) && target !in targets && HasEdge(counts, u, target)
    ensures var cost := counts[u][target];
            ArcsFor(counts, u, targets + {target}, goals,
                    (if target in goals then arcs + [Arc(target, 100000 + cost)] else arcs) + [Arc(target, cost)])
  {
    var cost := counts[u][target];
    var marked := if target in goals then arcs + [Arc(target, 100000 + cost)] else arcs;
    forall v
      ensures ArcSum(marked + [Arc(target, cost)], v) == EdgeSum(counts, u, targets + {target}, goals, v)
      ensures Unmarked(marked + [Arc(target, cost)], v) == EdgeUnmarked(counts, u, targets + {target}, goals, v)
    {
      ArcAppended(arcs, Arc(target, 100000 + cost), v);
      ArcAppended(marked, Arc(target, cost), v);
    }
  }

  method Edges(counts: Counts, u: nat, nodes: seq<nat>, goals: set<nat>) returns (arcs: seq<Arc>)
    ensures ArcsFor(counts, u, Taken(nodes), goals, arcs)
  {
    arcs := [];
    var rest := if u in counts then counts[u].Keys else {};
    while rest != {}
      invariant forall v | v in rest :: HasEdge(counts, u, v)
      invariant ArcsFor(counts, u, Handled(counts, u, nodes, rest), goals, arcs)
      decreases rest
    {
      var target :| target in rest;
      var cost := counts[u][target];
      EdgeHandled(counts, u, Handled(counts, u, nodes, rest), goals, arcs, target);
      assert Handled(counts, u, nodes, rest - {target}) ==
             if target in nodes then Handled(counts, u, nodes, rest) + {target} else Handled(counts, u, nodes, rest);
      if target in nodes {
        if target in goals {
          arcs := arcs + [Arc(target, 100000 + cost)];
        }
        arcs := arcs + [Arc(target, cost)];
      }
      rest := rest - {target};
    }
    assert Handled(counts, u, nodes, rest) == Taken(nodes);
  }

  /** The subgraph of a component (variable_order.py:90-102). */
  method Subgraph(counts: Counts, nodes: seq<nat>, goals: set<nat>) returns (g: Graph)
    ensures IsSubgraph(counts, nodes, goals, g)
  {
    g := map[];
    for i := 0 to |nodes|
      invariant g.Keys == Taken(nodes[..i]) && forall u | u in nodes[..i] :: ArcsFor(counts, u, Taken(nodes), goals, g[u])
    {
      assert nodes[..i + 1] == nodes[..i] + [nodes[i]];
      var arcs := Edges(counts, nodes[i], nodes, goals);
      g := g[nodes[i] := arcs];
    }
    assert nodes[..|nodes|] == nodes;
  }

  /** The edges into `v`: each counts as often as it was counted, twice into a goal variable, unless its source is
      taken, and the mark of a goal variable counts for all of them. */
  function EdgesLeft(counts: Counts, nodes: seq<nat>, taken: set<nat>, goals: set<nat>, v: nat): nat {
    if nodes == [] then 0
    else
      var n := |nodes| - 1;
      EdgesLeft(counts, nodes[..n], taken, goals, v) + EdgeLeft(counts, nodes[n], taken, goals, v)
  }

  function EdgeLeft(counts: Counts, u: nat, taken: set<nat>, goals: set<nat>, v: nat): nat {
    if !HasEdge(counts, u, v) then 0
    else
      (if u in taken then 0 else if v in goals then 2 * counts[u][v] else counts[u][v])
      + if v in goals then 100000 else 0
  }

  lemma {:induction false} NothingTaken(counts: Counts, nodes: seq<nat>, first: seq<nat>, goals: set<nat>, g: Graph, v: nat)
    requires IsSubgraph(counts, nodes, goals, g) && v in nodes && forall u | u in first :: u in nodes
    ensures Incoming(g, first, v) == EdgesLeft(counts, first, {}, goals, v)
  {
    if first != [] {
      var n := |first| - 1;
      assert first[n] in nodes;
      NothingTaken(counts, nodes, first[..n], goals, g, v);
    }
  }

  /** Taking one more node, which is listed once. */
  lemma {:induction false} OneMoreTaken(counts: Counts, nodes: seq<nat>, taken: set<nat>, goals: set<nat>, u: nat, v: nat)
    requires (forall i, j | 0 <= i < j < |nodes| :: nodes[i] != nodes[j]) && u !in taken
    ensures EdgesLeft(counts, nodes, taken + {u}, goals, v) ==
            EdgesLeft(counts, nodes, taken, goals, v)
            - if u in nodes then EdgeLeft(counts, u, taken, goals, v) - EdgeLeft(counts, u, taken + {u}, goals, v) else 0
  {
    if nodes != [] {
      var n := |nodes| - 1;
      OneMoreTaken(counts, nodes[..n], taken, goals, u, v);
      assert nodes == nodes[..n] + [nodes[n]];
    }
  }

  /** With counts below 100000, the weight left of a node is the number of times the edges from the nodes not taken were
      counted, twice for a goal variable, and 100000 for every edge into a goal variable. */
  lemma {:induction false} WeightMeans(counts: Counts, nodes: seq<nat>, goals: set<nat>, g: Graph, order: seq<nat>, v: nat)
    requires ValidGraph(g, nodes) && IsSubgraph(counts, nodes, goals, g) && v in nodes
    requires (forall i, j | 0 <= i < j < |order| :: order[i] != order[j]) && forall u | u in order :: u in nodes
    requires forall u | HasEdge(counts, u, v) :: counts[u][v] < 100000
    ensures WeightLeft(g, nodes, order, v) == EdgesLeft(counts, nodes, Taken(order), goals, v)
  {
    if order == [] {
      NothingTaken(counts, nodes, nodes, goals, g, v);
      assert Taken(order) == {};
    } else {
      var n := |order| - 1;
      var u := order[n];
      assert order == order[..n] + [u] && u in order;
      WeightMeans(counts, nodes, goals, g, order[..n], v);
      OneMoreTaken(counts, nodes, Taken(order[..n]), goals, u, v);
      ArcsTaken(counts, nodes, goals, g[u], Taken(order[..n]), u, v);
      assert Taken(order) == Taken(order[..n]) + {u};
    }
  }

  lemma ArcsTaken(counts: Counts, nodes: seq<nat>, goals: set<nat>, arcs: seq<Arc>, taken: set<nat>, u: nat, v: nat)
    requires ArcsFor(counts, u, Taken(nodes), goals, arcs) && v in nodes && u !in taken && (HasEdge(counts, u, v) ==> counts[u][v] < 100000)
    ensures Unmarked(arcs, v) == EdgeLeft(counts, u, taken, goals, v) - EdgeLeft(counts, u, taken + {u}, goals, v)
  {
  }

  /** Each node was, when taken, of least weight by the edges from the nodes not taken. */
  ghost predicate OrderedByEdges(counts: Counts, nodes: seq<nat>, goals: set<nat>, order: seq<nat>) {
    && (forall v :: v in order <==> v in nodes)
    && forall k | 0 <= k < |order| ::
         && order[k] !in order[..k]
         && forall v | v in nodes && v !in order[..k] ::
              EdgesLeft(counts, nodes, Taken(order[..k]), goals, order[k]) <= EdgesLeft(counts, nodes, Taken(order[..k]), goals, v)
  }

  lemma GreedyByEdges(counts: Counts, nodes: seq<nat>, goals: set<nat>, g: Graph, order: seq<nat>)
    requires ValidGraph(g, nodes) && IsSubgraph(counts, nodes, goals, g)
    requires GreedyOrder(g, nodes, order) && forall v :: v in order <==> v in nodes
    requires forall u, v | HasEdge(counts, u, v) :: counts[u][v] < 100000
    ensures OrderedByEdges(counts, nodes, goals, order)
  {
    forall k, v | 0 <= k < |order| && v in nodes && v !in order[..k]
      ensures EdgesLeft(counts, nodes, Taken(order[..k]), goals, order[k]) <= EdgesLeft(counts, nodes, Taken(order[..k]), goals, v)
    {
      PrefixDistinct(order, k);
      WeightMeans(counts, nodes, goals, g, order[..k], order[k]);
      WeightMeans(counts, nodes, goals, g, order[..k], v);
    }
  }

  lemma PrefixDistinct(order: seq<nat>, k: nat)
    requires k <= |order| && forall j | 0 <= j < |order| :: order[j] !in order[..j]
    ensures forall i, j | 0 <= i < j < k :: order[..k][i] != order[..k][j]
  {
    forall i, j | 0 <= i < j < k
      ensures order[i] != order[j]
    {
      assert order[i] == order[..j][i] && order[..j][i] in order[..j];
    }
  }

  /** The order of one component; the counts fit the mark. */
  method OrderComponent(counts: Counts, nodes: seq<nat>, goals: set<nat>) returns (order: seq<nat>)
    requires nodes != [] && forall i, j | 0 <= i < j < |nodes| :: nodes[i] != nodes[j]
    ensures (forall v :: v in order <==> v in nodes) && forall k | 0 <= k < |order| :: order[k] !in order[..k]
    ensures (forall u, v | HasEdge(counts, u, v) :: counts[u][v] < 100000) ==> OrderedByEdges(counts, nodes, goals, order)
  {
    if |nodes| > 1 {
      var g := Subgraph(counts, nodes, goals);
      order := GetResult(g, nodes);
      if forall u, v | HasEdge(counts, u, v) :: counts[u][v] < 100000 {
        GreedyByEdges(counts, nodes, goals, g, order);
      }
    } else {
      order := [nodes[0]];
    }
  }
}
