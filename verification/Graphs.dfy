/** Directed graphs as adjacency lists, reachability, and what a decomposition into strongly
    connected components is. */
module Graphs {

  type Graph = seq<seq<nat>>

  predicate ValidGraph(g: Graph) {
    forall u, c | 0 <= u < |g| && 0 <= c < |g[u]| :: g[u][c] < |g|
  }

  predicate Edge(g: Graph, u: nat, v: nat) {
    u < |g| && v in g[u]
  }

  ghost predicate Walk(g: Graph, p: seq<nat>) {
    |p| > 0 && forall i | 0 <= i < |p| - 1 :: Edge(g, p[i], p[i + 1])
  }

  ghost predicate Reach(g: Graph, u: nat, v: nat) {
    exists p | Walk(g, p) :: p[0] == u && p[|p| - 1] == v
  }

  ghost predicate Mutual(g: Graph, u: nat, v: nat) {
    Reach(g, u, v) && Reach(g, v, u)
  }

  lemma ReachSelf(g: Graph, u: nat)
    ensures Reach(g, u, u)
  {
    assert Walk(g, [u]);
  }

  lemma ReachEdge(g: Graph, u: nat, v: nat)
    requires Edge(g, u, v)
    ensures Reach(g, u, v)
  {
    assert Walk(g, [u, v]);
  }

  lemma ReachTransitive(g: Graph, u: nat, v: nat, w: nat)
    requires Reach(g, u, v) && Reach(g, v, w)
    ensures Reach(g, u, w)
  {
    var p :| Walk(g, p) && p[0] == u && p[|p| - 1] == v;
    var q :| Walk(g, q) && q[0] == v && q[|q| - 1] == w;
    var r := p + q[1..];
    forall i | 0 <= i < |r| - 1
      ensures Edge(g, r[i], r[i + 1])
    {
      if i < |p| - 1 {
        assert Edge(g, p[i], p[i + 1]);
      } else {
        assert r[i] == q[i - |p| + 1] && Edge(g, q[i - |p| + 1], q[i - |p| + 2]);
      }
    }
    assert r[|r| - 1] == w;
  }

  /** A rank that no edge increases is not increased along any walk, and is defined on the whole walk. */
  lemma {:induction false} RankAlongWalk(g: Graph, rank: map<nat, nat>, p: seq<nat>)
    requires Walk(g, p) && p[0] in rank
    requires forall u, v | u in rank && Edge(g, u, v) :: v in rank && rank[v] <= rank[u]
    ensures p[|p| - 1] in rank && rank[p[|p| - 1]] <= rank[p[0]]
    decreases |p|
  {
    if |p| > 1 {
      assert Edge(g, p[0], p[1]);
      forall i | 0 <= i < |p[1..]| - 1
        ensures Edge(g, p[1..][i], p[1..][i + 1])
      {
        assert Edge(g, p[i + 1], p[i + 2]);
      }
      RankAlongWalk(g, rank, p[1..]);
    }
  }

  predicate Distinct(xs: seq<nat>) {
    forall i, j | 0 <= i < j < |xs| :: xs[i] != xs[j]
  }

  predicate InSomeBlock(blocks: seq<seq<nat>>, v: nat) {
    exists b | b in blocks :: v in b
  }

  /** The blocks partition the nodes; two nodes share a block iff each reaches the other; whatever a
      node reaches lies in its block or a later one. */
  ghost predicate SccOrder(g: Graph, blocks: seq<seq<nat>>) {
    && (forall i | 0 <= i < |blocks| :: blocks[i] != [] && Distinct(blocks[i]))
    && (forall i, v | 0 <= i < |blocks| && v in blocks[i] :: v < |g|)
    && (forall v: nat | v < |g| :: InSomeBlock(blocks, v))
    && (forall i, j, u, v | 0 <= i < |blocks| && 0 <= j < |blocks| && u in blocks[i] && v in blocks[j] ::
          (i == j <==> Mutual(g, u, v)) && (Reach(g, u, v) ==> i <= j))
  }
}
