/** Layers for derived variables from the strongly connected components of their dependencies
    (axiom_rules.py:13-33, 113-126, 166-247). */
module AxiomLayers {
  import opened Sas
  import opened Graphs
  import opened Sccs
  import opened Collections
  import Axioms

  /** Derived variables are numbered from 0; a body atom beyond their number is not derived. */
  datatype Literal = Literal(atom: nat, negated: bool)

  datatype Rule = Rule(head: nat, body: seq<Literal>)

  datatype Strategy = MIN | MAX

  ghost predicate DependsOn(rules: seq<Rule>, n: nat, h: nat, u: nat, negated: bool) {
    u < n && exists r | r in rules :: r.head == h && Literal(u, negated) in r.body
  }

  ghost predicate ValidRules(n: nat, rules: seq<Rule>) {
    forall r | r in rules :: r.head < n
  }

  /** Bodies are never above their heads, and negated body atoms strictly below. */
  ghost predicate ValidLayering(n: nat, rules: seq<Rule>, layers: seq<nat>) {
    && |layers| == n
    && (forall h: nat, u: nat | h < n && DependsOn(rules, n, h, u, false) :: layers[u] <= layers[h])
    && (forall h: nat, u: nat | h < n && DependsOn(rules, n, h, u, true) :: layers[u] < layers[h])
  }

  type Dependencies = seq<set<nat>>

  ghost predicate AreDependencies(n: nat, rules: seq<Rule>, negated: bool, deps: Dependencies) {
    |deps| == n && forall h: nat, u: nat | h < n :: u in deps[h] <==> DependsOn(rules, n, h, u, negated)
  }

  /** The dependencies of one sign. */
  method CollectDependencies(n: nat, rules: seq<Rule>, negated: bool) returns (deps: Dependencies)
    requires ValidRules(n, rules)
    ensures AreDependencies(n, rules, negated, deps)
  {
    deps := seq(n, _ => {});
    for i := 0 to |rules|
      invariant AreDependencies(n, rules[..i], negated, deps)
    {
      var rule := rules[i];
      assert rule in rules && rules[..i + 1] == rules[..i] + [rule];
      DependsNext(rules[..i], n, rule, negated);
      var more := BodyAtoms(n, rule, negated);
      deps := deps[rule.head := deps[rule.head] + more];
    }
    assert rules[..|rules|] == rules;
  }

  method BodyAtoms(n: nat, rule: Rule, negated: bool) returns (atoms: set<nat>)
    ensures forall u: nat :: u in atoms <==> u < n && Literal(u, negated) in rule.body
  {
    atoms := {};
    for j := 0 to |rule.body|
      invariant forall u: nat :: u in atoms <==> u < n && Literal(u, negated) in rule.body[..j]
    {
      var l := rule.body[j];
      assert rule.body[..j + 1] == rule.body[..j] + [l];
      if l.atom < n && l.negated == negated {
        atoms := atoms + {l.atom};
      }
    }
    assert rule.body[..|rule.body|] == rule.body;
  }

  lemma DependsNext(rules: seq<Rule>, n: nat, r: Rule, negated: bool)
    ensures forall h: nat, u: nat :: DependsOn(rules + [r], n, h, u, negated) <==>
              DependsOn(rules, n, h, u, negated) || (u < n && h == r.head && Literal(u, negated) in r.body)
  {
    assert r in rules + [r];
    forall h: nat, u: nat | DependsOn(rules, n, h, u, negated)
      ensures DependsOn(rules + [r], n, h, u, negated)
    {
      var q :| q in rules && q.head == h && Literal(u, negated) in q.body;
      assert q in rules + [r];
    }
  }

  ghost predicate DependencyGraph(n: nat, rules: seq<Rule>, g: Graph) {
    && ValidGraph(g) && |g| == n
    && forall h: nat, u: nat :: Edge(g, h, u) <==> h < n && (DependsOn(rules, n, h, u, false) || DependsOn(rules, n, h, u, true))
  }

  method BuildGraph(n: nat, ghost rules: seq<Rule>, pos: Dependencies, neg: Dependencies) returns (g: Graph)
    requires AreDependencies(n, rules, false, pos) && AreDependencies(n, rules, true, neg)
    ensures DependencyGraph(n, rules, g)
  {
    g := [];
    for h := 0 to n
      invariant |g| == h
      invariant forall i: nat, u: nat | i < h :: u in g[i] <==> u in pos[i] || u in neg[i]
    {
      var successors := ListOf(pos[h] + neg[h]);
      g := g + [successors];
    }
    forall u, c | 0 <= u < |g| && 0 <= c < |g[u]|
      ensures g[u][c] < n
    {
      assert g[u][c] in g[u];
    }
  }

  // ---- layers are constant on components ----

  lemma LayerAlongReach(n: nat, rules: seq<Rule>, layers: seq<nat>, g: Graph, u: nat, v: nat)
    requires ValidLayering(n, rules, layers) && DependencyGraph(n, rules, g) && u < n && Reach(g, u, v)
    ensures v < n && layers[v] <= layers[u]
  {
    var rank: map<nat, nat> := map x: nat | x < n :: layers[x];
    var p :| Walk(g, p) && p[0] == u && p[|p| - 1] == v;
    RankAlongWalk(g, rank, p);
  }

  /** A negative dependency inside a component rules out every layering. */
  lemma NotStratifiable(n: nat, rules: seq<Rule>, g: Graph, h: nat, u: nat)
    requires DependencyGraph(n, rules, g) && h < n && DependsOn(rules, n, h, u, true) && Reach(g, u, h)
    ensures forall layers :: !ValidLayering(n, rules, layers)
  {
    forall layers | ValidLayering(n, rules, layers)
      ensures false
    {
      LayerAlongReach(n, rules, layers, g, u, h);
    }
  }

  // ---- clusters ----

  /** The component of every variable. */
  ghost predicate ClusterOf(n: nat, blocks: seq<seq<nat>>, cluster: seq<nat>) {
    |cluster| == n && forall v | 0 <= v < n :: cluster[v] < |blocks| && v in blocks[cluster[v]]
  }

  method AssignClusters(g: Graph, blocks: seq<seq<nat>>) returns (cluster: seq<nat>)
    requires SccOrder(g, blocks)
    ensures ClusterOf(|g|, blocks, cluster)
  {
    cluster := seq(|g|, _ => 0);
    for b := 0 to |blocks|
      invariant |cluster| == |g|
      invariant forall i, v | 0 <= i < b && v in blocks[i] :: cluster[v] == i
    {
      forall i, v | 0 <= i < b && v in blocks[i]
        ensures v !in blocks[b]
      {
        ReachSelf(g, v);
      }
      cluster := MarkBlock(cluster, blocks[b], b);
    }
    forall v: nat | v < |g|
      ensures cluster[v] < |blocks| && v in blocks[cluster[v]]
    {
      assert InSomeBlock(blocks, v);
      var blk :| blk in blocks && v in blk;
      var i :| 0 <= i < |blocks| && blocks[i] == blk;
    }
  }

  method MarkBlock(cluster0: seq<nat>, block: seq<nat>, b: nat) returns (cluster: seq<nat>)
    requires forall v | v in block :: v < |cluster0|
    ensures |cluster| == |cluster0|
    ensures forall v | 0 <= v < |cluster| :: cluster[v] == if v in block then b else cluster0[v]
  {
    cluster := cluster0;
    for j := 0 to |block|
      invariant |cluster| == |cluster0|
      invariant forall v | 0 <= v < |cluster| :: cluster[v] == if v in block[..j] then b else cluster0[v]
    {
      assert block[j] in block && block[..j + 1] == block[..j] + [block[j]];
      cluster := cluster[block[j] := b];
    }
    assert block[..|block|] == block;
  }

  lemma SameCluster(g: Graph, blocks: seq<seq<nat>>, cluster: seq<nat>, u: nat, v: nat)
    requires SccOrder(g, blocks) && ClusterOf(|g|, blocks, cluster) && u < |g| && v < |g|
    ensures cluster[u] == cluster[v] <==> Mutual(g, u, v)
    ensures Reach(g, u, v) ==> cluster[u] <= cluster[v]
  {
  }

  /** Children of a cluster: other clusters its variables depend on. */
  ghost predicate Children(deps: Dependencies, cluster: seq<nat>, n: nat, children: seq<set<nat>>) {
    forall b: nat, c: nat | b < |children| :: c in children[b] <==> Links(deps, cluster, n, b, c)
  }

  /** A variable below `n` of cluster `b` depends on a variable of another cluster `c`. */
  ghost predicate Links(deps: Dependencies, cluster: seq<nat>, n: nat, b: nat, c: nat) {
    b != c && exists h | 0 <= h < n && h < |deps| && h < |cluster| && cluster[h] == b :: ReadsCluster(deps[h], cluster, c)
  }

  ghost predicate ReadsCluster(atoms: set<nat>, cluster: seq<nat>, c: nat) {
    exists u: nat | u in atoms && u < |cluster| :: cluster[u] == c
  }

  /** The clusters read by one variable; None when its own cluster is among them. */
  method ClustersRead(atoms: set<nat>, cluster: seq<nat>, own: nat) returns (others: set<nat>, inside: set<nat>)
    requires forall u | u in atoms :: u < |cluster|
    ensures forall c: nat :: c in others <==> c != own && ReadsCluster(atoms, cluster, c)
    ensures forall u :: u in inside <==> u in atoms && cluster[u] == own
  {
    others, inside := {}, {};
    var rest := atoms;
    while rest != {}
      invariant rest <= atoms
      invariant forall c: nat :: c in others <==> c != own && ReadsCluster(atoms - rest, cluster, c)
      invariant forall u :: u in inside <==> u in atoms - rest && cluster[u] == own
      decreases rest
    {
      var u :| u in rest;
      ReadsNext(atoms - rest, cluster, u);
      assert atoms - (rest - {u}) == atoms - rest + {u};
      if cluster[u] == own {
        inside := inside + {u};
      } else {
        others := others + {cluster[u]};
      }
      rest := rest - {u};
    }
    assert atoms - rest == atoms;
  }

  lemma ReadsNext(atoms: set<nat>, cluster: seq<nat>, u: nat)
    requires u < |cluster|
    ensures forall c: nat :: ReadsCluster(atoms + {u}, cluster, c) <==> ReadsCluster(atoms, cluster, c) || c == cluster[u]
  {
    assert u in atoms + {u};
    forall c: nat | ReadsCluster(atoms, cluster, c)
      ensures ReadsCluster(atoms + {u}, cluster, c)
    {
      var w: nat :| w in atoms && w < |cluster| && cluster[w] == c;
      assert w in atoms + {u};
    }
  }

  ghost predicate WellDirected(deps: Dependencies, cluster: seq<nat>, n: nat) {
    n <= |deps| == |cluster| && forall h, u | 0 <= h < n && u in deps[h] && u < |cluster| :: cluster[h] != cluster[u]
  }

  /** The links for one sign (axiom_rules.py:196-213).  A negative link within a cluster is an error;
      `h0` and `u0` then name the dependency. */
  method LinkClusters(deps: Dependencies, cluster: seq<nat>, count: nat, negative: bool)
    returns (stratifiable: bool, children: seq<set<nat>>, ghost h0: nat, ghost u0: nat)
    requires |deps| == |cluster| && forall v | 0 <= v < |cluster| :: cluster[v] < count
    requires forall h, u | 0 <= h < |deps| && u in deps[h] :: u < |cluster|
    ensures stratifiable ==> |children| == count && Children(deps, cluster, |deps|, children)
    ensures stratifiable && negative ==> WellDirected(deps, cluster, |deps|)
    ensures !stratifiable ==> negative && h0 < |deps| && u0 in deps[h0] && cluster[h0] == cluster[u0]
  {
    stratifiable, h0, u0 := true, 0, 0;
    children := seq(count, _ => {});
    for h := 0 to |deps|
      invariant |children| == count && Children(deps, cluster, h, children)
      invariant negative ==> WellDirected(deps, cluster, h)
    {
      var others, inside := ClustersRead(deps[h], cluster, cluster[h]);
      if negative && inside != {} {
        u0 :| u0 in inside;
        return false, children, h, u0;
      }
      LinksNext(deps, cluster, h, h + 1, others, children);
      children := children[cluster[h] := children[cluster[h]] + others];
    }
  }

  lemma LinksNext(deps: Dependencies, cluster: seq<nat>, h: nat, c: nat, others: set<nat>, children: seq<set<nat>>)
    requires Children(deps, cluster, h, children) && h < |deps| == |cluster| && cluster[h] < |children| && c == h + 1
    requires forall d: nat :: d in others <==> d != cluster[h] && ReadsCluster(deps[h], cluster, d)
    ensures Children(deps, cluster, c, children[cluster[h] := children[cluster[h]] + others])
  {
    forall b: nat, d: nat | b < |children|
      ensures Links(deps, cluster, c, b, d) <==> Links(deps, cluster, h, b, d) || (b == cluster[h] && d in others)
    {
      if Links(deps, cluster, h, b, d) {
        var i :| 0 <= i < h && i < |deps| && i < |cluster| && cluster[i] == b && ReadsCluster(deps[i], cluster, d);
        assert i < c;
      }
    }
  }

  // ---- layers of clusters ----

  ghost predicate ChildrenLater(children: seq<set<nat>>) {
    forall b, c | 0 <= b < |children| && c in children[b] :: b < c < |children|
  }

  /** The layer of a cluster respects its children. */
  ghost predicate Respects(layer: seq<nat>, pos: seq<set<nat>>, neg: seq<set<nat>>, b: nat)
    requires b < |layer| == |pos| == |neg|
  {
    && (forall c | c in pos[b] && c < |layer| :: layer[c] <= layer[b])
    && (forall c | c in neg[b] && c < |layer| :: layer[c] < layer[b])
  }

  /** Some child forces the layer to be that high. */
  ghost predicate Tight(layer: seq<nat>, pos: seq<set<nat>>, neg: seq<set<nat>>, b: nat)
    requires b < |layer| == |pos| == |neg|
  {
    || layer[b] == 0
    || (exists c | c in pos[b] && c < |layer| :: layer[c] == layer[b])
    || (exists c | c in neg[b] && c < |layer| :: layer[c] + 1 == layer[b])
  }

  /** compute_single_cluster_layer */
  method SingleClusterLayer(layer: seq<nat>, pos: set<nat>, neg: set<nat>) returns (r: nat)
    requires (forall c | c in pos :: c < |layer|) && forall c | c in neg :: c < |layer|
    ensures (forall c | c in pos :: layer[c] <= r) && forall c | c in neg :: layer[c] < r
    ensures r == 0 || (exists c | c in pos :: layer[c] == r) || (exists c | c in neg :: layer[c] + 1 == r)
  {
    r := 0;
    var rest := pos;
    while rest != {}
      invariant rest <= pos && forall c | c in pos - rest :: layer[c] <= r
      invariant r == 0 || exists c | c in pos :: layer[c] == r
      decreases rest
    {
      var c :| c in rest;
      r := if layer[c] > r then layer[c] else r;
      rest := rest - {c};
    }
    rest := neg;
    while rest != {}
      invariant rest <= neg && (forall c | c in pos :: layer[c] <= r) && forall c | c in neg - rest :: layer[c] < r
      invariant r == 0 || (exists c | c in pos :: layer[c] == r) || exists c | c in neg :: layer[c] + 1 == r
      decreases rest
    {
      var c :| c in rest;
      r := if layer[c] + 1 > r then layer[c] + 1 else r;
      rest := rest - {c};
    }
  }

  /** compute_axiom_layers: children are visited before the clusters that read them. */
  method ClusterLayers(pos: seq<set<nat>>, neg: seq<set<nat>>, strategy: Strategy) returns (layer: seq<nat>)
    requires |pos| == |neg| && ChildrenLater(pos) && ChildrenLater(neg)
    ensures |layer| == |pos| && forall b | 0 <= b < |layer| :: Respects(layer, pos, neg, b)
    ensures strategy.MIN? ==> forall b | 0 <= b < |layer| :: Tight(layer, pos, neg, b)
    ensures strategy.MAX? ==> forall b | 0 <= b < |layer| :: layer[b] == |layer| - 1 - b
  {
    var n := |pos|;
    layer := seq(n, _ => 0);
    if strategy.MAX? {
      for b := n downto 0
        invariant |layer| == n && forall c | b <= c < n :: layer[c] == n - 1 - c
      {
        layer := layer[b := n - 1 - b];
      }
    } else {
      for b := n downto 0
        invariant |layer| == n && forall c | b <= c < n :: Respects(layer, pos, neg, c) && Tight(layer, pos, neg, c)
      {
        var l := SingleClusterLayer(layer, pos[b], neg[b]);
        ghost var before := layer;
        layer := layer[b := l];
        LayerSet(before, layer, pos, neg, b);
      }
    }
  }

  lemma LayerSet(before: seq<nat>, layer: seq<nat>, pos: seq<set<nat>>, neg: seq<set<nat>>, b: nat)
    requires b < |layer| && b < |before| == |pos| == |neg| && layer == before[b := layer[b]] && ChildrenLater(pos) && ChildrenLater(neg)
    requires forall c | b < c < |before| :: Respects(before, pos, neg, c) && Tight(before, pos, neg, c)
    requires (forall c | c in pos[b] :: before[c] <= layer[b]) && forall c | c in neg[b] :: before[c] < layer[b]
    requires layer[b] == 0 || (exists c | c in pos[b] :: before[c] == layer[b]) || (exists c | c in neg[b] :: before[c] + 1 == layer[b])
    ensures forall c | b <= c < |layer| :: Respects(layer, pos, neg, c) && Tight(layer, pos, neg, c)
  {
    forall c | b <= c < |layer|
      ensures Respects(layer, pos, neg, c) && Tight(layer, pos, neg, c)
    {
      assert forall d | d in pos[c] || d in neg[c] :: layer[d] == before[d];
      if c > b {
        assert Respects(before, pos, neg, c) && Tight(before, pos, neg, c);
      }
    }
  }

  // ---- the whole computation ----

  /** Everything the layers are computed from. */
  ghost predicate Clustered(n: nat, rules: seq<Rule>, g: Graph, blocks: seq<seq<nat>>, cluster: seq<nat>,
                            pos: Dependencies, neg: Dependencies, posChildren: seq<set<nat>>, negChildren: seq<set<nat>>) {
    && DependencyGraph(n, rules, g) && SccOrder(g, blocks) && ClusterOf(n, blocks, cluster)
    && AreDependencies(n, rules, false, pos) && AreDependencies(n, rules, true, neg)
    && |posChildren| == |negChildren| == |blocks|
    && Children(pos, cluster, n, posChildren) && Children(neg, cluster, n, negChildren)
    && WellDirected(neg, cluster, n)
  }

  function PerVariable(layer: seq<nat>, cluster: seq<nat>): (r: seq<nat>)
    requires forall v | 0 <= v < |cluster| :: cluster[v] < |layer|
    ensures |r| == |cluster| && forall v | 0 <= v < |r| :: r[v] == layer[cluster[v]]
  {
    seq(|cluster|, v requires 0 <= v < |cluster| => layer[cluster[v]])
  }

  lemma LinkLater(n: nat, rules: seq<Rule>, g: Graph, blocks: seq<seq<nat>>, cluster: seq<nat>, deps: Dependencies, negated: bool,
                  children: seq<set<nat>>)
    requires DependencyGraph(n, rules, g) && SccOrder(g, blocks) && ClusterOf(n, blocks, cluster)
    requires AreDependencies(n, rules, negated, deps) && |children| == |blocks| && Children(deps, cluster, n, children)
    ensures ChildrenLater(children)
  {
    forall b, c | 0 <= b < |children| && c in children[b]
      ensures b < c < |children|
    {
      assert Links(deps, cluster, n, b, c);
      var h: nat :| h < n && cluster[h] == b && ReadsCluster(deps[h], cluster, c);
      var u: nat :| u in deps[h] && u < n && cluster[u] == c;
      assert DependsOn(rules, n, h, u, negated);
      ReachEdge(g, h, u);
      SameCluster(g, blocks, cluster, h, u);
    }
  }

  lemma LinkExists(n: nat, rules: seq<Rule>, cluster: seq<nat>, deps: Dependencies, negated: bool, children: seq<set<nat>>, h: nat, u: nat)
    requires AreDependencies(n, rules, negated, deps) && |cluster| == n && Children(deps, cluster, n, children)
    requires h < n && u < n && DependsOn(rules, n, h, u, negated) && cluster[h] != cluster[u] && cluster[h] < |children|
    ensures cluster[u] in children[cluster[h]]
  {
    assert u in deps[h];
    assert ReadsCluster(deps[h], cluster, cluster[u]);
    assert Links(deps, cluster, n, cluster[h], cluster[u]);
  }

  lemma LayersValid(n: nat, rules: seq<Rule>, g: Graph, blocks: seq<seq<nat>>, cluster: seq<nat>,
                    pos: Dependencies, neg: Dependencies, posChildren: seq<set<nat>>, negChildren: seq<set<nat>>, layer: seq<nat>)
    requires Clustered(n, rules, g, blocks, cluster, pos, neg, posChildren, negChildren) && |layer| == |blocks|
    requires forall b | 0 <= b < |layer| :: Respects(layer, posChildren, negChildren, b)
    ensures ValidLayering(n, rules, PerVariable(layer, cluster))
  {
    forall h: nat, u: nat | h < n && DependsOn(rules, n, h, u, false)
      ensures layer[cluster[u]] <= layer[cluster[h]]
    {
      if cluster[h] != cluster[u] {
        LinkExists(n, rules, cluster, pos, false, posChildren, h, u);
        assert Respects(layer, posChildren, negChildren, cluster[h]);
      }
    }
    forall h: nat, u: nat | h < n && DependsOn(rules, n, h, u, true)
      ensures layer[cluster[u]] < layer[cluster[h]]
    {
      assert u in neg[h];
      LinkExists(n, rules, cluster, neg, true, negChildren, h, u);
      assert Respects(layer, posChildren, negChildren, cluster[h]);
    }
  }

  /** With the "min" strategy no valid layering has a smaller layer anywhere. */
  lemma {:induction false} LayersLeast(n: nat, rules: seq<Rule>, g: Graph, blocks: seq<seq<nat>>, cluster: seq<nat>,
                    pos: Dependencies, neg: Dependencies, posChildren: seq<set<nat>>, negChildren: seq<set<nat>>, layer: seq<nat>,
                    other: seq<nat>, v: nat)
    requires Clustered(n, rules, g, blocks, cluster, pos, neg, posChildren, negChildren) && |layer| == |blocks|
    requires ChildrenLater(posChildren) && ChildrenLater(negChildren)
    requires forall b | 0 <= b < |layer| :: Tight(layer, posChildren, negChildren, b)
    requires ValidLayering(n, rules, other) && v < n
    ensures layer[cluster[v]] <= other[v]
    decreases |layer| - cluster[v]
  {
    var b := cluster[v];
    assert Tight(layer, posChildren, negChildren, b);
    if layer[b] > 0 {
      var negated, c := ForcingChild(layer, posChildren, negChildren, b);
      var h, u := LinkWitness(n, rules, cluster, if negated then neg else pos, negated, if negated then negChildren else posChildren, b, c);
      LayersLeast(n, rules, g, blocks, cluster, pos, neg, posChildren, negChildren, layer, other, u);
      SameCluster(g, blocks, cluster, h, v);
      LayerAlongReach(n, rules, other, g, v, h);
    }
  }

  lemma ForcingChild(layer: seq<nat>, pos: seq<set<nat>>, neg: seq<set<nat>>, b: nat) returns (negated: bool, c: nat)
    requires b < |layer| == |pos| == |neg| && Tight(layer, pos, neg, b) && layer[b] > 0
    ensures c < |layer| && c in (if negated then neg[b] else pos[b]) && layer[b] == layer[c] + if negated then 1 else 0
  {
    if exists d | d in pos[b] && d < |layer| :: layer[d] == layer[b] {
      c :| c in pos[b] && c < |layer| && layer[c] == layer[b];
      negated := false;
    } else {
      c :| c in neg[b] && c < |layer| && layer[c] + 1 == layer[b];
      negated := true;
    }
  }

  lemma LinkWitness(n: nat, rules: seq<Rule>, cluster: seq<nat>, deps: Dependencies, negated: bool, children: seq<set<nat>>, b: nat, c: nat)
    returns (h: nat, u: nat)
    requires AreDependencies(n, rules, negated, deps) && |cluster| == n && Children(deps, cluster, n, children)
    requires b < |children| && c in children[b]
    ensures h < n && u < n && cluster[h] == b && cluster[u] == c && b != c && DependsOn(rules, n, h, u, negated)
  {
    assert Links(deps, cluster, n, b, c);
    h :| h < n && cluster[h] == b && ReadsCluster(deps[h], cluster, c);
    u :| u in deps[h] && u < n && cluster[u] == c;
  }

  // ---- the "max" strategy ----

  /** Each variable of the list has a rule that reads the next one. */
  ghost predicate Chain(n: nat, rules: seq<Rule>, p: seq<nat>) {
    |p| > 0 && forall i | 0 <= i < |p| - 1 :: Reads(n, rules, p[i], p[i + 1])
  }

  ghost predicate Reads(n: nat, rules: seq<Rule>, h: nat, u: nat) {
    h < n && (DependsOn(rules, n, h, u, false) || DependsOn(rules, n, h, u, true))
  }

  ghost predicate LeadsTo(n: nat, rules: seq<Rule>, u: nat, v: nat) {
    exists p | Chain(n, rules, p) :: p[0] == u && p[|p| - 1] == v
  }

  /** Variables share a layer exactly if each depends on the other, what is read is not above its reader, and no layer
      is left out. */
  ghost predicate OwnLayers(n: nat, rules: seq<Rule>, layers: seq<nat>) {
    && |layers| == n
    && (forall u: nat, v: nat {:trigger LeadsTo(n, rules, u, v)} | u < n && v < n ::
          && (layers[u] == layers[v] <==> LeadsTo(n, rules, u, v) && LeadsTo(n, rules, v, u))
          && (LeadsTo(n, rules, u, v) ==> layers[v] <= layers[u]))
    && (forall v: nat, l: nat | v < n && l < layers[v] :: l in layers)
  }

  lemma LeadsToIsReach(n: nat, rules: seq<Rule>, g: Graph, u: nat, v: nat)
    requires DependencyGraph(n, rules, g)
    ensures LeadsTo(n, rules, u, v) <==> Reach(g, u, v)
  {
    assert forall a: nat, b: nat :: Reads(n, rules, a, b) <==> Edge(g, a, b);
    assert forall p: seq<nat> :: Chain(n, rules, p) <==> Walk(g, p);
  }

  lemma LayersOwn(n: nat, rules: seq<Rule>, g: Graph, blocks: seq<seq<nat>>, cluster: seq<nat>, layer: seq<nat>)
    requires DependencyGraph(n, rules, g) && SccOrder(g, blocks) && ClusterOf(n, blocks, cluster) && |layer| == |blocks|
    requires forall b | 0 <= b < |layer| :: layer[b] == |layer| - 1 - b
    ensures OwnLayers(n, rules, PerVariable(layer, cluster))
  {
    var layers := PerVariable(layer, cluster);
    forall u: nat, v: nat | u < n && v < n
      ensures layers[u] == layers[v] <==> LeadsTo(n, rules, u, v) && LeadsTo(n, rules, v, u)
      ensures LeadsTo(n, rules, u, v) ==> layers[v] <= layers[u]
    {
      SameCluster(g, blocks, cluster, u, v);
      LeadsToIsReach(n, rules, g, u, v);
      LeadsToIsReach(n, rules, g, v, u);
    }
    forall v: nat, l: nat | v < n && l < layers[v]
      ensures l in layers
    {
      var b := |blocks| - 1 - l;
      var u := blocks[b][0];
      assert u in blocks[b] && u in blocks[cluster[u]];
      ReachSelf(g, u);
      assert layers[u] == l;
    }
  }

  /** compute_clusters and compute_axiom_layers: fails exactly when no layering exists. */
  method ComputeLayers(n: nat, rules: seq<Rule>, strategy: Strategy) returns (r: Option<seq<nat>>)
    requires ValidRules(n, rules)
    ensures r.None? ==> forall layers :: !ValidLayering(n, rules, layers)
    ensures r.Some? ==> ValidLayering(n, rules, r.value)
    ensures r.Some? && strategy.MIN? ==>
              forall other, v | ValidLayering(n, rules, other) && 0 <= v < n :: r.value[v] <= other[v]
    ensures r.Some? && strategy.MAX? ==> OwnLayers(n, rules, r.value)
  {
    var pos := CollectDependencies(n, rules, false);
    var neg := CollectDependencies(n, rules, true);
    var g := BuildGraph(n, rules, pos, neg);
    var computation := new StronglyConnectedComponents(g);
    var blocks := computation.GetResult();
    var cluster := AssignClusters(g, blocks);
    assert forall h, u | 0 <= h < n && u in neg[h] :: DependsOn(rules, n, h, u, true);
    assert forall h, u | 0 <= h < n && u in pos[h] :: DependsOn(rules, n, h, u, false);
    var ok, posChildren, _, _ := LinkClusters(pos, cluster, |blocks|, false);
    var negChildren;
    ghost var h0, u0;
    ok, negChildren, h0, u0 := LinkClusters(neg, cluster, |blocks|, true);
    if !ok {
      SameCluster(g, blocks, cluster, h0, u0);
      NotStratifiable(n, rules, g, h0, u0);
      return None;
    }
    LinkLater(n, rules, g, blocks, cluster, pos, false, posChildren);
    LinkLater(n, rules, g, blocks, cluster, neg, true, negChildren);
    var layer := ClusterLayers(posChildren, negChildren, strategy);
    LayersValid(n, rules, g, blocks, cluster, pos, neg, posChildren, negChildren, layer);
    forall other, v: nat | strategy.MIN? && ValidLayering(n, rules, other) && v < n
      ensures layer[cluster[v]] <= other[v]
    {
      LayersLeast(n, rules, g, blocks, cluster, pos, neg, posChildren, negChildren, layer, other, v);
    }
    if strategy.MAX? {
      LayersOwn(n, rules, g, blocks, cluster, layer);
    }
    return Some(PerVariable(layer, cluster));
  }

  // ---- the layers meet what the evaluation of axioms relies on ----

  /** The literals of the conditions on derived variables; the default value is the negated one. */
  function BodyOf(t: Axioms.AxiomTask, cond: seq<Fact>): (r: seq<Literal>) {
    if cond == [] then []
    else
      var f := cond[0];
      (if Axioms.Derived(t, f.v) && f.v < |t.defaults| then [Literal(f.v, f.x == t.defaults[f.v])] else []) + BodyOf(t, cond[1..])
  }

  function RulesFor(t: Axioms.AxiomTask): (r: seq<Rule>)
    ensures |r| == |t.axioms|
  {
    seq(|t.axioms|, i requires 0 <= i < |t.axioms| =>
      var a := t.axioms[i]; Rule(a.head.v, if Axioms.IsRule(t, a) then BodyOf(t, a.cond) else []))
  }

  function WithLayers(t: Axioms.AxiomTask, layers: seq<nat>): Axioms.AxiomTask
    requires |layers| == |t.layers|
  {
    t.(layers := seq(|layers|, v requires 0 <= v < |layers| => if t.layers[v].Some? then Some(layers[v]) else None))
  }

  lemma {:induction false} BodyHas(t: Axioms.AxiomTask, cond: seq<Fact>, f: Fact)
    requires f in cond && Axioms.Derived(t, f.v) && f.v < |t.defaults|
    ensures Literal(f.v, f.x == t.defaults[f.v]) in BodyOf(t, cond)
  {
    if cond[0] != f {
      BodyHas(t, cond[1..], f);
    }
  }

  /** Every rule of the evaluator is stratified by a valid layering. */
  lemma LayeringStratifies(t: Axioms.AxiomTask, layers: seq<nat>, a: Axioms.Axiom)
    requires |t.layers| == |t.defaults| == |t.ranges| && ValidLayering(|t.ranges|, RulesFor(t), layers)
    requires a in t.axioms && Axioms.IsRule(t, a) && Axioms.Derived(t, a.head.v)
    ensures Axioms.Stratified(WithLayers(t, layers), a)
  {
    var rules, n := RulesFor(t), |t.ranges|;
    var i :| 0 <= i < |t.axioms| && t.axioms[i] == a;
    var rule := Rule(a.head.v, BodyOf(t, a.cond));
    assert rules[i] == rule && rule in rules;
    forall f | f in a.cond && Axioms.Derived(t, f.v) && f.v < |t.defaults|
      ensures DependsOn(rules, n, a.head.v, f.v, f.x == t.defaults[f.v])
    {
      BodyHas(t, a.cond, f);
    }
  }
}
