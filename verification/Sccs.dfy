/** Tarjan's algorithm with an explicit stack of frames instead of recursion (sccs.py). */
module Sccs {
  import opened Graphs

  /** The fields of the computation as a value; `block` numbers the component of every node already
      output. */
  datatype Search = Search(indices: map<nat, nat>, low: map<nat, nat>, at: map<nat, nat>, count: nat,
                           stack: seq<nat>, sccs: seq<seq<nat>>, block: map<nat, nat>)

  /** A node whose part of the stack is still growing, and how many of its successors were handled. */
  datatype Head = Head(v: nat, done: nat)

  ghost predicate Positions(at: map<nat, nat>, stack: seq<nat>) {
    && (forall v | v in at :: at[v] < |stack| && stack[at[v]] == v)
    && (forall i | 0 <= i < |stack| :: stack[i] in at && at[stack[i]] == i)
  }

  ghost predicate Numbered(g: Graph, s: Search) {
    && s.low.Keys == s.indices.Keys && s.at.Keys <= s.indices.Keys
    && (forall v | v in s.indices :: v < |g| && s.indices[v] <= s.count)
    && (forall u, v {:trigger s.at[u], s.at[v]} | u in s.at && v in s.at && s.at[u] < s.at[v] :: s.indices[u] < s.indices[v])
  }

  /** `block` gives every node of the finished components its component. */
  ghost predicate Blocks(sccs: seq<seq<nat>>, block: map<nat, nat>) {
    && (forall v | v in block :: block[v] < |sccs|)
    && (forall a, v | 0 <= a < |sccs| :: v in sccs[a] <==> v in block && block[v] == a)
    && (forall a | 0 <= a < |sccs| :: sccs[a] != [] && Distinct(sccs[a]))
  }

  /** The finished components are strongly connected, and no edge leads from one to a later one or
      to an unfinished node. */
  ghost predicate Finished(g: Graph, sccs: seq<seq<nat>>, block: map<nat, nat>) {
    && Blocks(sccs, block)
    && (forall u, v {:trigger Reach(g, u, v)} | u in block && v in block && block[u] == block[v] :: Reach(g, u, v))
    && (forall u, v | u in block && Edge(g, u, v) :: v in block && block[v] <= block[u])
  }

  /** An edge leads from the head before head `i` to it. */
  ghost predicate Follows(g: Graph, heads: seq<Head>, i: nat)
    requires 0 < i < |heads|
  {
    Edge(g, heads[i - 1].v, heads[i].v)
  }

  ghost predicate ValidHeads(g: Graph, at: map<nat, nat>, heads: seq<Head>) {
    && (forall i | 0 <= i < |heads| :: heads[i].v in at && heads[i].v < |g| && heads[i].done <= |g[heads[i].v]|)
    && (forall i, j | 0 <= i < j < |heads| :: at[heads[i].v] < at[heads[j].v])
    && (forall i | 0 < i < |heads| :: Follows(g, heads, i))
    && (forall x | x in at :: heads != [] && at[heads[0].v] <= at[x])
  }

  /** `x` is on the stack between head `i` and the next head. */
  ghost predicate InSegment(at: map<nat, nat>, heads: seq<Head>, i: nat, x: nat) {
    && i < |heads| && x in at && heads[i].v in at && at[heads[i].v] <= at[x]
    && (i + 1 < |heads| ==> heads[i + 1].v in at && at[x] < at[heads[i + 1].v])
  }

  /** Every segment is strongly connected. */
  ghost predicate Strong(g: Graph, at: map<nat, nat>, heads: seq<Head>) {
    forall i: nat, x: nat | InSegment(at, heads, i, x) :: Mutual(g, heads[i].v, x)
  }

  /** The edge from `x` to its `c`-th successor was handled. */
  ghost predicate Seen(g: Graph, heads: seq<Head>, x: nat, c: nat) {
    x < |g| && c < |g[x]| && forall i | 0 <= i < |heads| && heads[i].v == x :: c < heads[i].done
  }

  /** The node reaches a stack node with that index. */
  ghost predicate LowReached(g: Graph, indices: map<nat, nat>, at: map<nat, nat>, h: nat, low: nat) {
    exists y | y in at && y in indices :: indices[y] == low && Reach(g, h, y)
  }

  /** Every handled edge out of the segment of head `i` leads to a finished node or not below `low`. */
  ghost predicate Covered(g: Graph, indices: map<nat, nat>, at: map<nat, nat>, heads: seq<Head>, i: nat, low: nat) {
    forall x: nat, c: nat | InSegment(at, heads, i, x) && Seen(g, heads, x, c) ::
      g[x][c] in indices && (g[x][c] in at ==> low <= indices[g[x][c]])
  }

  /** The low link of head `i` is right for the edges handled so far. */
  ghost predicate GoodLow(g: Graph, s: Search, heads: seq<Head>, i: nat) {
    i < |heads| && var h := heads[i].v;
    && h in s.low && h in s.indices && s.low[h] <= s.indices[h]
    && LowReached(g, s.indices, s.at, h, s.low[h]) && Covered(g, s.indices, s.at, heads, i, s.low[h])
  }

  ghost predicate Inv(g: Graph, s: Search, heads: seq<Head>) {
    && ValidGraph(g) && Positions(s.at, s.stack) && Numbered(g, s)
    && s.block.Keys == s.indices.Keys - s.at.Keys && Finished(g, s.sccs, s.block)
    && ValidHeads(g, s.at, heads) && Strong(g, s.at, heads)
    && forall i | 0 <= i < |heads| :: GoodLow(g, s, heads, i)
  }

  /** The segment a stack node belongs to. */
  lemma {:induction false} SegmentOf(g: Graph, at: map<nat, nat>, heads: seq<Head>, x: nat, n: nat) returns (i: nat)
    requires ValidHeads(g, at, heads) && x in at
    requires 0 < n <= |heads| && (n < |heads| ==> at[x] < at[heads[n].v])
    ensures i < n && InSegment(at, heads, i, x)
  {
    i := n - 1;
    if at[x] < at[heads[i].v] {
      i := SegmentOf(g, at, heads, x, n - 1);
    }
  }

  /** Heads reach the heads above them. */
  lemma {:induction false} HeadsReachUp(g: Graph, at: map<nat, nat>, heads: seq<Head>, i: nat, j: nat)
    requires ValidHeads(g, at, heads) && i <= j < |heads|
    ensures Reach(g, heads[i].v, heads[j].v)
    decreases j
  {
    if i == j {
      ReachSelf(g, heads[i].v);
    } else {
      HeadsReachUp(g, at, heads, i, j - 1);
      assert Follows(g, heads, j);
      ReachEdge(g, heads[j - 1].v, heads[j].v);
      ReachTransitive(g, heads[i].v, heads[j - 1].v, heads[j].v);
    }
  }

  lemma StillFollows(g: Graph, heads: seq<Head>, heads': seq<Head>)
    requires |heads'| <= |heads| && forall i | 0 <= i < |heads'| :: heads'[i].v == heads[i].v
    requires forall i | 0 < i < |heads| :: Follows(g, heads, i)
    ensures forall i | 0 < i < |heads'| :: Follows(g, heads', i)
  {
    forall i | 0 < i < |heads'|
      ensures Follows(g, heads', i)
    {
      assert Follows(g, heads, i);
    }
  }

  // ---- a node is discovered ----

  ghost predicate CanBegin(g: Graph, indices: map<nat, nat>, heads: seq<Head>, v: nat) {
    v < |g| && v !in indices && (heads != [] ==> Edge(g, heads[|heads| - 1].v, v))
  }

  lemma HeadPushed(g: Graph, at: map<nat, nat>, heads: seq<Head>, v: nat, n: nat)
    requires ValidHeads(g, at, heads) && v < |g| && v !in at && (heads != [] ==> Edge(g, heads[|heads| - 1].v, v))
    requires forall x | x in at :: at[x] < n
    ensures ValidHeads(g, at[v := n], heads + [Head(v, 0)])
    ensures forall i: nat, x: nat | InSegment(at[v := n], heads + [Head(v, 0)], i, x) ::
              if i == |heads| then x == v else InSegment(at, heads, i, x)
  {
    var heads' := heads + [Head(v, 0)];
    forall i | 0 < i < |heads'|
      ensures Follows(g, heads', i)
    {
      assert i < |heads| ==> Follows(g, heads, i);
      assert heads'[i - 1] == heads[i - 1];
    }
    forall i: nat, x: nat | InSegment(at[v := n], heads', i, x)
      ensures if i == |heads| then x == v else InSegment(at, heads, i, x)
    {
      assert i + 1 < |heads'| ==> heads'[i + 1] == if i + 1 == |heads| then Head(v, 0) else heads[i + 1];
    }
  }

  lemma LowPushed(g: Graph, indices: map<nat, nat>, at: map<nat, nat>, heads: seq<Head>, i: nat, low: nat, v: nat, n: nat, c: nat)
    requires ValidHeads(g, at, heads) && v < |g| && v !in indices && at.Keys <= indices.Keys
    requires forall x | x in at :: at[x] < n
    requires i < |heads| && LowReached(g, indices, at, heads[i].v, low) && Covered(g, indices, at, heads, i, low)
    ensures LowReached(g, indices[v := c], at[v := n], heads[i].v, low)
    ensures Covered(g, indices[v := c], at[v := n], heads + [Head(v, 0)], i, low)
  {
    var heads' := heads + [Head(v, 0)];
    var y :| y in at && y in indices && indices[y] == low && Reach(g, heads[i].v, y);
    assert y in at[v := n] && y in indices[v := c];
    forall x: nat, d: nat | InSegment(at[v := n], heads', i, x) && Seen(g, heads', x, d)
      ensures InSegment(at, heads, i, x) && Seen(g, heads, x, d)
    {
      assert forall j | 0 <= j < |heads| :: heads'[j] == heads[j];
      assert heads'[|heads|] == Head(v, 0);
    }
  }

  function Begun(s: Search, v: nat): Search {
    s.(count := s.count + 1, indices := s.indices[v := s.count + 1], low := s.low[v := s.count + 1],
       at := s.at[v := |s.stack|], stack := s.stack + [v])
  }

  lemma NumberPushed(g: Graph, s: Search, v: nat)
    requires Positions(s.at, s.stack) && Numbered(g, s) && v < |g| && v !in s.indices
    ensures Positions(Begun(s, v).at, Begun(s, v).stack) && Numbered(g, Begun(s, v))
  {
  }

  lemma LowsPushed(g: Graph, s: Search, heads: seq<Head>, v: nat)
    requires ValidHeads(g, s.at, heads) && v < |g| && v !in s.indices && s.at.Keys <= s.indices.Keys
    requires forall x | x in s.at :: s.at[x] < |s.stack|
    requires forall i | 0 <= i < |heads| :: GoodLow(g, s, heads, i)
    ensures forall i | 0 <= i <= |heads| :: GoodLow(g, Begun(s, v), heads + [Head(v, 0)], i)
  {
    var s', heads', n := Begun(s, v), heads + [Head(v, 0)], |heads|;
    forall i | 0 <= i < n
      ensures GoodLow(g, s', heads', i)
    {
      assert GoodLow(g, s, heads, i) && heads'[i] == heads[i];
      LowPushed(g, s.indices, s.at, heads, i, s.low[heads[i].v], v, |s.stack|, s.count + 1);
    }
    assert GoodLow(g, s', heads', n) by {
      ReachSelf(g, v);
      assert heads'[n] == Head(v, 0);
      assert v in s'.at && v in s'.indices && s'.indices[v] == s'.low[v];
      forall x: nat, c: nat | InSegment(s'.at, heads', n, x)
        ensures !Seen(g, heads', x, c)
      {
        assert x == v;
      }
    }
  }

  lemma BeginKeeps(g: Graph, s: Search, heads: seq<Head>, v: nat)
    requires Inv(g, s, heads) && CanBegin(g, s.indices, heads, v)
    ensures Inv(g, Begun(s, v), heads + [Head(v, 0)])
  {
    NumberPushed(g, s, v);
    HeadPushed(g, s.at, heads, v, |s.stack|);
    StrongPushed(g, s.at, heads, v, |s.stack|);
    LowsPushed(g, s, heads, v);
  }

  lemma StrongPushed(g: Graph, at: map<nat, nat>, heads: seq<Head>, v: nat, n: nat)
    requires Strong(g, at, heads) && ValidHeads(g, at, heads) && v < |g| && v !in at
    requires heads != [] ==> Edge(g, heads[|heads| - 1].v, v)
    requires forall x | x in at :: at[x] < n
    ensures Strong(g, at[v := n], heads + [Head(v, 0)])
  {
    HeadPushed(g, at, heads, v, n);
    ReachSelf(g, v);
  }

  // ---- an edge to a visited node is handled ----

  function Min(a: nat, b: nat): nat {
    if a <= b then a else b
  }

  function Bumped(heads: seq<Head>): seq<Head>
    requires heads != []
  {
    heads[|heads| - 1 := heads[|heads| - 1].(done := heads[|heads| - 1].done + 1)]
  }

  ghost predicate CanAdvance(g: Graph, heads: seq<Head>, v: nat, w: nat) {
    heads != [] && var h := heads[|heads| - 1];
    h.v == v && v < |g| && h.done < |g[v]| && g[v][h.done] == w
  }

  lemma HeadBumped(g: Graph, at: map<nat, nat>, heads: seq<Head>, v: nat, w: nat)
    requires ValidHeads(g, at, heads) && CanAdvance(g, heads, v, w)
    ensures ValidHeads(g, at, Bumped(heads))
    ensures forall i: nat, x: nat :: InSegment(at, Bumped(heads), i, x) <==> InSegment(at, heads, i, x)
    ensures forall x: nat, d: nat | Seen(g, Bumped(heads), x, d) :: Seen(g, heads, x, d) || (x == v && g[x][d] == w)
  {
    StillFollows(g, heads, Bumped(heads));
    forall x: nat, d: nat | Seen(g, Bumped(heads), x, d)
      ensures Seen(g, heads, x, d) || (x == v && g[x][d] == w)
    {
      assert forall i | 0 <= i < |heads| :: Bumped(heads)[i].v == heads[i].v;
      assert forall i | 0 <= i < |heads| - 1 :: Bumped(heads)[i] == heads[i];
      assert Bumped(heads)[|heads| - 1].done == heads[|heads| - 1].done + 1;
    }
  }

  function Lowered(s: Search, v: nat, low: nat): Search
    requires v in s.low
  {
    s.(low := s.low[v := Min(s.low[v], low)])
  }

  function Advanced(s: Search, v: nat, w: nat): Search
    requires v in s.low && w in s.indices
  {
    if w in s.at then Lowered(s, v, s.indices[w]) else s
  }

  lemma LowsBumped(g: Graph, s: Search, heads: seq<Head>, v: nat, w: nat, i: nat)
    requires ValidHeads(g, s.at, heads) && CanAdvance(g, heads, v, w) && w in s.indices && GoodLow(g, s, heads, i) && v in s.low
    ensures GoodLow(g, Advanced(s, v, w), Bumped(heads), i)
  {
    HeadBumped(g, s.at, heads, v, w);
    var s' := Advanced(s, v, w);
    assert Bumped(heads)[i].v == heads[i].v;
    if i == |heads| - 1 {
      ReachEdge(g, v, w);
      var y :| y in s.at && y in s.indices && s.indices[y] == s.low[v] && Reach(g, v, y);
      assert LowReached(g, s.indices, s.at, v, s'.low[v]);
    } else {
      assert heads[i].v != v;
      forall x: nat, d: nat | InSegment(s.at, heads, i, x) && Seen(g, Bumped(heads), x, d)
        ensures Seen(g, heads, x, d)
      {
        assert x != v;
      }
    }
  }

  lemma AdvanceKeeps(g: Graph, s: Search, heads: seq<Head>, v: nat, w: nat)
    requires Inv(g, s, heads) && CanAdvance(g, heads, v, w) && w in s.indices
    ensures v in s.low && Inv(g, Advanced(s, v, w), Bumped(heads))
  {
    assert GoodLow(g, s, heads, |heads| - 1);
    HeadBumped(g, s.at, heads, v, w);
    LowsAdvanced(g, s, heads, v, w);
    NumberLowered(g, s, v, if w in s.at then s.indices[w] else s.low[v]);
  }

  lemma LowsAdvanced(g: Graph, s: Search, heads: seq<Head>, v: nat, w: nat)
    requires ValidHeads(g, s.at, heads) && CanAdvance(g, heads, v, w) && w in s.indices && v in s.low
    requires forall i | 0 <= i < |heads| :: GoodLow(g, s, heads, i)
    ensures forall i | 0 <= i < |heads| :: GoodLow(g, Advanced(s, v, w), Bumped(heads), i)
  {
    forall i | 0 <= i < |heads|
      ensures GoodLow(g, Advanced(s, v, w), Bumped(heads), i)
    {
      LowsBumped(g, s, heads, v, w, i);
    }
  }

  lemma NumberLowered(g: Graph, s: Search, v: nat, low: nat)
    requires Numbered(g, s) && v in s.low
    ensures Numbered(g, Lowered(s, v, low)) && (low == s.low[v] ==> Lowered(s, v, low) == s)
  {
    if low == s.low[v] {
      assert s.low[v := low] == s.low;
    }
  }

  // ---- a finished child that is not a root joins the segment of its parent ----

  ghost predicate CanMerge(g: Graph, s: Search, heads: seq<Head>, v: nat, w: nat) {
    |heads| >= 2 && CanAdvance(g, heads[..|heads| - 1], v, w)
    && heads[|heads| - 1].v == w && w < |g| && heads[|heads| - 1].done == |g[w]|
    && w in s.low && w in s.indices && s.low[w] < s.indices[w]
  }

  function Merged(heads: seq<Head>): seq<Head>
    requires |heads| >= 2
  {
    Bumped(heads[..|heads| - 1])
  }

  lemma HeadsMerged(g: Graph, at: map<nat, nat>, heads: seq<Head>, v: nat, w: nat)
    requires ValidHeads(g, at, heads) && |heads| >= 2 && CanAdvance(g, heads[..|heads| - 1], v, w)
    requires heads[|heads| - 1].v == w && w < |g| && heads[|heads| - 1].done == |g[w]|
    ensures ValidHeads(g, at, Merged(heads))
    ensures forall i: nat, x: nat | InSegment(at, Merged(heads), i, x) ::
              InSegment(at, heads, i, x) || (i == |heads| - 2 && InSegment(at, heads, i + 1, x))
    ensures forall x: nat, d: nat | Seen(g, Merged(heads), x, d) :: Seen(g, heads, x, d) || (x == v && g[x][d] == w)
  {
    var below := heads[..|heads| - 1];
    StillFollows(g, heads, below);
    assert ValidHeads(g, at, below);
    HeadBumped(g, at, below, v, w);
    forall x: nat, d: nat | Seen(g, below, x, d)
      ensures Seen(g, heads, x, d)
    {
      assert forall i | 0 <= i < |below| :: below[i] == heads[i];
    }
  }

  lemma NodeOfLow(g: Graph, s: Search, w: nat) returns (y: nat)
    requires Positions(s.at, s.stack) && Numbered(g, s) && w in s.low && w in s.indices && w in s.at && s.low[w] < s.indices[w]
    requires LowReached(g, s.indices, s.at, w, s.low[w])
    ensures y in s.at && s.at[y] < s.at[w] && Reach(g, w, y)
  {
    y :| y in s.at && y in s.indices && s.indices[y] == s.low[w] && Reach(g, w, y);
    assert y != w;
  }

  /** A node whose low link is below its index reaches the head below it. */
  lemma LowReachesParent(g: Graph, s: Search, heads: seq<Head>, w: nat)
    requires Inv(g, s, heads) && heads != [] && heads[|heads| - 1].v == w && w in s.low && w in s.indices && s.low[w] < s.indices[w]
    ensures |heads| >= 2 && Reach(g, w, heads[|heads| - 2].v)
  {
    var n := |heads| - 1;
    assert GoodLow(g, s, heads, n);
    var y := NodeOfLow(g, s, w);
    var j := SegmentOf(g, s.at, heads, y, n);
    HeadsReachUp(g, s.at, heads, j, n - 1);
    assert Mutual(g, heads[j].v, y);
    ReachTransitive(g, w, y, heads[j].v);
    ReachTransitive(g, w, heads[j].v, heads[n - 1].v);
  }

  lemma MergedStrong(g: Graph, s: Search, heads: seq<Head>, v: nat, w: nat)
    requires Inv(g, s, heads) && CanMerge(g, s, heads, v, w)
    ensures Strong(g, s.at, Merged(heads))
  {
    HeadsMerged(g, s.at, heads, v, w);
    LowReachesParent(g, s, heads, w);
    ReachEdge(g, v, w);
    forall i: nat, x: nat | InSegment(s.at, Merged(heads), i, x)
      ensures Mutual(g, Merged(heads)[i].v, x)
    {
      if InSegment(s.at, heads, i, x) {
        assert Mutual(g, heads[i].v, x);
      } else {
        assert Mutual(g, w, x);
        ReachTransitive(g, v, w, x);
        ReachTransitive(g, x, w, v);
      }
    }
  }

  lemma LowsMerged(g: Graph, s: Search, heads: seq<Head>, v: nat, w: nat, i: nat)
    requires ValidHeads(g, s.at, heads) && CanMerge(g, s, heads, v, w) && i < |heads| - 1
    requires GoodLow(g, s, heads, i) && GoodLow(g, s, heads, |heads| - 1) && v in s.low
    requires s.indices[heads[i].v] < s.indices[w]
    ensures GoodLow(g, Lowered(s, v, s.low[w]), Merged(heads), i)
  {
    HeadsMerged(g, s.at, heads, v, w);
    var s' := Lowered(s, v, s.low[w]);
    assert Merged(heads)[i].v == heads[i].v;
    if i == |heads| - 2 {
      ReachEdge(g, v, w);
      var y :| y in s.at && y in s.indices && s.indices[y] == s.low[v] && Reach(g, v, y);
      var z :| z in s.at && z in s.indices && s.indices[z] == s.low[w] && Reach(g, w, z);
      ReachTransitive(g, v, w, z);
      assert LowReached(g, s.indices, s.at, v, s'.low[v]);
      assert Covered(g, s.indices, s.at, heads, |heads| - 1, s.low[w]);
    } else {
      assert heads[i].v != v && InSegment(s.at, heads, i, heads[i].v);
      forall x: nat, d: nat | InSegment(s.at, Merged(heads), i, x) && Seen(g, Merged(heads), x, d)
        ensures InSegment(s.at, heads, i, x) && Seen(g, heads, x, d)
      {
        assert x != v;
      }
    }
  }

  lemma MergeKeeps(g: Graph, s: Search, heads: seq<Head>, v: nat, w: nat)
    requires Inv(g, s, heads) && CanMerge(g, s, heads, v, w)
    ensures v in s.low && Inv(g, Lowered(s, v, s.low[w]), Merged(heads))
  {
    var n := |heads| - 1;
    assert GoodLow(g, s, heads, n) && GoodLow(g, s, heads, n - 1);
    HeadsMerged(g, s.at, heads, v, w);
    MergedStrong(g, s, heads, v, w);
    forall i | 0 <= i < n
      ensures GoodLow(g, Lowered(s, v, s.low[w]), Merged(heads), i)
    {
      assert GoodLow(g, s, heads, i);
      LowsMerged(g, s, heads, v, w, i);
    }
  }

  // ---- a finished root and everything above it form a component ----

  ghost predicate IsRoot(g: Graph, s: Search, heads: seq<Head>, v: nat) {
    heads != [] && heads[|heads| - 1].v == v && v < |g| && heads[|heads| - 1].done == |g[v]|
    && v in s.low && v in s.indices && s.low[v] == s.indices[v]
  }

  function Popped(s: Search, p: nat): Search
    requires p <= |s.stack|
  {
    s.(stack := s.stack[..p], at := map x | x in s.at && s.at[x] < p :: s.at[x], sccs := s.sccs + [s.stack[p..]],
       block := map x | x in s.block.Keys + s.at.Keys && (x in s.at ==> s.at[x] >= p) ::
                  if x in s.at then |s.sccs| else s.block[x])
  }

  /** Handled edges out of the top segment stay in it or lead to finished nodes. */
  lemma RootClosed(g: Graph, s: Search, heads: seq<Head>, v: nat, x: nat, w: nat)
    requires Inv(g, s, heads) && IsRoot(g, s, heads, v) && InSegment(s.at, heads, |heads| - 1, x) && Edge(g, x, w)
    ensures w in s.indices && (w in s.at ==> InSegment(s.at, heads, |heads| - 1, w))
  {
    var n := |heads| - 1;
    assert GoodLow(g, s, heads, n);
    var c: nat :| c < |g[x]| && g[x][c] == w;
    assert forall i | 0 <= i < n :: s.at[heads[i].v] < s.at[heads[n].v];
    assert Seen(g, heads, x, c);
  }

  lemma BlockExtended(s: Search, p: nat)
    requires Positions(s.at, s.stack) && p < |s.stack| && s.block.Keys !! s.at.Keys
    requires Blocks(s.sccs, s.block)
    ensures Blocks(Popped(s, p).sccs, Popped(s, p).block)
  {
    var s' := Popped(s, p);
    var top := s.stack[p..];
    forall v
      ensures v in top <==> v in s.at && s.at[v] >= p
    {
      if v in s.at && s.at[v] >= p {
        assert top[s.at[v] - p] == v;
      }
    }
    assert Distinct(top);
  }

  lemma TopStrong(g: Graph, at: map<nat, nat>, heads: seq<Head>, x: nat, y: nat)
    requires Strong(g, at, heads) && heads != [] && InSegment(at, heads, |heads| - 1, x) && InSegment(at, heads, |heads| - 1, y)
    ensures Reach(g, x, y)
  {
    var v := heads[|heads| - 1].v;
    assert Mutual(g, v, x) && Mutual(g, v, y);
    ReachTransitive(g, x, v, y);
  }

  lemma BlocksReach(g: Graph, s: Search, heads: seq<Head>, v: nat)
    requires Inv(g, s, heads) && IsRoot(g, s, heads, v)
    ensures var block := Popped(s, s.at[v]).block;
            forall x, y | x in block && y in block && block[x] == block[y] :: Reach(g, x, y)
  {
    var block := Popped(s, s.at[v]).block;
    forall x, y | x in block && y in block && block[x] == block[y]
      ensures Reach(g, x, y)
    {
      if x in s.at {
        TopStrong(g, s.at, heads, x, y);
      }
    }
  }

  lemma FinishedExtended(g: Graph, s: Search, heads: seq<Head>, v: nat)
    requires Inv(g, s, heads) && IsRoot(g, s, heads, v)
    ensures v in s.at && Finished(g, Popped(s, s.at[v]).sccs, Popped(s, s.at[v]).block)
  {
    var s' := Popped(s, s.at[v]);
    BlockExtended(s, s.at[v]);
    BlocksReach(g, s, heads, v);
    forall x, y | x in s'.block && Edge(g, x, y)
      ensures y in s'.block && s'.block[y] <= s'.block[x]
    {
      if x in s.at {
        RootClosed(g, s, heads, v, x, y);
      }
    }
  }

  lemma LowsPopped(g: Graph, s: Search, heads: seq<Head>, v: nat, i: nat)
    requires Inv(g, s, heads) && IsRoot(g, s, heads, v) && i < |heads| - 1
    ensures v in s.at && GoodLow(g, Popped(s, s.at[v]), heads[..|heads| - 1], i)
  {
    assert GoodLow(g, s, heads, i);
    var h := heads[i].v;
    assert s.at[h] < s.at[v];
    LowKept(g, s, Popped(s, s.at[v]).at, h, v);
    CoveredPopped(g, s.indices, s.at, Popped(s, s.at[v]).at, heads, i, s.low[h]);
  }

  /** A node at or below a low link that does not exceed the index of `h` is not above `h`. */
  lemma LowKept(g: Graph, s: Search, at: map<nat, nat>, h: nat, v: nat)
    requires Numbered(g, s) && h in s.at && v in s.at && s.at[h] < s.at[v] && h in s.low && h in s.indices && s.low[h] <= s.indices[h]
    requires LowReached(g, s.indices, s.at, h, s.low[h])
    requires forall x | x in s.at && s.at[x] < s.at[v] :: x in at
    ensures LowReached(g, s.indices, at, h, s.low[h])
  {
    var y :| y in s.at && y in s.indices && s.indices[y] == s.low[h] && Reach(g, h, y);
    assert y in at;
  }

  /** Removing the segment of the last head. */
  lemma CoveredPopped(g: Graph, indices: map<nat, nat>, at: map<nat, nat>, at': map<nat, nat>, heads: seq<Head>, i: nat, low: nat)
    requires Covered(g, indices, at, heads, i, low) && i < |heads| - 1 && at'.Keys <= at.Keys
    requires ValidHeads(g, at, heads) && forall x :: x in at' <==> x in at && at[x] < at[heads[|heads| - 1].v]
    requires forall x | x in at' :: at'[x] == at[x]
    ensures Covered(g, indices, at', heads[..|heads| - 1], i, low)
  {
    var heads', v := heads[..|heads| - 1], heads[|heads| - 1].v;
    forall x: nat, d: nat | InSegment(at', heads', i, x) && Seen(g, heads', x, d)
      ensures InSegment(at, heads, i, x) && Seen(g, heads, x, d)
    {
      assert x != v;
      assert forall j | 0 <= j < |heads'| :: heads'[j] == heads[j];
    }
  }

  lemma PositionsPopped(g: Graph, s: Search, p: nat)
    requires Positions(s.at, s.stack) && Numbered(g, s) && p <= |s.stack|
    ensures Positions(Popped(s, p).at, Popped(s, p).stack) && Numbered(g, Popped(s, p))
  {
  }

  lemma HeadsPopped(g: Graph, s: Search, heads: seq<Head>, v: nat)
    requires ValidHeads(g, s.at, heads) && heads != [] && heads[|heads| - 1].v == v && s.at[v] <= |s.stack|
    ensures ValidHeads(g, Popped(s, s.at[v]).at, heads[..|heads| - 1])
    ensures forall i: nat, x: nat | InSegment(Popped(s, s.at[v]).at, heads[..|heads| - 1], i, x) :: InSegment(s.at, heads, i, x)
  {
    StillFollows(g, heads, heads[..|heads| - 1]);
  }

  lemma AllLowsPopped(g: Graph, s: Search, heads: seq<Head>, v: nat)
    requires Inv(g, s, heads) && IsRoot(g, s, heads, v)
    ensures var s', heads' := Popped(s, s.at[v]), heads[..|heads| - 1];
            forall i | 0 <= i < |heads'| :: GoodLow(g, s', heads', i)
  {
    var s', heads' := Popped(s, s.at[v]), heads[..|heads| - 1];
    forall i | 0 <= i < |heads'|
      ensures GoodLow(g, s', heads', i)
    {
      LowsPopped(g, s, heads, v, i);
    }
  }

  lemma StrongPopped(g: Graph, s: Search, heads: seq<Head>, v: nat)
    requires Strong(g, s.at, heads) && ValidHeads(g, s.at, heads) && heads != [] && heads[|heads| - 1].v == v && s.at[v] <= |s.stack|
    ensures Strong(g, Popped(s, s.at[v]).at, heads[..|heads| - 1])
  {
    HeadsPopped(g, s, heads, v);
    forall i: nat, x: nat | InSegment(Popped(s, s.at[v]).at, heads[..|heads| - 1], i, x)
      ensures Mutual(g, heads[i].v, x)
    {
      assert InSegment(s.at, heads, i, x);
    }
  }

  lemma PopKeeps(g: Graph, s: Search, heads: seq<Head>, v: nat)
    requires Inv(g, s, heads) && IsRoot(g, s, heads, v)
    ensures v in s.at && Inv(g, Popped(s, s.at[v]), heads[..|heads| - 1])
  {
    FinishedExtended(g, s, heads, v);
    AllLowsPopped(g, s, heads, v);
    StackPopped(g, s, heads, v);
  }

  lemma StackPopped(g: Graph, s: Search, heads: seq<Head>, v: nat)
    requires Positions(s.at, s.stack) && Numbered(g, s) && s.block.Keys == s.indices.Keys - s.at.Keys
    requires ValidHeads(g, s.at, heads) && Strong(g, s.at, heads) && heads != [] && heads[|heads| - 1].v == v
    ensures s.at[v] <= |s.stack| && var s', heads' := Popped(s, s.at[v]), heads[..|heads| - 1];
            && Positions(s'.at, s'.stack) && Numbered(g, s') && s'.block.Keys == s'.indices.Keys - s'.at.Keys
            && ValidHeads(g, s'.at, heads') && Strong(g, s'.at, heads')
  {
    PositionsPopped(g, s, s.at[v]);
    HeadsPopped(g, s, heads, v);
    StrongPopped(g, s, heads, v);
  }

  // ---- the frames ----

  /** What remains to do for a node: start it, go on with its `next`-th successor, or take over what
      the search below the successor `w` found. */
  datatype Frame = Begin(v: nat) | Continue(v: nat, next: nat) | Return(v: nat, w: nat, next: nat)

  ghost predicate WaitsFor(g: Graph, f: Frame, h: Head, w: nat) {
    f == Return(h.v, w, h.done) && h.v < |g| && h.done < |g[h.v]| && g[h.v][h.done] == w
  }

  /** The frames below the top wait for the node of the frame above them. */
  ghost predicate Waiting(g: Graph, frames: seq<Frame>, heads: seq<Head>) {
    |frames| <= |heads| + 1 && forall i | 0 <= i < |frames| - 1 :: WaitsFor(g, frames[i], heads[i], frames[i + 1].v)
  }

  ghost predicate TopMatches(g: Graph, s: Search, top: Frame, n: nat, heads: seq<Head>) {
    match top
    case Begin(v) => |heads| == n && CanBegin(g, s.indices, heads, v)
    case Continue(v, next) => |heads| == n + 1 && heads[n] == Head(v, next)
    case Return(v, w, next) =>
      && |heads| > n && heads[n] == Head(v, next) && CanAdvance(g, heads[..n + 1], v, w)
      && w in s.indices && w in s.low && v in s.low
      && if |heads| == n + 1 then w !in s.at && s.low[v] <= s.low[w] else |heads| == n + 2 && CanMerge(g, s, heads, v, w)
  }

  ghost predicate Matches(g: Graph, s: Search, frames: seq<Frame>, heads: seq<Head>) {
    if frames == [] then heads == []
    else Waiting(g, frames, heads) && TopMatches(g, s, frames[|frames| - 1], |frames| - 1, heads)
  }

  function Weight(g: Graph, f: Frame): nat {
    match f
    case Begin(_) => 1
    case Continue(v, next) => if v < |g| && next <= |g[v]| then 3 * (|g[v]| - next) + 1 else 0
    case Return(v, _, next) => if v < |g| && next < |g[v]| then 3 * (|g[v]| - next) - 1 else 0
  }

  function Work(g: Graph, frames: seq<Frame>): nat {
    if frames == [] then 0 else Work(g, frames[..|frames| - 1]) + Weight(g, frames[|frames| - 1])
  }

  lemma WorkPushed(g: Graph, frames: seq<Frame>, f: Frame)
    ensures Work(g, frames + [f]) == Work(g, frames) + Weight(g, f)
  {
    assert (frames + [f])[..|frames|] == frames;
  }

  /** Uncovering the frame below the top. */
  lemma WaitingBelow(g: Graph, frames: seq<Frame>, f: Frame, heads: seq<Head>, heads': seq<Head>)
    requires Waiting(g, frames + [f], heads) && |frames| <= |heads'| <= |heads| && heads' == heads[..|heads'|]
    ensures Waiting(g, frames, heads')
    ensures frames != [] ==> WaitsFor(g, frames[|frames| - 1], heads[|frames| - 1], f.v)
  {
    var all, n := frames + [f], |frames|;
    if n > 0 {
      assert WaitsFor(g, all[n - 1], heads[n - 1], all[n].v);
    }
    forall i | 0 <= i < n - 1
      ensures WaitsFor(g, frames[i], heads'[i], frames[i + 1].v)
    {
      assert WaitsFor(g, all[i], heads[i], all[i + 1].v);
    }
  }

  lemma RootAboveParent(g: Graph, s: Search, heads: seq<Head>, v: nat)
    requires Inv(g, s, heads) && IsRoot(g, s, heads, v) && |heads| >= 2
    ensures var u := heads[|heads| - 2].v;
            v in s.at && u in s.at && u in s.low && s.low[u] <= s.low[v]
  {
    assert GoodLow(g, s, heads, |heads| - 2);
    assert s.at[heads[|heads| - 2].v] < s.at[v];
  }

  /** After a component is output, the frame below takes over. */
  lemma RootReturns(g: Graph, s: Search, heads: seq<Head>, frames: seq<Frame>, v: nat)
    requires Inv(g, s, heads) && IsRoot(g, s, heads, v) && |heads| == |frames| + 1
    requires Waiting(g, frames + [Continue(v, |g[v]|)], heads)
    ensures v in s.at && Matches(g, Popped(s, s.at[v]), frames, heads[..|frames|])
  {
    var n := |frames|;
    WaitingBelow(g, frames, Continue(v, |g[v]|), heads, heads[..n]);
    if n > 0 {
      RootAboveParent(g, s, heads, v);
      assert heads[..n][..n] == heads[..n];
    }
  }

  /** A node that is not a root hands its segment to the frame below. */
  lemma ChildReturns(g: Graph, s: Search, heads: seq<Head>, frames: seq<Frame>, v: nat)
    requires Inv(g, s, heads) && |heads| == |frames| + 1 && v < |g| && heads[|frames|] == Head(v, |g[v]|)
    requires v in s.low && v in s.indices && s.low[v] != s.indices[v]
    requires Waiting(g, frames + [Continue(v, |g[v]|)], heads)
    ensures Matches(g, s, frames, heads)
  {
    var n := |frames|;
    assert GoodLow(g, s, heads, n);
    LowReachesParent(g, s, heads, v);
    WaitingBelow(g, frames, Continue(v, |g[v]|), heads, heads);
    assert GoodLow(g, s, heads, n - 1);
  }

  /** The top frame is replaced by one for the same node. */
  lemma WaitingReplaced(g: Graph, frames: seq<Frame>, f: Frame, f': Frame, heads: seq<Head>, heads': seq<Head>)
    requires Waiting(g, frames + [f], heads) && f'.v == f.v
    requires |frames| <= |heads'| && |frames| <= |heads| && heads'[..|frames|] == heads[..|frames|]
    ensures Waiting(g, frames + [f'], heads')
  {
    forall i | 0 <= i < |frames|
      ensures WaitsFor(g, (frames + [f'])[i], heads'[i], (frames + [f'])[i + 1].v)
    {
      assert WaitsFor(g, (frames + [f])[i], heads[i], (frames + [f])[i + 1].v);
      assert heads'[i] == heads'[..|frames|][i] && heads[i] == heads[..|frames|][i];
    }
  }

  lemma WaitingPushed(g: Graph, frames: seq<Frame>, f: Frame, v: nat, heads: seq<Head>)
    requires Waiting(g, frames + [f], heads) && |frames| < |heads| && WaitsFor(g, f, heads[|frames|], v)
    ensures Waiting(g, frames + [f, Begin(v)], heads)
  {
    forall i | 0 <= i < |frames| + 1
      ensures WaitsFor(g, (frames + [f, Begin(v)])[i], heads[i], (frames + [f, Begin(v)])[i + 1].v)
    {
      assert i < |frames| ==> WaitsFor(g, (frames + [f])[i], heads[i], (frames + [f])[i + 1].v);
    }
  }

  function Unvisited(g: Graph, indices: map<nat, nat>): set<nat> {
    set v: nat | v < |g| && v !in indices
  }

  ghost predicate Running(g: Graph, s: Search, frames: seq<Frame>, heads: seq<Head>) {
    Inv(g, s, heads) && Matches(g, s, frames, heads)
  }

  /** The step from `s` to `s'` brings the search closer to its end. */
  ghost predicate Closer(g: Graph, s: Search, frames: seq<Frame>, s': Search, frames': seq<Frame>) {
    || (s.indices.Keys < s'.indices.Keys && Unvisited(g, s'.indices) < Unvisited(g, s.indices))
    || (s'.indices == s.indices && Work(g, frames') < Work(g, frames))
  }

  lemma TopFrame(g: Graph, s: Search, below: seq<Frame>, f: Frame, heads: seq<Head>)
    requires Matches(g, s, below + [f], heads)
    ensures Waiting(g, below + [f], heads) && TopMatches(g, s, f, |below|, heads)
  {
  }

  lemma BeginStep(g: Graph, s: Search, below: seq<Frame>, v: nat, heads: seq<Head>)
    requires Running(g, s, below + [Begin(v)], heads)
    ensures Running(g, Begun(s, v), below + [Continue(v, 0)], heads + [Head(v, 0)])
    ensures Closer(g, s, below + [Begin(v)], Begun(s, v), below + [Continue(v, 0)])
  {
    TopFrame(g, s, below, Begin(v), heads);
    BeginKeeps(g, s, heads, v);
    WaitingReplaced(g, below, Begin(v), Continue(v, 0), heads, heads + [Head(v, 0)]);
    BegunCloser(g, s, v);
  }

  lemma BegunCloser(g: Graph, s: Search, v: nat)
    requires v < |g| && v !in s.indices
    ensures s.indices.Keys < Begun(s, v).indices.Keys
    ensures Unvisited(g, Begun(s, v).indices) < Unvisited(g, s.indices)
  {
    assert v in Unvisited(g, s.indices) && v !in Unvisited(g, Begun(s, v).indices);
    assert v in Begun(s, v).indices;
  }

  lemma DescendStep(g: Graph, s: Search, below: seq<Frame>, v: nat, next: nat, heads: seq<Head>)
    requires Running(g, s, below + [Continue(v, next)], heads)
    requires v < |g| && next < |g[v]| && g[v][next] !in s.indices
    ensures var w := g[v][next];
            Running(g, s, below + [Return(v, w, next), Begin(w)], heads)
            && Closer(g, s, below + [Continue(v, next)], s, below + [Return(v, w, next), Begin(w)])
  {
    var w := g[v][next];
    TopFrame(g, s, below, Continue(v, next), heads);
    WaitingReplaced(g, below, Continue(v, next), Return(v, w, next), heads, heads);
    WaitingPushed(g, below, Return(v, w, next), w, heads);
    assert below + [Return(v, w, next), Begin(w)] == below + [Return(v, w, next)] + [Begin(w)];
    WorkPushed(g, below, Continue(v, next));
    WorkPushed(g, below, Return(v, w, next));
    WorkPushed(g, below + [Return(v, w, next)], Begin(w));
  }

  lemma EdgeStep(g: Graph, s: Search, below: seq<Frame>, v: nat, next: nat, heads: seq<Head>)
    requires Running(g, s, below + [Continue(v, next)], heads)
    requires v < |g| && next < |g[v]| && g[v][next] in s.indices
    ensures v in s.low && heads != [] && var s' := Advanced(s, v, g[v][next]);
            Running(g, s', below + [Continue(v, next + 1)], Bumped(heads))
            && Closer(g, s, below + [Continue(v, next)], s', below + [Continue(v, next + 1)])
  {
    TopFrame(g, s, below, Continue(v, next), heads);
    AdvanceKeeps(g, s, heads, v, g[v][next]);
    WaitingReplaced(g, below, Continue(v, next), Continue(v, next + 1), heads, Bumped(heads));
    WorkShrinks(g, below, Continue(v, next), Continue(v, next + 1));
  }

  lemma WorkShrinks(g: Graph, below: seq<Frame>, f: Frame, f': Frame)
    requires Weight(g, f') < Weight(g, f)
    ensures Work(g, below + [f']) < Work(g, below + [f])
  {
    WorkPushed(g, below, f);
    WorkPushed(g, below, f');
  }

  lemma RootStep(g: Graph, s: Search, below: seq<Frame>, v: nat, heads: seq<Head>)
    requires v < |g| && Running(g, s, below + [Continue(v, |g[v]|)], heads)
    requires v in s.low && v in s.indices && s.low[v] == s.indices[v]
    ensures v in s.at && |heads| == |below| + 1 && s.at[v] <= |s.stack| && var s' := Popped(s, s.at[v]);
            Running(g, s', below, heads[..|below|]) && Closer(g, s, below + [Continue(v, |g[v]|)], s', below)
  {
    TopFrame(g, s, below, Continue(v, |g[v]|), heads);
    PopKeeps(g, s, heads, v);
    RootReturns(g, s, heads, below, v);
    WorkPushed(g, below, Continue(v, |g[v]|));
  }

  lemma ChildStep(g: Graph, s: Search, below: seq<Frame>, v: nat, heads: seq<Head>)
    requires v < |g| && Running(g, s, below + [Continue(v, |g[v]|)], heads)
    requires v in s.low && v in s.indices && s.low[v] != s.indices[v]
    ensures Running(g, s, below, heads) && Closer(g, s, below + [Continue(v, |g[v]|)], s, below)
  {
    TopFrame(g, s, below, Continue(v, |g[v]|), heads);
    ChildReturns(g, s, heads, below, v);
    WorkPushed(g, below, Continue(v, |g[v]|));
  }

  lemma ReturnStep(g: Graph, s: Search, below: seq<Frame>, v: nat, w: nat, next: nat, heads: seq<Head>)
    returns (heads': seq<Head>)
    requires Running(g, s, below + [Return(v, w, next)], heads)
    ensures v in s.low && w in s.low && var s' := Lowered(s, v, s.low[w]);
            Running(g, s', below + [Continue(v, next + 1)], heads')
            && Closer(g, s, below + [Return(v, w, next)], s', below + [Continue(v, next + 1)])
  {
    TopFrame(g, s, below, Return(v, w, next), heads);
    if |heads| == |below| + 1 {
      ReturnClosed(g, s, below, v, w, next, heads);
      heads' := Bumped(heads);
    } else {
      ReturnOpen(g, s, below, v, w, next, heads);
      heads' := Merged(heads);
    }
    WorkShrinks(g, below, Return(v, w, next), Continue(v, next + 1));
  }

  /** The successor's component is finished: its low link changes nothing. */
  lemma ReturnClosed(g: Graph, s: Search, below: seq<Frame>, v: nat, w: nat, next: nat, heads: seq<Head>)
    requires Inv(g, s, heads) && Waiting(g, below + [Return(v, w, next)], heads) && |heads| == |below| + 1
    requires TopMatches(g, s, Return(v, w, next), |below|, heads)
    ensures Lowered(s, v, s.low[w]) == s && Running(g, s, below + [Continue(v, next + 1)], Bumped(heads))
  {
    assert heads[..|below| + 1] == heads;
    AdvanceKeeps(g, s, heads, v, w);
    WaitingReplaced(g, below, Return(v, w, next), Continue(v, next + 1), heads, Bumped(heads));
  }

  /** The successor joins the segment of its parent. */
  lemma ReturnOpen(g: Graph, s: Search, below: seq<Frame>, v: nat, w: nat, next: nat, heads: seq<Head>)
    requires Inv(g, s, heads) && Waiting(g, below + [Return(v, w, next)], heads) && |heads| == |below| + 2
    requires TopMatches(g, s, Return(v, w, next), |below|, heads)
    ensures Running(g, Lowered(s, v, s.low[w]), below + [Continue(v, next + 1)], Merged(heads))
  {
    MergeKeeps(g, s, heads, v, w);
    WaitingReplaced(g, below, Return(v, w, next), Continue(v, next + 1), heads, Merged(heads));
  }

  /** What a CONTINUE frame knows about its node. */
  lemma ContinueReady(g: Graph, s: Search, below: seq<Frame>, v: nat, next: nat, heads: seq<Head>)
    requires Running(g, s, below + [Continue(v, next)], heads)
    ensures v < |g| && next <= |g[v]| && v in s.low && v in s.indices
  {
    TopFrame(g, s, below, Continue(v, next), heads);
    assert GoodLow(g, s, heads, |below|);
  }

  class StronglyConnectedComponents {
    const graph: Graph
    var indices: map<nat, nat>
    var lowlinks: map<nat, nat>
    var stackIndices: map<nat, nat>
    var currentIndex: nat
    var stack: seq<nat>
    var sccs: seq<seq<nat>>
    ghost var block: map<nat, nat>

    constructor (g: Graph)
      ensures graph == g
    {
      graph := g;
    }

    ghost function Now(): Search
      reads this
    {
      Search(indices, lowlinks, stackIndices, currentIndex, stack, sccs, block)
    }

    /** get_result */
    method GetResult() returns (blocks: seq<seq<nat>>)
      requires ValidGraph(graph)
      modifies this
      ensures SccOrder(graph, blocks)
    {
      indices, lowlinks, stackIndices, currentIndex, stack, sccs, block := map[], map[], map[], 0, [], [], map[];
      NothingVisited(graph, Now());
      VisitAll();
      AllFinished(graph, Now());
      blocks := Reversed(sccs);
    }

    method VisitAll()
      requires Inv(graph, Now(), [])
      modifies this
      ensures Inv(graph, Now(), []) && VisitedBelow(indices, |graph|)
    {
      for i := 0 to |graph|
        invariant Inv(graph, Now(), [])
        invariant VisitedBelow(indices, i)
      {
        if i !in indices {
          ghost var before := indices;
          Visit(i);
          VisitedNext(before, indices, i, i + 1);
        } else {
          VisitedNext(indices, indices, i, i + 1);
        }
      }
    }

    method Visit(vertex: nat)
      requires Inv(graph, Now(), []) && vertex < |graph| && vertex !in indices
      modifies this
      ensures Inv(graph, Now(), []) && vertex in indices && old(indices.Keys) <= indices.Keys
    {
      var iterStack := [Begin(vertex)];
      ghost var heads: seq<Head> := [];
      while iterStack != []
        invariant Visiting(vertex, iterStack, heads) && old(indices.Keys) <= indices.Keys
        decreases Unvisited(graph, indices), Work(graph, iterStack)
      {
        iterStack, heads := VisitNext(vertex, iterStack, heads);
      }
    }

    ghost predicate Visiting(vertex: nat, iterStack: seq<Frame>, heads: seq<Head>) reads this {
      Running(graph, Now(), iterStack, heads) && (vertex in indices || iterStack == [Begin(vertex)])
    }

    method VisitNext(ghost vertex: nat, iterStack: seq<Frame>, ghost heads: seq<Head>) returns (rest: seq<Frame>, ghost heads': seq<Head>)
      requires iterStack != [] && Visiting(vertex, iterStack, heads)
      modifies this
      ensures Visiting(vertex, rest, heads') && old(indices.Keys) <= indices.Keys
      ensures || Unvisited(graph, indices) < old(Unvisited(graph, indices))
              || (indices == old(indices) && Work(graph, rest) < Work(graph, iterStack))
    {
      rest, heads' := Step(iterStack, heads);
    }

    /** Pop a frame and act on it. */
    method Step(iterStack: seq<Frame>, ghost heads: seq<Head>) returns (rest: seq<Frame>, ghost heads': seq<Head>)
      requires iterStack != [] && Running(graph, Now(), iterStack, heads)
      modifies this
      ensures Running(graph, Now(), rest, heads') && Closer(graph, old(Now()), iterStack, Now(), rest)
      ensures iterStack[|iterStack| - 1].Begin? ==> iterStack[|iterStack| - 1].v in indices
    {
      var top, below := iterStack[|iterStack| - 1], iterStack[..|iterStack| - 1];
      assert iterStack == below + [top];
      match top
      case Begin(v) =>
        heads' := BeginNode(below, v, heads);
        rest := below + [Continue(v, 0)];
      case Continue(v, next) =>
        rest, heads' := ContinueNode(below, v, next, heads);
      case Return(v, w, next) =>
        heads' := TakeOver(below, v, w, next, heads);
        rest := below + [Continue(v, next + 1)];
    }

    method BeginNode(ghost below: seq<Frame>, v: nat, ghost heads: seq<Head>) returns (ghost heads': seq<Head>)
      requires Running(graph, Now(), below + [Begin(v)], heads)
      modifies this
      ensures Running(graph, Now(), below + [Continue(v, 0)], heads') && v in indices
      ensures Closer(graph, old(Now()), below + [Begin(v)], Now(), below + [Continue(v, 0)])
    {
      ghost var s := Now();
      BeginStep(graph, s, below, v, heads);
      heads' := heads + [Head(v, 0)];
      Discover(v);
    }

    method Discover(v: nat)
      modifies this
      ensures Now() == Begun(old(Now()), v)
    {
      currentIndex := currentIndex + 1;
      indices := indices[v := currentIndex];
      lowlinks := lowlinks[v := currentIndex];
      stackIndices := stackIndices[v := |stack|];
      stack := stack + [v];
    }

    method ContinueNode(below: seq<Frame>, v: nat, next: nat, ghost heads: seq<Head>)
      returns (rest: seq<Frame>, ghost heads': seq<Head>)
      requires Running(graph, Now(), below + [Continue(v, next)], heads)
      modifies this
      ensures Running(graph, Now(), rest, heads')
      ensures Closer(graph, old(Now()), below + [Continue(v, next)], Now(), rest)
    {
      ContinueReady(graph, Now(), below, v, next, heads);
      if next == |graph[v]| {
        rest := below;
        heads' := FinishNode(below, v, heads);
      } else {
        var w := graph[v][next];
        if w !in indices {
          DescendStep(graph, Now(), below, v, next, heads);
          rest, heads' := below + [Return(v, w, next), Begin(w)], heads;
        } else {
          heads' := HandleEdge(below, v, next, heads);
          rest := below + [Continue(v, next + 1)];
        }
      }
    }

    method HandleEdge(ghost below: seq<Frame>, v: nat, next: nat, ghost heads: seq<Head>) returns (ghost heads': seq<Head>)
      requires Running(graph, Now(), below + [Continue(v, next)], heads)
      requires v < |graph| && next < |graph[v]| && graph[v][next] in indices && v in lowlinks
      modifies this`lowlinks
      ensures Running(graph, Now(), below + [Continue(v, next + 1)], heads')
      ensures Closer(graph, old(Now()), below + [Continue(v, next)], Now(), below + [Continue(v, next + 1)])
    {
      ghost var s := Now();
      EdgeStep(graph, s, below, v, next, heads);
      heads' := Bumped(heads);
      var w := graph[v][next];
      if w in stackIndices {
        lowlinks := lowlinks[v := Min(lowlinks[v], indices[w])];
      }
      assert Now() == Advanced(s, v, w);
    }

    /** The RETURN state: the low link of the finished successor is taken over. */
    method TakeOver(ghost below: seq<Frame>, v: nat, w: nat, ghost next: nat, ghost heads: seq<Head>)
      returns (ghost heads': seq<Head>)
      requires Running(graph, Now(), below + [Return(v, w, next)], heads)
      modifies this`lowlinks
      ensures Running(graph, Now(), below + [Continue(v, next + 1)], heads')
      ensures Closer(graph, old(Now()), below + [Return(v, w, next)], Now(), below + [Continue(v, next + 1)])
    {
      ghost var s := Now();
      heads' := ReturnStep(graph, s, below, v, w, next, heads);
      lowlinks := lowlinks[v := Min(lowlinks[v], lowlinks[w])];
      assert Now() == Lowered(s, v, s.low[w]);
    }

    /** All successors are handled: a root outputs its component. */
    method FinishNode(ghost below: seq<Frame>, v: nat, ghost heads: seq<Head>) returns (ghost heads': seq<Head>)
      requires v < |graph| && Running(graph, Now(), below + [Continue(v, |graph[v]|)], heads)
      requires v in lowlinks && v in indices
      modifies this
      ensures Running(graph, Now(), below, heads')
      ensures Closer(graph, old(Now()), below + [Continue(v, |graph[v]|)], Now(), below)
    {
      if lowlinks[v] == indices[v] {
        RootStep(graph, Now(), below, v, heads);
        heads' := heads[..|below|];
        PopComponent(stackIndices[v]);
      } else {
        ChildStep(graph, Now(), below, v, heads);
        heads' := heads;
      }
    }

    method PopComponent(stackIndex: nat)
      requires Positions(stackIndices, stack) && stackIndex <= |stack|
      modifies this
      ensures Now() == Popped(old(Now()), stackIndex)
    {
      ghost var s := Now();
      var scc := stack[stackIndex..];
      stack := stack[..stackIndex];
      for i := 0 to |scc|
        invariant Now() == s.(stack := s.stack[..stackIndex], at := stackIndices)
        invariant forall x :: x in stackIndices <==> x in s.at && (s.at[x] < stackIndex || stackIndex + i <= s.at[x])
        invariant forall x | x in stackIndices :: stackIndices[x] == s.at[x]
      {
        assert scc[i] == s.stack[stackIndex + i];
        stackIndices := stackIndices - {scc[i]};
      }
      assert stackIndices == Popped(s, stackIndex).at;
      sccs := sccs + [scc];
      block := Popped(s, stackIndex).block;
      assert sccs == Popped(s, stackIndex).sccs && stack == Popped(s, stackIndex).stack;
      assert indices == s.indices && lowlinks == s.low && currentIndex == s.count;
    }
  }

  ghost predicate VisitedBelow(indices: map<nat, nat>, n: nat) {
    forall v: nat | v < n :: v in indices
  }

  lemma VisitedNext(before: map<nat, nat>, indices: map<nat, nat>, i: nat, c: nat)
    requires VisitedBelow(before, i) && before.Keys <= indices.Keys && i in indices && c == i + 1
    ensures VisitedBelow(indices, c)
  {
  }

  lemma NothingVisited(g: Graph, s: Search)
    requires ValidGraph(g) && s == Search(map[], map[], map[], 0, [], [], map[])
    ensures Inv(g, s, [])
  {
  }

  lemma AllFinished(g: Graph, s: Search)
    requires Inv(g, s, []) && VisitedBelow(s.indices, |g|)
    ensures SccOrder(g, Reversed(s.sccs))
  {
    assert s.at == map[];
    FinishedIsOrder(g, s.sccs, s.block);
  }

  function Reversed(blocks: seq<seq<nat>>): (r: seq<seq<nat>>)
    ensures |r| == |blocks| && forall i | 0 <= i < |r| :: r[i] == blocks[|blocks| - 1 - i]
  {
    seq(|blocks|, i requires 0 <= i < |blocks| => blocks[|blocks| - 1 - i])
  }

  lemma FinishedIsOrder(g: Graph, sccs: seq<seq<nat>>, block: map<nat, nat>)
    requires Finished(g, sccs, block) && forall v: nat :: v in block <==> v < |g|
    ensures SccOrder(g, Reversed(sccs))
  {
    var blocks, n := Reversed(sccs), |sccs|;
    forall i, v | 0 <= i < n && v in blocks[i]
      ensures v < |g|
    {
      BlockOf(sccs, block, i, v);
    }
    forall v: nat | v < |g|
      ensures InSomeBlock(blocks, v)
    {
      assert v in sccs[block[v]] && blocks[n - 1 - block[v]] == sccs[block[v]];
    }
    forall i, j, u, v | 0 <= i < n && 0 <= j < n && u in blocks[i] && v in blocks[j]
      ensures (i == j <==> Mutual(g, u, v)) && (Reach(g, u, v) ==> i <= j)
    {
      BlockOf(sccs, block, i, u);
      BlockOf(sccs, block, j, v);
      BlocksOrdered(g, sccs, block, u, v);
    }
  }

  lemma BlockOf(sccs: seq<seq<nat>>, block: map<nat, nat>, i: nat, v: nat)
    requires Blocks(sccs, block) && i < |sccs| && v in Reversed(sccs)[i]
    ensures v in block && block[v] == |sccs| - 1 - i
  {
    assert v in sccs[|sccs| - 1 - i];
  }

  lemma BlocksOrdered(g: Graph, sccs: seq<seq<nat>>, block: map<nat, nat>, u: nat, v: nat)
    requires Finished(g, sccs, block) && u in block && v in block
    ensures block[u] == block[v] <==> Mutual(g, u, v)
    ensures Reach(g, u, v) ==> block[v] <= block[u]
  {
    if Reach(g, u, v) {
      BlockAlongReach(g, block, u, v);
    }
    if Reach(g, v, u) {
      BlockAlongReach(g, block, v, u);
    }
  }

  lemma BlockAlongReach(g: Graph, block: map<nat, nat>, u: nat, v: nat)
    requires u in block && Reach(g, u, v)
    requires forall x, y | x in block && Edge(g, x, y) :: y in block && block[y] <= block[x]
    ensures v in block && block[v] <= block[u]
  {
    var p :| Walk(g, p) && p[0] == u && p[|p| - 1] == v;
    RankAlongWalk(g, block, p);
  }
}
